/**
 * One transaction on the SPI2 controller: the values `spi2_transaction`
 * writes into the controller's registers, the packing of transmitted bytes
 * into the 32-bit data buffer words W0, W1, … and the unpacking of
 * received bytes out of them.
 *
 * Registers are a map from address to 32-bit value, and register values and
 * data bytes are bit-vectors, as `uint32_t` and `uint8_t` are in the driver.
 * What the peripheral does between the start of the transfer and its
 * completion (the MISO bytes it leaves in the data buffer, the bits it
 * clears) is given as the registers it changes; the busy-wait loops on the
 * command register are assumed to end.
 */
module Spi2Nand {
  import opened Common

  const SPI2_BASE := 0x6002_4000
  const SPI_CMD_REG := SPI2_BASE + 0x000
  const SPI_ADDR_REG := SPI2_BASE + 0x004
  const SPI_USER_REG := SPI2_BASE + 0x010
  const SPI_USER1_REG := SPI2_BASE + 0x014
  const SPI_USER2_REG := SPI2_BASE + 0x018
  const SPI_MS_DLEN_REG := SPI2_BASE + 0x01C
  const SPI_W0_REG := SPI2_BASE + 0x098

  /** Bits of the command register. */
  const SPI_USR: bv32 := 1 << 24
  const SPI_UPDATE: bv32 := 1 << 23

  /** Bits of the USER register. */
  const SPI_USR_COMMAND: bv32 := 1 << 31
  const SPI_USR_ADDR: bv32 := 1 << 30
  const SPI_USR_DUMMY: bv32 := 1 << 29
  const SPI_USR_MISO: bv32 := 1 << 28
  const SPI_USR_MOSI: bv32 := 1 << 27
  const SPI_CS_SETUP: bv32 := 1 << 7
  const SPI_CS_HOLD: bv32 := 1 << 6

  /** The address of data buffer word `i`. */
  function W(i: nat): (a: int)
    ensures a >= SPI_W0_REG
  {
    SPI_W0_REG + 4 * i
  }

  /** Bytes needed for `bits` bits. */
  function Bytes(bits: nat): nat
  {
    (bits + 7) / 8
  }

  /** Words needed for `n` bytes. */
  function Words(n: nat): nat
  {
    (n + 3) / 4
  }

  // ---------------------------------------------------------------------------
  // Register values
  // ---------------------------------------------------------------------------

  /**
   * The USER register of a transaction: chip-select setup and hold and the
   * command phase always, and the address, MOSI and MISO phases exactly
   * when there are address, transmit and receive bits; nothing else.
   */
  function UserValue(addrBits: byte, txBits: uint16, rxBits: uint16): (u: bv32)
    ensures u & SPI_CS_SETUP != 0 && u & SPI_CS_HOLD != 0 && u & SPI_USR_COMMAND != 0
    ensures u & SPI_USR_ADDR != 0 <==> addrBits > 0
    ensures u & SPI_USR_MOSI != 0 <==> txBits > 0
    ensures u & SPI_USR_MISO != 0 <==> rxBits > 0
    ensures u & !(SPI_CS_SETUP | SPI_CS_HOLD | SPI_USR_COMMAND | SPI_USR_ADDR | SPI_USR_MOSI | SPI_USR_MISO) == 0
  {
    var base := SPI_CS_SETUP | SPI_CS_HOLD | SPI_USR_COMMAND;
    var withAddr := if addrBits > 0 then base | SPI_USR_ADDR else base;
    var withMosi := if txBits > 0 then withAddr | SPI_USR_MOSI else withAddr;
    if rxBits > 0 then withMosi | SPI_USR_MISO else withMosi
  }

  /** The USER2 register: the 8-bit command, and command length 8 - 1 in bits 28 and up. */
  function User2Value(cmd: bv8): (v: bv32)
    ensures (v & 0xFF) as bv8 == cmd && v >> 28 == 7 && v & 0x0FFF_FF00 == 0
  {
    (cmd as bv32) | (7 << 28)
  }

  /** The address fold: each byte shifted in from the right, so only the last four survive. */
  function FoldBE(bytes: seq<bv8>): bv32
  {
    if bytes == [] then 0
    else (FoldBE(bytes[..|bytes| - 1]) << 8) | (bytes[|bytes| - 1] as bv32)
  }

  /** Byte `j` of a word, counting from the least significant. */
  function ByteOf(word: bv32, j: nat): bv8
    requires j < 4
  {
    if j == 0 then (word & 0xFF) as bv8
    else if j == 1 then ((word >> 8) & 0xFF) as bv8
    else if j == 2 then ((word >> 16) & 0xFF) as bv8
    else ((word >> 24) & 0xFF) as bv8
  }

  /** `b` placed at byte `j` of a word. */
  function Shift(b: bv8, j: nat): bv32
    requires j < 4
  {
    if j == 0 then b as bv32
    else if j == 1 then (b as bv32) << 8
    else if j == 2 then (b as bv32) << 16
    else (b as bv32) << 24
  }

  /** The word with bytes `b3` (most significant) down to `b0`. */
  function Word(b3: bv8, b2: bv8, b1: bv8, b0: bv8): bv32
  {
    0 | Shift(b0, 0) | Shift(b1, 1) | Shift(b2, 2) | Shift(b3, 3)
  }

  /** Each byte of a word is read back from its place. */
  lemma WordBytes(b3: bv8, b2: bv8, b1: bv8, b0: bv8)
    ensures var w := Word(b3, b2, b1, b0);
      ByteOf(w, 0) == b0 && ByteOf(w, 1) == b1 && ByteOf(w, 2) == b2 && ByteOf(w, 3) == b3
  {
  }

  /** Folding in one more byte shifts the fold left by a byte. */
  lemma FoldBEStep(bytes: seq<bv8>, x: bv8)
    ensures FoldBE(bytes + [x]) == (FoldBE(bytes) << 8) | x as bv32
  {
    assert (bytes + [x])[..|bytes|] == bytes;
  }

  /** Shifting a word left by a byte drops its top byte and brings in a new low one. */
  lemma ShiftInByte(b3: bv8, b2: bv8, b1: bv8, b0: bv8, x: bv8)
    ensures (Word(b3, b2, b1, b0) << 8) | x as bv32 == Word(b2, b1, b0, x)
  {
  }

  /** Folding a byte into a word fold: the top byte drops out, the new byte comes in at the bottom. */
  lemma FoldBEAppend(bytes: seq<bv8>, b3: bv8, b2: bv8, b1: bv8, b0: bv8, x: bv8)
    requires FoldBE(bytes) == Word(b3, b2, b1, b0)
    ensures FoldBE(bytes + [x]) == Word(b2, b1, b0, x)
  {
    FoldBEStep(bytes, x);
    ShiftInByte(b3, b2, b1, b0, x);
  }

  /** Byte `j` from the end of `bytes`, zero when there are not that many. */
  function FromEnd(bytes: seq<bv8>, j: nat): bv8
  {
    if j < |bytes| then bytes[|bytes| - 1 - j] else 0
  }

  /** The fold of up to four bytes: the last one least significant, above them zero. */
  lemma {:induction false} FoldBEWord(bytes: seq<bv8>)
    requires |bytes| <= 4
    ensures FoldBE(bytes) == Word(FromEnd(bytes, 3), FromEnd(bytes, 2), FromEnd(bytes, 1), FromEnd(bytes, 0))
  {
    if bytes == [] {
      assert Word(0, 0, 0, 0) == 0;
    } else {
      var init, x := bytes[..|bytes| - 1], bytes[|bytes| - 1];
      FoldBEWord(init);
      assert init + [x] == bytes;
      FoldBEAppend(init, FromEnd(init, 3), FromEnd(init, 2), FromEnd(init, 1), FromEnd(init, 0), x);
      assert FromEnd(bytes, 1) == FromEnd(init, 0);
      assert FromEnd(bytes, 2) == FromEnd(init, 1);
      assert FromEnd(bytes, 3) == FromEnd(init, 2);
    }
  }

  /**
   * The address register for up to four address bytes: byte `j` of the
   * register, from the least significant, is the `j`-th address byte from
   * the end, and zero past the first byte.
   */
  lemma FoldBEBytes(bytes: seq<bv8>)
    requires |bytes| <= 4
    ensures forall j :: 0 <= j < 4 ==> ByteOf(FoldBE(bytes), j) == FromEnd(bytes, j)
  {
    FoldBEWord(bytes);
    WordBytes(FromEnd(bytes, 3), FromEnd(bytes, 2), FromEnd(bytes, 1), FromEnd(bytes, 0));
    forall j | 0 <= j < 4
      ensures ByteOf(FoldBE(bytes), j) == FromEnd(bytes, j)
    {
      if j == 0 {
      } else if j == 1 {
      } else if j == 2 {
      } else {
      }
    }
  }

  /** Proof step: the last four of `bytes` are the last three of all but its last byte, then its last byte. */
  lemma LastFourShift(bytes: seq<bv8>)
    requires |bytes| > 4
    ensures var n := |bytes|; var last4 := bytes[..n - 1][n - 5..]; var tail := bytes[n - 4..];
      && FromEnd(tail, 0) == bytes[n - 1]
      && FromEnd(tail, 1) == FromEnd(last4, 0)
      && FromEnd(tail, 2) == FromEnd(last4, 1)
      && FromEnd(tail, 3) == FromEnd(last4, 2)
  {
  }

  /** A longer address keeps only its last four bytes: the earlier ones are shifted out. */
  lemma {:induction false} FoldBEKeepsLastFour(bytes: seq<bv8>)
    requires |bytes| > 4
    ensures FoldBE(bytes) == FoldBE(bytes[|bytes| - 4..])
    decreases |bytes|
  {
    var n := |bytes|;
    var init, x := bytes[..n - 1], bytes[n - 1];
    var last4 := init[n - 5..];
    if n > 5 {
      FoldBEKeepsLastFour(init);
    } else {
      assert last4 == init;
    }
    FoldBEWord(last4);
    assert init + [x] == bytes;
    FoldBEAppend(init, FromEnd(last4, 3), FromEnd(last4, 2), FromEnd(last4, 1), FromEnd(last4, 0), x);
    FoldBEWord(bytes[n - 4..]);
    LastFourShift(bytes);
  }

  /**
   * USER1 with its 5-bit address-length field set for `addrBits` bits;
   * the other fields are kept.
   */
  function AddrBitLen(user1: bv32, addrBits: byte): (v: bv32)
    requires 0 < addrBits <= 32
    ensures v & 0x1F == (addrBits - 1) as bv32
    ensures v & !0x1F == user1 & !0x1F
  {
    (user1 & !0x1F) | ((addrBits - 1) as bv32)
  }

  /** Byte `k` of `data`, zero past its end. */
  function DataByte(data: seq<bv8>, k: nat): bv8
  {
    if k < |data| then data[k] else 0
  }

  /** The low `j` bytes of data buffer word `i` for `data`: its bytes 4i .. 4i+j-1, least significant first. */
  function WordPrefix(data: seq<bv8>, i: nat, j: nat): bv32
    requires j <= 4
  {
    if j == 0 then 0
    else WordPrefix(data, i, j - 1) | Shift(DataByte(data, 4 * i + j - 1), j - 1)
  }

  /** The data buffer words holding `data`. */
  function Pack(data: seq<bv8>): (words: seq<bv32>)
    ensures |words| == Words(|data|)
  {
    seq(Words(|data|), i requires 0 <= i => WordPrefix(data, i, 4))
  }

  /** The first `n` bytes held by `words`. */
  function Unpack(words: seq<bv32>, n: nat): (bytes: seq<bv8>)
    requires n <= 4 * |words|
    ensures |bytes| == n
  {
    seq(n, k requires 0 <= k < n => ByteOf(words[k / 4], k % 4))
  }

  /** Byte `j` of a packed word is the data byte `4i + j`, or zero past the end of the data. */
  lemma PackedByte(data: seq<bv8>, i: nat, j: nat)
    requires j < 4
    ensures ByteOf(WordPrefix(data, i, 4), j) == if 4 * i + j < |data| then data[4 * i + j] else 0
  {
    var b0, b1, b2, b3 := DataByte(data, 4 * i), DataByte(data, 4 * i + 1), DataByte(data, 4 * i + 2), DataByte(data, 4 * i + 3);
    PackedWord(data, i);
    WordBytes(b3, b2, b1, b0);
    if j == 0 {
    } else if j == 1 {
    } else if j == 2 {
    } else {
    }
  }

  /** A packed word holds data bytes 4i .. 4i+3, the first one least significant. */
  lemma PackedWord(data: seq<bv8>, i: nat)
    ensures WordPrefix(data, i, 4)
         == Word(DataByte(data, 4 * i + 3), DataByte(data, 4 * i + 2), DataByte(data, 4 * i + 1), DataByte(data, 4 * i))
  {
    var b0, b1, b2, b3 := DataByte(data, 4 * i), DataByte(data, 4 * i + 1), DataByte(data, 4 * i + 2), DataByte(data, 4 * i + 3);
    WordPrefixStep(data, i, 0);
    WordPrefixStep(data, i, 1);
    WordPrefixStep(data, i, 2);
    WordPrefixStep(data, i, 3);
  }

  /** One more byte of a packed word. */
  lemma WordPrefixStep(data: seq<bv8>, i: nat, j: nat)
    requires j < 4
    ensures WordPrefix(data, i, j + 1) == WordPrefix(data, i, j) | Shift(DataByte(data, 4 * i + j), j)
    ensures j == 0 ==> WordPrefix(data, i, j) == 0
  {
  }

  /** Bytes past the end of the data add nothing to a word. */
  lemma {:induction false} WordPrefixPastEnd(data: seq<bv8>, i: nat, j: nat)
    requires j <= 4 && 4 * i + j >= |data|
    ensures WordPrefix(data, i, 4) == WordPrefix(data, i, j)
    decreases 4 - j
  {
    if j < 4 {
      WordPrefixPastEnd(data, i, j + 1);
    }
  }

  /** Unpacking the packed words gives the data back: receiving inverts transmitting. */
  lemma UnpackPack(data: seq<bv8>)
    ensures Unpack(Pack(data), |data|) == data
    ensures forall i, j :: 0 <= i < |Pack(data)| && 0 <= j < 4 && 4 * i + j >= |data| ==> ByteOf(Pack(data)[i], j) == 0
  {
    var words := Pack(data);
    forall k | 0 <= k < |data|
      ensures Unpack(words, |data|)[k] == data[k]
    {
      PackedByte(data, k / 4, k % 4);
    }
    forall i, j | 0 <= i < |words| && 0 <= j < 4 && 4 * i + j >= |data|
      ensures ByteOf(words[i], j) == 0
    {
      PackedByte(data, i, j);
    }
  }

  /** `regs` with data buffer words W0, W1, … set to `words`. */
  function WriteWords(regs: map<int, bv32>, words: seq<bv32>): (r: map<int, bv32>)
    ensures r.Keys >= regs.Keys
  {
    if words == [] then regs
    else WriteWords(regs, words[..|words| - 1])[W(|words| - 1) := words[|words| - 1]]
  }

  /** Writing the data buffer sets exactly its words, and no register below it. */
  lemma {:induction false} WriteWordsEffect(regs: map<int, bv32>, words: seq<bv32>)
    ensures forall i :: 0 <= i < |words| ==> W(i) in WriteWords(regs, words) && WriteWords(regs, words)[W(i)] == words[i]
    ensures forall a :: a < SPI_W0_REG ==> (a in WriteWords(regs, words) <==> a in regs)
    ensures forall a :: a < SPI_W0_REG && a in regs ==> WriteWords(regs, words)[a] == regs[a]
  {
    if words != [] {
      var init := words[..|words| - 1];
      WriteWordsEffect(regs, init);
      forall i | 0 <= i < |init|
        ensures init[i] == words[i]
      {
      }
    }
  }

  /** The words of the data buffer in `regs`. */
  function Buffer(regs: map<int, bv32>, n: nat): (words: seq<bv32>)
    requires forall i :: 0 <= i < n ==> W(i) in regs
    ensures |words| == n
  {
    seq(n, i requires 0 <= i < n => regs[W(i)])
  }

  /**
   * The registers after the configuration phase of `spi2_transaction`,
   * before the transfer starts.
   */
  function Configure(regs: map<int, bv32>, cmd: bv8, addr: seq<bv8>, addrBits: byte,
                     tx: seq<bv8>, txBits: uint16, rxBits: uint16): (c: map<int, bv32>)
    requires addrBits > 0 ==> addrBits <= 32 && |addr| >= Bytes(addrBits) && SPI_USER1_REG in regs
    requires txBits > 0 ==> |tx| >= Bytes(txBits)
    ensures c.Keys >= regs.Keys
  {
    var user := regs[SPI_USER_REG := UserValue(addrBits, txBits, rxBits)][SPI_USER2_REG := User2Value(cmd)];
    var address :=
      if addrBits > 0
      then user[SPI_ADDR_REG := FoldBE(addr[..Bytes(addrBits)])][SPI_USER1_REG := AddrBitLen(regs[SPI_USER1_REG], addrBits)]
      else user;
    var data :=
      if txBits > 0 then WriteWords(address, Pack(tx[..Bytes(txBits)]))[SPI_MS_DLEN_REG := (txBits - 1) as bv32]
      else address;
    if rxBits > 0 && txBits == 0 then data[SPI_MS_DLEN_REG := (rxBits - 1) as bv32] else data
  }

  /** The USER and USER2 values, whatever the transaction; the command register is left alone. */
  lemma ConfigureUser(regs: map<int, bv32>, cmd: bv8, addr: seq<bv8>, addrBits: byte,
                      tx: seq<bv8>, txBits: uint16, rxBits: uint16)
    requires addrBits > 0 ==> addrBits <= 32 && |addr| >= Bytes(addrBits) && SPI_USER1_REG in regs
    requires txBits > 0 ==> |tx| >= Bytes(txBits)
    ensures var c := Configure(regs, cmd, addr, addrBits, tx, txBits, rxBits);
      && SPI_USER_REG in c && c[SPI_USER_REG] == UserValue(addrBits, txBits, rxBits)
      && SPI_USER2_REG in c && c[SPI_USER2_REG] == User2Value(cmd)
      && Unchanged(regs, c, SPI_CMD_REG)
  {
    var user := regs[SPI_USER_REG := UserValue(addrBits, txBits, rxBits)][SPI_USER2_REG := User2Value(cmd)];
    var address :=
      if addrBits > 0
      then user[SPI_ADDR_REG := FoldBE(addr[..Bytes(addrBits)])][SPI_USER1_REG := AddrBitLen(regs[SPI_USER1_REG], addrBits)]
      else user;
    if txBits > 0 {
      WriteWordsEffect(address, Pack(tx[..Bytes(txBits)]));
    }
  }

  /**
   * The address register and the address length in USER1 are written
   * exactly when there is an address phase.
   */
  lemma ConfigureAddress(regs: map<int, bv32>, cmd: bv8, addr: seq<bv8>, addrBits: byte,
                         tx: seq<bv8>, txBits: uint16, rxBits: uint16)
    requires addrBits > 0 ==> addrBits <= 32 && |addr| >= Bytes(addrBits) && SPI_USER1_REG in regs
    requires txBits > 0 ==> |tx| >= Bytes(txBits)
    ensures var c := Configure(regs, cmd, addr, addrBits, tx, txBits, rxBits);
      && (addrBits > 0 ==>
            && SPI_ADDR_REG in c && c[SPI_ADDR_REG] == FoldBE(addr[..Bytes(addrBits)])
            && SPI_USER1_REG in c && c[SPI_USER1_REG] == AddrBitLen(regs[SPI_USER1_REG], addrBits))
      && (addrBits == 0 ==> Unchanged(regs, c, SPI_ADDR_REG) && Unchanged(regs, c, SPI_USER1_REG))
  {
    var user := regs[SPI_USER_REG := UserValue(addrBits, txBits, rxBits)][SPI_USER2_REG := User2Value(cmd)];
    var address :=
      if addrBits > 0
      then user[SPI_ADDR_REG := FoldBE(addr[..Bytes(addrBits)])][SPI_USER1_REG := AddrBitLen(regs[SPI_USER1_REG], addrBits)]
      else user;
    if txBits > 0 {
      WriteWordsEffect(address, Pack(tx[..Bytes(txBits)]));
    }
  }

  /**
   * With a MOSI phase the transmit bytes fill the data buffer and MS_DLEN
   * is the transmit length; else with a MISO phase MS_DLEN is the receive
   * length; else MS_DLEN is not written.
   */
  lemma ConfigureData(regs: map<int, bv32>, cmd: bv8, addr: seq<bv8>, addrBits: byte,
                      tx: seq<bv8>, txBits: uint16, rxBits: uint16)
    requires addrBits > 0 ==> addrBits <= 32 && |addr| >= Bytes(addrBits) && SPI_USER1_REG in regs
    requires txBits > 0 ==> |tx| >= Bytes(txBits)
    ensures var c := Configure(regs, cmd, addr, addrBits, tx, txBits, rxBits);
      && (txBits > 0 ==>
            && (forall i :: 0 <= i < Words(Bytes(txBits)) ==> W(i) in c && c[W(i)] == Pack(tx[..Bytes(txBits)])[i])
            && SPI_MS_DLEN_REG in c && c[SPI_MS_DLEN_REG] == (txBits - 1) as bv32)
      && (txBits == 0 && rxBits > 0 ==> SPI_MS_DLEN_REG in c && c[SPI_MS_DLEN_REG] == (rxBits - 1) as bv32)
      && (txBits == 0 && rxBits == 0 ==> Unchanged(regs, c, SPI_MS_DLEN_REG))
  {
    var user := regs[SPI_USER_REG := UserValue(addrBits, txBits, rxBits)][SPI_USER2_REG := User2Value(cmd)];
    var address :=
      if addrBits > 0
      then user[SPI_ADDR_REG := FoldBE(addr[..Bytes(addrBits)])][SPI_USER1_REG := AddrBitLen(regs[SPI_USER1_REG], addrBits)]
      else user;
    if txBits > 0 {
      WriteWordsEffect(address, Pack(tx[..Bytes(txBits)]));
    }
  }

  /** Register `a` is present in `after` exactly when in `before`, with the same value. */
  predicate Unchanged(before: map<int, bv32>, after: map<int, bv32>, a: int)
  {
    (a in after <==> a in before) && (a in before ==> after[a] == before[a])
  }

  // ---------------------------------------------------------------------------
  // The controller
  // ---------------------------------------------------------------------------

  class Spi2 {
    var regs: map<int, bv32>

    constructor (regs: map<int, bv32>)
      ensures this.regs == regs
    {
      this.regs := regs;
    }

    /** The address fold and the address-length field of USER1. */
    method SetAddress(addr: seq<bv8>, addrBits: byte)
      requires 0 < addrBits <= 32 && |addr| >= Bytes(addrBits) && SPI_USER1_REG in regs
      modifies this
      ensures regs == old(regs)[SPI_ADDR_REG := FoldBE(addr[..Bytes(addrBits)])]
                               [SPI_USER1_REG := AddrBitLen(old(regs)[SPI_USER1_REG], addrBits)]
    {
      var addrVal: bv32 := 0;
      for i := 0 to Bytes(addrBits)
        invariant addrVal == FoldBE(addr[..i])
      {
        assert addr[..i + 1][..i] == addr[..i];
        addrVal := (addrVal << 8) | (addr[i] as bv32);
      }
      regs := regs[SPI_ADDR_REG := addrVal];
      var user1Val := regs[SPI_USER1_REG];
      user1Val := user1Val & !0x1F;
      user1Val := user1Val | ((addrBits - 1) as bv32);
      regs := regs[SPI_USER1_REG := user1Val];
    }

    /** One data buffer word: bytes 4i .. 4i+3 of `data` while there are any. */
    method PackWord(data: seq<bv8>, i: nat) returns (word: bv32)
      ensures word == WordPrefix(data, i, 4)
    {
      word := 0;
      var j := 0;
      while j < 4 && 4 * i + j < |data|
        invariant j <= 4
        invariant word == WordPrefix(data, i, j)
      {
        word := word | Shift(data[4 * i + j], j);
        j := j + 1;
      }
      if j < 4 {
        WordPrefixPastEnd(data, i, j);
      }
    }

    /** The transmit bytes into W0, W1, …; every other register is kept. */
    method LoadTx(data: seq<bv8>)
      modifies this
      ensures regs == WriteWords(old(regs), Pack(data))
    {
      var words := Pack(data);
      for i := 0 to Words(|data|)
        invariant regs == WriteWords(old(regs), words[..i])
      {
        var word := PackWord(data, i);
        assert words[..i + 1][..i] == words[..i];
        regs := regs[W(i) := word];
      }
      assert words[..|words|] == words;
    }

    /** The first `n` received bytes out of W0, W1, … into `rxData`. */
    method UnloadRx(rxData: array<bv8>, n: nat)
      requires n <= rxData.Length
      requires forall i :: 0 <= i < Words(n) ==> W(i) in regs
      modifies rxData
      ensures rxData[..n] == Unpack(Buffer(regs, Words(n)), n)
      ensures rxData[n..] == old(rxData[n..])
    {
      ghost var words := Buffer(regs, Words(n));
      for i := 0 to Words(n)
        invariant forall k :: 0 <= k < n && k < 4 * i ==> rxData[k] == ByteOf(words[k / 4], k % 4)
        invariant forall k :: 4 * i <= k < rxData.Length || n <= k < rxData.Length ==> rxData[k] == old(rxData[k])
      {
        var word := regs[W(i)];
        var j := 0;
        while j < 4 && 4 * i + j < n
          invariant j <= 4
          invariant forall k :: 0 <= k < n && k < 4 * i + j ==> rxData[k] == ByteOf(words[k / 4], k % 4)
          invariant forall k :: 4 * i + j <= k < rxData.Length || n <= k < rxData.Length ==> rxData[k] == old(rxData[k])
        {
          rxData[4 * i + j] := ByteOf(word, j);
          j := j + 1;
        }
      }
      assert rxData[..n] == Unpack(words, n);
    }

    /** The USER register: chip-select timing and the phases this transaction has. */
    method SetUser(addrBits: byte, txBits: uint16, rxBits: uint16)
      modifies this
      ensures regs == old(regs)[SPI_USER_REG := UserValue(addrBits, txBits, rxBits)]
    {
      var userVal := SPI_CS_SETUP | SPI_CS_HOLD;
      userVal := userVal | SPI_USR_COMMAND;
      if addrBits > 0 {
        userVal := userVal | SPI_USR_ADDR;
      }
      if txBits > 0 {
        userVal := userVal | SPI_USR_MOSI;
      }
      if rxBits > 0 {
        userVal := userVal | SPI_USR_MISO;
      }
      regs := regs[SPI_USER_REG := userVal];
    }

    /** The configuration phase of `spi2_transaction`. */
    method Setup(cmd: bv8, addr: seq<bv8>, addrBits: byte, tx: seq<bv8>, txBits: uint16, rxBits: uint16)
      requires addrBits > 0 ==> addrBits <= 32 && |addr| >= Bytes(addrBits) && SPI_USER1_REG in regs
      requires txBits > 0 ==> |tx| >= Bytes(txBits)
      modifies this
      ensures regs == Configure(old(regs), cmd, addr, addrBits, tx, txBits, rxBits)
    {
      SetUser(addrBits, txBits, rxBits);
      var user2Val := (cmd as bv32) | (7 << 28);
      regs := regs[SPI_USER2_REG := user2Val];
      if addrBits > 0 {
        SetAddress(addr, addrBits);
      }
      if txBits > 0 {
        LoadTx(tx[..Bytes(txBits)]);
        regs := regs[SPI_MS_DLEN_REG := (txBits - 1) as bv32];
      }
      if rxBits > 0 && txBits == 0 {
        regs := regs[SPI_MS_DLEN_REG := (rxBits - 1) as bv32];
      }
    }

    /**
     * `spi2_transaction`: configure the USER, USER2, address, data buffer and
     * length registers, start the transfer, let the peripheral change the
     * registers in `transfer`, then read the received bytes into `rxData`
     * when there are any and a buffer was given.  Always returns 0.
     */
    method Transaction(cmd: bv8, addr: seq<bv8>, addrBits: byte, tx: seq<bv8>, txBits: uint16,
                       rxData: array?<bv8>, rxBits: uint16, transfer: map<int, bv32>)
      returns (ret: int)
      requires addrBits > 0 ==> addrBits <= 32 && |addr| >= Bytes(addrBits) && SPI_USER1_REG in regs
      requires txBits > 0 ==> |tx| >= Bytes(txBits)
      requires rxBits > 0 && rxData != null ==>
        && rxData.Length >= Bytes(rxBits)
        && forall i :: 0 <= i < Words(Bytes(rxBits)) ==> W(i) in regs || W(i) in transfer
      modifies this, rxData
      ensures ret == 0
      ensures regs == Configure(old(regs), cmd, addr, addrBits, tx, txBits, rxBits)[SPI_CMD_REG := SPI_USR] + transfer
      ensures rxBits > 0 && rxData != null ==>
        && rxData[..Bytes(rxBits)] == Unpack(Buffer(regs, Words(Bytes(rxBits))), Bytes(rxBits))
        && rxData[Bytes(rxBits)..] == old(rxData[Bytes(rxBits)..])
      ensures rxBits == 0 || rxData == null ==> rxData == null || rxData[..] == old(rxData[..])
    {
      Setup(cmd, addr, addrBits, tx, txBits, rxBits);
      regs := regs[SPI_CMD_REG := SPI_UPDATE];
      regs := regs[SPI_CMD_REG := SPI_USR];
      regs := regs + transfer;
      if rxBits > 0 && rxData != null {
        UnloadRx(rxData, Bytes(rxBits));
      }
      return 0;
    }
  }
}
