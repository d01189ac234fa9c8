/**
 * The SPI NAND driver: attaching to the chip, polling its status register
 * until it is ready, and reading and writing the first two bytes of a
 * page's spare area (the bad-block marker).
 *
 * Every SPI transaction goes through one oracle.  The driver records the
 * transactions it issues, in order, in `trace`; the reply to the n-th
 * transaction of the driver's life is `spi(n)`, a return code and the bytes
 * clocked in on MISO.  Each operation is specified by a function giving its
 * return code, the transactions it issues and the bytes it hands back, and
 * the lemmas below state what the driver promises about those.
 */
module Nand {
  import opened Common

  const CMD_SET_REGISTER: byte := 0x1F
  const CMD_READ_REGISTER: byte := 0x0F
  const CMD_WRITE_ENABLE: byte := 0x06
  const CMD_PAGE_READ: byte := 0x13
  const CMD_PROGRAM_EXECUTE: byte := 0x10
  const CMD_PROGRAM_LOAD: byte := 0x84
  const CMD_READ_FROM_CACHE: byte := 0x03
  const CMD_RESET: byte := 0xFF

  const REG_STATUS: byte := 0xC0

  /** Bits of the status register. */
  const STAT_BUSY := 1
  const STAT_WRITE_ENABLED := 2
  const STAT_ERASE_FAILED := 4
  const STAT_PROGRAM_FAILED := 8

  /** Number of status polls before `nand_wait_ready` gives up. */
  const WAIT_POLLS: nat := 100000

  /** Page size set on attach (W25N01GV). */
  const PAGE_SIZE: uint32 := 2048

  /** `b & bit` is non-zero, for a single-bit mask `bit`. */
  predicate Bit(b: byte, bit: nat)
    requires bit == 1 || bit == 2 || bit == 4 || bit == 8
  {
    if bit == 1 then b % 2 == 1
    else if bit == 2 then (b / 2) % 2 == 1
    else if bit == 4 then (b / 4) % 2 == 1
    else (b / 8) % 2 == 1
  }

  /** The arguments of one `spi_transaction_wrapper` call; buffers by their contents. */
  datatype SpiTxn = SpiTxn(cmd: byte, addr: seq<byte>, addrBits: byte, tx: seq<byte>, txBits: uint16, rxBits: uint16)

  /** The oracle's answer to one transaction. */
  datatype SpiReply = SpiReply(ret: int, miso: nat -> byte)

  /** The bytes a transaction stores for `rxBits` received bits. */
  function RxData(reply: SpiReply, rxBits: uint16): (rx: seq<byte>)
    ensures |rx| == (rxBits + 7) / 8
    ensures forall k :: 0 <= k < |rx| ==> rx[k] == reply.miso(k)
  {
    seq<byte>((rxBits + 7) / 8, k requires 0 <= k => reply.miso(k))
  }

  /** What an operation returns and does: its code, its transactions in order, the bytes it hands back. */
  datatype Outcome = Outcome(code: int, txns: seq<SpiTxn>, data: seq<byte>)

  // ---------------------------------------------------------------------------
  // The transactions the driver issues
  // ---------------------------------------------------------------------------

  /** Read the status register: register address 0xC0, 8 address bits, 8 bits back. */
  const READ_STATUS := SpiTxn(CMD_READ_REGISTER, [REG_STATUS], 8, [], 0, 8)
  const RESET := SpiTxn(CMD_RESET, [], 0, [], 0, 0)
  const WRITE_ENABLE := SpiTxn(CMD_WRITE_ENABLE, [], 0, [], 0, 0)

  /** `n` status reads. */
  function StatusReads(n: nat): (s: seq<SpiTxn>)
    ensures |s| == n && forall k :: 0 <= k < n ==> s[k] == READ_STATUS
  {
    seq(n, _ => READ_STATUS)
  }

  /** The 3-byte page address: bits 23..16, 15..8 and 7..0 of the page number. */
  function PageAddress(page: uint32): (a: seq<byte>)
    ensures |a| == 3
  {
    [(page / 0x1_0000) % 0x100, (page / 0x100) % 0x100, page % 0x100]
  }

  /** The 2-byte column address of the spare area, the page size cast to 16 bits, high byte first. */
  function ColumnAddress(pageSize: uint32): (a: seq<byte>)
    ensures |a| == 2
  {
    var column := pageSize % 0x1_0000;
    [column / 0x100, column % 0x100]
  }

  /** The bad-block marker written to the spare area. */
  function Marker(isBad: byte): (m: seq<byte>)
    ensures |m| == 2
    ensures isBad != 0 ==> m == [0x00, 0x00]
    ensures isBad == 0 ==> m == [0xFF, 0xFF]
  {
    if isBad != 0 then [0x00, 0x00] else [0xFF, 0xFF]
  }

  function PageReadTxn(page: uint32): SpiTxn
  {
    SpiTxn(CMD_PAGE_READ, PageAddress(page), 24, [], 0, 0)
  }

  /** READ FROM CACHE: column address, one zero dummy byte, 16 bits back. */
  function ReadCacheTxn(pageSize: uint32): SpiTxn
  {
    SpiTxn(CMD_READ_FROM_CACHE, ColumnAddress(pageSize) + [0], 24, [], 0, 16)
  }

  function ProgramLoadTxn(pageSize: uint32, isBad: byte): SpiTxn
  {
    SpiTxn(CMD_PROGRAM_LOAD, ColumnAddress(pageSize), 16, Marker(isBad), 16, 0)
  }

  function ProgramExecuteTxn(page: uint32): SpiTxn
  {
    SpiTxn(CMD_PROGRAM_EXECUTE, PageAddress(page), 24, [], 0, 0)
  }

  /** The page address is the page number, big-endian, with bits above 23 dropped. */
  lemma PageAddressValue(page: uint32)
    ensures var a := PageAddress(page); 0x1_0000 * (a[0] as int) + 0x100 * (a[1] as int) + a[2] as int == page % 0x100_0000
  {
    var q := page / 0x100;
    assert page == 0x100 * q + page % 0x100;
    assert q / 0x100 == page / 0x1_0000;
    assert q == 0x100 * (q / 0x100) + q % 0x100;
    var p := page / 0x1_0000;
    assert page == 0x1_0000 * p + 0x100 * (q % 0x100) + page % 0x100;
    assert p == 0x100 * (p / 0x100) + p % 0x100;
  }

  /** The column address is the page size cast to 16 bits, big-endian. */
  lemma ColumnAddressValue(pageSize: uint32)
    ensures var a := ColumnAddress(pageSize); 0x100 * (a[0] as int) + a[1] as int == pageSize % 0x1_0000
  {
  }

  // ---------------------------------------------------------------------------
  // Specifications
  // ---------------------------------------------------------------------------

  /** The status byte a status read returned. */
  function Status(reply: SpiReply): byte
  {
    reply.miso(0)
  }

  /** The code of a status without BUSY: -2 on ERASE_FAILED, else -3 on PROGRAM_FAILED, else 0. */
  function ReadyCode(status: byte): int
  {
    if Bit(status, STAT_ERASE_FAILED) then -2
    else if Bit(status, STAT_PROGRAM_FAILED) then -3
    else 0
  }

  /**
   * `nand_wait_ready` started at transaction `start` with `left` polls to
   * go: a failing read returns its code; a status without BUSY returns -2
   * on ERASE_FAILED, else -3 on PROGRAM_FAILED, else 0; a busy status polls
   * again; no polls left is a timeout, -5.
   */
  function WaitReadySpec(spi: nat -> SpiReply, start: nat, left: nat): (o: Outcome)
    decreases left
  {
    if left == 0 then Outcome(-5, [], [])
    else
      var reply := spi(start);
      if reply.ret != 0 then Outcome(reply.ret, [READ_STATUS], [])
      else if !Bit(Status(reply), STAT_BUSY) then Outcome(ReadyCode(Status(reply)), [READ_STATUS], [])
      else
        var rest := WaitReadySpec(spi, start + 1, left - 1);
        Outcome(rest.code, [READ_STATUS] + rest.txns, [])
  }

  /** `nand_attach` after `spi2_init` returned `initRet`. */
  function AttachSpec(spi: nat -> SpiReply, start: nat, initRet: int): Outcome
  {
    if initRet != 0 then Outcome(initRet, [], [])
    else if spi(start).ret != 0 then Outcome(-100, [RESET], [])
    else if spi(start + 1).ret != 0 then Outcome(-101, [RESET, READ_STATUS], [])
    else if Bit(Status(spi(start + 1)), STAT_BUSY) then Outcome(-4, [RESET, READ_STATUS], [])
    else Outcome(0, [RESET, READ_STATUS], [])
  }

  /**
   * `nand_read_spare`, `polls` being the poll budget of `nand_wait_ready`;
   * `data` is what lands in the caller's buffer: the bytes of the READ FROM
   * CACHE transaction, when it is issued.
   */
  function ReadSpareSpec(spi: nat -> SpiReply, polls: nat, start: nat, initialized: bool,
                         pageSize: uint32, page: uint32): Outcome
  {
    if !initialized then Outcome(-1, [], [])
    else if spi(start).ret != 0 then Outcome(-10, [PageReadTxn(page)], [])
    else
      var w := WaitReadySpec(spi, start + 1, polls);
      if w.code != 0 then Outcome(-20 + w.code, [PageReadTxn(page)] + w.txns, [])
      else
        var at := start + 1 + |w.txns|;
        Outcome(if spi(at).ret != 0 then -30 else 0,
                [PageReadTxn(page)] + w.txns + [ReadCacheTxn(pageSize)],
                RxData(spi(at), 16))
  }

  /** `nand_write_spare`, `polls` being the poll budget of `nand_wait_ready`. */
  function WriteSpareSpec(spi: nat -> SpiReply, polls: nat, start: nat, initialized: bool,
                          pageSize: uint32, page: uint32, isBad: byte): Outcome
  {
    if !initialized then Outcome(-1, [], [])
    else if spi(start).ret != 0 then Outcome(spi(start).ret, [WRITE_ENABLE], [])
    else if spi(start + 1).ret != 0 then Outcome(-20, [WRITE_ENABLE, ProgramLoadTxn(pageSize, isBad)], [])
    else
      var issued := [WRITE_ENABLE, ProgramLoadTxn(pageSize, isBad), ProgramExecuteTxn(page)];
      if spi(start + 2).ret != 0 then Outcome(-30, issued, [])
      else
        var w := WaitReadySpec(spi, start + 3, polls);
        Outcome(if w.code != 0 then -40 + w.code else 0, issued + w.txns, [])
  }

  // ---------------------------------------------------------------------------
  // Properties of the specifications
  // ---------------------------------------------------------------------------

  /** A failing status read ends the wait with that read's code, after one transaction. */
  lemma WaitReadyPassesFailure(spi: nat -> SpiReply, start: nat, left: nat)
    requires left > 0 && spi(start).ret != 0
    ensures WaitReadySpec(spi, start, left) == Outcome(spi(start).ret, [READ_STATUS], [])
  {
  }

  /** Once BUSY is clear, erase failure is reported first, then program failure, else ready. */
  lemma WaitReadyDecodesStatus(spi: nat -> SpiReply, start: nat, left: nat)
    requires left > 0 && spi(start).ret == 0 && !Bit(Status(spi(start)), STAT_BUSY)
    ensures var s := Status(spi(start));
      WaitReadySpec(spi, start, left).code
      == if Bit(s, STAT_ERASE_FAILED) then -2 else if Bit(s, STAT_PROGRAM_FAILED) then -3 else 0
  {
  }

  /** A status read that succeeded and found the chip busy. */
  predicate PolledBusy(reply: SpiReply)
  {
    reply.ret == 0 && Bit(Status(reply), STAT_BUSY)
  }

  /** After `n` busy polls, the wait goes on as a wait with `n` fewer polls, `n` reads later. */
  lemma {:induction false} WaitReadyAfterBusy(spi: nat -> SpiReply, start: nat, n: nat, left: nat)
    requires forall k :: start <= k < start + n ==> PolledBusy(spi(k))
    ensures var rest := WaitReadySpec(spi, start + n, left);
      WaitReadySpec(spi, start, n + left) == Outcome(rest.code, StatusReads(n) + rest.txns, [])
    decreases n
  {
    var rest := WaitReadySpec(spi, start + n, left);
    if n == 0 {
      assert StatusReads(0) + rest.txns == rest.txns;
    } else {
      var inner := WaitReadySpec(spi, start + 1, n - 1 + left);
      calc {
        WaitReadySpec(spi, start, n + left);
      == { assert PolledBusy(spi(start)); }
        Outcome(inner.code, [READ_STATUS] + inner.txns, []);
      == { WaitReadyAfterBusy(spi, start + 1, n - 1, left); }
        Outcome(rest.code, [READ_STATUS] + (StatusReads(n - 1) + rest.txns), []);
      == { StatusReadsCons(n);
           assert [READ_STATUS] + (StatusReads(n - 1) + rest.txns) == ([READ_STATUS] + StatusReads(n - 1)) + rest.txns; }
        Outcome(rest.code, StatusReads(n) + rest.txns, []);
      }
    }
  }

  /** Proof step: one status read followed by `n - 1` more is `n` status reads. */
  lemma StatusReadsCons(n: nat)
    requires n > 0
    ensures [READ_STATUS] + StatusReads(n - 1) == StatusReads(n)
  {
  }

  /** Polls that all succeed and all read BUSY end in a timeout, -5, after exactly `left` polls. */
  lemma {:induction false} WaitReadyTimeout(spi: nat -> SpiReply, start: nat, left: nat)
    requires forall k :: start <= k < start + left ==> PolledBusy(spi(k))
    ensures WaitReadySpec(spi, start, left) == Outcome(-5, StatusReads(left), [])
    decreases left
  {
    if left > 0 {
      WaitReadyTimeout(spi, start + 1, left - 1);
      StatusReadsCons(left);
    }
  }

  /**
   * The wait issues only status reads, at least one and at most `left`;
   * it returns -5, -3, -2 or 0, or else the non-zero code of its last read.
   */
  lemma {:induction false} WaitReadyShape(spi: nat -> SpiReply, start: nat, left: nat)
    ensures var o := WaitReadySpec(spi, start, left);
      && o.txns == StatusReads(|o.txns|)
      && |o.txns| <= left
      && (left > 0 ==> |o.txns| >= 1)
      && (o.code in {0, -2, -3, -5}
          || (|o.txns| >= 1 && o.code == spi(start + |o.txns| - 1).ret && o.code != 0))
    decreases left
  {
    if left > 0 && spi(start).ret == 0 && Bit(Status(spi(start)), STAT_BUSY) {
      WaitReadyShape(spi, start + 1, left - 1);
      var rest := WaitReadySpec(spi, start + 1, left - 1);
      assert [READ_STATUS] + rest.txns == StatusReads(|rest.txns| + 1);
    }
  }

  /** Attach succeeds exactly when initialisation, reset and status read succeed and the chip is idle. */
  lemma AttachCodes(spi: nat -> SpiReply, start: nat, initRet: int)
    ensures var o := AttachSpec(spi, start, initRet);
      && (o.code == 0 <==> initRet == 0 && spi(start).ret == 0 && spi(start + 1).ret == 0
                             && !Bit(Status(spi(start + 1)), STAT_BUSY))
      && (initRet != 0 ==> o.code == initRet && o.txns == [])
      && (initRet == 0 ==> o.code in {0, -100, -101, -4} && o.txns[0] == RESET)
  {
  }

  /** Without a successful attach, neither spare access touches the bus, and both return -1. */
  lemma UninitialisedSpareAccess(spi: nat -> SpiReply, polls: nat, start: nat, pageSize: uint32,
                                 page: uint32, isBad: byte)
    ensures ReadSpareSpec(spi, polls, start, false, pageSize, page) == Outcome(-1, [], [])
    ensures WriteSpareSpec(spi, polls, start, false, pageSize, page, isBad) == Outcome(-1, [], [])
  {
  }

  /** Every transaction reports failure by a negative code, as error codes of the stub are. */
  ghost predicate NegativeErrors(spi: nat -> SpiReply)
  {
    forall k :: spi(k).ret <= 0
  }

  /** A wait over such transactions ends in 0 or a negative code. */
  lemma WaitReadyNonPositive(spi: nat -> SpiReply, start: nat, left: nat)
    requires NegativeErrors(spi)
    ensures WaitReadySpec(spi, start, left).code <= 0
  {
    WaitReadyShape(spi, start, left);
  }

  /**
   * Reading the spare area of an attached chip issues a PAGE READ of the
   * page, then the status reads of the wait, then a READ FROM CACHE of 16
   * bits at the page-size column, stopping at the first failure: -10 when
   * the PAGE READ fails, -20 plus the wait's code when the wait fails, -30
   * when the READ FROM CACHE fails.  The two bytes of the READ FROM CACHE
   * reach the caller's buffer.  With negative error codes it succeeds
   * exactly when every step does.
   */
  lemma ReadSpareSequence(spi: nat -> SpiReply, polls: nat, start: nat, pageSize: uint32, page: uint32)
    requires polls > 0
    ensures var o := ReadSpareSpec(spi, polls, start, true, pageSize, page);
      var w := WaitReadySpec(spi, start + 1, polls);
      var at := start + 1 + |w.txns|;
      && (spi(start).ret != 0 ==> o.code == -10 && o.txns == [PageReadTxn(page)] && o.data == [])
      && (spi(start).ret == 0 ==> w.txns == StatusReads(|w.txns|) && 1 <= |w.txns| <= polls)
      && (spi(start).ret == 0 && w.code != 0 ==>
            o.code == -20 + w.code && o.txns == [PageReadTxn(page)] + w.txns && o.data == [])
      && (spi(start).ret == 0 && w.code == 0 ==>
            && o.code == (if spi(at).ret != 0 then -30 else 0)
            && o.txns == [PageReadTxn(page)] + w.txns + [ReadCacheTxn(pageSize)]
            && o.data == RxData(spi(at), 16) && |o.data| == 2)
      && (NegativeErrors(spi) ==>
            (o.code == 0 <==> spi(start).ret == 0 && w.code == 0 && spi(at).ret == 0))
  {
    WaitReadyShape(spi, start + 1, polls);
    if NegativeErrors(spi) {
      WaitReadyNonPositive(spi, start + 1, polls);
    }
  }

  /**
   * Writing the spare area of an attached chip issues WRITE ENABLE,
   * PROGRAM LOAD (the marker at the page-size column), PROGRAM EXECUTE
   * (the page), then the status reads of the wait, stopping at the first
   * failure: the write-enable code, -20, -30, or -40 plus the wait's code.
   * With negative error codes it succeeds exactly when every step does.
   */
  lemma WriteSpareSequence(spi: nat -> SpiReply, polls: nat, start: nat, pageSize: uint32,
                           page: uint32, isBad: byte)
    ensures var o := WriteSpareSpec(spi, polls, start, true, pageSize, page, isBad);
      var steps := [WRITE_ENABLE, ProgramLoadTxn(pageSize, isBad), ProgramExecuteTxn(page)];
      var w := WaitReadySpec(spi, start + 3, polls);
      && (spi(start).ret != 0 ==> o.code == spi(start).ret && o.txns == steps[..1])
      && (spi(start).ret == 0 && spi(start + 1).ret != 0 ==> o.code == -20 && o.txns == steps[..2])
      && (spi(start).ret == 0 && spi(start + 1).ret == 0 && spi(start + 2).ret != 0 ==>
            o.code == -30 && o.txns == steps)
      && (spi(start).ret == 0 && spi(start + 1).ret == 0 && spi(start + 2).ret == 0 ==>
            o.txns == steps + w.txns && o.code == (if w.code != 0 then -40 + w.code else 0))
      && (NegativeErrors(spi) ==>
            (o.code == 0 <==> spi(start).ret == 0 && spi(start + 1).ret == 0 && spi(start + 2).ret == 0
                              && w.code == 0))
  {
    if NegativeErrors(spi) {
      WaitReadyNonPositive(spi, start + 3, polls);
    }
  }

  // ---------------------------------------------------------------------------
  // The driver
  // ---------------------------------------------------------------------------

  /** `s_nand_config`, the SPI bus, and the poll budget of `nand_wait_ready`. */
  class NandFlash {
    const spi: nat -> SpiReply
    const polls: nat
    var trace: seq<SpiTxn>
    var pageSize: uint32
    var pagesPerBlock: uint32
    var blockSize: uint32
    var initialized: bool

    constructor (spi: nat -> SpiReply)
      ensures this.spi == spi && polls == WAIT_POLLS && trace == []
      ensures pageSize == 2048 && pagesPerBlock == 64 && blockSize == 128 * 1024 && !initialized
    {
      this.spi := spi;
      polls := WAIT_POLLS;
      trace := [];
      pageSize := 2048;
      pagesPerBlock := 64;
      blockSize := 128 * 1024;
      initialized := false;
    }

    /** `spi_transaction_wrapper`: issue `t`, get the oracle's reply to it. */
    method Transaction(t: SpiTxn) returns (ret: int, rx: seq<byte>)
      modifies this
      ensures trace == old(trace) + [t]
      ensures ret == spi(|old(trace)|).ret && rx == RxData(spi(|old(trace)|), t.rxBits)
      ensures pageSize == old(pageSize) && initialized == old(initialized)
    {
      var reply := spi(|trace|);
      trace := trace + [t];
      return reply.ret, RxData(reply, t.rxBits);
    }

    /**
     * One pass of the polling loop of `nand_wait_ready`, with `left` polls
     * before the timeout: read the status register; `done` when the wait
     * ends here, with `ret`, and otherwise the chip was busy.
     */
    method Poll(left: nat) returns (done: bool, ret: int)
      requires left > 0
      modifies this
      ensures trace == old(trace) + [READ_STATUS]
      ensures pageSize == old(pageSize) && initialized == old(initialized)
      ensures done ==> WaitReadySpec(spi, |old(trace)|, left) == Outcome(ret, [READ_STATUS], [])
      ensures !done ==> PolledBusy(spi(|old(trace)|))
    {
      var r, rx := Transaction(READ_STATUS);
      if r != 0 {
        return true, r;
      }
      var status := rx[0];
      if !Bit(status, STAT_BUSY) {
        return true, ReadyCode(status);
      }
      return false, 0;
    }

    /** `nand_wait_ready` */
    method WaitReady() returns (ret: int)
      modifies this
      ensures var o := WaitReadySpec(spi, |old(trace)|, polls); ret == o.code && trace == old(trace) + o.txns
      ensures pageSize == old(pageSize) && initialized == old(initialized)
    {
      ghost var start := |trace|;
      var timeout: nat := polls;
      while timeout > 0
        invariant timeout <= polls
        invariant trace == old(trace) + StatusReads(polls - timeout)
        invariant forall k :: start <= k < start + (polls - timeout) ==> PolledBusy(spi(k))
        invariant pageSize == old(pageSize) && initialized == old(initialized)
      {
        var done, r := Poll(timeout);
        ghost var polled := polls - timeout;
        timeout := timeout - 1;
        assert StatusReads(polled) + [READ_STATUS] == StatusReads(polled + 1);
        if done {
          WaitReadyAfterBusy(spi, start, polled, timeout + 1);
          return r;
        }
      }
      WaitReadyTimeout(spi, start, polls);
      return -5;
    }

    /** `nand_attach`: only success marks the chip initialised with 2048-byte pages. */
    method Attach(initRet: int) returns (ret: int)
      modifies this
      ensures var o := AttachSpec(spi, |old(trace)|, initRet); ret == o.code && trace == old(trace) + o.txns
      ensures initialized == (old(initialized) || ret == 0)
      ensures pageSize == if ret == 0 then PAGE_SIZE else old(pageSize)
    {
      if initRet != 0 {
        return initRet;
      }
      var r, _ := Transaction(RESET);
      if r != 0 {
        return -100;
      }
      var rx;
      r, rx := Transaction(READ_STATUS);
      if r != 0 {
        return -101;
      }
      var status := rx[0];
      if Bit(status, STAT_BUSY) {
        return -4;
      }
      initialized := true;
      pageSize := PAGE_SIZE;
      return 0;
    }

    /**
     * The first two steps of `nand_read_spare`, PAGE READ and the wait:
     * `stop` when one failed, `ret` being then the code it returns.
     */
    method LoadPage(page: uint32) returns (stop: bool, ret: int)
      requires initialized
      modifies this
      ensures var o := ReadSpareSpec(spi, polls, |old(trace)|, true, pageSize, page);
        && (stop ==> ret == o.code && trace == old(trace) + o.txns && o.data == [])
        && (!stop ==> spi(|old(trace)|).ret == 0
                      && WaitReadySpec(spi, |old(trace)| + 1, polls).code == 0
                      && trace == old(trace) + [PageReadTxn(page)] + WaitReadySpec(spi, |old(trace)| + 1, polls).txns)
      ensures pageSize == old(pageSize) && initialized == old(initialized)
    {
      var r, _ := Transaction(PageReadTxn(page));
      if r != 0 {
        return true, -10;
      }
      r := WaitReady();
      if r != 0 {
        return true, -20 + r;
      }
      return false, 0;
    }

    /** The third step of `nand_read_spare`: READ FROM CACHE into the first two bytes of `spareData`. */
    method ReadCache(spareData: array<byte>) returns (ret: int)
      requires spareData.Length >= 2
      modifies this, spareData
      ensures trace == old(trace) + [ReadCacheTxn(pageSize)]
      ensures ret == spi(|old(trace)|).ret
      ensures spareData[..] == RxData(spi(|old(trace)|), 16) + old(spareData[2..])
      ensures pageSize == old(pageSize) && initialized == old(initialized)
    {
      var column := pageSize % 0x1_0000;
      var colAddr := [column / 0x100, column % 0x100, 0];
      assert colAddr == ColumnAddress(pageSize) + [0];
      var rx;
      ret, rx := Transaction(SpiTxn(CMD_READ_FROM_CACHE, colAddr, 24, [], 0, 16));
      spareData[0] := rx[0];
      spareData[1] := rx[1];
      assert spareData[..] == rx + old(spareData[2..]);
    }

    /** `nand_read_spare`: the two bytes of the READ FROM CACHE land in `spareData`. */
    method ReadSpare(page: uint32, spareData: array<byte>) returns (ret: int)
      requires spareData.Length >= 2
      modifies this, spareData
      ensures var o := ReadSpareSpec(spi, polls, |old(trace)|, initialized, pageSize, page);
        && ret == o.code && trace == old(trace) + o.txns
        && spareData[..] == if o.data == [] then old(spareData[..]) else o.data + old(spareData[2..])
      ensures pageSize == old(pageSize) && initialized == old(initialized)
    {
      if !initialized {
        return -1;
      }
      var stop, r := LoadPage(page);
      if stop {
        return r;
      }
      r := ReadCache(spareData);
      if r != 0 {
        return -30;
      }
      return 0;
    }

    /** The first three steps of `nand_write_spare`, each stopping it on failure. */
    method IssueWrite(page: uint32, isBad: byte) returns (ret: int)
      requires initialized
      modifies this
      ensures var o := WriteSpareSpec(spi, polls, |old(trace)|, true, pageSize, page, isBad);
        && (ret != 0 ==> ret == o.code && trace == old(trace) + o.txns)
        && (ret == 0 ==> spi(|old(trace)|).ret == 0 && spi(|old(trace)| + 1).ret == 0
                         && spi(|old(trace)| + 2).ret == 0
                         && trace == old(trace) + [WRITE_ENABLE, ProgramLoadTxn(pageSize, isBad), ProgramExecuteTxn(page)])
      ensures pageSize == old(pageSize) && initialized == old(initialized)
    {
      var badBlockMarker := if isBad != 0 then [0x00, 0x00] else [0xFF, 0xFF];
      var r, _ := Transaction(WRITE_ENABLE);
      if r != 0 {
        return r;
      }
      var column := pageSize % 0x1_0000;
      var colAddr := [column / 0x100, column % 0x100];
      var loadRet, _ := Transaction(SpiTxn(CMD_PROGRAM_LOAD, colAddr, 16, badBlockMarker, 16, 0));
      if loadRet != 0 {
        return -20;
      }
      var pageAddr := [(page / 0x1_0000) % 0x100, (page / 0x100) % 0x100, page % 0x100];
      var executeRet, _ := Transaction(SpiTxn(CMD_PROGRAM_EXECUTE, pageAddr, 24, [], 0, 0));
      if executeRet != 0 {
        return -30;
      }
      return 0;
    }

    /** `nand_write_spare`: marks the page's block bad (`isBad` != 0) or good. */
    method WriteSpare(page: uint32, isBad: byte) returns (ret: int)
      modifies this
      ensures var o := WriteSpareSpec(spi, polls, |old(trace)|, initialized, pageSize, page, isBad);
        ret == o.code && trace == old(trace) + o.txns
      ensures pageSize == old(pageSize) && initialized == old(initialized)
    {
      if !initialized {
        return -1;
      }
      var r := IssueWrite(page, isBad);
      if r != 0 {
        return r;
      }
      ghost var issued := trace;
      assert |issued| == |old(trace)| + 3;
      ret := WaitProgram();
      assert trace == old(trace) + (issued[|old(trace)|..] + (trace[|issued|..]));
    }

    /** The wait at the end of `nand_write_spare`: a wait failure is reported offset by -40. */
    method WaitProgram() returns (ret: int)
      modifies this
      ensures var w := WaitReadySpec(spi, |old(trace)|, polls);
        ret == (if w.code != 0 then -40 + w.code else 0) && trace == old(trace) + w.txns
      ensures pageSize == old(pageSize) && initialized == old(initialized)
    {
      var r := WaitReady();
      if r != 0 {
        return -40 + r;
      }
      return 0;
    }
  }
}
