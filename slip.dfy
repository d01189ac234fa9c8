/**
 * SLIP framing (RFC 1055) as the flasher stub does it: a byte-escaping
 * encoder that writes through a one-byte transmit function, and a
 * three-state receiver driven one byte at a time.
 *
 * The transmit function is modelled by the `sent` log of `SlipTx`.  The
 * receiver of the stub keeps only its state; where the stub leaves the
 * decoded byte unused, `SlipRx` appends it to a frame collector so that the
 * decoding can be stated.
 */
module Slip {
  import opened Common

  const END: byte := 0xC0
  const ESC: byte := 0xDB
  const ESC_END: byte := 0xDC
  const ESC_ESC: byte := 0xDD

  // ---------------------------------------------------------------------------
  // Encoder
  // ---------------------------------------------------------------------------

  /** The bytes `slip_send_frame_data` transmits for one payload byte. */
  function EscapeByte(b: byte): seq<byte>
  {
    if b == END then [ESC, ESC_END]
    else if b == ESC then [ESC, ESC_ESC]
    else [b]
  }

  /** The escaped payload: the escapes of the bytes, in buffer order. */
  function Escape(data: seq<byte>): seq<byte>
  {
    if data == [] then [] else Escape(data[..|data| - 1]) + EscapeByte(data[|data| - 1])
  }

  /** A whole frame: delimiter, escaped payload, delimiter. */
  function Frame(data: seq<byte>): seq<byte>
  {
    [END] + Escape(data) + [END]
  }

  /** The escape of a byte never holds the delimiter, and its length counts the special bytes. */
  lemma EscapeByteShape(b: byte)
    ensures END !in EscapeByte(b)
    ensures |EscapeByte(b)| == if b == END || b == ESC then 2 else 1
    ensures EscapeByte(b)[0] == ESC <==> (b == END || b == ESC)
  {
  }

  lemma {:induction false} EscapeAppend(a: seq<byte>, b: seq<byte>)
    ensures Escape(a + b) == Escape(a) + Escape(b)
    decreases |b|
  {
    if b == [] {
      assert a + b == a;
    } else {
      var b', last := b[..|b| - 1], b[|b| - 1];
      calc {
        Escape(a + b);
      == { assert a + b == (a + b') + [last];
           assert ((a + b') + [last])[..|a + b'|] == a + b'; }
        Escape(a + b') + EscapeByte(last);
      == { EscapeAppend(a, b'); }
        Escape(a) + Escape(b') + EscapeByte(last);
      ==
        Escape(a) + Escape(b);
      }
    }
  }

  /** The escaped payload never holds the frame delimiter. */
  lemma {:induction false} EscapeHasNoEnd(data: seq<byte>)
    ensures END !in Escape(data)
  {
    if data != [] {
      EscapeHasNoEnd(data[..|data| - 1]);
      EscapeByteShape(data[|data| - 1]);
    }
  }

  /** Each payload byte equal to END or ESC costs one extra byte. */
  lemma {:induction false} EscapeLength(data: seq<byte>)
    ensures |Escape(data)| == |data| + Count(data, END) + Count(data, ESC)
  {
    if data != [] {
      var init, last := data[..|data| - 1], data[|data| - 1];
      EscapeLength(init);
      EscapeByteShape(last);
      assert data == init + [last];
      CountAppend(init, [last], END);
      CountAppend(init, [last], ESC);
    }
  }

  /** In a frame the delimiter occurs exactly at the two ends. */
  lemma FrameDelimiters(data: seq<byte>)
    ensures var f := Frame(data);
      && |f| >= 2 && f[0] == END && f[|f| - 1] == END
      && forall i :: 0 < i < |f| - 1 ==> f[i] != END
  {
    var e := Escape(data);
    EscapeHasNoEnd(data);
    var f := Frame(data);
    forall i | 0 < i < |f| - 1
      ensures f[i] != END
    {
      assert f[i] == e[i - 1];
    }
  }

  /** The transmit side: every byte handed to the transmit function, in order. */
  class SlipTx {
    var sent: seq<byte>

    constructor ()
      ensures sent == []
    {
      sent := [];
    }

    method TxOneChar(b: byte)
      modifies this
      ensures sent == old(sent) + [b]
    {
      sent := sent + [b];
    }

    /** `slip_send_frame_delimiter` */
    method SendFrameDelimiter()
      modifies this
      ensures sent == old(sent) + [END]
    {
      TxOneChar(END);
    }

    /** `slip_send_frame_data` */
    method SendFrameData(b: byte)
      modifies this
      ensures sent == old(sent) + EscapeByte(b)
    {
      if b == END {
        TxOneChar(ESC);
        TxOneChar(ESC_END);
      } else if b == ESC {
        TxOneChar(ESC);
        TxOneChar(ESC_ESC);
      } else {
        TxOneChar(b);
      }
    }

    /** `slip_send_frame_data_buf`: `None` is the NULL buffer, `Some(buf)` a buffer of `|buf|` bytes. */
    method SendFrameDataBuf(data: Option<seq<byte>>)
      modifies this
      ensures sent == old(sent) + (if data.Some? then Escape(data.value) else [])
    {
      if data.None? {
        return;
      }
      var buf := data.value;
      for i := 0 to |buf|
        invariant sent == old(sent) + Escape(buf[..i])
      {
        SendFrameData(buf[i]);
        assert buf[..i + 1][..i] == buf[..i];
      }
      assert buf[..|buf|] == buf;
    }

    /** `slip_send_frame` */
    method SendFrame(data: Option<seq<byte>>)
      modifies this
      ensures sent == old(sent) + (if data.Some? then Frame(data.value) else [])
    {
      if data.None? {
        return;
      }
      ghost var before := sent;
      SendFrameDelimiter();
      SendFrameDataBuf(data);
      SendFrameDelimiter();
      assert before + [END] + Escape(data.value) + [END] == before + ([END] + Escape(data.value) + [END]);
    }
  }

  // ---------------------------------------------------------------------------
  // Receiver
  // ---------------------------------------------------------------------------

  datatype RxState = NoFrame | InFrame | Escaping

  /** The receiver state and the payload collected for the current frame. */
  datatype Rx = Rx(state: RxState, frame: seq<byte>)

  /** `slip_recv_byte` on a receiver value; a new frame starts with an empty collector. */
  function RecvStep(r: Rx, b: byte): Rx
  {
    match r.state
    case NoFrame => if b == END then Rx(InFrame, []) else r
    case InFrame =>
      if b == END then r.(state := NoFrame)
      else if b == ESC then r.(state := Escaping)
      else r.(frame := r.frame + [b])
    case Escaping =>
      if b == ESC_END then Rx(InFrame, r.frame + [END])
      else if b == ESC_ESC then Rx(InFrame, r.frame + [ESC])
      else r.(state := InFrame)
  }

  /** The receiver after a sequence of bytes, in order. */
  function RecvAll(r: Rx, bytes: seq<byte>): Rx
  {
    if bytes == [] then r else RecvStep(RecvAll(r, bytes[..|bytes| - 1]), bytes[|bytes| - 1])
  }

  /**
   * The state transitions: outside a frame only END opens one; inside a
   * frame END closes it and ESC starts an escape; an escape always returns
   * into the frame.
   */
  lemma RecvTransitions(r: Rx, b: byte)
    ensures r.state == NoFrame ==> (RecvStep(r, b).state == InFrame <==> b == END)
    ensures r.state == NoFrame ==> (RecvStep(r, b).state == NoFrame <==> b != END)
    ensures r.state == InFrame ==> RecvStep(r, b).state
                                   == (if b == END then NoFrame else if b == ESC then Escaping else InFrame)
    ensures r.state == Escaping ==> RecvStep(r, b).state == InFrame
  {
  }

  /** After an escape, ESC_END stands for END, ESC_ESC for ESC, and anything else is dropped. */
  lemma RecvEscape(r: Rx, b: byte)
    requires r.state == Escaping
    ensures RecvStep(r, b).frame
         == r.frame + (if b == ESC_END then [END] else if b == ESC_ESC then [ESC] else [])
  {
  }

  lemma {:induction false} RecvAllAppend(r: Rx, a: seq<byte>, b: seq<byte>)
    ensures RecvAll(r, a + b) == RecvAll(RecvAll(r, a), b)
    decreases |b|
  {
    if b == [] {
      assert a + b == a;
    } else {
      var b' := b[..|b| - 1];
      assert (a + b)[..|a + b| - 1] == a + b';
      RecvAllAppend(r, a, b');
    }
  }

  /** Inside a frame, the escape of a byte decodes to that byte. */
  lemma RecvEscapeByte(r: Rx, b: byte)
    requires r.state == InFrame
    ensures RecvAll(r, EscapeByte(b)) == Rx(InFrame, r.frame + [b])
  {
    var e := EscapeByte(b);
    if b == END || b == ESC {
      assert e[..1] == [ESC] && [ESC][..0] == [];
      assert RecvAll(r, [ESC]) == Rx(Escaping, r.frame);
    } else {
      assert e[..0] == [];
    }
  }

  /** Inside a frame, an escaped payload decodes to the payload. */
  lemma {:induction false} RecvEscaped(r: Rx, data: seq<byte>)
    requires r.state == InFrame
    ensures RecvAll(r, Escape(data)) == Rx(InFrame, r.frame + data)
    decreases |data|
  {
    if data == [] {
      assert r.frame + data == r.frame;
    } else {
      var init, last := data[..|data| - 1], data[|data| - 1];
      RecvEscaped(r, init);
      RecvAllAppend(r, Escape(init), EscapeByte(last));
      RecvEscapeByte(Rx(InFrame, r.frame + init), last);
      assert r.frame + init + [last] == r.frame + data;
    }
  }

  /**
   * A frame fed to a receiver that is outside a frame leaves it outside a
   * frame again, having collected exactly the payload.
   */
  lemma FrameRoundTrip(r: Rx, data: seq<byte>)
    requires r.state == NoFrame
    ensures RecvAll(r, Frame(data)) == Rx(NoFrame, data)
  {
    var e := Escape(data);
    assert Frame(data) == [END] + e + [END];
    RecvAllAppend(r, [END] + e, [END]);
    RecvAllAppend(r, [END], e);
    assert RecvAll(r, [END]) == Rx(InFrame, []) by {
      assert [END][..0] == [];
    }
    RecvEscaped(Rx(InFrame, []), data);
    assert [] + data == data;
    assert RecvAll(Rx(InFrame, data), [END]) == Rx(NoFrame, data) by {
      assert [END][..0] == [];
    }
  }

  /** The receiver of the stub: its state, and the model's collector of decoded bytes. */
  class SlipRx {
    var state: RxState
    var frame: seq<byte>

    function Get(): Rx
      reads this
    {
      Rx(state, frame)
    }

    constructor ()
      ensures Get() == Rx(NoFrame, [])
    {
      state := NoFrame;
      frame := [];
    }

    /** `slip_recv_byte` */
    method RecvByte(b: byte)
      modifies this
      ensures Get() == RecvStep(old(Get()), b)
    {
      match state {
        case NoFrame =>
          if b == END {
            state := InFrame;
            frame := [];
          }
        case InFrame =>
          if b == END {
            state := NoFrame;
          } else if b == ESC {
            state := Escaping;
          } else {
            frame := frame + [b];
          }
        case Escaping =>
          state := InFrame;
          var decoded := b;
          if b == ESC_END {
            decoded := END;
          } else if b == ESC_ESC {
            decoded := ESC;
          } else {
            return;
          }
          frame := frame + [decoded];
      }
    }
  }
}
