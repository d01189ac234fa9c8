/**
 * The byte transport of the stub: the USB-Serial-JTAG transmit path with
 * its flush counter, and the draining loops of the two receive interrupt
 * handlers, which hand every received byte to the SLIP receiver.
 *
 * The USB peripheral is modelled by the log of what was handed to it (bytes
 * and flushes); a receive FIFO by the sequence of bytes it holds.  The
 * frame-complete and frame-error queries of the SLIP layer are not part of
 * this model: the UART handler takes them as one predicate on the receiver.
 */
module Transport {
  import opened Common
  import opened Slip

  /** What the transmit path hands to the USB peripheral. */
  datatype UsbOp = TxByte(b: byte) | TxFlush

  /** Bytes sent since the last flush (all of them when there was none). */
  function Pending(ops: seq<UsbOp>): nat
  {
    if ops == [] then 0
    else if ops[|ops| - 1].TxFlush? then 0
    else Pending(ops[..|ops| - 1]) + 1
  }

  /** Flush after this many bytes without one. */
  const FLUSH_EVERY := 63

  class UsbSerialTx {
    /** `transferred_without_flush`, an `unsigned short` */
    var transferredWithoutFlush: uint16
    var usbOut: seq<UsbOp>

    /** The counter is the number of unflushed bytes, and stays below the threshold between calls. */
    ghost predicate Valid()
      reads this
    {
      transferredWithoutFlush < FLUSH_EVERY && Pending(usbOut) == transferredWithoutFlush
    }

    constructor ()
      ensures Valid() && usbOut == []
    {
      transferredWithoutFlush := 0;
      usbOut := [];
    }

    /**
     * `usb_serial_jtag_tx_one_char`: send the byte, then flush when it was a
     * frame delimiter or when 63 bytes went out without a flush.
     */
    method TxOneChar(c: byte) returns (r: byte)
      requires Valid()
      modifies this
      ensures Valid()
      ensures r == 0
      ensures var flush := c == END || old(transferredWithoutFlush) + 1 == FLUSH_EVERY;
        usbOut == old(usbOut) + [TxByte(c)] + (if flush then [TxFlush] else [])
    {
      usbOut := usbOut + [TxByte(c)];
      transferredWithoutFlush := transferredWithoutFlush + 1;
      if c == END || transferredWithoutFlush >= FLUSH_EVERY {
        usbOut := usbOut + [TxFlush];
        transferredWithoutFlush := 0;
      }
      return 0;
    }
  }

  /** Sending one byte: the log grows by that byte, followed by a flush exactly when the rule says so. */
  lemma PendingAfterSend(ops: seq<UsbOp>, c: byte, flush: bool)
    ensures Pending(ops + [TxByte(c)]) == Pending(ops) + 1
    ensures Pending(ops + [TxByte(c)] + (if flush then [TxFlush] else []))
         == if flush then 0 else Pending(ops) + 1
  {
    var sent := ops + [TxByte(c)];
    assert sent[..|ops|] == ops;
    if flush {
      assert (sent + [TxFlush])[|sent|] == TxFlush;
    } else {
      assert sent + [] == sent;
    }
  }

  /**
   * Whatever bytes are sent, no more than 63 go out without a flush: a
   * valid transmitter has at most 62 unflushed bytes, and sending a 63rd
   * flushes.
   */
  lemma AtMost63Unflushed(ops: seq<UsbOp>, c: byte, counter: nat)
    requires Pending(ops) == counter && counter < FLUSH_EVERY
    ensures var flush := c == END || counter + 1 == FLUSH_EVERY;
      Pending(ops + [TxByte(c)]) <= FLUSH_EVERY
      && Pending(ops + [TxByte(c)] + (if flush then [TxFlush] else [])) < FLUSH_EVERY
  {
    PendingAfterSend(ops, c, c == END || counter + 1 == FLUSH_EVERY);
  }

  // ---------------------------------------------------------------------------
  // Receive interrupt handlers
  // ---------------------------------------------------------------------------

  /** The first `k` FIFO bytes, fed to the receiver. */
  function AfterBytes(r: Rx, fifo: seq<byte>, k: nat): Rx
    requires k <= |fifo|
  {
    RecvAll(r, fifo[..k])
  }

  /**
   * `uart_rx_interrupt_handler`: unless the RXFIFO_FULL or RXFIFO_TOUT flag
   * is set nothing is read; otherwise the `count` bytes of the FIFO are fed
   * to the receiver in order, stopping right after the byte that leaves the
   * receiver with a complete or erroneous frame.  Returns how many bytes
   * were read.
   */
  method UartRxHandler(rxFifoFull: bool, rxFifoTimeout: bool, fifo: seq<byte>,
                       rx: SlipRx, frameDone: Rx -> bool)
    returns (consumed: nat)
    modifies rx
    ensures consumed <= |fifo|
    ensures !rxFifoFull && !rxFifoTimeout ==> consumed == 0
    ensures rx.Get() == AfterBytes(old(rx.Get()), fifo, consumed)
    ensures (rxFifoFull || rxFifoTimeout) && consumed < |fifo| ==> consumed > 0 && frameDone(rx.Get())
    ensures forall k :: 0 < k < consumed ==> !frameDone(AfterBytes(old(rx.Get()), fifo, k))
  {
    ghost var start := rx.Get();
    consumed := 0;
    if rxFifoFull || rxFifoTimeout {
      var count := |fifo|;
      for i := 0 to count
        invariant consumed == i
        invariant rx.Get() == AfterBytes(start, fifo, i)
        invariant forall k :: 0 < k <= i ==> !frameDone(AfterBytes(start, fifo, k))
      {
        var b := fifo[i];
        rx.RecvByte(b);
        consumed := i + 1;
        assert fifo[..i + 1][..i] == fifo[..i];
        if frameDone(rx.Get()) {
          return;
        }
      }
    }
  }

  /** `usb_jtag_serial_interrupt_handler`: every available byte goes to the receiver, in order. */
  method UsbJtagRxHandler(fifo: seq<byte>, rx: SlipRx)
    modifies rx
    ensures rx.Get() == RecvAll(old(rx.Get()), fifo)
  {
    ghost var start := rx.Get();
    var next := 0;
    while next < |fifo|
      invariant next <= |fifo|
      invariant rx.Get() == RecvAll(start, fifo[..next])
    {
      rx.RecvByte(fifo[next]);
      assert fifo[..next + 1][..next] == fifo[..next];
      next := next + 1;
    }
    assert fifo[..|fifo|] == fifo;
  }
}
