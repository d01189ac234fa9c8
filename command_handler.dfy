/**
 * The command loop of the flasher stub: each received frame is checked for
 * a length that matches its header, then dispatched on its command
 * identifier.  The handlers themselves and the sending of response packets
 * are outside this model; the loop records which handler it called with
 * which payload, and which response packets it sent itself.
 *
 * The packed layout of the command header is not modelled: a frame comes
 * with its decoded header, and the header size is a parameter.
 */
module CommandHandler {
  import opened Common
  import opened Commands

  /** The fields of `common_command_t`. */
  datatype CommandHeader = CommandHeader(direction: byte, command: byte, size: uint16, checksum: uint32)

  /** A frame as received: its bytes, and the header decoded from its first bytes. */
  datatype Received = Received(bytes: seq<byte>, header: CommandHeader)

  /** The arguments of `send_response_packet`. */
  datatype ResponsePacket = ResponsePacket(command: byte, value: uint32, data: seq<byte>, status: byte, error: byte)

  /** The command handlers `s_sync` … `s_erase_region`. */
  datatype Handler =
    | Sync | FlashBegin | FlashData | FlashEnd | MemBegin | MemData | MemEnd
    | WriteReg | ReadReg | SpiAttach | SpiSetParams | ChangeBaudrate
    | FlashDeflBegin | FlashDeflData | FlashDeflEnd | SpiFlashMd5
    | GetSecurityInfo | ReadFlash | EraseFlash | EraseRegion

  /** A handler call: `s_sync` takes no arguments, every other handler the payload and its size. */
  datatype Call = Call(handler: Handler, payload: Option<seq<byte>>)

  /** The command each handler serves. */
  function CommandOf(h: Handler): byte
  {
    match h
    case Sync => ESP_SYNC
    case FlashBegin => ESP_FLASH_BEGIN
    case FlashData => ESP_FLASH_DATA
    case FlashEnd => ESP_FLASH_END
    case MemBegin => ESP_MEM_BEGIN
    case MemData => ESP_MEM_DATA
    case MemEnd => ESP_MEM_END
    case WriteReg => ESP_WRITE_REG
    case ReadReg => ESP_READ_REG
    case SpiAttach => ESP_SPI_ATTACH
    case SpiSetParams => ESP_SPI_SET_PARAMS
    case ChangeBaudrate => ESP_CHANGE_BAUDRATE
    case FlashDeflBegin => ESP_FLASH_DEFL_BEGIN
    case FlashDeflData => ESP_FLASH_DEFL_DATA
    case FlashDeflEnd => ESP_FLASH_DEFL_END
    case SpiFlashMd5 => ESP_SPI_FLASH_MD5
    case GetSecurityInfo => ESP_GET_SECURITY_INFO
    case ReadFlash => ESP_READ_FLASH
    case EraseFlash => ESP_ERASE_FLASH
    case EraseRegion => ESP_ERASE_REGION
  }

  /**
   * The `switch` of `command_handler_loop`: the handler a command is
   * dispatched to, or `None` for ESP_RUN_USER_CODE and unknown commands.
   */
  function HandlerFor(command: byte): (h: Option<Handler>)
    ensures h.Some? ==> CommandOf(h.value) == command
  {
    if command == ESP_SYNC then Some(Sync)
    else if command == ESP_FLASH_BEGIN then Some(FlashBegin)
    else if command == ESP_FLASH_DATA then Some(FlashData)
    else if command == ESP_FLASH_END then Some(FlashEnd)
    else if command == ESP_MEM_BEGIN then Some(MemBegin)
    else if command == ESP_MEM_DATA then Some(MemData)
    else if command == ESP_MEM_END then Some(MemEnd)
    else if command == ESP_WRITE_REG then Some(WriteReg)
    else if command == ESP_READ_REG then Some(ReadReg)
    else if command == ESP_SPI_ATTACH then Some(SpiAttach)
    else if command == ESP_SPI_SET_PARAMS then Some(SpiSetParams)
    else if command == ESP_CHANGE_BAUDRATE then Some(ChangeBaudrate)
    else if command == ESP_FLASH_DEFL_BEGIN then Some(FlashDeflBegin)
    else if command == ESP_FLASH_DEFL_DATA then Some(FlashDeflData)
    else if command == ESP_FLASH_DEFL_END then Some(FlashDeflEnd)
    else if command == ESP_SPI_FLASH_MD5 then Some(SpiFlashMd5)
    else if command == ESP_GET_SECURITY_INFO then Some(GetSecurityInfo)
    else if command == ESP_READ_FLASH then Some(ReadFlash)
    else if command == ESP_ERASE_FLASH then Some(EraseFlash)
    else if command == ESP_ERASE_REGION then Some(EraseRegion)
    else None
  }

  /** Exactly the known commands other than ESP_RUN_USER_CODE have a handler. */
  lemma HandledCommands(command: byte)
    ensures HandlerFor(command).None? <==> command == ESP_RUN_USER_CODE || command !in COMMAND_IDS
  {
  }

  /** Every handler is reached, by its own command and by no other. */
  lemma DispatchIsOneToOne(h: Handler, command: byte)
    ensures HandlerFor(CommandOf(h)) == Some(h)
    ensures HandlerFor(command) == Some(h) <==> command == CommandOf(h)
  {
  }

  /** A frame whose length is the header size plus the payload size its header announces. */
  predicate LengthMatches(f: Received, headerSize: nat)
  {
    |f.bytes| == f.header.size + headerSize
  }

  /** A well-formed ESP_RUN_USER_CODE frame: the one that ends the loop. */
  predicate IsRunUserCode(f: Received, headerSize: nat)
  {
    |f.bytes| > 0 && LengthMatches(f, headerSize) && f.header.command == ESP_RUN_USER_CODE
  }

  /**
   * The response packets the loop sends itself for one frame: one
   * BAD_DATA_LEN error for a length that disagrees with the header, one
   * INVALID_COMMAND error for a command no handler serves other than
   * ESP_RUN_USER_CODE, none otherwise.
   */
  function FrameResponses(f: Received, headerSize: nat): (r: seq<ResponsePacket>)
    ensures |r| <= 1
    ensures r != [] ==> r[0].command == f.header.command && r[0].status == FAIL
                        && r[0].value == 0 && r[0].data == []
  {
    if |f.bytes| == 0 then []
    else if !LengthMatches(f, headerSize) then [ResponsePacket(f.header.command, 0, [], FAIL, BAD_DATA_LEN)]
    else if HandlerFor(f.header.command).Some? || f.header.command == ESP_RUN_USER_CODE then []
    else [ResponsePacket(f.header.command, 0, [], FAIL, INVALID_COMMAND)]
  }

  /**
   * The handler calls for one frame: the handler of its command, with the
   * bytes after the header (none for `s_sync`), when the length matches.
   */
  function FrameCalls(f: Received, headerSize: nat): (c: seq<Call>)
    ensures |c| <= 1
    ensures c != [] ==> CommandOf(c[0].handler) == f.header.command && LengthMatches(f, headerSize)
  {
    if |f.bytes| == 0 || !LengthMatches(f, headerSize) then []
    else match HandlerFor(f.header.command)
      case None => []
      case Some(h) => [Call(h, if h == Sync then None else Some(f.bytes[headerSize..]))]
  }

  /** Every frame but an empty one or the one leaving the loop gets exactly one response or one handler call. */
  lemma FrameAnswered(f: Received, headerSize: nat)
    ensures |FrameResponses(f, headerSize)| + |FrameCalls(f, headerSize)|
         == if |f.bytes| == 0 || IsRunUserCode(f, headerSize) then 0 else 1
  {
    HandledCommands(f.header.command);
  }

  /**
   * What one frame produces.  An empty frame nothing.  A frame whose length
   * disagrees with its header one BAD_DATA_LEN error response.  Otherwise a
   * known command one call of its handler with the bytes after the header
   * (no arguments for `s_sync`), ESP_RUN_USER_CODE nothing, and any other
   * command one INVALID_COMMAND error response.
   */
  lemma FrameOutcomes(f: Received, headerSize: nat)
    ensures |f.bytes| == 0 ==> FrameResponses(f, headerSize) == [] && FrameCalls(f, headerSize) == []
    ensures |f.bytes| > 0 && !LengthMatches(f, headerSize) ==>
      FrameResponses(f, headerSize) == [ResponsePacket(f.header.command, 0, [], FAIL, BAD_DATA_LEN)]
      && FrameCalls(f, headerSize) == []
    ensures |f.bytes| > 0 && LengthMatches(f, headerSize) && HandlerFor(f.header.command).Some? ==>
      var h := HandlerFor(f.header.command).value;
      && FrameCalls(f, headerSize) == [Call(h, if h == Sync then None else Some(f.bytes[headerSize..]))]
      && FrameResponses(f, headerSize) == []
    ensures IsRunUserCode(f, headerSize) ==> FrameResponses(f, headerSize) == [] && FrameCalls(f, headerSize) == []
    ensures |f.bytes| > 0 && LengthMatches(f, headerSize) && f.header.command !in COMMAND_IDS ==>
      FrameResponses(f, headerSize) == [ResponsePacket(f.header.command, 0, [], FAIL, INVALID_COMMAND)]
      && FrameCalls(f, headerSize) == []
  {
    HandledCommands(f.header.command);
  }

  /** The responses the loop sends for `frames`, frame after frame. */
  function LoopResponses(frames: seq<Received>, headerSize: nat): seq<ResponsePacket>
  {
    if frames == [] then []
    else LoopResponses(frames[..|frames| - 1], headerSize) + FrameResponses(frames[|frames| - 1], headerSize)
  }

  /** The handler calls the loop makes for `frames`, frame after frame. */
  function LoopCalls(frames: seq<Received>, headerSize: nat): seq<Call>
  {
    if frames == [] then []
    else LoopCalls(frames[..|frames| - 1], headerSize) + FrameCalls(frames[|frames| - 1], headerSize)
  }

  /** The number of non-empty frames in `frames`. */
  function NonEmptyFrames(frames: seq<Received>): nat
  {
    if frames == [] then 0
    else NonEmptyFrames(frames[..|frames| - 1]) + (if |frames[|frames| - 1].bytes| > 0 then 1 else 0)
  }

  /**
   * Before the loop is left, every non-empty frame is answered exactly
   * once: by one response packet or by one handler call.
   */
  lemma {:induction false} LoopAnswersEveryFrame(frames: seq<Received>, headerSize: nat)
    requires forall k :: 0 <= k < |frames| ==> !IsRunUserCode(frames[k], headerSize)
    ensures |LoopResponses(frames, headerSize)| + |LoopCalls(frames, headerSize)| == NonEmptyFrames(frames)
  {
    if frames != [] {
      var init := frames[..|frames| - 1];
      assert forall k :: 0 <= k < |init| ==> init[k] == frames[k];
      LoopAnswersEveryFrame(init, headerSize);
      FrameAnswered(frames[|frames| - 1], headerSize);
    }
  }

  /** Handling one more frame adds its responses and calls after the earlier ones. */
  lemma LoopStep(frames: seq<Received>, i: nat, headerSize: nat)
    requires i < |frames|
    ensures LoopResponses(frames[..i + 1], headerSize)
         == LoopResponses(frames[..i], headerSize) + FrameResponses(frames[i], headerSize)
    ensures LoopCalls(frames[..i + 1], headerSize) == LoopCalls(frames[..i], headerSize) + FrameCalls(frames[i], headerSize)
  {
    assert frames[..i + 1][..i] == frames[..i];
  }

  /** None of the first `n` frames leaves the loop. */
  predicate NoneLeaves(frames: seq<Received>, n: nat, headerSize: nat)
    requires n <= |frames|
  {
    forall k :: 0 <= k < n ==> !IsRunUserCode(frames[k], headerSize)
  }

  lemma NoneLeavesStep(frames: seq<Received>, i: nat, headerSize: nat)
    requires i < |frames| && NoneLeaves(frames, i, headerSize) && !IsRunUserCode(frames[i], headerSize)
    ensures NoneLeaves(frames, i + 1, headerSize)
  {
  }

  class CommandLoop {
    /** Response packets sent by the loop itself, oldest first. */
    var responses: seq<ResponsePacket>
    /** Handler calls, oldest first. */
    var calls: seq<Call>

    constructor ()
      ensures responses == [] && calls == []
    {
      responses := [];
      calls := [];
    }

    method SendResponsePacket(command: byte, value: uint32, data: seq<byte>, status: byte, error: byte)
      modifies this
      ensures responses == old(responses) + [ResponsePacket(command, value, data, status, error)]
      ensures calls == old(calls)
    {
      responses := responses + [ResponsePacket(command, value, data, status, error)];
    }

    /** `send_error_response`: status FAIL, value 0, no data. */
    method SendErrorResponse(command: byte, error: byte)
      modifies this
      ensures responses == old(responses) + [ResponsePacket(command, 0, [], FAIL, error)]
      ensures calls == old(calls)
    {
      SendResponsePacket(command, 0, [], FAIL, error);
    }

    /** `send_success_response`: status SUCCESS and NO_ERROR. */
    method SendSuccessResponse(command: byte, value: uint32, data: seq<byte>)
      modifies this
      ensures responses == old(responses) + [ResponsePacket(command, value, data, SUCCESS, NO_ERROR)]
      ensures calls == old(calls)
    {
      SendResponsePacket(command, value, data, SUCCESS, NO_ERROR);
    }

    method Dispatch(h: Handler, payload: Option<seq<byte>>)
      modifies this
      ensures calls == old(calls) + [Call(h, payload)]
      ensures responses == old(responses)
    {
      calls := calls + [Call(h, payload)];
    }

    /**
     * One iteration of `command_handler_loop`: sends the responses and makes
     * the handler calls `FrameResponses` and `FrameCalls` give for the frame
     * (`FrameOutcomes` spells them out) and returns whether the loop is left.
     */
    method HandleFrame(f: Received, headerSize: nat) returns (exit: bool)
      modifies this
      ensures exit <==> IsRunUserCode(f, headerSize)
      ensures responses == old(responses) + FrameResponses(f, headerSize)
      ensures calls == old(calls) + FrameCalls(f, headerSize)
    {
      var len := |f.bytes|;
      if len == 0 {
        return false;
      }
      var packet := f.header;
      if len != packet.size + headerSize {
        SendErrorResponse(packet.command, BAD_DATA_LEN);
        return false;
      }
      var data := f.bytes[headerSize..];
      var handler := HandlerFor(packet.command);
      if handler.Some? {
        if handler.value == Sync {
          Dispatch(Sync, None);
        } else {
          Dispatch(handler.value, Some(data));
        }
        return false;
      } else if packet.command == ESP_RUN_USER_CODE {
        return true;
      } else {
        SendErrorResponse(packet.command, INVALID_COMMAND);
        return false;
      }
    }

    /** Handling frame `i` after the ones before it. */
    method HandleNext(frames: seq<Received>, i: nat, headerSize: nat,
                      ghost responses0: seq<ResponsePacket>, ghost calls0: seq<Call>) returns (exit: bool)
      requires i < |frames|
      requires responses == responses0 + LoopResponses(frames[..i], headerSize)
      requires calls == calls0 + LoopCalls(frames[..i], headerSize)
      modifies this
      ensures exit <==> IsRunUserCode(frames[i], headerSize)
      ensures var handled := if exit then i else i + 1;
        && responses == responses0 + LoopResponses(frames[..handled], headerSize)
        && calls == calls0 + LoopCalls(frames[..handled], headerSize)
    {
      LoopStep(frames, i, headerSize);
      FrameOutcomes(frames[i], headerSize);
      exit := HandleFrame(frames[i], headerSize);
    }

    /**
     * `command_handler_loop` over the frames received in order: it handles
     * them, each as `HandleFrame` does, until one is a well-formed
     * ESP_RUN_USER_CODE frame and returns that frame's index, or `None`
     * when none of them is.
     */
    method Loop(frames: seq<Received>, headerSize: nat) returns (stop: Option<nat>)
      modifies this
      ensures stop.Some? ==> stop.value < |frames| && IsRunUserCode(frames[stop.value], headerSize)
      ensures var handled := if stop.Some? then stop.value else |frames|;
        && (forall k :: 0 <= k < handled ==> !IsRunUserCode(frames[k], headerSize))
        && responses == old(responses) + LoopResponses(frames[..handled], headerSize)
        && calls == old(calls) + LoopCalls(frames[..handled], headerSize)
    {
      ghost var responses0, calls0 := responses, calls;
      for i := 0 to |frames|
        invariant NoneLeaves(frames, i, headerSize)
        invariant responses == responses0 + LoopResponses(frames[..i], headerSize)
        invariant calls == calls0 + LoopCalls(frames[..i], headerSize)
      {
        var exit := HandleNext(frames, i, headerSize, responses0, calls0);
        if exit {
          return Some(i);
        }
        NoneLeavesStep(frames, i, headerSize);
      }
      assert frames[..|frames|] == frames;
      return None;
    }
  }

  /** The payload handed to a handler is exactly as long as the header announces. */
  lemma PayloadHasAnnouncedSize(f: Received, headerSize: nat)
    requires LengthMatches(f, headerSize)
    ensures |f.bytes[headerSize..]| == f.header.size
  {
  }
}
