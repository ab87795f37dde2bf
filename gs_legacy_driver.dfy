/**
 * The gs_usb driver of the older source layout (src/gs_usb/driver.rs). It issues the same
 * requests as the live driver with the same record encoders, with three differences that
 * matter here: the MODE flags come from this tree's table, `enable_timestamp` propagates a
 * failed transfer instead of ignoring it, and received records go through this tree's
 * decoder (no timestamp, no padding).
 *
 * As in the live model, USB transfers are not performed: requests are appended to a
 * transcript and each transfer's outcome is a parameter.
 */
module GsLegacyDriver {
  import opened Wrappers
  import opened Bytes
  import opened CanFrames
  import opened GsConstants
  import opened GsBitTiming
  import GsFrames
  import GsDriver
  import Codec = GsLegacyCodec

  /** The decoder of this tree as a receive loop sees it: the timestamp state passes through. */
  function LegacyDecoder(channel: byte): GsDriver.Decoder
  {
    (b: seq<byte>, t: Option<u64>) => GsFrames.RxResult(Codec.ParseHostFrameAt(b, channel), t)
  }

  /** The receive loop can rely on this tree's decoder. */
  lemma LegacyDecoderWellBehaved(channel: byte)
    ensures GsDriver.WellBehaved(LegacyDecoder(channel))
  {
    var dec := LegacyDecoder(channel);
    forall x, y, t | dec(x, t).step.Consumed?
      ensures dec(x + y, t) == dec(x, t)
    {
      Codec.ParseExtends(x, y, channel);
    }
  }

  /** `GsUsbDriver` of this tree. */
  class GsUsbDriver {
    var interface: byte
    var outEp: byte
    var channelIndex: byte
    var configuredBitrate: Option<u32>
    var timestampEnabled: bool
    var txCounter: u32
    var features: u32
    var outWmax: u16
    var padPkts: bool
    var btConst: Option<GsBtConst>
    /** The requests sent to the USB event loop so far. */
    var sent: seq<GsDriver.UsbRequest>

    /** The driver as `open` leaves it after the handshake; padding follows this tree's PAD_PKTS feature bit. */
    constructor (interface: byte, outEp: byte, outWmax: u16, n: GsDriver.Negotiated)
      ensures this.interface == interface && this.outEp == outEp && this.outWmax == outWmax
      ensures channelIndex == 0 && configuredBitrate == None && !timestampEnabled && txCounter == 0
      ensures features == n.features && btConst == Some(n.btConst)
      ensures padPkts == HasFlag(n.features, Codec.FEATURE_PAD_PKTS_TO_MAX_PKT_SIZE)
      ensures sent == []
    {
      this.interface := interface;
      this.outEp := outEp;
      this.outWmax := outWmax;
      channelIndex := 0;
      configuredBitrate := None;
      timestampEnabled := false;
      txCounter := 0;
      features := n.features;
      btConst := Some(n.btConst);
      padPkts := HasFlag(n.features, Codec.FEATURE_PAD_PKTS_TO_MAX_PKT_SIZE);
      sent := [];
    }

    /** The record size the device takes: 76 bytes with the FD feature, else 20. */
    function Room(): nat
      reads this
    {
      if HasFlag(features, Codec.FEATURE_FD) then GS_MAX_DATA else CLASSIC_MAX_DLC
    }

    /** `encode_frame_minimal`: a 20-byte record carrying the next echo id. */
    method EncodeFrameMinimal(f: CanFrame) returns (buf: seq<byte>)
      modifies this`txCounter
      ensures buf == GsDriver.TxRecord(f, GsDriver.EchoIdOf(old(txCounter)), channelIndex, CLASSIC_MAX_DLC)
      ensures |buf| == Codec.GS_CAN_FRAME_LEN && txCounter == GsDriver.NextCounter(old(txCounter))
    {
      var echoId := txCounter % 16;
      txCounter := (txCounter + 1) % TWO_32;
      buf := GsDriver.TxRecord(f, echoId, channelIndex, CLASSIC_MAX_DLC);
    }

    /** `encode_frame_tx_76`: a 76-byte record carrying the next echo id. */
    method EncodeFrameTx76(f: CanFrame) returns (buf: seq<byte>)
      modifies this`txCounter
      ensures buf == GsDriver.TxRecord(f, GsDriver.EchoIdOf(old(txCounter)), channelIndex, GS_MAX_DATA)
      ensures |buf| == GS_TX_FRAME_SIZE && txCounter == GsDriver.NextCounter(old(txCounter))
    {
      var echoId := txCounter % 16;
      txCounter := (txCounter + 1) % TWO_32;
      buf := GsDriver.TxRecord(f, echoId, channelIndex, GS_MAX_DATA);
    }

    /** The encoder choice of `send_frame` and `try_tx`: 76 bytes iff the FD feature is set. */
    method EncodeForDevice(f: CanFrame) returns (buf: seq<byte>)
      modifies this`txCounter
      ensures buf == GsDriver.TxRecord(f, GsDriver.EchoIdOf(old(txCounter)), channelIndex, Room())
      ensures txCounter == GsDriver.NextCounter(old(txCounter))
    {
      if HasFlag(features, Codec.FEATURE_FD) {
        buf := EncodeFrameTx76(f);
      } else {
        buf := EncodeFrameMinimal(f);
      }
    }

    /** `maybe_pad_tx`: zero-fill to a multiple of wMaxPacketSize when padding is on. */
    method MaybePadTx(buf: seq<byte>) returns (out: seq<byte>)
      ensures out == GsDriver.PadTx(buf, padPkts, outWmax)
    {
      out := buf;
      if padPkts {
        var m := outWmax as nat;
        if m > 0 {
          var rem := |out| % m;
          if rem != 0 {
            out := out + GsDriver.Zeros(m - rem);
          }
          GsDriver.AlignUpOfRem(|buf|, m);
        }
      }
    }

    /**
     * `try_tx`: one bulk write; a stall while padding is on turns padding off and makes one
     * more attempt with a freshly encoded record; a short write is an error.
     */
    method TryTx(f: CanFrame, buf: seq<byte>, first: IoResult, second: IoResult) returns (r: Result<(), IoError>)
      modifies this`sent, this`padPkts, this`txCounter
      ensures var retry := first.Err? && first.error.kind == BrokenPipe && old(padPkts);
        var fallback := GsDriver.TxRecord(f, GsDriver.EchoIdOf(old(txCounter)), channelIndex, Room());
        && sent == old(sent) + [GsDriver.BulkOut(outEp, buf)] + (if retry then [GsDriver.BulkOut(outEp, fallback)] else [])
        && padPkts == (old(padPkts) && !retry)
        && txCounter == (if retry then GsDriver.NextCounter(old(txCounter)) else old(txCounter))
        && (r.Ok? <==> first == Ok(|buf|) || (retry && second == Ok(|fallback|)))
        && (first.Err? && !retry ==> r == Err(first.error))
        && (retry && second.Err? ==> r == Err(second.error))
    {
      sent := sent + [GsDriver.BulkOut(outEp, buf)];
      if first.Ok? && first.value == |buf| {
        r := Ok(());
      } else if first.Err? && first.error.kind == BrokenPipe && padPkts {
        padPkts := false;
        var fallback := EncodeForDevice(f);
        sent := sent + [GsDriver.BulkOut(outEp, fallback)];
        if second.Ok? && second.value == |fallback| {
          r := Ok(());
        } else if second.Ok? {
          r := Err(IoError(Other, "incomplete bulk write (fallback)"));
        } else {
          r := Err(second.error);
        }
      } else if first.Ok? {
        r := Err(IoError(Other, "incomplete bulk write"));
      } else {
        r := Err(first.error);
      }
    }

    /** `send_frame`: encode for the device, pad, then `try_tx`. */
    method SendFrame(f: CanFrame, first: IoResult, second: IoResult) returns (r: Result<(), IoError>)
      modifies this`sent, this`padPkts, this`txCounter
      ensures var buf := GsDriver.PadTx(GsDriver.TxRecord(f, GsDriver.EchoIdOf(old(txCounter)), channelIndex, Room()), old(padPkts), outWmax);
        var retry := first.Err? && first.error.kind == BrokenPipe && old(padPkts);
        var fallback := GsDriver.TxRecord(f, GsDriver.EchoIdOf(GsDriver.NextCounter(old(txCounter))), channelIndex, Room());
        && sent == old(sent) + [GsDriver.BulkOut(outEp, buf)] + (if retry then [GsDriver.BulkOut(outEp, fallback)] else [])
        && padPkts == (old(padPkts) && !retry)
        && txCounter == (if retry then GsDriver.NextCounter(GsDriver.NextCounter(old(txCounter))) else GsDriver.NextCounter(old(txCounter)))
        && (r.Ok? <==> first == Ok(|buf|) || (retry && second == Ok(|fallback|)))
    {
      var buf := EncodeForDevice(f);
      buf := MaybePadTx(buf);
      r := TryTx(f, buf, first, second);
    }

    /** `open_channel_with_flags` / `open_channel_inner`: RESET, then START with this tree's flags. */
    method OpenWithFlags(listenOnly: bool, reset: IoResult, start: IoResult) returns (r: Result<(), IoError>)
      modifies this`sent
      ensures sent == old(sent) + [GsDriver.ModeRequest(channelIndex, interface, GS_CAN_MODE_RESET, 0)]
        + (if reset.Err? then [] else
             [GsDriver.ModeRequest(channelIndex, interface, GS_CAN_MODE_START, Codec.ModeFlags(timestampEnabled, padPkts, listenOnly))])
      ensures r == (if reset.Err? then Err(reset.error) else GsDriver.Done(start))
    {
      var flags := Codec.ModeFlags(timestampEnabled, padPkts, listenOnly);
      sent := sent + [GsDriver.ModeRequest(channelIndex, interface, GS_CAN_MODE_RESET, 0)];
      if reset.Err? {
        return Err(reset.error);
      }
      sent := sent + [GsDriver.ModeRequest(channelIndex, interface, GS_CAN_MODE_START, flags)];
      if start.Err? {
        return Err(start.error);
      }
      r := Ok(());
    }

    /** `open_channel`: refused, with nothing sent, until a bitrate is configured. */
    method OpenChannel(reset: IoResult, start: IoResult) returns (r: Result<(), IoError>)
      modifies this`sent
      ensures configuredBitrate.None? ==> r.Err? && r.error.kind == InvalidInput && sent == old(sent)
      ensures configuredBitrate.Some? ==>
        sent == old(sent) + [GsDriver.ModeRequest(channelIndex, interface, GS_CAN_MODE_RESET, 0)]
          + (if reset.Err? then [] else
               [GsDriver.ModeRequest(channelIndex, interface, GS_CAN_MODE_START, Codec.ModeFlags(timestampEnabled, padPkts, false))])
        && r == (if reset.Err? then Err(reset.error) else GsDriver.Done(start))
    {
      if configuredBitrate.None? {
        return Err(IoError(InvalidInput, "set_bitrate() must be called before open_channel()"));
      }
      r := OpenWithFlags(false, reset, start);
    }

    /** `open_listen_only`: as `open_channel`, with this tree's LISTEN_ONLY bit in the START flags. */
    method OpenListenOnly(reset: IoResult, start: IoResult) returns (r: Result<(), IoError>)
      modifies this`sent
      ensures configuredBitrate.None? ==> r.Err? && r.error.kind == InvalidInput && sent == old(sent)
      ensures configuredBitrate.Some? ==>
        sent == old(sent) + [GsDriver.ModeRequest(channelIndex, interface, GS_CAN_MODE_RESET, 0)]
          + (if reset.Err? then [] else
               [GsDriver.ModeRequest(channelIndex, interface, GS_CAN_MODE_START, Codec.ModeFlags(timestampEnabled, padPkts, true))])
        && r == (if reset.Err? then Err(reset.error) else GsDriver.Done(start))
    {
      if configuredBitrate.None? {
        return Err(IoError(InvalidInput, "set_bitrate() must be called before open_listen_only()"));
      }
      r := OpenWithFlags(true, reset, start);
    }

    /** `close_channel_inner`: MODE RESET. */
    method CloseChannel(reset: IoResult) returns (r: Result<(), IoError>)
      modifies this`sent
      ensures sent == old(sent) + [GsDriver.ModeRequest(channelIndex, interface, GS_CAN_MODE_RESET, 0)]
      ensures r == GsDriver.Done(reset)
    {
      sent := sent + [GsDriver.ModeRequest(channelIndex, interface, GS_CAN_MODE_RESET, 0)];
      r := GsDriver.Done(reset);
    }

    /**
     * `enable_timestamp` of this tree: sends TIMESTAMP with the LE word 1; timestamps are
     * recorded as enabled only when the transfer succeeds, and a failure is returned.
     */
    method EnableTimestamp(res: IoResult) returns (r: Result<(), IoError>)
      modifies this`sent, this`timestampEnabled
      ensures sent == old(sent) + [GsDriver.ControlOut(RequestTypeOut(), GS_USB_BREQ_TIMESTAMP, channelIndex, interface, Le32(1))]
      ensures r == GsDriver.Done(res)
      ensures timestampEnabled == (res.Ok? || old(timestampEnabled))
    {
      sent := sent + [GsDriver.ControlOut(RequestTypeOut(), GS_USB_BREQ_TIMESTAMP, channelIndex, interface, Le32(1))];
      if res.Err? {
        return Err(res.error);
      }
      timestampEnabled := true;
      r := Ok(());
    }

    /**
     * `set_bitrate`: needs the BT_CONST limits and a timing for the rate, then sends MODE
     * RESET and BITTIMING and records the bitrate only when both succeeded. (The source
     * calls a two-argument `calc_bit_timing` that this tree's bit_timing.rs does not
     * define; the model uses the live search over the device's limits.)
     */
    method SetBitrate(bitrate: u32, score: (nat, nat, nat) -> real, reset: IoResult, timing: IoResult)
      returns (r: Result<(), IoError>)
      modifies this`sent, this`configuredBitrate
      ensures btConst.None? ==> r.Err? && sent == old(sent)
      ensures btConst.Some? && (forall c :: InSpace(btConst.value, c) ==> !Kept(btConst.value, bitrate, c)) ==>
        r.Err? && r.error.kind == InvalidInput && sent == old(sent)
      ensures r.Ok? ==>
        && configuredBitrate == Some(bitrate) && reset.Ok? && timing.Ok? && btConst.Some?
        && (exists c :: BestAt(btConst.value, bitrate, score, c)
             && sent == old(sent) + [GsDriver.ModeRequest(channelIndex, interface, GS_CAN_MODE_RESET, 0),
                                     GsDriver.ControlOut(RequestTypeOut(), GS_USB_BREQ_BITTIMING, channelIndex, interface,
                                                         ToBytes(Candidate(btConst.value, bitrate, c).value))])
      ensures r.Err? ==> configuredBitrate == old(configuredBitrate)
      ensures btConst.Some? && (exists c :: InSpace(btConst.value, c) && Kept(btConst.value, bitrate, c)) ==>
        (r.Ok? <==> reset.Ok? && timing.Ok?)
    {
      if btConst.None? {
        return Err(IoError(Other, "BT_CONST not initialized"));
      }
      var t := CalcBitTiming(bitrate, btConst.value, score);
      if t.None? {
        return Err(IoError(InvalidInput, "Unable to compute bit timing for bitrate"));
      }
      sent := sent + [GsDriver.ModeRequest(channelIndex, interface, GS_CAN_MODE_RESET, 0)];
      if reset.Err? {
        return Err(reset.error);
      }
      sent := sent + [GsDriver.ControlOut(RequestTypeOut(), GS_USB_BREQ_BITTIMING, channelIndex, interface, ToBytes(t.value))];
      if timing.Err? {
        return Err(timing.error);
      }
      configuredBitrate := Some(bitrate);
      r := Ok(());
      assert sent == old(sent) + [GsDriver.ModeRequest(channelIndex, interface, GS_CAN_MODE_RESET, 0),
                                  GsDriver.ControlOut(RequestTypeOut(), GS_USB_BREQ_BITTIMING, channelIndex, interface, ToBytes(t.value))];
    }
  }

  /** A request from the driver to the USB thread of this tree (no configuration update). */
  datatype UsbCommand =
    | CmdControlOut(requestType: byte, request: byte, value: u16, index: u16, data: seq<byte>)
    | CmdControlIn(requestType: byte, request: byte, value: u16, index: u16, length: nat)
    | CmdBulkWrite(endpoint: byte, data: seq<byte>)
    | CmdShutdown

  /** `UsbEventLoop` of this tree. */
  class UsbEventLoop {
    var iface: byte
    var inEp: byte
    var rxBuffer: seq<byte>
    var lastTs: Option<u64>
    var channelIndex: byte
    var timestampEnabled: bool
    /** The frames sent to the driver, in order. */
    var delivered: seq<CanFrame>
    /** The requests made on the device handle, in order. */
    var issued: seq<GsDriver.UsbRequest>

    /** `UsbEventLoop::new`: empty buffer, no timestamp seen, channel 0, timestamps off. */
    constructor (iface: byte, inEp: byte)
      ensures this.iface == iface && this.inEp == inEp
      ensures rxBuffer == [] && lastTs == None && channelIndex == 0 && !timestampEnabled
      ensures delivered == [] && issued == []
    {
      this.iface := iface;
      this.inEp := inEp;
      rxBuffer := [];
      lastTs := None;
      channelIndex := 0;
      timestampEnabled := false;
      delivered := [];
      issued := [];
    }

    /**
     * `process_rx_chunk`: append the chunk, forward every record this tree's decoder
     * completes, in buffer order, and keep exactly the undecoded tail. The timestamp state
     * is passed to the decoder and never changes. An empty chunk changes nothing.
     */
    method ProcessRxChunk(chunk: seq<byte>)
      modifies this`rxBuffer, this`delivered
      ensures |chunk| == 0 ==> rxBuffer == old(rxBuffer) && delivered == old(delivered)
      ensures |chunk| > 0 ==>
        var d := GsDriver.Drain(old(rxBuffer) + chunk, LegacyDecoder(channelIndex), lastTs);
        && rxBuffer == (old(rxBuffer) + chunk)[d.consumed..]
        && delivered == old(delivered) + d.frames
        && d.lastTs == lastTs
    {
      if |chunk| == 0 {
        return;
      }
      rxBuffer := rxBuffer + chunk;
      LegacyDecoderWellBehaved(channelIndex);
      LegacyDrainKeepsTimestamp(rxBuffer, channelIndex, lastTs);
      var frames, offset, ts := GsDriver.PeelRecords(rxBuffer, LegacyDecoder(channelIndex), lastTs);
      delivered := delivered + frames;
      if offset > 0 {
        rxBuffer := rxBuffer[offset..];
      } else {
        assert rxBuffer == rxBuffer[0..];
      }
    }

    /**
     * `handle_rx_completion`: a chunk is processed; a NotConnected error ends the loop; any
     * other error clears the IN endpoint halt and is swallowed.
     */
    method HandleRxCompletion(result: GsDriver.InResult) returns (r: Result<(), IoError>)
      modifies this`rxBuffer, this`delivered, this`issued
      ensures result.Ok? ==>
        && r == Ok(()) && issued == old(issued)
        && (|result.value| > 0 ==>
              var d := GsDriver.Drain(old(rxBuffer) + result.value, LegacyDecoder(channelIndex), lastTs);
              rxBuffer == (old(rxBuffer) + result.value)[d.consumed..] && delivered == old(delivered) + d.frames)
      ensures result.Err? ==> rxBuffer == old(rxBuffer) && delivered == old(delivered)
      ensures result.Err? && result.error.kind == NotConnected ==> r == Err(result.error) && issued == old(issued)
      ensures result.Err? && result.error.kind != NotConnected ==> r == Ok(()) && issued == old(issued) + [GsDriver.ClearHalt(inEp)]
    {
      match result {
        case Ok(chunk) =>
          ProcessRxChunk(chunk);
          r := Ok(());
        case Err(e) =>
          if e.kind == NotConnected {
            r := Err(e);
          } else {
            issued := issued + [GsDriver.ClearHalt(inEp)];
            r := Ok(());
          }
      }
    }

    /** `recover_after_stall`: MODE RESET then MODE START with no flags. */
    method RecoverAfterStall(reset: IoResult, start: IoResult) returns (r: Result<(), IoError>)
      modifies this`issued
      ensures issued == old(issued) + [GsDriver.ModeRequest(channelIndex, iface, GS_CAN_MODE_RESET, 0)]
        + (if reset.Ok? then [GsDriver.ModeRequest(channelIndex, iface, GS_CAN_MODE_START, 0)] else [])
      ensures r == (if reset.Err? then Err(reset.error) else GsDriver.Done(start))
    {
      issued := issued + [GsDriver.ModeRequest(channelIndex, iface, GS_CAN_MODE_RESET, 0)];
      if reset.Err? {
        return Err(reset.error);
      }
      issued := issued + [GsDriver.ModeRequest(channelIndex, iface, GS_CAN_MODE_START, 0)];
      if start.Err? {
        return Err(start.error);
      }
      r := Ok(());
    }

    /** `bulk_write`: a stall or timeout clears the halt; a stall also restarts the channel. */
    method BulkWrite(endpoint: byte, data: seq<byte>, o: GsDriver.Outcomes) returns (r: IoResult)
      modifies this`issued
      ensures issued == old(issued) + GsDriver.BulkWriteRequests(endpoint, data, channelIndex, iface, o)
      ensures r == GsDriver.BulkWriteResult(o)
    {
      issued := issued + [GsDriver.BulkOut(endpoint, data)];
      r := o.transfer;
      if o.transfer.Err? {
        var kind := o.transfer.error.kind;
        if kind == WouldBlock || kind == BrokenPipe {
          issued := issued + [GsDriver.ClearHalt(endpoint)];
          if kind == BrokenPipe {
            var rec := RecoverAfterStall(o.reset, o.start);
            if rec.Err? {
              return Err(rec.error);
            }
          }
        }
      }
    }

    /**
     * `handle_command`: performs the request and replies. A MODE request sets the channel
     * index to the low byte of its value and a TIMESTAMP request sets `timestamp_enabled`
     * from its first data byte, whether or not the transfer succeeded.
     */
    method HandleCommand(cmd: UsbCommand, o: GsDriver.Outcomes) returns (keepRunning: bool, reply: GsDriver.Reply)
      modifies this`issued, this`channelIndex, this`timestampEnabled
      ensures keepRunning <==> !cmd.CmdShutdown?
      ensures cmd.CmdControlOut? ==>
        && issued == old(issued) + [GsDriver.ControlOut(cmd.requestType, cmd.request, cmd.value, cmd.index, cmd.data)]
        && channelIndex == (if cmd.request == GS_USB_BREQ_MODE then cmd.value % 0x100 else old(channelIndex))
        && timestampEnabled == (if cmd.request == GS_USB_BREQ_TIMESTAMP then |cmd.data| > 0 && cmd.data[0] != 0
                                else old(timestampEnabled))
        && reply == GsDriver.Written(o.transfer)
      ensures cmd.CmdControlIn? ==>
        issued == old(issued) + [GsDriver.ControlIn(cmd.requestType, cmd.request, cmd.value, cmd.index, cmd.length)]
        && reply == GsDriver.Read(o.readBack)
      ensures cmd.CmdBulkWrite? ==>
        issued == old(issued) + GsDriver.BulkWriteRequests(cmd.endpoint, cmd.data, channelIndex, iface, o)
        && reply == GsDriver.Written(GsDriver.BulkWriteResult(o))
      ensures cmd.CmdShutdown? ==> issued == old(issued) && reply == GsDriver.NoReply
      ensures !cmd.CmdControlOut? ==> channelIndex == old(channelIndex) && timestampEnabled == old(timestampEnabled)
    {
      match cmd {
        case CmdControlOut(requestType, request, value, index, data) =>
          issued := issued + [GsDriver.ControlOut(requestType, request, value, index, data)];
          if request == GS_USB_BREQ_MODE {
            channelIndex := value % 0x100;
          }
          if request == GS_USB_BREQ_TIMESTAMP {
            timestampEnabled := |data| > 0 && data[0] != 0;
          }
          keepRunning, reply := true, GsDriver.Written(o.transfer);
        case CmdControlIn(requestType, request, value, index, length) =>
          issued := issued + [GsDriver.ControlIn(requestType, request, value, index, length)];
          keepRunning, reply := true, GsDriver.Read(o.readBack);
        case CmdBulkWrite(endpoint, data) =>
          var res := BulkWrite(endpoint, data, o);
          keepRunning, reply := true, GsDriver.Written(res);
        case CmdShutdown =>
          keepRunning, reply := false, GsDriver.NoReply;
      }
    }
  }

  /** This tree's decoder never changes the timestamp state, so neither does draining with it. */
  lemma {:induction false} LegacyDrainKeepsTimestamp(buf: seq<byte>, channel: byte, ts: Option<u64>)
    ensures GsDriver.Drain(buf, LegacyDecoder(channel), ts).lastTs == ts
    decreases |buf|
  {
    var dec := LegacyDecoder(channel);
    if |buf| >= GS_HEADER_LEN {
      var r := dec(buf, ts);
      if r.step.Consumed? && 1 <= r.step.count <= |buf| {
        LegacyDrainKeepsTimestamp(buf[r.step.count..], channel, ts);
      }
    }
  }

  /**
   * A TX record of this tree's encoder for a valid frame, carrying the "not an echo" marker,
   * is read back by this tree's decoder as the same frame only when the frame has 8 data
   * bytes (or is not a data frame); shorter data frames are decoded from the header plus
   * their own length, which the 20-byte record always holds.
   */
  lemma TxRecordDecodes(f: CanFrame, channel: byte)
    requires ValidFrame(f) && f.timestamp == None
    ensures var b := GsDriver.TxRecord(f, GS_CAN_ECHO_ID_UNUSED, channel, CLASSIC_MAX_DLC);
      Codec.ParseHostFrameAt(b, channel)
      == GsFrames.Consumed(Some(if f.error then f.(id := f.id % 0x800) else f), GS_HEADER_LEN + GsFrames.DlcToLen(b[8]))
  {
    var b := GsDriver.TxRecord(f, GS_CAN_ECHO_ID_UNUSED, channel, CLASSIC_MAX_DLC);
    var n := GS_HEADER_LEN + GsFrames.DlcToLen(b[8]);
    if IsDataFrame(f) {
      assert b[GS_HEADER_LEN..n] == f.data;
    }
    GsDriver.TxIdDecodes(f, b[GS_HEADER_LEN..n]);
    Codec.ParseDecodesRecord(b, channel);
  }
}
