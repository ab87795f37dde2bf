/**
 * The live gs_usb driver (src/drivers/gs_usb/driver.rs): the host-to-device record
 * encoders, TX padding, the driver's state rules (bitrate before open, MODE RESET before
 * START, the timestamp request, the pad-then-retry fallback) and the USB event loop's
 * command handling and receive reassembly.
 *
 * USB transfers are not performed: each request the code issues is appended to a
 * transcript field, and the transfer's outcome is a parameter of the method that issues it.
 * The channels between the driver and the event loop become direct method calls.
 */
module GsDriver {
  import opened Wrappers
  import opened Bytes
  import opened CanFrames
  import opened GsConstants
  import opened GsBitTiming
  import opened GsFrames

  // ---------------------------------------------------------------- host-to-device records

  function Zeros(n: nat): (z: seq<byte>)
    ensures |z| == n && forall i :: 0 <= i < n ==> z[i] == 0
  {
    seq(n, _ => 0)
  }

  /** The CAN id word of a TX record: the id masked to 29 or 11 bits, then EFF, RTR and ERR OR'd in. */
  function TxCanId(f: CanFrame): (raw: u32)
  {
    var masked := if f.extended then f.id % 0x2000_0000 else f.id % 0x800;
    masked + (if f.extended then CAN_EFF_FLAG else 0)
           + (if f.rtr then CAN_RTR_FLAG else 0)
           + (if f.error then CAN_ERR_FLAG else 0)
  }

  /** Reading the flag bits of the id word back gives the frame's kind and its masked id. */
  lemma TxCanIdFlags(f: CanFrame)
    ensures HasFlag(TxCanId(f), CAN_EFF_FLAG) == f.extended
    ensures HasFlag(TxCanId(f), CAN_RTR_FLAG) == f.rtr
    ensures HasFlag(TxCanId(f), CAN_ERR_FLAG) == f.error
    ensures Low29(TxCanId(f)) == (if f.extended then f.id % 0x2000_0000 else f.id % 0x800)
    ensures Low11(TxCanId(f)) == f.id % 0x800
  {
    var masked := if f.extended then f.id % 0x2000_0000 else f.id % 0x800;
    var e, r, x := (if f.extended then 1 else 0), (if f.rtr then 1 else 0), (if f.error then 1 else 0);
    var raw := TxCanId(f);
    assert raw == (4 * e + 2 * r + x) * 0x2000_0000 + masked;
    DivModUnique(raw, 0x2000_0000, 4 * e + 2 * r + x, masked);
    DivModUnique(raw, 0x4000_0000, 2 * e + r, x * 0x2000_0000 + masked);
    DivModUnique(raw, 0x8000_0000, e, (2 * r + x) * 0x2000_0000 + masked);
    DivModUnique(4 * e + 2 * r + x, 2, 2 * e + r, x);
    DivModUnique(2 * e + r, 2, e, r);
    DivModUnique(e, 2, 0, e);
    DivModUnique(raw, 0x800, (4 * e + 2 * r + x) * 0x4_0000 + masked / 0x800, masked % 0x800);
    if f.extended {
      DivModUnique(f.id, 0x800, (f.id / 0x2000_0000) * 0x4_0000 + masked / 0x800, masked % 0x800);
    }
  }

  /**
   * The layout `encode_frame_minimal` (room for 8 data bytes, 20 in all) and
   * `encode_frame_tx_76` (room for 64, 76 in all) share: echo id, flagged CAN id, the DLC
   * truncated to a byte, the channel, two zero bytes, then the payload cut to the room
   * and zero-filled.
   */
  function TxRecord(f: CanFrame, echoId: u32, channel: byte, room: nat): (b: seq<byte>)
    ensures |b| == GS_HEADER_LEN + room
    ensures ReadLe32(b, 0) == echoId && ReadLe32(b, 4) == TxCanId(f)
    ensures b[8] == f.dlc % 0x100 && b[9] == channel && b[10] == 0 && b[11] == 0
    ensures var n := if |f.data| < room then |f.data| else room;
      b[12..12 + n] == f.data[..n] && forall i :: 12 + n <= i < |b| ==> b[i] == 0
  {
    var n := if |f.data| < room then |f.data| else room;
    var b := Le32(echoId) + Le32(TxCanId(f)) + [f.dlc % 0x100, channel, 0, 0] + f.data[..n] + Zeros(room - n);
    assert b[0..4] == Le32(echoId) && b[4..8] == Le32(TxCanId(f));
    ReadLe32OfLe32(b, 0, echoId);
    ReadLe32OfLe32(b, 4, TxCanId(f));
    assert b[12..12 + n] == f.data[..n];
    b
  }

  /** The echo id a TX record carries: the transmit counter modulo 16. */
  function EchoIdOf(txCounter: u32): u32
  {
    txCounter % 16
  }

  /** `AtomicU32::fetch_add(1)`: the counter after one encoding, wrapping at 2^32. */
  function NextCounter(txCounter: u32): u32
  {
    (txCounter + 1) % TWO_32
  }

  /**
   * The device returns every transmitted record with its echo id. Such a record never
   * becomes a received frame: the receive decoder skips it whole, 20 bytes, without
   * touching the timestamp state.
   */
  lemma TxEchoIsSkipped(f: CanFrame, txCounter: u32, channel: byte, lastTs: Option<u64>, outWmax: nat)
    requires ValidFrame(f)
    ensures var b := TxRecord(f, EchoIdOf(txCounter), channel, 8);
      ParseHostFrameAt(b, channel, false, lastTs, outWmax, false) == RxResult(Consumed(None, 20), lastTs)
  {
    var b := TxRecord(f, EchoIdOf(txCounter), channel, 8);
    assert b[8] <= 8;
  }

  /**
   * The host-to-device and device-to-host layouts agree: a 20-byte TX record of a valid
   * frame, carrying the "not an echo" marker instead of an echo id, decodes to that
   * frame. Error frames are the exception: the encoder keeps only 11 bits of their id.
   */
  lemma TxRecordDecodes(f: CanFrame, channel: byte, lastTs: Option<u64>, outWmax: nat)
    requires ValidFrame(f) && f.timestamp == None
    ensures var b := TxRecord(f, GS_CAN_ECHO_ID_UNUSED, channel, 8);
      ParseHostFrameAt(b, channel, false, lastTs, outWmax, false)
      == RxResult(Consumed(Some(if f.error then f.(id := f.id % 0x800) else f), 20), lastTs)
  {
    var b := TxRecord(f, GS_CAN_ECHO_ID_UNUSED, channel, 8);
    var dataLen := DlcToLen(b[8]);
    if IsDataFrame(f) {
      assert b[12..12 + dataLen] == f.data;
    }
    TxIdDecodes(f, b[12..12 + dataLen]);
    ParseDecodesRecord(b, channel, false, lastTs, outWmax, false);
  }

  /** The CAN id word of a TX record, with the record's payload, decodes to the frame. */
  lemma TxIdDecodes(f: CanFrame, payload: seq<byte>)
    requires ValidFrame(f) && f.timestamp == None
    requires IsDataFrame(f) ==> payload == f.data
    ensures DecodeFrame(TxCanId(f), f.dlc, payload)
      == Some(if f.error then f.(id := f.id % 0x800) else f)
  {
    TxCanIdFlags(f);
    DecodePriority(TxCanId(f), f.dlc, payload);
  }

  // ---------------------------------------------------------------- TX padding

  /** The buffer zero-filled up to the next multiple of `outWmax` when padding is on. */
  function PadTx(buf: seq<byte>, padPkts: bool, outWmax: nat): (out: seq<byte>)
    ensures !(padPkts && outWmax > 0) ==> out == buf
    ensures padPkts && outWmax > 0 ==>
      |out| % outWmax == 0 && |buf| <= |out| < |buf| + outWmax
      && out[..|buf|] == buf && forall i :: |buf| <= i < |out| ==> out[i] == 0
  {
    if padPkts && outWmax > 0 then buf + Zeros(AlignUp(|buf|, outWmax) - |buf|) else buf
  }

  // ---------------------------------------------------------------- MODE flags

  /**
   * The flags word MODE START carries: HW_TIMESTAMP iff timestamps are enabled, PAD_PKTS
   * iff padding is on, LISTEN_ONLY iff a listen-only open; no other bit.
   */
  function ModeFlags(timestampEnabled: bool, padPkts: bool, listenOnly: bool): (flags: u32)
    ensures HasFlag(flags, GS_CAN_MODE_HW_TIMESTAMP) == timestampEnabled
    ensures HasFlag(flags, GS_CAN_MODE_PAD_PKTS_TO_MAX_PKT_SIZE) == padPkts
    ensures HasFlag(flags, GS_CAN_MODE_LISTEN_ONLY) == listenOnly
    ensures flags < 0x100 && (flags == 0 <==> !timestampEnabled && !padPkts && !listenOnly)
  {
    var t, p, l := (if timestampEnabled then 1 else 0), (if padPkts then 1 else 0), (if listenOnly then 1 else 0);
    var flags := t * GS_CAN_MODE_HW_TIMESTAMP + p * GS_CAN_MODE_PAD_PKTS_TO_MAX_PKT_SIZE + l * GS_CAN_MODE_LISTEN_ONLY;
    DivModUnique(flags, 0x10, t + 8 * p, l);
    DivModUnique(t + 8 * p, 2, 4 * p, t);
    DivModUnique(flags, 0x80, p, 0x10 * t + l);
    DivModUnique(p, 2, 0, p);
    DivModUnique(flags, 1, flags, 0);
    DivModUnique(flags, 2, 8 * t + 64 * p, l);
    flags
  }

  // ---------------------------------------------------------------- USB traffic

  /** A USB request the code issues, in the order it issues them. */
  datatype UsbRequest =
    | ControlOut(requestType: byte, request: byte, value: u16, index: u16, data: seq<byte>)
    | ControlIn(requestType: byte, request: byte, value: u16, index: u16, length: nat)
    | BulkOut(endpoint: byte, data: seq<byte>)
    | ClearHalt(endpoint: byte)

  /** A MODE request for a channel of an interface. */
  function ModeRequest(channel: byte, iface: byte, mode: u32, flags: u32): UsbRequest
  {
    ControlOut(RequestTypeOut(), GS_USB_BREQ_MODE, channel, iface, EncodeMode(mode, flags))
  }

  /** Unit result of a transfer whose byte count the caller drops. */
  function Done(r: IoResult): Result<(), IoError>
  {
    if r.Ok? then Ok(()) else Err(r.error)
  }

  // ---------------------------------------------------------------- the open handshake

  /** A control-IN transfer's answer: the bytes the device returned, or the error. */
  type InResult = Result<seq<byte>, IoError>

  /**
   * `read_bt_const`: BT_CONST_EXT first, taken when it returns at least 40 bytes; otherwise
   * BT_CONST, which must return at least 40 bytes. The value is the layout of the first 40.
   */
  function ReadBtConst(ext: InResult, plain: InResult): (r: Result<GsBtConst, IoError>)
    ensures r.Ok? <==> (ext.Ok? && |ext.value| >= 40) || (plain.Ok? && |plain.value| >= 40)
    ensures r.Ok? && ext.Ok? && |ext.value| >= 40 ==> BtConstBytes(r.value) == ext.value[..40]
    ensures r.Ok? && !(ext.Ok? && |ext.value| >= 40) ==> BtConstBytes(r.value) == plain.value[..40]
  {
    if ext.Ok? && |ext.value| >= 40 then Ok(ParseBtConst(ext.value[..40]))
    else if plain.Err? then Err(plain.error)
    else if |plain.value| < 40 then Err(IoError(Other, "BT_CONST short read"))
    else Ok(ParseBtConst(plain.value[..40]))
  }

  /**
   * `read_features`: the first LE u32 of a BT_CONST_EXT answer of at least 4 bytes,
   * otherwise of a BT_CONST answer of exactly 4 bytes.
   */
  function ReadFeatures(ext: InResult, plain: InResult): (r: Result<u32, IoError>)
    ensures r.Ok? <==> (ext.Ok? && |ext.value| >= 4) || (plain.Ok? && |plain.value| == 4)
    ensures r.Ok? ==> Le32(r.value) == (if ext.Ok? && |ext.value| >= 4 then ext.value[..4] else plain.value)
  {
    if ext.Ok? && |ext.value| >= 4 then
      Le32OfReadLe32(ext.value, 0);
      Ok(ReadLe32(ext.value, 0))
    else if plain.Err? then Err(plain.error)
    else if |plain.value| != 4 then Err(IoError(Other, "bt_const short read"))
    else
      Le32OfReadLe32(plain.value, 0);
      assert plain.value[0..4] == plain.value;
      Ok(ReadLe32(plain.value, 0))
  }

  /** What `open` learns from the device. */
  datatype Negotiated = Negotiated(btConst: GsBtConst, features: u32)

  /**
   * The handshake of `open`: HOST_FORMAT must report 4 bytes written, BT_CONST must be
   * read, DEVICE_CONFIG must return at least 4 bytes; the feature word then comes from
   * `read_features`, or is 0 when that fails.
   */
  function OpenHandshake(hostFormat: IoResult, btExt: InResult, btPlain: InResult,
                         deviceConfig: InResult, featExt: InResult, featPlain: InResult): (r: Result<Negotiated, IoError>)
    ensures r.Ok? <==> hostFormat == Ok(4) && ReadBtConst(btExt, btPlain).Ok?
                       && deviceConfig.Ok? && |deviceConfig.value| >= 4
    ensures r.Ok? ==> r.value.btConst == ReadBtConst(btExt, btPlain).value
    ensures r.Ok? && ReadFeatures(featExt, featPlain).Err? ==> r.value.features == 0
    ensures r.Ok? && featExt.Ok? && |featExt.value| >= 4 ==> Le32(r.value.features) == featExt.value[..4]
    ensures (r.Ok? && !(featExt.Ok? && |featExt.value| >= 4) && featPlain.Ok? && |featPlain.value| == 4)
            ==> Le32(r.value.features) == featPlain.value
  {
    if hostFormat.Err? then Err(hostFormat.error)
    else if hostFormat.value != 4 then Err(IoError(Other, "host_format short write"))
    else match ReadBtConst(btExt, btPlain)
      case Err(e) => Err(e)
      case Ok(bt) =>
        if deviceConfig.Err? then Err(deviceConfig.error)
        else if |deviceConfig.value| < 4 then Err(IoError(Other, "device_config too short"))
        else
          var features := match ReadFeatures(featExt, featPlain) case Ok(v) => v case Err(_) => 0;
          Ok(Negotiated(bt, features))
  }

  // ---------------------------------------------------------------- the driver

  /** `GsUsbDriver`: the state the async side keeps about one opened adapter. */
  class GsUsbDriver {
    var interface: byte
    var outEp: byte
    var channelIndex: byte
    var configuredBitrate: Option<u32>
    var timestampEnabled: bool
    var txCounter: u32
    var features: u32
    var outWmax: u16
    var padPkts: bool
    var btConst: Option<GsBtConst>
    /** The requests sent to the USB event loop so far. */
    var sent: seq<UsbRequest>

    /** The driver as `open` leaves it after a successful handshake. */
    constructor (interface: byte, outEp: byte, outWmax: u16, n: Negotiated)
      ensures this.interface == interface && this.outEp == outEp && this.outWmax == outWmax
      ensures channelIndex == 0 && configuredBitrate == None && !timestampEnabled && txCounter == 0
      ensures features == n.features && btConst == Some(n.btConst)
      ensures padPkts == HasFlag(n.features, GS_CAN_FEATURE_PAD_PKTS_TO_MAX_PKT_SIZE)
      ensures sent == []
    {
      this.interface := interface;
      this.outEp := outEp;
      this.outWmax := outWmax;
      channelIndex := 0;
      configuredBitrate := None;
      timestampEnabled := false;
      txCounter := 0;
      features := n.features;
      btConst := Some(n.btConst);
      padPkts := HasFlag(n.features, GS_CAN_FEATURE_PAD_PKTS_TO_MAX_PKT_SIZE);
      sent := [];
    }

    /** The record size the device takes: 76 bytes when it reports CAN FD, else 20. */
    function Room(): nat
      reads this
    {
      if HasFlag(features, GS_CAN_FEATURE_FD) then GS_MAX_DATA else CLASSIC_MAX_DLC
    }

    /** `encode_frame_minimal`: a 20-byte record carrying the next echo id. */
    method EncodeFrameMinimal(f: CanFrame) returns (buf: seq<byte>)
      modifies this`txCounter
      ensures buf == TxRecord(f, EchoIdOf(old(txCounter)), channelIndex, CLASSIC_MAX_DLC)
      ensures |buf| == 20 && txCounter == NextCounter(old(txCounter))
    {
      var echoId := txCounter % 16;
      txCounter := (txCounter + 1) % TWO_32;
      buf := TxRecord(f, echoId, channelIndex, CLASSIC_MAX_DLC);
    }

    /** `encode_frame_tx_76`: a 76-byte record carrying the next echo id. */
    method EncodeFrameTx76(f: CanFrame) returns (buf: seq<byte>)
      modifies this`txCounter
      ensures buf == TxRecord(f, EchoIdOf(old(txCounter)), channelIndex, GS_MAX_DATA)
      ensures |buf| == GS_TX_FRAME_SIZE && txCounter == NextCounter(old(txCounter))
    {
      var echoId := txCounter % 16;
      txCounter := (txCounter + 1) % TWO_32;
      buf := TxRecord(f, echoId, channelIndex, GS_MAX_DATA);
    }

    /** The encoder choice of `send_frame` and `try_tx`: 76 bytes iff the FD feature is set. */
    method EncodeForDevice(f: CanFrame) returns (buf: seq<byte>)
      modifies this`txCounter
      ensures buf == TxRecord(f, EchoIdOf(old(txCounter)), channelIndex, Room())
      ensures txCounter == NextCounter(old(txCounter))
    {
      if HasFlag(features, GS_CAN_FEATURE_FD) {
        buf := EncodeFrameTx76(f);
      } else {
        buf := EncodeFrameMinimal(f);
      }
    }

    /** `maybe_pad_tx`: zero-fill to a multiple of wMaxPacketSize when padding is on. */
    method MaybePadTx(buf: seq<byte>) returns (out: seq<byte>)
      ensures out == PadTx(buf, padPkts, outWmax)
    {
      out := buf;
      if padPkts {
        var m := outWmax as nat;
        if m > 0 {
          var rem := |out| % m;
          if rem != 0 {
            out := out + Zeros(m - rem);
            AlignUpOfRem(|buf|, m);
          } else {
            AlignUpOfRem(|buf|, m);
          }
        }
      }
    }

    /**
     * `try_tx`: one bulk write of `buf`. A stall while padding is on turns padding off and
     * makes exactly one more attempt with a freshly encoded, unpadded record (which uses
     * the next echo id). Any write shorter than the record is an error.
     */
    method TryTx(f: CanFrame, buf: seq<byte>, first: IoResult, second: IoResult) returns (r: Result<(), IoError>)
      modifies this`sent, this`padPkts, this`txCounter
      ensures var retry := first.Err? && first.error.kind == BrokenPipe && old(padPkts);
        var fallback := TxRecord(f, EchoIdOf(old(txCounter)), channelIndex, Room());
        && sent == old(sent) + [BulkOut(outEp, buf)] + (if retry then [BulkOut(outEp, fallback)] else [])
        && padPkts == (old(padPkts) && !retry)
        && txCounter == (if retry then NextCounter(old(txCounter)) else old(txCounter))
        && (r.Ok? <==> first == Ok(|buf|) || (retry && second == Ok(|fallback|)))
        && (first.Err? && !retry ==> r == Err(first.error))
        && (retry && second.Err? ==> r == Err(second.error))
    {
      sent := sent + [BulkOut(outEp, buf)];
      if first.Ok? && first.value == |buf| {
        r := Ok(());
      } else if first.Err? && first.error.kind == BrokenPipe && padPkts {
        padPkts := false;
        var fallback := EncodeForDevice(f);
        sent := sent + [BulkOut(outEp, fallback)];
        if second.Ok? && second.value == |fallback| {
          r := Ok(());
        } else if second.Ok? {
          r := Err(IoError(Other, "incomplete bulk write (fallback)"));
        } else {
          r := Err(second.error);
        }
      } else if first.Ok? {
        r := Err(IoError(Other, "incomplete bulk write"));
      } else {
        r := Err(first.error);
      }
    }

    /** `send_frame`: encode for the device, pad, then `try_tx`. */
    method SendFrame(f: CanFrame, first: IoResult, second: IoResult) returns (r: Result<(), IoError>)
      modifies this`sent, this`padPkts, this`txCounter
      ensures var buf := PadTx(TxRecord(f, EchoIdOf(old(txCounter)), channelIndex, Room()), old(padPkts), outWmax);
        var retry := first.Err? && first.error.kind == BrokenPipe && old(padPkts);
        var fallback := TxRecord(f, EchoIdOf(NextCounter(old(txCounter))), channelIndex, Room());
        && sent == old(sent) + [BulkOut(outEp, buf)] + (if retry then [BulkOut(outEp, fallback)] else [])
        && padPkts == (old(padPkts) && !retry)
        && txCounter == (if retry then NextCounter(NextCounter(old(txCounter))) else NextCounter(old(txCounter)))
        && (r.Ok? <==> first == Ok(|buf|) || (retry && second == Ok(|fallback|)))
    {
      var buf := EncodeForDevice(f);
      buf := MaybePadTx(buf);
      r := TryTx(f, buf, first, second);
    }

    /** RESET then START with the flags for the current state; stops at the first failure. */
    method OpenWithFlags(listenOnly: bool, reset: IoResult, start: IoResult) returns (r: Result<(), IoError>)
      modifies this`sent
      ensures sent == old(sent) + [ModeRequest(channelIndex, interface, GS_CAN_MODE_RESET, 0)]
        + (if reset.Err? then [] else
             [ModeRequest(channelIndex, interface, GS_CAN_MODE_START, ModeFlags(timestampEnabled, padPkts, listenOnly))])
      ensures r == (if reset.Err? then Err(reset.error) else Done(start))
    {
      var flags := ModeFlags(timestampEnabled, padPkts, listenOnly);
      sent := sent + [ModeRequest(channelIndex, interface, GS_CAN_MODE_RESET, 0)];
      if reset.Err? {
        return Err(reset.error);
      }
      sent := sent + [ModeRequest(channelIndex, interface, GS_CAN_MODE_START, flags)];
      if start.Err? {
        return Err(start.error);
      }
      r := Ok(());
    }

    /** `open_channel`: refused, with nothing sent, until a bitrate is configured. */
    method OpenChannel(reset: IoResult, start: IoResult) returns (r: Result<(), IoError>)
      modifies this`sent
      ensures configuredBitrate.None? ==>
        r == Err(IoError(InvalidInput, "set_bitrate() must be called before open_channel()")) && sent == old(sent)
      ensures configuredBitrate.Some? ==>
        sent == old(sent) + [ModeRequest(channelIndex, interface, GS_CAN_MODE_RESET, 0)]
          + (if reset.Err? then [] else
               [ModeRequest(channelIndex, interface, GS_CAN_MODE_START, ModeFlags(timestampEnabled, padPkts, false))])
        && r == (if reset.Err? then Err(reset.error) else Done(start))
    {
      if configuredBitrate.None? {
        return Err(IoError(InvalidInput, "set_bitrate() must be called before open_channel()"));
      }
      r := OpenWithFlags(false, reset, start);
    }

    /** `open_listen_only`: as `open_channel`, with LISTEN_ONLY added to the START flags. */
    method OpenListenOnly(reset: IoResult, start: IoResult) returns (r: Result<(), IoError>)
      modifies this`sent
      ensures configuredBitrate.None? ==>
        r == Err(IoError(InvalidInput, "set_bitrate() must be called before open_listen_only()")) && sent == old(sent)
      ensures configuredBitrate.Some? ==>
        sent == old(sent) + [ModeRequest(channelIndex, interface, GS_CAN_MODE_RESET, 0)]
          + (if reset.Err? then [] else
               [ModeRequest(channelIndex, interface, GS_CAN_MODE_START, ModeFlags(timestampEnabled, padPkts, true))])
        && r == (if reset.Err? then Err(reset.error) else Done(start))
    {
      if configuredBitrate.None? {
        return Err(IoError(InvalidInput, "set_bitrate() must be called before open_listen_only()"));
      }
      r := OpenWithFlags(true, reset, start);
    }

    /** `close_channel`: MODE RESET. */
    method CloseChannel(reset: IoResult) returns (r: Result<(), IoError>)
      modifies this`sent
      ensures sent == old(sent) + [ModeRequest(channelIndex, interface, GS_CAN_MODE_RESET, 0)]
      ensures r == Done(reset)
    {
      sent := sent + [ModeRequest(channelIndex, interface, GS_CAN_MODE_RESET, 0)];
      r := Done(reset);
    }

    /**
     * `enable_timestamp`: sends TIMESTAMP with the LE word 1, and whatever the device
     * answers, records timestamps as enabled and succeeds.
     */
    method EnableTimestamp(res: IoResult) returns (r: Result<(), IoError>)
      modifies this`sent, this`timestampEnabled
      ensures sent == old(sent) + [ControlOut(RequestTypeOut(), GS_USB_BREQ_TIMESTAMP, channelIndex, interface, Le32(1))]
      ensures timestampEnabled && r == Ok(())
    {
      sent := sent + [ControlOut(RequestTypeOut(), GS_USB_BREQ_TIMESTAMP, channelIndex, interface, Le32(1))];
      match res {
        case Ok(_) => timestampEnabled := true;
        case Err(e) =>
          if e.kind == TimedOut {
            timestampEnabled := true;
          } else {
            timestampEnabled := true;
          }
      }
      r := Ok(());
    }

    /**
     * `set_bitrate`: needs the BT_CONST limits and a timing for the rate; then sends MODE
     * RESET and BITTIMING, and records the bitrate only when both transfers succeeded.
     */
    method SetBitrate(bitrate: u32, score: (nat, nat, nat) -> real, reset: IoResult, timing: IoResult)
      returns (r: Result<(), IoError>)
      modifies this`sent, this`configuredBitrate
      ensures btConst.None? ==> r == Err(IoError(Other, "BT_CONST not initialized")) && sent == old(sent)
      ensures btConst.Some? && (forall c :: InSpace(btConst.value, c) ==> !Kept(btConst.value, bitrate, c)) ==>
        r.Err? && r.error.kind == InvalidInput && sent == old(sent)
      ensures r.Ok? ==>
        && configuredBitrate == Some(bitrate) && reset.Ok? && timing.Ok? && btConst.Some?
        && (exists c :: BestAt(btConst.value, bitrate, score, c)
             && sent == old(sent) + [ModeRequest(channelIndex, interface, GS_CAN_MODE_RESET, 0),
                                     ControlOut(RequestTypeOut(), GS_USB_BREQ_BITTIMING, channelIndex, interface,
                                                ToBytes(Candidate(btConst.value, bitrate, c).value))])
      ensures r.Err? ==> configuredBitrate == old(configuredBitrate)
      ensures btConst.Some? && (exists c :: InSpace(btConst.value, c) && Kept(btConst.value, bitrate, c)) ==>
        (r.Ok? <==> reset.Ok? && timing.Ok?)
      ensures btConst.Some? && (exists c :: InSpace(btConst.value, c) && Kept(btConst.value, bitrate, c)) && reset.Err? ==>
        r == Err(reset.error) && sent == old(sent) + [ModeRequest(channelIndex, interface, GS_CAN_MODE_RESET, 0)]
      ensures btConst.Some? && (exists c :: InSpace(btConst.value, c) && Kept(btConst.value, bitrate, c)) && reset.Ok? ==>
        && (timing.Err? ==> r == Err(timing.error))
        && (exists c :: BestAt(btConst.value, bitrate, score, c)
             && sent == old(sent) + [ModeRequest(channelIndex, interface, GS_CAN_MODE_RESET, 0),
                                     ControlOut(RequestTypeOut(), GS_USB_BREQ_BITTIMING, channelIndex, interface,
                                                ToBytes(Candidate(btConst.value, bitrate, c).value))])
    {
      if btConst.None? {
        return Err(IoError(Other, "BT_CONST not initialized"));
      }
      var t := CalcBitTiming(bitrate, btConst.value, score);
      if t.None? {
        return Err(IoError(InvalidInput, "Unable to compute bit timing for bitrate"));
      }
      sent := sent + [ModeRequest(channelIndex, interface, GS_CAN_MODE_RESET, 0)];
      if reset.Err? {
        return Err(reset.error);
      }
      sent := sent + [ControlOut(RequestTypeOut(), GS_USB_BREQ_BITTIMING, channelIndex, interface, ToBytes(t.value))];
      assert sent == old(sent) + [ModeRequest(channelIndex, interface, GS_CAN_MODE_RESET, 0),
                                  ControlOut(RequestTypeOut(), GS_USB_BREQ_BITTIMING, channelIndex, interface, ToBytes(t.value))];
      if timing.Err? {
        return Err(timing.error);
      }
      configuredBitrate := Some(bitrate);
      r := Ok(());
    }
  }

  /** `align_up` agrees with the remainder arithmetic of `maybe_pad_tx`. */
  lemma AlignUpOfRem(n: nat, m: nat)
    requires m > 0
    ensures AlignUp(n, m) == (if n % m == 0 then n else n + (m - n % m))
  {
    var q := n / m;
    var up := if n % m == 0 then n else n + (m - n % m);
    assert up == (if n % m == 0 then q else q + 1) * m;
    DivModUnique(up, m, if n % m == 0 then q else q + 1, 0);
    UniqueMultiple(n, AlignUp(n, m), up, m);
  }

  /** There is one multiple of m in [n, n + m). */
  lemma UniqueMultiple(n: nat, a: nat, b: nat, m: nat)
    requires m > 0 && a % m == 0 && b % m == 0 && n <= a < n + m && n <= b < n + m
    ensures a == b
  {
    assert a == (a / m) * m && b == (b / m) * m;
    if a / m < b / m {
      MulSteps(a / m, b / m, m);
    } else if b / m < a / m {
      MulSteps(b / m, a / m, m);
    }
  }

  /** Multiples of m are at least m apart. */
  lemma MulSteps(a: nat, b: nat, m: nat)
    requires m > 0 && a < b
    ensures a * m + m <= b * m
  {
    MulAtLeast(b - a, m);
    assert b * m - a * m == (b - a) * m;
  }
  // ---------------------------------------------------------------- receive reassembly

  /** What peeling records off a buffer yields: the frames, the bytes consumed, the timestamp state. */
  datatype Drained = Drained(frames: seq<CanFrame>, consumed: nat, lastTs: Option<u64>)

  /** A record decoder: the buffer and the timestamp state in, a step and the new state out. */
  type Decoder = (seq<byte>, Option<u64>) -> RxResult

  /** `parse_host_frame_at` for one configuration of the event loop. */
  function GsDecoder(channel: byte, timestampEnabled: bool, outWmax: nat, padPkts: bool): Decoder
  {
    (b: seq<byte>, t: Option<u64>) => ParseHostFrameAt(b, channel, timestampEnabled, t, outWmax, padPkts)
  }

  /**
   * What the decode loop needs of a decoder: asking for more bytes leaves the timestamp
   * state alone, and a consuming step takes between 1 byte and the whole buffer.
   */
  ghost predicate StepsInBounds(dec: Decoder)
  {
    && (forall x, t :: dec(x, t).step.NeedMore? ==> dec(x, t).lastTs == t)
    && (forall x, t :: dec(x, t).step.Consumed? ==> 1 <= dec(x, t).step.count <= |x|)
  }

  /**
   * What reassembly across chunks needs as well: a consuming step is not changed by
   * appending bytes to the buffer.
   */
  ghost predicate WellBehaved(dec: Decoder)
  {
    && StepsInBounds(dec)
    && (forall x, y, t {:trigger dec(x, t), dec(x + y, t)} :: dec(x, t).step.Consumed? ==> dec(x + y, t) == dec(x, t))
  }

  /** The gs_usb record decoder is one reassembly can rely on. */
  lemma GsDecoderWellBehaved(channel: byte, timestampEnabled: bool, outWmax: nat, padPkts: bool)
    ensures WellBehaved(GsDecoder(channel, timestampEnabled, outWmax, padPkts))
  {
    var dec := GsDecoder(channel, timestampEnabled, outWmax, padPkts);
    forall x, y, t | dec(x, t).step.Consumed?
      ensures dec(x + y, t) == dec(x, t)
    {
      ParseExtends(x, y, channel, timestampEnabled, t, outWmax, padPkts);
    }
  }

  /**
   * Decode records from the front of `buf` while at least a header's worth of bytes
   * remains and the decoder consumes; skipped records produce no frame. (A step outside
   * 1..|buf| also stops it; the gs_usb decoder never takes one.)
   */
  function Drain(buf: seq<byte>, dec: Decoder, lastTs: Option<u64>): (d: Drained)
    ensures d.consumed <= |buf|
    decreases |buf|
  {
    if |buf| < GS_HEADER_LEN then Drained([], 0, lastTs)
    else
      var r := dec(buf, lastTs);
      match r.step
      case NeedMore => Drained([], 0, r.lastTs)
      case Consumed(f, n) =>
        if n < 1 || n > |buf| then Drained([], 0, r.lastTs)
        else
          var rest := Drain(buf[n..], dec, r.lastTs);
          Drained((if f.Some? then [f.value] else []) + rest.frames, n + rest.consumed, rest.lastTs)
  }

  /** What is left after draining is an incomplete record: too short, or "need more bytes". */
  lemma {:induction false} DrainLeavesIncompleteTail(buf: seq<byte>, dec: Decoder, lastTs: Option<u64>)
    requires StepsInBounds(dec)
    ensures var d := Drain(buf, dec, lastTs);
      var tail := buf[d.consumed..];
      |tail| < GS_HEADER_LEN || dec(tail, d.lastTs).step.NeedMore?
    decreases |buf|
  {
    if |buf| >= GS_HEADER_LEN {
      var r := dec(buf, lastTs);
      if r.step.Consumed? {
        var n := r.step.count;
        DrainLeavesIncompleteTail(buf[n..], dec, r.lastTs);
        var d' := Drain(buf[n..], dec, r.lastTs);
        assert buf[n..][d'.consumed..] == buf[n + d'.consumed..];
      } else {
        assert buf[0..] == buf;
      }
    }
  }

  /**
   * Cutting the stream into chunks does not change what is decoded: draining `a`, then
   * draining its leftover followed by `b`, gives the frames, byte count and timestamp state
   * of draining `a + b` in one go.
   */
  lemma {:induction false} DrainConcat(a: seq<byte>, b: seq<byte>, dec: Decoder, lastTs: Option<u64>)
    requires WellBehaved(dec)
    ensures var d1 := Drain(a, dec, lastTs);
      var d2 := Drain(a[d1.consumed..] + b, dec, d1.lastTs);
      Drain(a + b, dec, lastTs) == Drained(d1.frames + d2.frames, d1.consumed + d2.consumed, d2.lastTs)
    decreases |a|
  {
    if |a| >= GS_HEADER_LEN && dec(a, lastTs).step.Consumed? {
      var r := dec(a, lastTs);
      var n := r.step.count;
      DrainStep(a, dec, lastTs);
      DrainStep(a + b, dec, lastTs);
      DropAppend(a, b, n);
      DrainConcat(a[n..], b, dec, r.lastTs);
      var rest := Drain(a[n..], dec, r.lastTs);
      DropDrop(a, n, rest.consumed);
      var d2 := Drain(a[n + rest.consumed..] + b, dec, rest.lastTs);
      AppendAssoc(if r.step.frame.Some? then [r.step.frame.value] else [], rest.frames, d2.frames);
    } else {
      DrainStops(a, dec, lastTs);
      DropDrop(a, 0, 0);
    }
  }

  /** Draining after one consuming step: that step's frame, then draining the rest. */
  lemma DrainStep(buf: seq<byte>, dec: Decoder, lastTs: Option<u64>)
    requires StepsInBounds(dec)
    requires |buf| >= GS_HEADER_LEN && dec(buf, lastTs).step.Consumed?
    ensures var r := dec(buf, lastTs);
      var n := r.step.count;
      var rest := Drain(buf[n..], dec, r.lastTs);
      Drain(buf, dec, lastTs)
      == Drained((if r.step.frame.Some? then [r.step.frame.value] else []) + rest.frames, n + rest.consumed, rest.lastTs)
  {
  }

  /** Draining stops at once when the buffer is short or the decoder asks for more. */
  lemma DrainStops(buf: seq<byte>, dec: Decoder, lastTs: Option<u64>)
    requires StepsInBounds(dec)
    requires |buf| < GS_HEADER_LEN || dec(buf, lastTs).step.NeedMore?
    ensures Drain(buf, dec, lastTs) == Drained([], 0, lastTs)
  {
  }

  /**
   * The loop state of `process_rx_chunk`: the records before `offset` yielded `got`, and
   * draining from `offset` with timestamp state `ts` finishes the drain of the whole buffer.
   */
  ghost predicate DrainedUpTo(all: seq<byte>, dec: Decoder, ts0: Option<u64>, offset: nat, ts: Option<u64>, got: seq<CanFrame>)
  {
    && offset <= |all|
    && var rest := Drain(all[offset..], dec, ts);
    Drain(all, dec, ts0) == Drained(got + rest.frames, offset + rest.consumed, rest.lastTs)
  }

  lemma DrainedUpToStart(all: seq<byte>, dec: Decoder, ts0: Option<u64>)
    ensures DrainedUpTo(all, dec, ts0, 0, ts0, [])
  {
    assert all[0..] == all;
  }

  /** One consumed record moves the loop state past it. */
  lemma DrainedUpToAdvance(all: seq<byte>, dec: Decoder, ts0: Option<u64>, offset: nat, ts: Option<u64>, got: seq<CanFrame>)
    requires StepsInBounds(dec) && DrainedUpTo(all, dec, ts0, offset, ts, got)
    requires |all| >= offset + GS_HEADER_LEN && dec(all[offset..], ts).step.Consumed?
    ensures var r := dec(all[offset..], ts);
      && offset + r.step.count <= |all|
      && DrainedUpTo(all, dec, ts0, offset + r.step.count, r.lastTs,
                     got + (if r.step.frame.Some? then [r.step.frame.value] else []))
  {
    var r := dec(all[offset..], ts);
    var n := r.step.count;
    DrainStep(all[offset..], dec, ts);
    DropDrop(all, offset, n);
    var rest := Drain(all[offset + n..], dec, r.lastTs);
    AppendAssoc(got, if r.step.frame.Some? then [r.step.frame.value] else [], rest.frames);
  }

  /** When the decoder stops, the loop state is the whole drain. */
  lemma DrainedUpToFinish(all: seq<byte>, dec: Decoder, ts0: Option<u64>, offset: nat, ts: Option<u64>, got: seq<CanFrame>)
    requires StepsInBounds(dec) && DrainedUpTo(all, dec, ts0, offset, ts, got)
    requires |all| < offset + GS_HEADER_LEN || dec(all[offset..], ts).step.NeedMore?
    ensures Drain(all, dec, ts0) == Drained(got, offset, ts)
    ensures |all| >= offset + GS_HEADER_LEN ==> dec(all[offset..], ts).lastTs == ts
  {
    DrainStops(all[offset..], dec, ts);
  }

  /**
   * The decode loop every gs_usb receive path shares: walk the buffer record by record
   * with an offset cursor while a header fits, collect each completed frame, stop when the
   * decoder needs more bytes. The answer is the drain of the buffer: the frames, the
   * offset reached (the prefix to drop) and the timestamp state.
   */
  method PeelRecords(all: seq<byte>, dec: Decoder, ts0: Option<u64>)
    returns (frames: seq<CanFrame>, offset: nat, ts: Option<u64>)
    requires StepsInBounds(dec)
    ensures Drain(all, dec, ts0) == Drained(frames, offset, ts)
  {
    frames, offset, ts := [], 0, ts0;
    DrainedUpToStart(all, dec, ts0);
    while |all| >= offset + GS_HEADER_LEN
      invariant DrainedUpTo(all, dec, ts0, offset, ts, frames)
      decreases |all| - offset
    {
      var r := dec(all[offset..], ts);
      if r.step.NeedMore? {
        DrainedUpToFinish(all, dec, ts0, offset, ts, frames);
        ts := r.lastTs;
        return;
      }
      var f, n := r.step.frame, r.step.count;
      DrainedUpToAdvance(all, dec, ts0, offset, ts, frames);
      ts := r.lastTs;
      if f.Some? {
        frames := frames + [f.value];
      } else {
        assert frames + [] == frames;
      }
      offset := offset + n;
    }
    DrainedUpToFinish(all, dec, ts0, offset, ts, frames);
  }

  // ---------------------------------------------------------------- the USB event loop

  /** A request from the driver to the USB thread. */
  datatype UsbCommand =
    | CmdControlOut(requestType: byte, request: byte, value: u16, index: u16, data: seq<byte>)
    | CmdControlIn(requestType: byte, request: byte, value: u16, index: u16, length: nat)
    | CmdUpdateConfig(outWmax: nat, padPktsEnabled: bool)
    | CmdBulkWrite(endpoint: byte, data: seq<byte>)
    | CmdShutdown

  /** What the USB thread sends back on the command's reply channel. */
  datatype Reply = NoReply | Written(result: IoResult) | Read(bytes: InResult)

  /**
   * The outcomes of the transfers one command may make: the command's own transfer (or
   * the bytes a control-IN returned) and, after a stall, the two MODE requests of recovery.
   */
  datatype Outcomes = Outcomes(transfer: IoResult, readBack: InResult, reset: IoResult, start: IoResult)

  /** The requests a bulk write makes, recovery included, for a given set of outcomes. */
  function BulkWriteRequests(endpoint: byte, data: seq<byte>, channel: byte, iface: byte, o: Outcomes): seq<UsbRequest>
  {
    var stalled := o.transfer.Err? && o.transfer.error.kind == BrokenPipe;
    var halted := o.transfer.Err? && (o.transfer.error.kind == BrokenPipe || o.transfer.error.kind == WouldBlock);
    [BulkOut(endpoint, data)]
    + (if halted then [ClearHalt(endpoint)] else [])
    + (if stalled then [ModeRequest(channel, iface, GS_CAN_MODE_RESET, 0)] else [])
    + (if stalled && o.reset.Ok? then [ModeRequest(channel, iface, GS_CAN_MODE_START, 0)] else [])
  }

  /**
   * The result of a bulk write: the transfer's own result, unless it stalled and the
   * recovery failed, in which case the recovery's error.
   */
  function BulkWriteResult(o: Outcomes): IoResult
  {
    var stalled := o.transfer.Err? && o.transfer.error.kind == BrokenPipe;
    if stalled && o.reset.Err? then Err(o.reset.error)
    else if stalled && o.start.Err? then Err(o.start.error)
    else o.transfer
  }

  /** `UsbEventLoop`: the state the USB thread owns. */
  class UsbEventLoop {
    var iface: byte
    var inEp: byte
    var rxBuffer: seq<byte>
    var lastTs: Option<u64>
    var channelIndex: byte
    var timestampEnabled: bool
    var outWmax: nat
    var padPktsEnabled: bool
    /** The frames sent to the driver, in order. */
    var delivered: seq<CanFrame>
    /** The requests made on the device handle, in order. */
    var issued: seq<UsbRequest>

    /** `UsbEventLoop::new`: empty buffer, no timestamp seen, channel 0, timestamps off. */
    constructor (iface: byte, inEp: byte, outWmax: nat, padPktsEnabled: bool)
      ensures this.iface == iface && this.inEp == inEp
      ensures this.outWmax == outWmax && this.padPktsEnabled == padPktsEnabled
      ensures rxBuffer == [] && lastTs == None && channelIndex == 0 && !timestampEnabled
      ensures delivered == [] && issued == []
    {
      this.iface := iface;
      this.inEp := inEp;
      this.outWmax := outWmax;
      this.padPktsEnabled := padPktsEnabled;
      rxBuffer := [];
      lastTs := None;
      channelIndex := 0;
      timestampEnabled := false;
      delivered := [];
      issued := [];
    }

    /**
     * `process_rx_chunk`: append the chunk, forward every record the decoder completes, in
     * buffer order, and keep exactly the undecoded tail. An empty chunk changes nothing.
     */
    method ProcessRxChunk(chunk: seq<byte>)
      modifies this`rxBuffer, this`lastTs, this`delivered
      ensures |chunk| == 0 ==>
        rxBuffer == old(rxBuffer) && lastTs == old(lastTs) && delivered == old(delivered)
      ensures |chunk| > 0 ==>
        var d := Drain(old(rxBuffer) + chunk, GsDecoder(channelIndex, timestampEnabled, outWmax, padPktsEnabled), old(lastTs));
        && rxBuffer == (old(rxBuffer) + chunk)[d.consumed..]
        && lastTs == d.lastTs
        && delivered == old(delivered) + d.frames
    {
      if |chunk| == 0 {
        return;
      }
      rxBuffer := rxBuffer + chunk;
      GsDecoderWellBehaved(channelIndex, timestampEnabled, outWmax, padPktsEnabled);
      DrainRecords(GsDecoder(channelIndex, timestampEnabled, outWmax, padPktsEnabled));
    }

    /**
     * The rest of `process_rx_chunk`: run the decode loop over the buffer, deliver the
     * frames in order, then drop the consumed prefix.
     */
    method DrainRecords(dec: Decoder)
      requires WellBehaved(dec)
      modifies this`rxBuffer, this`lastTs, this`delivered
      ensures var d := Drain(old(rxBuffer), dec, old(lastTs));
        && rxBuffer == old(rxBuffer)[d.consumed..]
        && lastTs == d.lastTs
        && delivered == old(delivered) + d.frames
    {
      var frames, offset, ts := PeelRecords(rxBuffer, dec, lastTs);
      lastTs := ts;
      delivered := delivered + frames;
      if offset > 0 {
        rxBuffer := rxBuffer[offset..];
      } else {
        assert rxBuffer == rxBuffer[0..];
      }
    }

    /** `recover_after_stall`: MODE RESET then MODE START with no flags. */
    method RecoverAfterStall(reset: IoResult, start: IoResult) returns (r: Result<(), IoError>)
      modifies this`issued
      ensures issued == old(issued) + [ModeRequest(channelIndex, iface, GS_CAN_MODE_RESET, 0)]
        + (if reset.Ok? then [ModeRequest(channelIndex, iface, GS_CAN_MODE_START, 0)] else [])
      ensures r == (if reset.Err? then Err(reset.error) else Done(start))
    {
      issued := issued + [ModeRequest(channelIndex, iface, GS_CAN_MODE_RESET, 0)];
      if reset.Err? {
        return Err(reset.error);
      }
      issued := issued + [ModeRequest(channelIndex, iface, GS_CAN_MODE_START, 0)];
      if start.Err? {
        return Err(start.error);
      }
      r := Ok(());
    }

    /**
     * `bulk_write`: a stalled or would-block write clears the endpoint halt; a stall also
     * restarts the channel, whose failure replaces the write's error.
     */
    method BulkWrite(endpoint: byte, data: seq<byte>, o: Outcomes) returns (r: IoResult)
      modifies this`issued
      ensures issued == old(issued) + BulkWriteRequests(endpoint, data, channelIndex, iface, o)
      ensures r == BulkWriteResult(o)
      ensures o.transfer.Ok? ==> r == o.transfer
    {
      issued := issued + [BulkOut(endpoint, data)];
      r := o.transfer;
      if o.transfer.Err? {
        var kind := o.transfer.error.kind;
        if kind == WouldBlock || kind == BrokenPipe {
          issued := issued + [ClearHalt(endpoint)];
          if kind == BrokenPipe {
            var rec := RecoverAfterStall(o.reset, o.start);
            if rec.Err? {
              return Err(rec.error);
            }
          }
        }
      }
    }

    /**
     * `handle_command`: performs the request and replies. Any MODE request sets the
     * channel index to the low byte of its value, and any TIMESTAMP request sets
     * `timestamp_enabled` from its first data byte, whether or not the transfer succeeded.
     * Only Shutdown stops the loop.
     */
    method HandleCommand(cmd: UsbCommand, o: Outcomes) returns (keepRunning: bool, reply: Reply)
      modifies this`issued, this`channelIndex, this`timestampEnabled, this`outWmax, this`padPktsEnabled
      ensures keepRunning <==> !cmd.CmdShutdown?
      ensures cmd.CmdControlOut? ==>
        && issued == old(issued) + [ControlOut(cmd.requestType, cmd.request, cmd.value, cmd.index, cmd.data)]
        && channelIndex == (if cmd.request == GS_USB_BREQ_MODE then cmd.value % 0x100 else old(channelIndex))
        && timestampEnabled == (if cmd.request == GS_USB_BREQ_TIMESTAMP then |cmd.data| > 0 && cmd.data[0] != 0
                                else old(timestampEnabled))
        && reply == Written(o.transfer)
      ensures cmd.CmdControlIn? ==>
        issued == old(issued) + [ControlIn(cmd.requestType, cmd.request, cmd.value, cmd.index, cmd.length)]
        && reply == Read(o.readBack)
      ensures cmd.CmdUpdateConfig? ==>
        outWmax == cmd.outWmax && padPktsEnabled == cmd.padPktsEnabled && issued == old(issued) && reply == NoReply
      ensures cmd.CmdBulkWrite? ==>
        issued == old(issued) + BulkWriteRequests(cmd.endpoint, cmd.data, channelIndex, iface, o)
        && reply == Written(BulkWriteResult(o))
      ensures cmd.CmdShutdown? ==> issued == old(issued) && reply == NoReply
      ensures !cmd.CmdControlOut? ==> channelIndex == old(channelIndex) && timestampEnabled == old(timestampEnabled)
      ensures !cmd.CmdUpdateConfig? ==> outWmax == old(outWmax) && padPktsEnabled == old(padPktsEnabled)
    {
      match cmd {
        case CmdControlOut(requestType, request, value, index, data) =>
          issued := issued + [ControlOut(requestType, request, value, index, data)];
          if request == GS_USB_BREQ_MODE {
            channelIndex := value % 0x100;
          }
          if request == GS_USB_BREQ_TIMESTAMP {
            timestampEnabled := |data| > 0 && data[0] != 0;
          }
          keepRunning, reply := true, Written(o.transfer);
        case CmdControlIn(requestType, request, value, index, length) =>
          issued := issued + [ControlIn(requestType, request, value, index, length)];
          keepRunning, reply := true, Read(o.readBack);
        case CmdUpdateConfig(w, pad) =>
          outWmax := w;
          padPktsEnabled := pad;
          keepRunning, reply := true, NoReply;
        case CmdBulkWrite(endpoint, data) =>
          var res := BulkWrite(endpoint, data, o);
          keepRunning, reply := true, Written(res);
        case CmdShutdown =>
          keepRunning, reply := false, NoReply;
      }
    }

    /**
     * `handle_rx_completion`: a chunk is processed; a NotConnected error ends the loop; any
     * other error clears the IN endpoint halt and is swallowed.
     */
    method HandleRxCompletion(result: InResult) returns (r: Result<(), IoError>)
      modifies this`rxBuffer, this`lastTs, this`delivered, this`issued
      ensures result.Ok? ==>
        && r == Ok(()) && issued == old(issued)
        && (|result.value| > 0 ==>
              var d := Drain(old(rxBuffer) + result.value, GsDecoder(channelIndex, timestampEnabled, outWmax, padPktsEnabled), old(lastTs));
              rxBuffer == (old(rxBuffer) + result.value)[d.consumed..] && delivered == old(delivered) + d.frames)
      ensures result.Err? ==> rxBuffer == old(rxBuffer) && delivered == old(delivered) && lastTs == old(lastTs)
      ensures result.Err? && result.error.kind == NotConnected ==> r == Err(result.error) && issued == old(issued)
      ensures result.Err? && result.error.kind != NotConnected ==> r == Ok(()) && issued == old(issued) + [ClearHalt(inEp)]
    {
      match result {
        case Ok(chunk) =>
          ProcessRxChunk(chunk);
          r := Ok(());
        case Err(e) =>
          if e.kind == NotConnected {
            r := Err(e);
          } else {
            issued := issued + [ClearHalt(inEp)];
            r := Ok(());
          }
      }
    }
  }
}
