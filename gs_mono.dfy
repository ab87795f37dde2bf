/**
 * The single-file gs_usb driver (src/gs_usb.rs). It sends fixed 80-byte TX records with the
 * payload at offset 16, never negotiates features, and receives with a decoder that
 * guesses per record whether a 4-byte timestamp follows the header, by checking whether a
 * plausible header follows the timestamped layout.
 *
 * Transfers are not performed: each transfer's outcome is a parameter, the control and
 * bulk-OUT requests are appended to a transcript, and `read_frames` takes the outcomes of
 * its successive bulk reads as a list.
 */
module GsMono {
  import opened Wrappers
  import opened Bytes
  import opened CanFrames
  import opened GsConstants
  import opened GsFrames
  import GsBitTiming
  import GsDriver
  import Codec = GsLegacyCodec

  /** The size of every TX record: header, 4 reserved timestamp bytes, 64 payload bytes. */
  const HOST_FRAME_SIZE: nat := 4 + 4 + 1 + 1 + 1 + 1 + 4 + 64

  /** The one-byte step the decoder takes to resynchronise after a malformed header. */
  const RESYNC: nat := 1

  /** The bRequest this file sends to enable timestamps. */
  const BREQ_TIMESTAMP_AS_WRITTEN: byte := 0x03

  /** `host_config_bytes`: the byte-order probe 0x0000BEEF, little-endian. */
  function HostConfigBytes(): (b: seq<byte>)
    ensures b == [0xEF, 0xBE, 0x00, 0x00] && ReadLe32(b, 0) == 0xBEEF
  {
    Le32(0xBEEF)
  }

  /**
   * The timestamp request of this file is numbered 3, which the gs_usb protocol and both
   * other trees give to the bus-error request; the timestamp request is 6.
   */
  lemma TimestampRequestIsBerrCode()
    ensures BREQ_TIMESTAMP_AS_WRITTEN == GS_USB_BREQ_BERR
    ensures BREQ_TIMESTAMP_AS_WRITTEN != GS_USB_BREQ_TIMESTAMP
    ensures HOST_FRAME_SIZE == GS_MAX_FRAME_LEN == 80
  {
  }

  // ---------------------------------------------------------------- receive decoder

  /** `plausible_header` of this file: a full header, a payload of at most 64 bytes, the channel. */
  predicate PlausibleHeader(hdr: seq<byte>, expectedChan: byte)
  {
    |hdr| >= GS_HEADER_LEN && DlcToLen(hdr[8]) <= GS_MAX_DATA && hdr[9] == expectedChan
  }

  /** The DLC test of `plausible_header` never fails: only the length and the channel count. */
  lemma PlausibleIsChannelMatch(hdr: seq<byte>, expectedChan: byte)
    ensures PlausibleHeader(hdr, expectedChan) <==> |hdr| >= GS_HEADER_LEN && hdr[9] == expectedChan
  {
  }

  /**
   * The timestamp extension of this file: the previous value's high word with the new low
   * word, plus 2^32 (wrapping at 2^64) when that would go backwards.
   */
  function UnwrapAsWritten(last: Option<u64>, ts32: u32): u64
  {
    match last
    case None => ts32
    case Some(l) =>
      var base := l - l % TWO_32;   // last & !0xFFFF_FFFF
      HighWordBound(l);
      var candidate := base + ts32; // base | ts32: the low word of base is zero
      if candidate < l then (candidate + TWO_32) % TWO_64 else candidate
  }

  lemma HighWordBound(l: u64)
    ensures l - l % TWO_32 + TWO_32 <= TWO_64
    ensures (l - l % TWO_32) % TWO_32 == 0
  {
    var hi := l / TWO_32;
    assert l == hi * TWO_32 + l % TWO_32;
    assert hi < TWO_32 by {
      if hi >= TWO_32 {
        MulAtLeast(hi - TWO_32 + 1, TWO_32);
      }
    }
    DivModUnique(hi * TWO_32, TWO_32, hi, 0);
  }

  /** This file's timestamp extension is the live driver's. */
  lemma UnwrapAgrees(last: Option<u64>, ts32: u32)
    ensures UnwrapAsWritten(last, ts32) == UnwrapTimestamp(last, ts32)
  {
    if last.Some? {
      var l := last.value;
      var hi := l / TWO_32;
      var lo := l % TWO_32;
      assert l == hi * TWO_32 + lo;
      HighWordBound(l);
      var base := l - lo;
      assert base == hi * TWO_32;
      if ts32 < lo {
        if hi + 1 < TWO_32 {
          assert (hi + 1) * TWO_32 < TWO_64 by {
            MulAtLeast(TWO_32 - (hi + 1), TWO_32);
          }
          DivModUnique(base + TWO_32, TWO_64, 0, base + TWO_32);
          DivModUnique(base + ts32 + TWO_32, TWO_64, 0, base + ts32 + TWO_32);
        } else {
          assert base + TWO_32 == TWO_64;
          DivModUnique(base + TWO_32, TWO_64, 1, 0);
          DivModUnique(base + ts32 + TWO_32, TWO_64, 1, ts32);
        }
      }
    }
  }

  /**
   * `parse_host_frame_at` of this file. It needs a header; it takes the timestamped
   * layout (timestamp at 12, payload at 16) when a plausible header follows it, and
   * otherwise the plain layout (payload at 12) when that fits. Echoes and other channels
   * are skipped whole; a frame the constructors reject means "need more bytes"; the
   * timestamp state changes only for a timestamped frame.
   */
  function ParseHostFrameAt(bytes: seq<byte>, channelIndex: byte, lastTs: Option<u64>): (r: RxResult)
    ensures r.step.NeedMore? ==> r.lastTs == lastTs
    ensures r.step.Consumed? ==> GS_HEADER_LEN <= r.step.count <= |bytes| && r.step.count <= GS_MAX_FRAME_LEN
    ensures r.step.Consumed? && r.step.frame.Some? ==>
      ReadLe32(bytes, 0) == GS_CAN_ECHO_ID_UNUSED && bytes[9] == channelIndex
      && (r.step.frame.value.timestamp.Some? ==> r.lastTs == r.step.frame.value.timestamp)
      && (r.step.frame.value.timestamp.None? ==> r.lastTs == lastTs)
    ensures r.step.Consumed? && r.step.frame.None? ==> r.lastTs == lastTs
  {
    if |bytes| < GS_HEADER_LEN then RxResult(NeedMore, lastTs)
    else
      var echoId := ReadLe32(bytes, 0);
      var raw := ReadLe32(bytes, 4);
      var dlc := bytes[8];
      var chan := bytes[9];
      var dataLen := DlcToLen(dlc);
      if dataLen > GS_MAX_DATA then RxResult(Consumed(None, RESYNC), lastTs)
      else
        var lenNoTs := GS_HEADER_LEN + dataLen;
        var lenWithTs := GS_HEADER_LEN + GS_TS_LEN + dataLen;
        var haveNoTs := |bytes| >= lenNoTs;
        var haveWithTs := |bytes| >= lenWithTs;
        // The source's second look-ahead only ever sets the flag to false when it is false.
        var peekTs := haveWithTs && |bytes| >= lenWithTs + GS_HEADER_LEN
                      && PlausibleHeader(bytes[lenWithTs..lenWithTs + GS_HEADER_LEN], channelIndex);
        if peekTs && !haveWithTs then RxResult(NeedMore, lastTs)
        else if !peekTs && !haveNoTs && !haveWithTs then RxResult(NeedMore, lastTs)
        else
          var useTs := peekTs || !haveNoTs;
          var totalLen := if useTs then lenWithTs else lenNoTs;
          if totalLen == 0 || totalLen > GS_MAX_FRAME_LEN then RxResult(Consumed(None, RESYNC), lastTs)
          else if echoId != GS_CAN_ECHO_ID_UNUSED || chan != channelIndex then RxResult(Consumed(None, totalLen), lastTs)
          else
            var dataOff := if useTs then GS_HEADER_LEN + GS_TS_LEN else GS_HEADER_LEN;
            match DecodeFrame(raw, dlc, bytes[dataOff..dataOff + dataLen])
            case None => RxResult(NeedMore, lastTs)
            case Some(f) =>
              if useTs then
                var ts64 := UnwrapAsWritten(lastTs, ReadLe32(bytes, GS_HEADER_LEN));
                RxResult(Consumed(Some(SetTimestamp(f, Some(ts64))), totalLen), Some(ts64))
              else
                RxResult(Consumed(Some(f), totalLen), lastTs)
  }

  /**
   * A record in the plain layout, addressed to the channel, with no plausible header 16
   * bytes past its payload start: decoded from the 12 bytes after the header, consuming
   * exactly header plus payload.
   */
  lemma ParseDecodesPlainRecord(bytes: seq<byte>, channelIndex: byte, lastTs: Option<u64>)
    requires |bytes| >= GS_HEADER_LEN && ReadLe32(bytes, 0) == GS_CAN_ECHO_ID_UNUSED && bytes[9] == channelIndex
    requires var n := GS_HEADER_LEN + DlcToLen(bytes[8]);
      |bytes| >= n && !(|bytes| >= n + GS_TS_LEN + GS_HEADER_LEN && bytes[n + GS_TS_LEN + 9] == channelIndex)
    ensures var n := GS_HEADER_LEN + DlcToLen(bytes[8]);
      var d := DecodeFrame(ReadLe32(bytes, 4), bytes[8], bytes[GS_HEADER_LEN..n]);
      ParseHostFrameAt(bytes, channelIndex, lastTs)
      == if d.Some? then RxResult(Consumed(d, n), lastTs) else RxResult(NeedMore, lastTs)
  {
  }

  /**
   * A record in the timestamped layout followed by a header for the channel: decoded from
   * the bytes after the timestamp, stamped with the live driver's unwrapped timestamp,
   * consuming header, timestamp and payload.
   */
  lemma ParseDecodesTimestampedRecord(bytes: seq<byte>, channelIndex: byte, lastTs: Option<u64>)
    requires |bytes| >= GS_HEADER_LEN && ReadLe32(bytes, 0) == GS_CAN_ECHO_ID_UNUSED && bytes[9] == channelIndex
    requires var m := GS_HEADER_LEN + GS_TS_LEN + DlcToLen(bytes[8]);
      |bytes| >= m + GS_HEADER_LEN && bytes[m + 9] == channelIndex
    ensures var m := GS_HEADER_LEN + GS_TS_LEN + DlcToLen(bytes[8]);
      var d := DecodeFrame(ReadLe32(bytes, 4), bytes[8], bytes[GS_HEADER_LEN + GS_TS_LEN..m]);
      var ts := UnwrapTimestamp(lastTs, ReadLe32(bytes, GS_HEADER_LEN));
      ParseHostFrameAt(bytes, channelIndex, lastTs)
      == if d.Some? then RxResult(Consumed(Some(SetTimestamp(d.value, Some(ts))), m), Some(ts))
         else RxResult(NeedMore, lastTs)
  {
    UnwrapAgrees(lastTs, ReadLe32(bytes, GS_HEADER_LEN));
  }

  /** Echoes and records for other channels are skipped whole, in whichever layout was chosen. */
  lemma ParseSkipsForeign(bytes: seq<byte>, channelIndex: byte, lastTs: Option<u64>)
    requires |bytes| >= GS_HEADER_LEN && |bytes| >= GS_HEADER_LEN + DlcToLen(bytes[8])
    requires ReadLe32(bytes, 0) != GS_CAN_ECHO_ID_UNUSED || bytes[9] != channelIndex
    ensures var r := ParseHostFrameAt(bytes, channelIndex, lastTs);
      r.lastTs == lastTs && r.step.Consumed? && r.step.frame.None?
      && (r.step.count == GS_HEADER_LEN + DlcToLen(bytes[8]) || r.step.count == GS_HEADER_LEN + GS_TS_LEN + DlcToLen(bytes[8]))
  {
  }

  /** The read loop's guard against a step of 0 or over 80 bytes; it never changes a step. */
  function Advance(consumed: nat): (c: nat)
    ensures 1 <= c <= (if consumed == 0 then 1 else consumed)
    ensures GS_HEADER_LEN <= consumed <= GS_MAX_FRAME_LEN ==> c == consumed
  {
    if consumed == 0 || consumed > GS_MAX_FRAME_LEN then 1 else consumed
  }

  /** The decoder the read loop runs: the parser, with the loop's step guard applied. */
  function MonoDecoder(channel: byte): GsDriver.Decoder
  {
    (b: seq<byte>, t: Option<u64>) =>
      var r := ParseHostFrameAt(b, channel, t);
      match r.step
      case NeedMore => r
      case Consumed(f, n) => RxResult(Consumed(f, Advance(n)), r.lastTs)
  }

  /** The step guard is never needed, and the decode loop can run this decoder. */
  lemma MonoDecoderIsParser(channel: byte)
    ensures forall b, t :: MonoDecoder(channel)(b, t) == ParseHostFrameAt(b, channel, t)
    ensures GsDriver.StepsInBounds(MonoDecoder(channel))
  {
  }

  /**
   * The layout guess depends on the bytes after the record, so the decoder is not one that
   * reassembly across chunks can rely on: a 16-byte timestamped DLC-0 record alone in the
   * buffer is taken as a 12-byte plain record with no timestamp, leaving the timestamp as
   * the next record's first bytes; once the next header has arrived the same bytes are
   * taken as one 16-byte timestamped record.
   */
  lemma LayoutDependsOnLookahead()
    ensures var rec := SampleRecord();
      && ParseHostFrameAt(rec, 0, None) == RxResult(Consumed(New(0x123, []), 12), None)
      && ParseHostFrameAt(rec + SampleHeader(), 0, None)
         == RxResult(Consumed(Some(SetTimestamp(New(0x123, []).value, Some(7))), 16), Some(7))
    ensures !GsDriver.WellBehaved(MonoDecoder(0))
  {
    var rec := SampleRecord();
    SampleRecordAlone();
    SampleRecordFollowed();
    MonoDecoderIsParser(0);
    assert MonoDecoder(0)(rec, None).step.Consumed?;
    assert MonoDecoder(0)(rec + SampleHeader(), None) != MonoDecoder(0)(rec, None);
  }

  /** A timestamped DLC-0 record for channel 0 with id 0x123 and timestamp 7. */
  function SampleRecord(): seq<byte>
  {
    Le32(GS_CAN_ECHO_ID_UNUSED) + Le32(0x123) + [0, 0, 0, 0] + Le32(7)
  }

  /** The header of a following record for channel 0. */
  function SampleHeader(): seq<byte>
  {
    Le32(GS_CAN_ECHO_ID_UNUSED) + Le32(0x124) + [0, 0, 0, 0]
  }

  lemma SampleRecordAlone()
    ensures ParseHostFrameAt(SampleRecord(), 0, None) == RxResult(Consumed(New(0x123, []), 12), None)
  {
    var rec := SampleRecord();
    assert rec[0..4] == Le32(GS_CAN_ECHO_ID_UNUSED) && rec[4..8] == Le32(0x123);
    ReadLe32OfLe32(rec, 0, GS_CAN_ECHO_ID_UNUSED);
    ReadLe32OfLe32(rec, 4, 0x123);
    DecodeTinyId(0x123);
    assert rec[12..12] == [];
    ParseDecodesPlainRecord(rec, 0, None);
  }

  lemma SampleRecordFollowed()
    ensures ParseHostFrameAt(SampleRecord() + SampleHeader(), 0, None)
            == RxResult(Consumed(Some(SetTimestamp(New(0x123, []).value, Some(7))), 16), Some(7))
  {
    var all := SampleRecord() + SampleHeader();
    assert all[0..4] == Le32(GS_CAN_ECHO_ID_UNUSED) && all[4..8] == Le32(0x123) && all[12..16] == Le32(7);
    ReadLe32OfLe32(all, 0, GS_CAN_ECHO_ID_UNUSED);
    ReadLe32OfLe32(all, 4, 0x123);
    ReadLe32OfLe32(all, 12, 7);
    DecodeTinyId(0x123);
    assert all[16..16] == [];
    ParseDecodesTimestampedRecord(all, 0, None);
  }

  /** An 11-bit id word with no flags decodes as a data frame. */
  lemma DecodeTinyId(raw: u32)
    requires raw < 0x800
    ensures !HasFlag(raw, CAN_ERR_FLAG) && !HasFlag(raw, CAN_RTR_FLAG) && !HasFlag(raw, CAN_EFF_FLAG)
    ensures Low11(raw) == raw
  {
    DivModUnique(raw, CAN_ERR_FLAG, 0, raw);
    DivModUnique(raw, CAN_RTR_FLAG, 0, raw);
    DivModUnique(raw, CAN_EFF_FLAG, 0, raw);
  }

  // ---------------------------------------------------------------- transmit record

  /** The id word of this file's TX record: the frame's id with the EFF, RTR and ERR flags OR'd in, unmasked. */
  function TxCanId(f: CanFrame): (raw: u32)
    requires ValidFrame(f)
    ensures raw % 0x2000_0000 == f.id
    ensures HasFlag(raw, CAN_EFF_FLAG) == f.extended && HasFlag(raw, CAN_RTR_FLAG) == f.rtr
    ensures HasFlag(raw, CAN_ERR_FLAG) == f.error
  {
    var raw := f.id + (if f.extended then CAN_EFF_FLAG else 0)
                    + (if f.rtr then CAN_RTR_FLAG else 0)
                    + (if f.error then CAN_ERR_FLAG else 0);
    IdFlagBits(f.id, f.extended, f.rtr, f.error);
    raw
  }

  lemma IdFlagBits(id: nat, eff: bool, rtr: bool, err: bool)
    requires id < 0x2000_0000
    ensures var raw := id + (if eff then CAN_EFF_FLAG else 0) + (if rtr then CAN_RTR_FLAG else 0) + (if err then CAN_ERR_FLAG else 0);
      && raw < TWO_32 && raw % 0x2000_0000 == id
      && HasFlag(raw, CAN_EFF_FLAG) == eff && HasFlag(raw, CAN_RTR_FLAG) == rtr && HasFlag(raw, CAN_ERR_FLAG) == err
  {
    var e, r, x := (if eff then 1 else 0), (if rtr then 1 else 0), (if err then 1 else 0);
    var raw := id + e * CAN_EFF_FLAG + r * CAN_RTR_FLAG + x * CAN_ERR_FLAG;
    DivModUnique(raw, 0x2000_0000, 4 * e + 2 * r + x, id);
    DivModUnique(raw, CAN_EFF_FLAG, e, raw - e * CAN_EFF_FLAG);
    DivModUnique(raw, CAN_RTR_FLAG, 2 * e + r, raw - (2 * e + r) * CAN_RTR_FLAG);
    DivModUnique(raw, CAN_ERR_FLAG, 4 * e + 2 * r + x, id);
  }

  /**
   * The 80-byte TX record `send_frame` builds: echo id 0, the id word, the DLC, the
   * channel, zeros through byte 15, then the payload (at most 64 bytes) zero-filled.
   */
  function TxRecord(f: CanFrame, channel: byte): (b: seq<byte>)
    requires ValidFrame(f)
    ensures |b| == HOST_FRAME_SIZE
    ensures ReadLe32(b, 0) == 0 && ReadLe32(b, 4) == TxCanId(f)
    ensures b[8] == f.dlc && b[9] == channel
    ensures forall i :: 10 <= i < 16 ==> b[i] == 0
    ensures b[16..16 + |f.data|] == f.data && forall i :: 16 + |f.data| <= i < |b| ==> b[i] == 0
  {
    var b := Le32(0) + Le32(TxCanId(f)) + [f.dlc, channel, 0, 0] + [0, 0, 0, 0] + f.data + GsDriver.Zeros(GS_MAX_DATA - |f.data|);
    assert b[0..4] == Le32(0) && b[4..8] == Le32(TxCanId(f));
    ReadLe32OfLe32(b, 0, 0);
    ReadLe32OfLe32(b, 4, TxCanId(f));
    assert b[16..16 + |f.data|] == f.data;
    b
  }

  /**
   * Where the live driver masks the id of a non-extended frame to 11 bits, this file sends
   * it unmasked; the two words differ exactly for error frames with ids past 11 bits.
   */
  lemma TxCanIdVersusLive(f: CanFrame)
    requires ValidFrame(f)
    ensures TxCanId(f) == GsDriver.TxCanId(f) <==> !(f.error && f.id > SFF_MAX)
  {
    var masked := if f.extended then f.id % 0x2000_0000 else f.id % 0x800;
    if f.extended || f.id <= SFF_MAX {
      DivModUnique(f.id, if f.extended then 0x2000_0000 else 0x800, 0, f.id);
    } else {
      assert masked < f.id;
    }
  }

  // ---------------------------------------------------------------- the driver

  /** A control-OUT request of this file: value 0, the interface as index. */
  function Control(request: byte, iface: byte, data: seq<byte>): GsDriver.UsbRequest
  {
    GsDriver.ControlOut(RequestTypeOut(), request, 0, iface, data)
  }

  /** A control transfer's result when exactly `expected` bytes must have been written. */
  function Written(res: IoResult, expected: nat): (r: Result<(), IoError>)
    ensures r.Ok? <==> res == Ok(expected)
    ensures res.Err? ==> r == Err(res.error)
    ensures res.Ok? && res.value != expected ==> r.Err? && r.error.kind == Other
  {
    if res.Err? then Err(res.error)
    else if res.value != expected then Err(IoError(Other, "Incomplete control transfer to gs_usb device"))
    else Ok(())
  }

  /** How the read phase of `read_frames` ended. */
  datatype ReadEnd =
    | Idle              // the first read timed out or was empty: return no frames at once
    | Quiet             // a later read timed out or was empty: decode what was gathered
    | Stalled           // a read stalled: clear the halt, then decode
    | Failed(error: IoError)

  datatype Gathered = Gathered(bytes: seq<byte>, end: ReadEnd)

  type ReadOutcome = Result<seq<byte>, IoError>

  /**
   * The read phase of `read_frames` over the outcomes of its successive bulk reads (a read
   * past the end of the list times out): the concatenation of the leading non-empty
   * chunks and how the phase ended.
   */
  function Gather(outcomes: seq<ReadOutcome>, first: bool): (g: Gathered)
    ensures g.end.Idle? <==> first && g.bytes == [] && !g.end.Stalled? && !g.end.Failed? && !g.end.Quiet?
    decreases |outcomes|
  {
    if |outcomes| == 0 || (outcomes[0].Err? && outcomes[0].error.kind == WouldBlock) then Gathered([], if first then Idle else Quiet)
    else if outcomes[0].Err? && outcomes[0].error.kind == BrokenPipe then Gathered([], Stalled)
    else if outcomes[0].Err? then Gathered([], Failed(outcomes[0].error))
    else if |outcomes[0].value| == 0 then Gathered([], if first then Idle else Quiet)
    else
      var rest := Gather(outcomes[1..], false);
      Gathered(outcomes[0].value + rest.bytes, rest.end)
  }

  /** `GsUsbDriver` of this file. */
  class GsUsbDriver {
    var interface: byte
    var inEp: byte
    var outEp: byte
    var channelIndex: byte
    var configuredBitrate: Option<u32>
    var timestampEnabled: bool
    var rxLeftover: seq<byte>
    var lastTimestamp64: Option<u64>
    /** The requests made on the device handle, in order. */
    var sent: seq<GsDriver.UsbRequest>

    /** The driver value `open` builds once the interface is claimed. */
    constructor (interface: byte, inEp: byte, outEp: byte)
      ensures this.interface == interface && this.inEp == inEp && this.outEp == outEp
      ensures channelIndex == 0 && configuredBitrate == None && !timestampEnabled
      ensures rxLeftover == [] && lastTimestamp64 == None && sent == []
    {
      this.interface := interface;
      this.inEp := inEp;
      this.outEp := outEp;
      channelIndex := 0;
      configuredBitrate := None;
      timestampEnabled := false;
      rxLeftover := [];
      lastTimestamp64 := None;
      sent := [];
    }

    /** `send_control`: one control-OUT transfer that must write all of `data`. */
    method SendControl(request: byte, data: seq<byte>, res: IoResult) returns (r: Result<(), IoError>)
      modifies this`sent
      ensures sent == old(sent) + [Control(request, interface, data)]
      ensures r == Written(res, |data|)
    {
      sent := sent + [Control(request, interface, data)];
      if res.Err? {
        return Err(res.error);
      }
      if res.value != |data| {
        return Err(IoError(Other, "Incomplete control transfer to gs_usb device"));
      }
      r := Ok(());
    }

    /** The transfers of `open`: HOST_FORMAT with the byte-order probe, then MODE RESET. */
    method Open(hostFormat: IoResult, reset: IoResult) returns (r: Result<(), IoError>)
      modifies this`sent
      ensures var probed := Written(hostFormat, 4);
        && sent == old(sent) + [Control(GS_USB_BREQ_HOST_FORMAT, interface, HostConfigBytes())]
             + (if probed.Ok? then [Control(GS_USB_BREQ_MODE, interface, GsBitTiming.EncodeMode(GS_CAN_MODE_RESET, 0))] else [])
        && r == (if probed.Err? then probed else Written(reset, 8))
    {
      r := SendControl(GS_USB_BREQ_HOST_FORMAT, HostConfigBytes(), hostFormat);
      if r.Err? {
        return;
      }
      r := SendControl(GS_USB_BREQ_MODE, GsBitTiming.EncodeMode(GS_CAN_MODE_RESET, 0), reset);
    }

    /** `enable_timestamp` as written: request 3, the LE word 1; the flag is set only on success. */
    method EnableTimestampAsWritten(res: IoResult) returns (r: Result<(), IoError>)
      modifies this`sent, this`timestampEnabled
      ensures sent == old(sent) + [Control(BREQ_TIMESTAMP_AS_WRITTEN, interface, Le32(1))]
      ensures r == Written(res, 4)
      ensures timestampEnabled == (r.Ok? || old(timestampEnabled))
    {
      r := SendControl(BREQ_TIMESTAMP_AS_WRITTEN, Le32(1), res);
      if r.Ok? {
        timestampEnabled := true;
      }
    }

    /** `enable_timestamp` with the protocol's TIMESTAMP request (6). */
    method EnableTimestamp(res: IoResult) returns (r: Result<(), IoError>)
      modifies this`sent, this`timestampEnabled
      ensures sent == old(sent) + [Control(GS_USB_BREQ_TIMESTAMP, interface, Le32(1))]
      ensures r == Written(res, 4)
      ensures timestampEnabled == (r.Ok? || old(timestampEnabled))
    {
      r := SendControl(GS_USB_BREQ_TIMESTAMP, Le32(1), res);
      if r.Ok? {
        timestampEnabled := true;
      }
    }

    /**
     * `set_bitrate`: the fixed-limit timing search; no timing means InvalidInput and
     * nothing sent; otherwise MODE RESET then BITTIMING, and the bitrate is recorded only
     * when both were written in full.
     */
    method SetBitrate(bitrate: u32, score: (nat, nat, nat) -> real, reset: IoResult, timing: IoResult)
      returns (r: Result<(), IoError>)
      modifies this`sent, this`configuredBitrate
      ensures (forall c :: GsBitTiming.InSpace(Codec.FIXED_LIMITS, c) ==> !GsBitTiming.Kept(Codec.FIXED_LIMITS, bitrate, c)) ==>
        r.Err? && r.error.kind == InvalidInput && sent == old(sent)
      ensures r.Ok? ==>
        && configuredBitrate == Some(bitrate)
        && (exists c :: GsBitTiming.BestAt(Codec.FIXED_LIMITS, bitrate, score, c)
             && sent == old(sent) + [Control(GS_USB_BREQ_MODE, interface, GsBitTiming.EncodeMode(GS_CAN_MODE_RESET, 0)),
                                     Control(GS_USB_BREQ_BITTIMING, interface,
                                             GsBitTiming.ToBytes(GsBitTiming.Candidate(Codec.FIXED_LIMITS, bitrate, c).value))])
      ensures r.Err? ==> configuredBitrate == old(configuredBitrate)
      ensures (exists c :: GsBitTiming.InSpace(Codec.FIXED_LIMITS, c) && GsBitTiming.Kept(Codec.FIXED_LIMITS, bitrate, c)) ==>
        (r.Ok? <==> reset == Ok(8) && timing == Ok(20))
    {
      var t := Codec.CalcBitTiming(bitrate, score);
      if t.None? {
        return Err(IoError(InvalidInput, "Unable to compute bit timing for bitrate"));
      }
      ghost var c :| GsBitTiming.BestAt(Codec.FIXED_LIMITS, bitrate, score, c)
                     && t == GsBitTiming.Candidate(Codec.FIXED_LIMITS, bitrate, c);
      var modeBytes := GsBitTiming.EncodeMode(GS_CAN_MODE_RESET, 0);
      var timingBytes := GsBitTiming.ToBytes(t.value);
      assert |modeBytes| == 8 && |timingBytes| == 20;
      r := SendControl(GS_USB_BREQ_MODE, modeBytes, reset);
      if r.Err? {
        return;
      }
      r := SendControl(GS_USB_BREQ_BITTIMING, timingBytes, timing);
      if r.Err? {
        return;
      }
      configuredBitrate := Some(bitrate);
      assert sent == old(sent) + [Control(GS_USB_BREQ_MODE, interface, modeBytes),
                                  Control(GS_USB_BREQ_BITTIMING, interface, timingBytes)];
    }

    /** `open_channel`: MODE START with no flags, whether or not a bitrate was set. */
    method OpenChannel(start: IoResult) returns (r: Result<(), IoError>)
      modifies this`sent
      ensures sent == old(sent) + [Control(GS_USB_BREQ_MODE, interface, GsBitTiming.EncodeMode(GS_CAN_MODE_START, 0))]
      ensures r == Written(start, 8)
    {
      r := SendControl(GS_USB_BREQ_MODE, GsBitTiming.EncodeMode(GS_CAN_MODE_START, 0), start);
    }

    /** `close_channel`: MODE RESET. */
    method CloseChannel(reset: IoResult) returns (r: Result<(), IoError>)
      modifies this`sent
      ensures sent == old(sent) + [Control(GS_USB_BREQ_MODE, interface, GsBitTiming.EncodeMode(GS_CAN_MODE_RESET, 0))]
      ensures r == Written(reset, 8)
    {
      r := SendControl(GS_USB_BREQ_MODE, GsBitTiming.EncodeMode(GS_CAN_MODE_RESET, 0), reset);
    }

    /** `send_frame`: one 80-byte bulk write, which must be written in full. */
    method SendFrame(f: CanFrame, res: IoResult) returns (r: Result<(), IoError>)
      requires ValidFrame(f)
      modifies this`sent
      ensures sent == old(sent) + [GsDriver.BulkOut(outEp, TxRecord(f, channelIndex))]
      ensures r.Ok? <==> res == Ok(HOST_FRAME_SIZE)
      ensures res.Err? ==> r == Err(res.error)
      ensures res.Ok? && res.value != HOST_FRAME_SIZE ==> r.Err? && r.error.kind == Other
    {
      var buffer := TxRecord(f, channelIndex);
      sent := sent + [GsDriver.BulkOut(outEp, buffer)];
      if res.Err? {
        return Err(res.error);
      }
      if res.value != HOST_FRAME_SIZE {
        return Err(IoError(Other, "Incomplete bulk transfer when sending CAN frame"));
      }
      r := Ok(());
    }

    /**
     * The read loop of `read_frames`: read chunks until a read times out, comes back empty
     * or fails, appending each non-empty chunk to the buffer; a stall clears the halt.
     */
    method ReadChunks(outcomes: seq<ReadOutcome>) returns (g: Gathered)
      modifies this`rxLeftover, this`sent
      ensures g == Gather(outcomes, true)
      ensures rxLeftover == old(rxLeftover) + g.bytes
      ensures sent == old(sent) + (if g.end.Stalled? then [GsDriver.ClearHalt(inEp)] else [])
    {
      var first := true;
      var i := 0;
      var got: seq<byte> := [];
      assert outcomes[0..] == outcomes;
      while i < |outcomes|
        invariant 0 <= i <= |outcomes| && (first <==> i == 0)
        invariant rxLeftover == old(rxLeftover) + got && sent == old(sent)
        invariant var h := Gather(outcomes[i..], first); Gather(outcomes, true) == Gathered(got + h.bytes, h.end)
        decreases |outcomes| - i
      {
        var res := outcomes[i];
        if res.Err? && res.error.kind == WouldBlock {
          return Gathered(got, if first then Idle else Quiet);
        } else if res.Err? && res.error.kind == BrokenPipe {
          sent := sent + [GsDriver.ClearHalt(inEp)];
          return Gathered(got, Stalled);
        } else if res.Err? {
          return Gathered(got, Failed(res.error));
        }
        if |res.value| == 0 {
          return Gathered(got, if first then Idle else Quiet);
        }
        GatherStep(outcomes, i, got, first);
        first := false;
        rxLeftover := rxLeftover + res.value;
        got := got + res.value;
        i := i + 1;
      }
      g := Gathered(got, if first then Idle else Quiet);
    }

    /**
     * `read_frames`: the read loop; an idle first read returns no frames at once and a
     * failed read returns its error, the chunks already read staying buffered. Otherwise
     * decode the buffer record by record, return the frames in order and keep the
     * undecoded tail.
     */
    method ReadFrames(outcomes: seq<ReadOutcome>) returns (r: Result<seq<CanFrame>, IoError>)
      modifies this`rxLeftover, this`lastTimestamp64, this`sent
      ensures var g := Gather(outcomes, true);
        && sent == old(sent) + (if g.end.Stalled? then [GsDriver.ClearHalt(inEp)] else [])
        && (g.end.Idle? ==> r == Ok([]) && rxLeftover == old(rxLeftover) && lastTimestamp64 == old(lastTimestamp64))
        && (g.end.Failed? ==> r == Err(g.end.error) && rxLeftover == old(rxLeftover) + g.bytes
                              && lastTimestamp64 == old(lastTimestamp64))
        && (g.end.Quiet? || g.end.Stalled? ==>
              var all := old(rxLeftover) + g.bytes;
              var d := GsDriver.Drain(all, MonoDecoder(channelIndex), old(lastTimestamp64));
              r == Ok(d.frames) && rxLeftover == all[d.consumed..] && lastTimestamp64 == d.lastTs)
    {
      var g := ReadChunks(outcomes);
      if g.end.Idle? {
        assert rxLeftover == old(rxLeftover) + [];
        return Ok([]);
      } else if g.end.Failed? {
        return Err(g.end.error);
      }
      MonoDecoderIsParser(channelIndex);
      var frames, offset, ts := GsDriver.PeelRecords(rxLeftover, MonoDecoder(channelIndex), lastTimestamp64);
      lastTimestamp64 := ts;
      if offset > 0 {
        rxLeftover := rxLeftover[offset..];
      } else {
        assert rxLeftover == rxLeftover[0..];
      }
      r := Ok(frames);
    }
  }

  /** One non-empty chunk moves the read phase on by one outcome. */
  lemma GatherStep(outcomes: seq<ReadOutcome>, i: nat, got: seq<byte>, first: bool)
    requires i < |outcomes| && outcomes[i].Ok? && |outcomes[i].value| > 0
    requires var g := Gather(outcomes[i..], first); Gather(outcomes, true) == Gathered(got + g.bytes, g.end)
    ensures var g := Gather(outcomes[i + 1..], false); Gather(outcomes, true) == Gathered((got + outcomes[i].value) + g.bytes, g.end)
  {
    assert outcomes[i..][1..] == outcomes[i + 1..];
    var rest := Gather(outcomes[i + 1..], false);
    assert got + (outcomes[i].value + rest.bytes) == (got + outcomes[i].value) + rest.bytes;
  }
}
