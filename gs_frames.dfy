/**
 * Decoding of one device-to-host gs_usb record from the front of a byte buffer, as the
 * live driver does it (src/drivers/gs_usb/frames.rs).
 *
 * A record is a 12-byte header (echo id, CAN id with flag bits, DLC, channel, flags,
 * reserved), the payload padded to 8 bytes (or to a multiple of 8 beyond 8 bytes), an
 * optional 4-byte hardware timestamp, and with PAD_PKTS padding up to a multiple of the
 * endpoint's wMaxPacketSize.
 *
 * `ParseHostFrameAtAsWritten` is the function as the source writes it; it can index past
 * the end of the buffer when neither timestamps nor padding are on. `ParseHostFrameAt`
 * adds the missing "wait for the whole record" check and is the decoder the receive path
 * of this model uses.
 */
module GsFrames {
  import opened Wrappers
  import opened Bytes
  import opened CanFrames
  import opened GsConstants

  /** `dlc_to_len`: the classic and CAN FD DLC-to-length table. */
  function DlcToLen(dlc: byte): (n: nat)
    ensures n <= GS_MAX_DATA
    ensures dlc <= 8 ==> n == dlc
    ensures dlc > 15 ==> n == 0
  {
    match dlc
    case 9 => 12
    case 10 => 16
    case 11 => 20
    case 12 => 24
    case 13 => 32
    case 14 => 48
    case 15 => 64
    case _ => if dlc <= 8 then dlc else 0
  }

  /** Over the valid codes 0..15 the table is strictly increasing, so it is one-to-one. */
  lemma DlcToLenIncreasing(a: byte, b: byte)
    requires a < b <= 15
    ensures DlcToLen(a) < DlcToLen(b)
  {
  }

  /** `roundup8`: `(x + 7) & !7`, which clears the three low bits of `x + 7`. */
  function RoundUp8(x: nat): (r: nat)
    ensures r % 8 == 0 && x <= r < x + 8
  {
    (x + 7) - (x + 7) % 8
  }

  /** `align_up`: the least multiple of `m` that is at least `x`, or `x` when `m` is 0. */
  function AlignUp(x: nat, m: nat): (r: nat)
    ensures m == 0 ==> r == x
    ensures m > 0 ==> r % m == 0 && x <= r < x + m
  {
    if m == 0 then x
    else
      var r := (x + (m - 1)) / m * m;
      AlignUpBounds(x, m);
      r
  }

  lemma AlignUpBounds(x: nat, m: nat)
    requires m > 0
    ensures var r := (x + (m - 1)) / m * m; r % m == 0 && x <= r < x + m
  {
    var y := x + (m - 1);
    var q := y / m;
    assert y == q * m + y % m;
    DivModUnique(q * m, m, q, 0);
  }

  /** `plausible_header`: a full header, a valid DLC code and the expected channel. */
  predicate PlausibleHeader(bytes: seq<byte>, expectedChan: byte)
  {
    |bytes| >= GS_HEADER_LEN && bytes[8] <= 15 && bytes[9] == expectedChan
  }

  /** The payload area of a record: 8 bytes for classic lengths, else rounded up to 8. */
  function AlignedPayload(dataLen: nat): nat
  {
    if dataLen <= 8 then 8 else RoundUp8(dataLen)
  }

  /**
   * The size of a whole record for a DLC code: header, aligned payload, the timestamp when
   * timestamps are on, then rounded up to `outWmax` when PAD_PKTS is on.
   */
  function RecordLen(dlc: byte, timestampEnabled: bool, outWmax: nat, padPkts: bool): (n: nat)
    ensures n >= GS_HEADER_LEN + 8 + (if timestampEnabled then GS_TS_LEN else 0)
  {
    var withTs := GS_HEADER_LEN + AlignedPayload(DlcToLen(dlc)) + (if timestampEnabled then GS_TS_LEN else 0);
    if padPkts && outWmax > 0 then AlignUp(withTs, outWmax) else withTs
  }

  // ---------------------------------------------------------------- id decoding

  /** `raw & CAN_EFF_MASK` (also `CAN_ERR_MASK`): the low 29 bits. */
  function Low29(raw: u32): nat { raw % 0x2000_0000 }

  /** `raw & CAN_SFF_MASK`: the low 11 bits. */
  function Low11(raw: u32): nat { raw % 0x800 }

  /**
   * The frame a record's CAN id and payload stand for, or None when the frame
   * constructor rejects it: the error flag wins over the RTR flag, which wins over the
   * EFF flag.
   */
  function DecodeFrame(raw: u32, dlc: byte, data: seq<byte>): (r: Option<CanFrame>)
  {
    if HasFlag(raw, CAN_ERR_FLAG) then NewError(Low29(raw))
    else if HasFlag(raw, CAN_RTR_FLAG) then
      NewRemote(if HasFlag(raw, CAN_EFF_FLAG) then Low29(raw) else Low11(raw),
                if dlc < 8 then dlc else 8, HasFlag(raw, CAN_EFF_FLAG))
    else if HasFlag(raw, CAN_EFF_FLAG) then NewEff(Low29(raw), data)
    else New(Low11(raw), data)
  }

  /** Decoding priority, and the only way decoding can fail: a data payload over 8 bytes. */
  lemma DecodePriority(raw: u32, dlc: byte, data: seq<byte>)
    ensures var r := DecodeFrame(raw, dlc, data);
      && (HasFlag(raw, CAN_ERR_FLAG) ==> r.Some? && r.value.error && r.value.id == raw % 0x2000_0000)
      && (!HasFlag(raw, CAN_ERR_FLAG) && HasFlag(raw, CAN_RTR_FLAG) ==>
            r.Some? && r.value.rtr && r.value.extended == HasFlag(raw, CAN_EFF_FLAG)
            && r.value.dlc == (if dlc < 8 then dlc else 8)
            && r.value.id == raw % (if HasFlag(raw, CAN_EFF_FLAG) then 0x2000_0000 else 0x800))
      && (!HasFlag(raw, CAN_ERR_FLAG) && !HasFlag(raw, CAN_RTR_FLAG) ==>
            (r.Some? <==> |data| <= 8)
            && (r.Some? ==> IsDataFrame(r.value) && r.value.data == data
                            && r.value.extended == HasFlag(raw, CAN_EFF_FLAG)
                            && r.value.id == raw % (if HasFlag(raw, CAN_EFF_FLAG) then 0x2000_0000 else 0x800)))
  {
  }

  // ---------------------------------------------------------------- timestamps

  /**
   * The 64-bit hardware timestamp for a device's 32-bit one: the first value at or after
   * the previous timestamp whose low 32 bits are `ts32`. The carry into the high word
   * wraps at 2^64, as a release build of the source does.
   */
  function UnwrapTimestamp(prev: Option<u64>, ts32: u32): (ts64: u64)
    ensures ts64 % TWO_32 == ts32
    ensures prev.None? ==> ts64 == ts32
    ensures prev.Some? && prev.value / TWO_32 < U32_MAX ==> prev.value <= ts64 < prev.value + TWO_32
  {
    match prev
    case None => ts32
    case Some(p) =>
      var prev32 := p % TWO_32;
      var base64 := p - prev32;
      var carried := if ts32 < prev32 then (base64 + TWO_32) % TWO_64 else base64;
      UnwrapBits(p, carried, ts32);
      carried + ts32
  }

  lemma UnwrapBits(p: u64, carried: nat, ts32: u32)
    requires carried == (if ts32 < p % TWO_32 then (p - p % TWO_32 + TWO_32) % TWO_64 else p - p % TWO_32)
    ensures carried % TWO_32 == 0 && carried + ts32 < TWO_64
    ensures (carried + ts32) % TWO_32 == ts32
  {
    var hi := p / TWO_32;
    assert p == hi * TWO_32 + p % TWO_32;
    assert p - p % TWO_32 == hi * TWO_32;
    if ts32 < p % TWO_32 {
      if hi + 1 < TWO_32 {
        assert (hi + 1) * TWO_32 < TWO_64;
        DivModUnique((hi + 1) * TWO_32, TWO_64, 0, (hi + 1) * TWO_32);
        DivModUnique(carried, TWO_32, hi + 1, 0);
        DivModUnique(carried + ts32, TWO_32, hi + 1, ts32);
      } else {
        DivModUnique((hi + 1) * TWO_32, TWO_64, 1, 0);
      }
    } else {
      DivModUnique(carried, TWO_32, hi, 0);
      DivModUnique(carried + ts32, TWO_32, hi, ts32);
    }
  }

  /**
   * When the previous timestamp's high word is at its maximum and the counter wraps, the
   * carry overflows and the "unwrapped" value falls back to the bare 32-bit counter.
   */
  lemma UnwrapCarryOverflow()
    ensures UnwrapTimestamp(Some(0xFFFF_FFFF_FFFF_FFF0), 5) == 5
  {
  }

  // ---------------------------------------------------------------- the decoder

  datatype RxStep =
    | NeedMore                                      // None: wait for more bytes
    | Consumed(frame: Option<CanFrame>, count: nat) // Some((frame, consumed))

  /** The decoder's answer and the new value of `*last_ts64`. */
  datatype RxResult = RxResult(step: RxStep, lastTs: Option<u64>)

  /** A Rust function that either returns or panics (here: a slice index out of range). */
  datatype Outcome<T> = Returns(value: T) | Panics

  /** The last part of the decoder, shared by both versions: build the frame, stamp it. */
  function FinishRecord(bytes: seq<byte>, dataLen: nat, tsOff: nat, consumed: nat,
                        timestampEnabled: bool, lastTs: Option<u64>): (r: RxResult)
    requires |bytes| >= GS_HEADER_LEN + dataLen
    requires timestampEnabled ==> tsOff + 4 <= |bytes|
  {
    var raw := ReadLe32(bytes, 4);
    var data := bytes[GS_HEADER_LEN..GS_HEADER_LEN + dataLen];
    match DecodeFrame(raw, bytes[8], data)
    case None => RxResult(NeedMore, lastTs)
    case Some(f) =>
      if timestampEnabled then
        var ts64 := UnwrapTimestamp(lastTs, ReadLe32(bytes, tsOff));
        RxResult(Consumed(Some(SetTimestamp(f, Some(ts64))), consumed), Some(ts64))
      else
        RxResult(Consumed(Some(f), consumed), lastTs)
  }

  /**
   * `parse_host_frame_at` as written. It returns "need more bytes" when the buffer is
   * shorter than the header, than 20 bytes for DLC 0, than the record plus timestamp when
   * timestamps are on, or than the padded record when PAD_PKTS is on. With neither
   * timestamps nor padding it never checks that the payload is there before slicing it.
   */
  function ParseHostFrameAtAsWritten(bytes: seq<byte>, channelIndex: byte, timestampEnabled: bool,
                                     lastTs: Option<u64>, outWmax: nat, padPkts: bool): (r: Outcome<RxResult>)
    ensures r.Panics? ==>
              && !timestampEnabled && !(padPkts && outWmax > 0)
              && GS_HEADER_LEN <= |bytes| < GS_HEADER_LEN + DlcToLen(bytes[8])
    ensures r.Returns? && r.value.step.Consumed? ==> GS_HEADER_LEN <= |bytes| && r.value.step.count >= 1
  {
    if |bytes| < GS_HEADER_LEN then Returns(RxResult(NeedMore, lastTs))
    else
      var echoId := ReadLe32(bytes, 0);
      var dlc := bytes[8];
      var chan := bytes[9];
      var dataLen := DlcToLen(dlc);
      if dlc > 15 then Returns(RxResult(Consumed(None, 1), lastTs))
      else
        var base := GS_HEADER_LEN + AlignedPayload(dataLen);
        if dataLen == 0 && |bytes| < 20 then Returns(RxResult(NeedMore, lastTs))
        else if timestampEnabled && |bytes| < base + GS_TS_LEN then Returns(RxResult(NeedMore, lastTs))
        else
          var consumed0 := if timestampEnabled then base + GS_TS_LEN else base;
          var padTo := if padPkts && outWmax > 0 then AlignUp(consumed0, outWmax) else consumed0;
          if padPkts && outWmax > 0 && |bytes| < padTo then Returns(RxResult(NeedMore, lastTs))
          else if !PlausibleHeader(bytes, channelIndex) then Returns(RxResult(Consumed(None, 1), lastTs))
          else if echoId != GS_CAN_ECHO_ID_UNUSED || chan != channelIndex then
            Returns(RxResult(Consumed(None, padTo), lastTs))
          else if |bytes| < GS_HEADER_LEN + dataLen then Panics
          else Returns(FinishRecord(bytes, dataLen, base, padTo, timestampEnabled, lastTs))
  }

  /**
   * `parse_host_frame_at` with the whole record required before anything is decided past
   * the DLC check: a buffer shorter than the record (plus timestamp, plus padding) means
   * "need more bytes". Every answer that consumes bytes consumes at least one and at most
   * what the buffer holds; a resync consumes exactly one; anything else consumes exactly
   * one record.
   */
  function ParseHostFrameAt(bytes: seq<byte>, channelIndex: byte, timestampEnabled: bool,
                            lastTs: Option<u64>, outWmax: nat, padPkts: bool): (r: RxResult)
    ensures r.step.Consumed? ==> GS_HEADER_LEN <= |bytes| && 1 <= r.step.count <= |bytes|
    ensures r.step.Consumed? && r.step.count != 1 ==>
      r.step.count == RecordLen(bytes[8], timestampEnabled, outWmax, padPkts)
    ensures r.step.Consumed? && r.step.frame.Some? ==>
      r.step.count == RecordLen(bytes[8], timestampEnabled, outWmax, padPkts)
    ensures r.step.Consumed? && r.step.frame.Some? && timestampEnabled ==>
      r.lastTs.Some? && r.step.frame.value.timestamp == r.lastTs
    ensures r.lastTs != lastTs ==> r.step.Consumed? && r.step.frame.Some? && timestampEnabled
  {
    if |bytes| < GS_HEADER_LEN then RxResult(NeedMore, lastTs)
    else
      var echoId := ReadLe32(bytes, 0);
      var dlc := bytes[8];
      var chan := bytes[9];
      var dataLen := DlcToLen(dlc);
      if dlc > 15 then RxResult(Consumed(None, 1), lastTs)
      else
        var base := GS_HEADER_LEN + AlignedPayload(dataLen);
        if dataLen == 0 && |bytes| < 20 then RxResult(NeedMore, lastTs)
        else if timestampEnabled && |bytes| < base + GS_TS_LEN then RxResult(NeedMore, lastTs)
        else
          var consumed0 := if timestampEnabled then base + GS_TS_LEN else base;
          var padTo := if padPkts && outWmax > 0 then AlignUp(consumed0, outWmax) else consumed0;
          if padPkts && outWmax > 0 && |bytes| < padTo then RxResult(NeedMore, lastTs)
          else if |bytes| < padTo then RxResult(NeedMore, lastTs)
          else if !PlausibleHeader(bytes, channelIndex) then RxResult(Consumed(None, 1), lastTs)
          else if echoId != GS_CAN_ECHO_ID_UNUSED || chan != channelIndex then
            RxResult(Consumed(None, padTo), lastTs)
          else FinishRecord(bytes, dataLen, base, padTo, timestampEnabled, lastTs)
  }

  // ---------------------------------------------------------------- properties of the decoder

  /**
   * A decision to consume bytes depends only on the bytes consumed: appending more data
   * to the buffer does not change it. (So records are decoded the same way however the
   * stream is cut into USB transfers.)
   */
  lemma ParseExtends(bytes: seq<byte>, more: seq<byte>, channelIndex: byte, timestampEnabled: bool,
                     lastTs: Option<u64>, outWmax: nat, padPkts: bool)
    requires ParseHostFrameAt(bytes, channelIndex, timestampEnabled, lastTs, outWmax, padPkts).step.Consumed?
    ensures ParseHostFrameAt(bytes + more, channelIndex, timestampEnabled, lastTs, outWmax, padPkts)
         == ParseHostFrameAt(bytes, channelIndex, timestampEnabled, lastTs, outWmax, padPkts)
  {
    var ext := bytes + more;
    assert ext[..|bytes|] == bytes;
    HeaderExtends(bytes, ext);
    var dataLen := DlcToLen(bytes[8]);
    var base := GS_HEADER_LEN + AlignedPayload(dataLen);
    if bytes[8] <= 15 && |bytes| >= base + (if timestampEnabled then GS_TS_LEN else 0) {
      FinishRecordExtends(bytes, ext, dataLen, base, RecordLen(bytes[8], timestampEnabled, outWmax, padPkts),
                          timestampEnabled, lastTs);
    }
  }

  /** A buffer that starts with a whole header carries the same header. */
  lemma HeaderExtends(bytes: seq<byte>, ext: seq<byte>)
    requires GS_HEADER_LEN <= |bytes| <= |ext| && ext[..|bytes|] == bytes
    ensures ReadLe32(ext, 0) == ReadLe32(bytes, 0) && ext[8] == bytes[8] && ext[9] == bytes[9]
  {
    PrefixReads(bytes, ext, 0);
    assert ext[8] == ext[..|bytes|][8] && ext[9] == ext[..|bytes|][9];
  }

  lemma PrefixReads(bytes: seq<byte>, ext: seq<byte>, off: nat)
    requires off + 4 <= |bytes| <= |ext| && ext[..|bytes|] == bytes
    ensures ReadLe32(ext, off) == ReadLe32(bytes, off)
  {
    assert forall k :: 0 <= k < |bytes| ==> ext[k] == ext[..|bytes|][k];
  }

  lemma FinishRecordExtends(bytes: seq<byte>, ext: seq<byte>, dataLen: nat, tsOff: nat, consumed: nat,
                            timestampEnabled: bool, lastTs: Option<u64>)
    requires |bytes| >= GS_HEADER_LEN + dataLen && |bytes| <= |ext| && ext[..|bytes|] == bytes
    requires timestampEnabled ==> tsOff + 4 <= |bytes|
    ensures FinishRecord(ext, dataLen, tsOff, consumed, timestampEnabled, lastTs)
         == FinishRecord(bytes, dataLen, tsOff, consumed, timestampEnabled, lastTs)
  {
    PrefixReads(bytes, ext, 4);
    if timestampEnabled {
      PrefixReads(bytes, ext, tsOff);
    }
    assert ext[8] == ext[..|bytes|][8];
    assert forall k :: 0 <= k < |bytes| ==> ext[k] == ext[..|bytes|][k];
    assert ext[GS_HEADER_LEN..GS_HEADER_LEN + dataLen] == bytes[GS_HEADER_LEN..GS_HEADER_LEN + dataLen];
  }

  /** Fewer bytes than the record (with timestamp and padding) is always "need more bytes". */
  lemma ParseNeedsWholeRecord(bytes: seq<byte>, channelIndex: byte, timestampEnabled: bool,
                              lastTs: Option<u64>, outWmax: nat, padPkts: bool)
    requires |bytes| < GS_HEADER_LEN
          || (bytes[8] <= 15 && |bytes| < RecordLen(bytes[8], timestampEnabled, outWmax, padPkts))
    ensures ParseHostFrameAt(bytes, channelIndex, timestampEnabled, lastTs, outWmax, padPkts)
            == RxResult(NeedMore, lastTs)
  {
  }

  /** An invalid DLC code, or a whole record for another channel, resyncs by one byte. */
  lemma ParseResyncsByOneByte(bytes: seq<byte>, channelIndex: byte, timestampEnabled: bool,
                              lastTs: Option<u64>, outWmax: nat, padPkts: bool)
    requires |bytes| >= GS_HEADER_LEN
    requires bytes[8] > 15
          || (bytes[9] != channelIndex && |bytes| >= RecordLen(bytes[8], timestampEnabled, outWmax, padPkts))
    ensures ParseHostFrameAt(bytes, channelIndex, timestampEnabled, lastTs, outWmax, padPkts)
            == RxResult(Consumed(None, 1), lastTs)
  {
  }

  /** A whole record whose echo id is in use is the device echoing a transmission: skipped whole. */
  lemma ParseSkipsTxEcho(bytes: seq<byte>, channelIndex: byte, timestampEnabled: bool,
                         lastTs: Option<u64>, outWmax: nat, padPkts: bool)
    requires PlausibleHeader(bytes, channelIndex)
    requires |bytes| >= RecordLen(bytes[8], timestampEnabled, outWmax, padPkts)
    requires ReadLe32(bytes, 0) != GS_CAN_ECHO_ID_UNUSED
    ensures ParseHostFrameAt(bytes, channelIndex, timestampEnabled, lastTs, outWmax, padPkts)
            == RxResult(Consumed(None, RecordLen(bytes[8], timestampEnabled, outWmax, padPkts)), lastTs)
  {
  }

  /**
   * A whole received record on the expected channel decodes to the frame its id, DLC and
   * payload stand for, stamped (when timestamps are on) with the unwrapped timestamp that
   * follows the aligned payload, and consumes exactly one record. If the frame constructor
   * rejects it, the answer is "need more bytes".
   */
  lemma ParseDecodesRecord(bytes: seq<byte>, channelIndex: byte, timestampEnabled: bool,
                           lastTs: Option<u64>, outWmax: nat, padPkts: bool)
    requires PlausibleHeader(bytes, channelIndex)
    requires |bytes| >= RecordLen(bytes[8], timestampEnabled, outWmax, padPkts)
    requires ReadLe32(bytes, 0) == GS_CAN_ECHO_ID_UNUSED
    ensures var dataLen := DlcToLen(bytes[8]);
      var tsOff := GS_HEADER_LEN + AlignedPayload(dataLen);
      var len := RecordLen(bytes[8], timestampEnabled, outWmax, padPkts);
      && GS_HEADER_LEN + dataLen <= |bytes|
      && (timestampEnabled ==> tsOff + GS_TS_LEN <= |bytes|)
      && ParseHostFrameAt(bytes, channelIndex, timestampEnabled, lastTs, outWmax, padPkts) ==
         match DecodeFrame(ReadLe32(bytes, 4), bytes[8], bytes[GS_HEADER_LEN..GS_HEADER_LEN + dataLen])
         case None => RxResult(NeedMore, lastTs)
         case Some(f) =>
           if timestampEnabled then
             var ts64 := UnwrapTimestamp(lastTs, ReadLe32(bytes, tsOff));
             RxResult(Consumed(Some(f.(timestamp := Some(ts64))), len), Some(ts64))
           else RxResult(Consumed(Some(f), len), lastTs)
  {
  }

  /**
   * A data record whose payload is over 8 bytes (DLC 9..15) is rejected by the classic
   * frame constructor, and that rejection reads as "need more bytes" however many bytes
   * follow: the record is never consumed.
   */
  lemma RejectedRecordNeverConsumed(bytes: seq<byte>, extra: seq<byte>, channelIndex: byte,
                                    timestampEnabled: bool, lastTs: Option<u64>, outWmax: nat, padPkts: bool)
    requires PlausibleHeader(bytes, channelIndex) && 9 <= bytes[8]
    requires ReadLe32(bytes, 0) == GS_CAN_ECHO_ID_UNUSED
    requires !HasFlag(ReadLe32(bytes, 4), CAN_ERR_FLAG) && !HasFlag(ReadLe32(bytes, 4), CAN_RTR_FLAG)
    ensures ParseHostFrameAt(bytes + extra, channelIndex, timestampEnabled, lastTs, outWmax, padPkts)
            == RxResult(NeedMore, lastTs)
  {
    var all := bytes + extra;
    assert all[..12] == bytes[..12];
    assert ReadLe32(all, 0) == ReadLe32(bytes, 0) && ReadLe32(all, 4) == ReadLe32(bytes, 4);
  }

  // ---------------------------------------------------------------- the missing length check

  /**
   * With timestamps or padding on, or DLC 0, the source already waits for the whole
   * record, and the corrected decoder answers exactly as the source does.
   */
  lemma AsWrittenAgreesWhenChecked(bytes: seq<byte>, channelIndex: byte, timestampEnabled: bool,
                                   lastTs: Option<u64>, outWmax: nat, padPkts: bool)
    requires timestampEnabled || (padPkts && outWmax > 0)
          || |bytes| < GS_HEADER_LEN || DlcToLen(bytes[8]) == 0
          || |bytes| >= RecordLen(bytes[8], timestampEnabled, outWmax, padPkts)
    ensures ParseHostFrameAtAsWritten(bytes, channelIndex, timestampEnabled, lastTs, outWmax, padPkts)
            == Returns(ParseHostFrameAt(bytes, channelIndex, timestampEnabled, lastTs, outWmax, padPkts))
  {
  }

  /**
   * The source slices past the end of a 12-byte buffer holding a received header for a
   * one-byte frame when timestamps and padding are off: the slice `bytes[12..13]` panics.
   */
  lemma AsWrittenSlicesPastEnd()
    ensures ParseHostFrameAtAsWritten([0xFF, 0xFF, 0xFF, 0xFF, 0x23, 0x01, 0, 0, 1, 0, 0, 0],
                                      0, false, None, 0, false) == Panics
  {
  }

  /**
   * A 16-byte buffer holding a TX echo header with DLC 4 is "consumed" as 20 bytes, more
   * than the buffer holds, so the caller's `drain(..20)` panics. The corrected decoder waits.
   */
  lemma AsWrittenOverConsumes()
    ensures var b: seq<byte> := [0, 0, 0, 0, 0x23, 0x01, 0, 0, 4, 0, 0, 0, 1, 2, 3, 4];
      && ParseHostFrameAtAsWritten(b, 0, false, None, 0, false) == Returns(RxResult(Consumed(None, 20), None))
      && 20 > |b|
      && ParseHostFrameAt(b, 0, false, None, 0, false) == RxResult(NeedMore, None)
  {
  }
}
