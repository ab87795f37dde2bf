/**
 * The gs_usb wire codec of the older source layout (src/gs_usb/constants.rs,
 * src/gs_usb/frames.rs, src/gs_usb/bit_timing.rs).
 *
 * Its MODE flag table differs from the live tree's. Its record decoder has no timestamp
 * and no padding: a record is the 12-byte header followed by exactly the DLC's payload
 * length. Its bit-timing search is the live search over a fixed set of limits. The byte
 * layouts, the DLC table and the id decoding are the live tree's and are reused from
 * GsFrames and GsBitTiming.
 */
module GsLegacyCodec {
  import opened Wrappers
  import opened Bytes
  import opened CanFrames
  import opened GsConstants
  import GsFrames
  import GsBitTiming

  // ---------------------------------------------------------------- constants.rs

  /** A classic TX record: header and 8 data bytes. */
  const GS_CAN_FRAME_LEN: nat := GS_HEADER_LEN + 8

  // The MODE flags of this tree (they differ from the live tree's table).
  const MODE_LOOP_BACK: u32 := 0x0002
  const MODE_LISTEN_ONLY: u32 := 0x0004
  const MODE_TRIPLE_SAMPLE: u32 := 0x0008
  const MODE_ONE_SHOT: u32 := 0x0010
  const MODE_HW_TIMESTAMP: u32 := 0x0020
  const MODE_PAD_PKTS_TO_MAX_PKT_SIZE: u32 := 0x0040

  // The feature flags of this tree.
  const FEATURE_LISTEN_ONLY: u32 := 0x0001
  const FEATURE_LOOP_BACK: u32 := 0x0002
  const FEATURE_TRIPLE_SAMPLE: u32 := 0x0004
  const FEATURE_ONE_SHOT: u32 := 0x0008
  const FEATURE_HW_TIMESTAMP: u32 := 0x0010
  const FEATURE_IDENTIFY: u32 := 0x0020
  const FEATURE_PAD_PKTS_TO_MAX_PKT_SIZE: u32 := 0x0040
  const FEATURE_FD: u32 := 0x0100
  const FEATURE_BRS: u32 := 0x0200
  const FEATURE_EXT_LOOP_BACK: u32 := 0x0400

  /** The record sizes of this tree. */
  lemma FrameSizes()
    ensures GS_CAN_FRAME_LEN == 20 && GS_TX_FRAME_SIZE == 76 && GS_MAX_FRAME_LEN == 80
  {
  }

  /** Each MODE flag is its own single bit: LOOP_BACK bit 1 up to PAD_PKTS bit 6. */
  lemma ModeFlagsAreSingleBits()
    ensures MODE_LOOP_BACK == Pow2(1) && MODE_LISTEN_ONLY == Pow2(2) && MODE_TRIPLE_SAMPLE == Pow2(3)
    ensures MODE_ONE_SHOT == Pow2(4) && MODE_HW_TIMESTAMP == Pow2(5) && MODE_PAD_PKTS_TO_MAX_PKT_SIZE == Pow2(6)
  {
  }

  /** Each feature flag is its own single bit. */
  lemma FeatureFlagsAreSingleBits()
    ensures FEATURE_LISTEN_ONLY == Pow2(0) && FEATURE_LOOP_BACK == Pow2(1) && FEATURE_TRIPLE_SAMPLE == Pow2(2)
    ensures FEATURE_ONE_SHOT == Pow2(3) && FEATURE_HW_TIMESTAMP == Pow2(4) && FEATURE_IDENTIFY == Pow2(5)
    ensures FEATURE_PAD_PKTS_TO_MAX_PKT_SIZE == Pow2(6) && FEATURE_FD == Pow2(8)
    ensures FEATURE_BRS == Pow2(9) && FEATURE_EXT_LOOP_BACK == Pow2(10)
  {
  }

  /**
   * The flags word MODE START carries in this tree: HW_TIMESTAMP iff timestamps are
   * enabled, PAD_PKTS iff padding is on, LISTEN_ONLY iff a listen-only open; no other bit.
   */
  function ModeFlags(timestampEnabled: bool, padPkts: bool, listenOnly: bool): (flags: u32)
    ensures HasFlag(flags, MODE_HW_TIMESTAMP) == timestampEnabled
    ensures HasFlag(flags, MODE_PAD_PKTS_TO_MAX_PKT_SIZE) == padPkts
    ensures HasFlag(flags, MODE_LISTEN_ONLY) == listenOnly
    ensures flags < 0x80 && (flags == 0 <==> !timestampEnabled && !padPkts && !listenOnly)
  {
    var t, p, l := (if timestampEnabled then 1 else 0), (if padPkts then 1 else 0), (if listenOnly then 1 else 0);
    var flags := t * MODE_HW_TIMESTAMP + p * MODE_PAD_PKTS_TO_MAX_PKT_SIZE + l * MODE_LISTEN_ONLY;
    DivModUnique(flags, 0x20, t + 2 * p, 4 * l);
    DivModUnique(t + 2 * p, 2, p, t);
    DivModUnique(flags, 0x40, p, 0x20 * t + 4 * l);
    DivModUnique(p, 2, 0, p);
    DivModUnique(flags, 4, 8 * t + 16 * p + l, 0);
    DivModUnique(8 * t + 16 * p + l, 2, 4 * t + 8 * p, l);
    flags
  }

  // ---------------------------------------------------------------- frames.rs

  /**
   * `plausible_header` of this tree: a full header, a DLC whose length is at most 64 (which
   * every DLC byte satisfies) and the expected channel.
   */
  predicate PlausibleHeader(bytes: seq<byte>, expectedChan: byte)
  {
    |bytes| >= GS_HEADER_LEN && GsFrames.DlcToLen(bytes[8]) <= GS_MAX_DATA && bytes[9] == expectedChan
  }

  /** The length test is vacuous: a header is plausible exactly when it is on the channel. */
  lemma PlausibleIsChannelMatch(bytes: seq<byte>, expectedChan: byte)
    ensures PlausibleHeader(bytes, expectedChan) <==> |bytes| >= GS_HEADER_LEN && bytes[9] == expectedChan
  {
  }

  /** What this tree takes a record to be: the header and exactly the DLC's payload length. */
  function RecordLen(dlc: byte): (n: nat)
    ensures GS_HEADER_LEN <= n <= GS_TX_FRAME_SIZE
  {
    GS_HEADER_LEN + GsFrames.DlcToLen(dlc)
  }

  /**
   * `parse_host_frame_at` of this tree. "Need more bytes" for a short header or a short
   * record; a one-byte resync for a header on another channel; a skip of the whole record
   * for a TX echo; otherwise the decoded frame, which never carries a timestamp. The
   * timestamp arguments of the source are unused and left out. A frame the constructor
   * rejects also reads as "need more bytes".
   */
  function ParseHostFrameAt(bytes: seq<byte>, channelIndex: byte): (r: GsFrames.RxStep)
    ensures r.Consumed? ==> GS_HEADER_LEN <= |bytes| && 1 <= r.count <= |bytes|
    ensures r.Consumed? && r.count != 1 ==> r.count == RecordLen(bytes[8])
    ensures r.Consumed? && r.frame.Some? ==> r.frame.value.timestamp == None
  {
    if |bytes| < GS_HEADER_LEN then GsFrames.NeedMore
    else if !PlausibleHeader(bytes, channelIndex) then GsFrames.Consumed(None, 1)
    else
      var echoId := ReadLe32(bytes, 0);
      var raw := ReadLe32(bytes, 4);
      var dlc := bytes[8];
      var chan := bytes[9];
      var totalLen := GS_HEADER_LEN + GsFrames.DlcToLen(dlc);
      if totalLen > GS_MAX_FRAME_LEN then GsFrames.Consumed(None, 1)
      else if |bytes| < totalLen then GsFrames.NeedMore
      else if echoId != GS_CAN_ECHO_ID_UNUSED || chan != channelIndex then GsFrames.Consumed(None, totalLen)
      else
        match GsFrames.DecodeFrame(raw, dlc, bytes[GS_HEADER_LEN..totalLen])
        case None => GsFrames.NeedMore
        case Some(f) => GsFrames.Consumed(Some(f), totalLen)
  }

  /** Fewer than 12 bytes is "need more bytes"; a header for another channel resyncs by one byte. */
  lemma ParseShortOrForeign(bytes: seq<byte>, channelIndex: byte)
    ensures |bytes| < GS_HEADER_LEN ==> ParseHostFrameAt(bytes, channelIndex) == GsFrames.NeedMore
    ensures |bytes| >= GS_HEADER_LEN && bytes[9] != channelIndex ==>
      ParseHostFrameAt(bytes, channelIndex) == GsFrames.Consumed(None, 1)
  {
  }

  /** A record is at most 76 bytes, so the "longer than 80 bytes" guard never fires. */
  lemma OversizeGuardUnreachable(dlc: byte)
    ensures !(GS_HEADER_LEN + GsFrames.DlcToLen(dlc) > GS_MAX_FRAME_LEN)
  {
  }

  /** A header on the channel whose record is not all there yet means "need more bytes". */
  lemma ParseNeedsWholeRecord(bytes: seq<byte>, channelIndex: byte)
    requires PlausibleHeader(bytes, channelIndex) && |bytes| < RecordLen(bytes[8])
    ensures ParseHostFrameAt(bytes, channelIndex) == GsFrames.NeedMore
  {
  }

  /** A whole TX echo record is skipped whole, with no frame. */
  lemma ParseSkipsTxEcho(bytes: seq<byte>, channelIndex: byte)
    requires PlausibleHeader(bytes, channelIndex) && |bytes| >= RecordLen(bytes[8])
    requires ReadLe32(bytes, 0) != GS_CAN_ECHO_ID_UNUSED
    ensures ParseHostFrameAt(bytes, channelIndex) == GsFrames.Consumed(None, RecordLen(bytes[8]))
  {
  }

  /**
   * A whole received record on the channel decodes as the live tree decodes ids (error over
   * remote over extended over standard), from the payload right after the header, and
   * consumes exactly the header and payload.
   */
  lemma ParseDecodesRecord(bytes: seq<byte>, channelIndex: byte)
    requires PlausibleHeader(bytes, channelIndex) && |bytes| >= RecordLen(bytes[8])
    requires ReadLe32(bytes, 0) == GS_CAN_ECHO_ID_UNUSED
    ensures var n := RecordLen(bytes[8]);
      ParseHostFrameAt(bytes, channelIndex) ==
        match GsFrames.DecodeFrame(ReadLe32(bytes, 4), bytes[8], bytes[GS_HEADER_LEN..n])
        case None => GsFrames.NeedMore
        case Some(f) => GsFrames.Consumed(Some(f), n)
  {
  }

  /**
   * A DLC byte above 15 is not rejected here (its length is 0): a received record on the
   * channel with such a DLC is taken as a bare 12-byte header, where the live decoder
   * resyncs by one byte.
   */
  lemma InvalidDlcIsHeaderOnly(bytes: seq<byte>, channelIndex: byte)
    requires |bytes| >= GS_HEADER_LEN && bytes[8] > 15 && bytes[9] == channelIndex
    ensures ParseHostFrameAt(bytes, channelIndex).Consumed?
    ensures ParseHostFrameAt(bytes, channelIndex).count == GS_HEADER_LEN
    ensures GsFrames.ParseHostFrameAt(bytes, channelIndex, false, None, 0, false) == GsFrames.RxResult(GsFrames.Consumed(None, 1), None)
  {
    assert bytes[GS_HEADER_LEN..GS_HEADER_LEN] == [];
  }

  /**
   * A classic record on the wire carries 8 payload bytes whatever its DLC. This decoder
   * consumes only the header and the DLC's length: a 20-byte received record with DLC 0
   * is consumed as 12 bytes, leaving its 8 padding bytes to be read as the next header,
   * where the live decoder consumes all 20.
   */
  lemma ConsumesUnpaddedLength()
    ensures var b: seq<byte> := [0xFF, 0xFF, 0xFF, 0xFF, 0x23, 0x01, 0, 0, 0, 0, 0, 0, 0, 0, 0, 0, 0, 0, 0, 0];
      && ParseHostFrameAt(b, 0).Consumed? && ParseHostFrameAt(b, 0).count == 12
      && GsFrames.ParseHostFrameAt(b, 0, false, None, 0, false).step.Consumed?
      && GsFrames.ParseHostFrameAt(b, 0, false, None, 0, false).step.count == 20
  {
    var b: seq<byte> := [0xFF, 0xFF, 0xFF, 0xFF, 0x23, 0x01, 0, 0, 0, 0, 0, 0, 0, 0, 0, 0, 0, 0, 0, 0];
    assert b[GS_HEADER_LEN..GS_HEADER_LEN] == [];
  }

  /** Appending bytes does not change a decision to consume. */
  lemma ParseExtends(bytes: seq<byte>, more: seq<byte>, channelIndex: byte)
    requires ParseHostFrameAt(bytes, channelIndex).Consumed?
    ensures ParseHostFrameAt(bytes + more, channelIndex) == ParseHostFrameAt(bytes, channelIndex)
  {
    var ext := bytes + more;
    GsFrames.PrefixReads(bytes, ext, 0);
    GsFrames.PrefixReads(bytes, ext, 4);
    assert ext[8] == bytes[8] && ext[9] == bytes[9];
    var n := RecordLen(bytes[8]);
    if bytes[9] == channelIndex && |bytes| >= n {
      assert ext[GS_HEADER_LEN..n] == bytes[GS_HEADER_LEN..n];
    }
  }

  // ---------------------------------------------------------------- bit_timing.rs

  /** The limits the search of this tree is fixed to: a 48 MHz clock, tseg1 1..16, tseg2 1..8, sjw 4, brp 1..1024. */
  const FIXED_LIMITS: GsBitTiming.GsBtConst := GsBitTiming.GsBtConst(0, 48_000_000, 1, 16, 1, 8, 4, 1, 1024, 1)

  /**
   * `calc_bit_timing(bitrate)` of this tree: the live search over the fixed limits, so None
   * exactly when no point passes the 5% filter and the tseg1 split, and otherwise the
   * timing of the first point of least score.
   */
  method CalcBitTiming(bitrate: u32, score: (nat, nat, nat) -> real) returns (r: Option<GsBitTiming.GsDeviceBitTiming>)
    ensures r.None? <==> forall c :: GsBitTiming.InSpace(FIXED_LIMITS, c) ==> !GsBitTiming.Kept(FIXED_LIMITS, bitrate, c)
    ensures r.Some? ==> exists c :: GsBitTiming.BestAt(FIXED_LIMITS, bitrate, score, c)
                                    && r == GsBitTiming.Candidate(FIXED_LIMITS, bitrate, c)
  {
    r := GsBitTiming.CalcBitTiming(bitrate, FIXED_LIMITS, score);
  }

  /**
   * A timing the fixed search can return splits tseg1 into two non-empty segments, uses
   * tseg2 as phase_seg2, caps sjw at 4 and keeps brp within 1..1024.
   */
  lemma FixedTimingShape(bitrate: nat, c: GsBitTiming.Cand)
    requires GsBitTiming.Kept(FIXED_LIMITS, bitrate, c)
    ensures var t := GsBitTiming.Candidate(FIXED_LIMITS, bitrate, c).value;
      && t.propSeg + t.phaseSeg1 == c.tseg1 && t.propSeg >= 1 && t.phaseSeg1 >= 1
      && t.phaseSeg2 == c.tseg2 && t.sjw == (if c.tseg2 < 4 then c.tseg2 else 4)
      && 1 <= t.brp <= 1024 && 2 <= c.tseg1 <= 16 && 1 <= c.tseg2 <= 8
  {
  }

  /** The common CAN rates from 10 kbit/s to 1 Mbit/s divide the 48 MHz clock exactly. */
  lemma StandardRatesHaveTiming()
    ensures GsBitTiming.Kept(FIXED_LIMITS, 10_000, GsBitTiming.Cand(200, 15, 8))
    ensures GsBitTiming.Kept(FIXED_LIMITS, 125_000, GsBitTiming.Cand(24, 13, 2))
    ensures GsBitTiming.Kept(FIXED_LIMITS, 250_000, GsBitTiming.Cand(12, 13, 2))
    ensures GsBitTiming.Kept(FIXED_LIMITS, 500_000, GsBitTiming.Cand(6, 13, 2))
    ensures GsBitTiming.Kept(FIXED_LIMITS, 1_000_000, GsBitTiming.Cand(3, 13, 2))
  {
  }

  /** A bitrate of 0 passes no filter: the search finds nothing. */
  lemma ZeroBitrateHasNoTiming(c: GsBitTiming.Cand)
    requires GsBitTiming.InSpace(FIXED_LIMITS, c)
    ensures !GsBitTiming.Kept(FIXED_LIMITS, 0, c)
  {
  }
}
