/**
 * Fixed little-endian payloads of the gs_usb BITTIMING, MODE and BT_CONST control
 * requests, and the bit-timing search, as the live driver has them
 * (src/drivers/gs_usb/bit_timing.rs).
 *
 * The search ranks candidates by a floating-point score. That ranking is a parameter
 * here (`score`, any function of brp, tseg1 and tseg2); the 5% bitrate filter is stated
 * exactly in integers.
 */
module GsBitTiming {
  import opened Wrappers
  import opened Bytes

  /** `GsDeviceBitTiming`: the BITTIMING payload. */
  datatype GsDeviceBitTiming = GsDeviceBitTiming(propSeg: u32, phaseSeg1: u32, phaseSeg2: u32, sjw: u32, brp: u32)

  /** `GsBtConst`: the device's bit-timing limits as BT_CONST reports them. */
  datatype GsBtConst = GsBtConst(
    feature: u32, fclkCan: u32,
    tseg1Min: u32, tseg1Max: u32, tseg2Min: u32, tseg2Max: u32,
    sjwMax: u32, brpMin: u32, brpMax: u32, brpInc: u32)

  function BtConstFields(c: GsBtConst): seq<u32>
  {
    [c.feature, c.fclkCan, c.tseg1Min, c.tseg1Max, c.tseg2Min, c.tseg2Max, c.sjwMax, c.brpMin, c.brpMax, c.brpInc]
  }

  /** The BT_CONST wire layout: the ten fields as little-endian u32s in declaration order. */
  function BtConstBytes(c: GsBtConst): (b: seq<byte>)
    ensures |b| == 40
  {
    Le32s(BtConstFields(c))
  }

  /**
   * `parse_bt_const`: reads ten little-endian u32s at offsets 0, 4, ..., 36. Its callers
   * only pass buffers of at least 40 bytes. The first 40 bytes are exactly the layout of
   * the result, so nothing in them is ignored or reordered.
   */
  function ParseBtConst(b: seq<byte>): (c: GsBtConst)
    requires |b| >= 40
    ensures BtConstBytes(c) == b[..40]
  {
    var f := ReadLe32s(b, 0, 10);
    var c := GsBtConst(f[0], f[1], f[2], f[3], f[4], f[5], f[6], f[7], f[8], f[9]);
    assert BtConstFields(c) == f;
    Le32sOfReadLe32s(b, 0, 10);
    c
  }

  /** Parsing the layout of a BT_CONST value gives it back, whatever follows the 40 bytes. */
  lemma {:induction false} ParseBtConstRoundTrip(c: GsBtConst, rest: seq<byte>)
    ensures ParseBtConst(BtConstBytes(c) + rest) == c
  {
    var b := BtConstBytes(c) + rest;
    assert b[0..40] == Le32s(BtConstFields(c));
    ReadLe32sOfLe32s(BtConstFields(c), b, 0);
  }

  function TimingFields(t: GsDeviceBitTiming): seq<u32>
  {
    [t.propSeg, t.phaseSeg1, t.phaseSeg2, t.sjw, t.brp]
  }

  /** `GsDeviceBitTiming::to_bytes`: the five fields as little-endian u32s, 20 bytes. */
  function ToBytes(t: GsDeviceBitTiming): (b: seq<byte>)
    ensures |b| == 20
  {
    Le32s(TimingFields(t))
  }

  /** Decoding the BITTIMING payload field by field recovers the timing. */
  lemma {:induction false} ToBytesRoundTrip(t: GsDeviceBitTiming)
    ensures var f := ReadLe32s(ToBytes(t), 0, 5);
      GsDeviceBitTiming(f[0], f[1], f[2], f[3], f[4]) == t
  {
    var b := ToBytes(t);
    assert b[0..20] == b;
    ReadLe32sOfLe32s(TimingFields(t), b, 0);
  }

  /** `encode_mode(mode, flags)`: the MODE payload, mode then flags, little-endian. */
  function EncodeMode(mode: u32, flags: u32): (b: seq<byte>)
    ensures |b| == 8 && ReadLe32(b, 0) == mode && ReadLe32(b, 4) == flags
  {
    var b := Le32(mode) + Le32(flags);
    assert b[0..4] == Le32(mode) && b[4..8] == Le32(flags);
    ReadLe32OfLe32(b, 0, mode);
    ReadLe32OfLe32(b, 4, flags);
    b
  }

  // ---------------------------------------------------------------- the search

  /** One point of the search space: prescaler and the two segment lengths in time quanta. */
  datatype Cand = Cand(brp: nat, tseg1: nat, tseg2: nat)

  predicate InSpace(caps: GsBtConst, c: Cand)
  {
    caps.brpMin <= c.brp <= caps.brpMax
    && caps.tseg1Min <= c.tseg1 <= caps.tseg1Max
    && caps.tseg2Min <= c.tseg2 <= caps.tseg2Max
  }

  function Abs(x: int): nat { if x < 0 then -x else x }

  /**
   * The 5% filter: |fclk / (brp * tq) - bitrate| / bitrate <= 0.05 with tq = 1 + tseg1 + tseg2,
   * multiplied out so that it is exact.
   */
  predicate PassesRateFilter(fclk: nat, bitrate: nat, brp: nat, tseg1: nat, tseg2: nat)
  {
    var nominal := bitrate * brp * (1 + tseg1 + tseg2);
    20 * Abs(fclk - nominal) <= nominal
  }

  /**
   * How the source splits tseg1 into (prop_seg, phase_seg1), or None where it `continue`s:
   * phase_seg1 is min(tseg1 / 2, tseg1_max) (1 when tseg1 <= 1, never 0), prop_seg the
   * saturating rest, and a zero prop_seg borrows one quantum from phase_seg1 when it can.
   */
  function SplitTseg1(tseg1: nat, tseg1Max: nat): Option<(int, int)>
  {
    var ps1a := if tseg1 > 1 then (if tseg1 / 2 < tseg1Max then tseg1 / 2 else tseg1Max) else 1;
    var ps1 := if ps1a == 0 then 1 else ps1a;
    var prop := if tseg1 >= ps1 then tseg1 - ps1 else 0;
    if prop == 0 then
      (if ps1 > 1 then Some((1, ps1 - 1)) else None)
    else Some((prop, ps1))
  }

  /**
   * Inside the search space the split keeps exactly the tseg1 values of at least 2, and
   * gives phase_seg1 the lower half of tseg1 and prop_seg the upper half: two non-empty
   * segments that add up to tseg1. (So the borrowing branch is never taken.)
   */
  lemma SplitTseg1Sound(tseg1: nat, tseg1Max: nat)
    requires tseg1 <= tseg1Max
    ensures SplitTseg1(tseg1, tseg1Max).Some? <==> tseg1 >= 2
    ensures SplitTseg1(tseg1, tseg1Max).Some? ==>
      SplitTseg1(tseg1, tseg1Max).value == (tseg1 - tseg1 / 2, tseg1 / 2)
      && tseg1 / 2 >= 1 && tseg1 - tseg1 / 2 >= 1
  {
  }

  /** `min(sjw_max, phase_seg2)`. */
  function Sjw(sjwMax: u32, tseg2: u32): u32
  {
    if sjwMax < tseg2 then sjwMax else tseg2
  }

  /** The timing the loop body builds for a point, or None where it `continue`s. */
  function Candidate(caps: GsBtConst, bitrate: nat, c: Cand): (t: Option<GsDeviceBitTiming>)
    requires InSpace(caps, c)
    ensures t.Some? <==> PassesRateFilter(caps.fclkCan, bitrate, c.brp, c.tseg1, c.tseg2) && c.tseg1 >= 2
    ensures t.Some? ==> t.value == GsDeviceBitTiming(c.tseg1 - c.tseg1 / 2, c.tseg1 / 2, c.tseg2, Sjw(caps.sjwMax, c.tseg2), c.brp)
  {
    if !PassesRateFilter(caps.fclkCan, bitrate, c.brp, c.tseg1, c.tseg2) then None
    else
      SplitTseg1Sound(c.tseg1, caps.tseg1Max);
      match SplitTseg1(c.tseg1, caps.tseg1Max)
      case None => None
      case Some((prop, ps1)) => Some(GsDeviceBitTiming(prop, ps1, c.tseg2, Sjw(caps.sjwMax, c.tseg2), c.brp))
  }

  /** A point the loop body keeps (it reaches the `best` update). */
  predicate Kept(caps: GsBtConst, bitrate: nat, c: Cand)
  {
    InSpace(caps, c) && Candidate(caps, bitrate, c).Some?
  }

  /** Search order: by brp, then tseg1, then tseg2. */
  predicate Before(c: Cand, d: Cand)
  {
    c.brp < d.brp || (c.brp == d.brp && (c.tseg1 < d.tseg1 || (c.tseg1 == d.tseg1 && c.tseg2 < d.tseg2)))
  }

  function ScoreOf(score: (nat, nat, nat) -> real, c: Cand): real
  {
    score(c.brp, c.tseg1, c.tseg2)
  }

  /**
   * `best` after examining every point before `pos`: absent when no such point was kept;
   * otherwise a kept point with the least score so far, and the first one with that score.
   */
  ghost predicate Champion(caps: GsBtConst, bitrate: nat, score: (nat, nat, nat) -> real,
                           best: Option<Cand>, pos: Cand)
  {
    match best
    case None => forall c :: Kept(caps, bitrate, c) ==> !Before(c, pos)
    case Some(b) =>
      && Kept(caps, bitrate, b) && Before(b, pos)
      && (forall c :: Kept(caps, bitrate, c) && Before(c, pos) ==> ScoreOf(score, b) <= ScoreOf(score, c))
      && (forall c :: Kept(caps, bitrate, c) && Before(c, b) ==> ScoreOf(score, b) < ScoreOf(score, c))
  }

  /** `c` is the point the search settles on: kept, least score, first among equals. */
  ghost predicate BestAt(caps: GsBtConst, bitrate: nat, score: (nat, nat, nat) -> real, c: Cand)
  {
    && Kept(caps, bitrate, c)
    && (forall d :: Kept(caps, bitrate, d) ==> ScoreOf(score, c) <= ScoreOf(score, d))
    && (forall d :: Kept(caps, bitrate, d) && Before(d, c) ==> ScoreOf(score, c) < ScoreOf(score, d))
  }

  /** The `best` update for one point: replace unless the incumbent scores at most as well. */
  ghost function NextBest(caps: GsBtConst, bitrate: nat, score: (nat, nat, nat) -> real,
                          best: Option<Cand>, here: Cand): Option<Cand>
  {
    if Kept(caps, bitrate, here) && (best.None? || ScoreOf(score, here) < ScoreOf(score, best.value))
    then Some(here) else best
  }

  /** One step of the innermost loop keeps `best` the champion of the points examined. */
  lemma ChampionStep(caps: GsBtConst, bitrate: nat, score: (nat, nat, nat) -> real,
                     best: Option<Cand>, here: Cand)
    requires Champion(caps, bitrate, score, best, here)
    ensures Champion(caps, bitrate, score, NextBest(caps, bitrate, score, best, here),
                     Cand(here.brp, here.tseg1, here.tseg2 + 1))
  {
    var next := Cand(here.brp, here.tseg1, here.tseg2 + 1);
    assert forall c :: Before(c, next) <==> Before(c, here) || c == here;
  }

  /** Moving the position over points outside the search space changes nothing. */
  lemma ChampionShift(caps: GsBtConst, bitrate: nat, score: (nat, nat, nat) -> real,
                      best: Option<Cand>, pos: Cand, pos': Cand)
    requires Champion(caps, bitrate, score, best, pos)
    requires forall c :: InSpace(caps, c) ==> (Before(c, pos) <==> Before(c, pos'))
    ensures Champion(caps, bitrate, score, best, pos')
  {
  }

  /** Once every point of the space has been examined, the champion is the search's answer. */
  lemma ChampionDone(caps: GsBtConst, bitrate: nat, score: (nat, nat, nat) -> real,
                     best: Option<Cand>, pos: Cand)
    requires Champion(caps, bitrate, score, best, pos)
    requires forall c :: InSpace(caps, c) ==> Before(c, pos)
    ensures best.None? <==> forall c :: InSpace(caps, c) ==> !Kept(caps, bitrate, c)
    ensures best.Some? ==> BestAt(caps, bitrate, score, best.value)
  {
  }

  /**
   * `calc_bit_timing`: None exactly when no point of the search space passes the filter
   * and the split; otherwise the timing built from the first point of least score.
   */
  method CalcBitTiming(bitrate: u32, caps: GsBtConst, score: (nat, nat, nat) -> real)
    returns (r: Option<GsDeviceBitTiming>)
    ensures r.None? <==> forall c :: InSpace(caps, c) ==> !Kept(caps, bitrate, c)
    ensures r.Some? ==> exists c :: BestAt(caps, bitrate, score, c) && r == Candidate(caps, bitrate, c)
  {
    var best: Option<(GsDeviceBitTiming, real)> := None;
    ghost var bestAt: Option<Cand> := None;
    var brp: nat := caps.brpMin;
    while brp <= caps.brpMax
      invariant caps.brpMin <= brp
      invariant Champion(caps, bitrate, score, bestAt, Cand(brp, caps.tseg1Min, caps.tseg2Min))
      invariant Tracks(caps, bitrate, score, best, bestAt)
      decreases caps.brpMax - brp
    {
      var tseg1: nat := caps.tseg1Min;
      while tseg1 <= caps.tseg1Max
        invariant caps.tseg1Min <= tseg1 && brp <= caps.brpMax
        invariant Champion(caps, bitrate, score, bestAt, Cand(brp, tseg1, caps.tseg2Min))
        invariant Tracks(caps, bitrate, score, best, bestAt)
        decreases caps.tseg1Max - tseg1
      {
        best, bestAt := ScanTseg2(bitrate, caps, score, brp, tseg1, best, bestAt);
        tseg1 := tseg1 + 1;
      }
      ChampionShift(caps, bitrate, score, bestAt, Cand(brp, tseg1, caps.tseg2Min), Cand(brp + 1, caps.tseg1Min, caps.tseg2Min));
      brp := brp + 1;
    }
    ChampionDone(caps, bitrate, score, bestAt, Cand(brp, caps.tseg1Min, caps.tseg2Min));
    if best.Some? {
      r := Some(best.value.0);
    } else {
      r := None;
    }
  }

  /**
   * The innermost loop of `calc_bit_timing`: every `tseg2` for one `brp` and `tseg1`,
   * leaving `best` the champion of the points up to the next `tseg1`.
   */
  method ScanTseg2(bitrate: u32, caps: GsBtConst, score: (nat, nat, nat) -> real, brp: nat, tseg1: nat,
                   best0: Option<(GsDeviceBitTiming, real)>, ghost bestAt0: Option<Cand>)
    returns (best: Option<(GsDeviceBitTiming, real)>, ghost bestAt: Option<Cand>)
    requires caps.brpMin <= brp <= caps.brpMax && caps.tseg1Min <= tseg1 <= caps.tseg1Max
    requires Champion(caps, bitrate, score, bestAt0, Cand(brp, tseg1, caps.tseg2Min))
    requires Tracks(caps, bitrate, score, best0, bestAt0)
    ensures Champion(caps, bitrate, score, bestAt, Cand(brp, tseg1 + 1, caps.tseg2Min))
    ensures Tracks(caps, bitrate, score, best, bestAt)
  {
    best, bestAt := best0, bestAt0;
    var tseg2: nat := caps.tseg2Min;
    while tseg2 <= caps.tseg2Max
      invariant caps.tseg2Min <= tseg2
      invariant Champion(caps, bitrate, score, bestAt, Cand(brp, tseg1, tseg2))
      invariant Tracks(caps, bitrate, score, best, bestAt)
      decreases caps.tseg2Max - tseg2
    {
      var here := Cand(brp, tseg1, tseg2);
      ChampionStep(caps, bitrate, score, bestAt, here);
      TracksStep(caps, bitrate, score, best, bestAt, here);
      bestAt := NextBest(caps, bitrate, score, bestAt, here);
      var candidate := Candidate(caps, bitrate, here);
      if candidate.Some? {
        var s := score(brp, tseg1, tseg2);
        if best.Some? && best.value.1 <= s {
        } else {
          best := Some((candidate.value, s));
        }
      }
      tseg2 := tseg2 + 1;
    }
    ChampionShift(caps, bitrate, score, bestAt, Cand(brp, tseg1, tseg2), Cand(brp, tseg1 + 1, caps.tseg2Min));
  }

  /** The running `best` pairs the champion's timing with its score. */
  ghost predicate Tracks(caps: GsBtConst, bitrate: nat, score: (nat, nat, nat) -> real,
                         best: Option<(GsDeviceBitTiming, real)>, bestAt: Option<Cand>)
  {
    match bestAt
    case None => best.None?
    case Some(c) =>
      && InSpace(caps, c) && best.Some? && Candidate(caps, bitrate, c) == Some(best.value.0)
      && best.value.1 == ScoreOf(score, c)
  }

  /** The `best` update for one point follows the champion's update. */
  lemma TracksStep(caps: GsBtConst, bitrate: nat, score: (nat, nat, nat) -> real,
                   best: Option<(GsDeviceBitTiming, real)>, bestAt: Option<Cand>, here: Cand)
    requires InSpace(caps, here) && Tracks(caps, bitrate, score, best, bestAt)
    ensures var candidate := Candidate(caps, bitrate, here);
      var s := ScoreOf(score, here);
      var best' := if candidate.Some? && !(best.Some? && best.value.1 <= s) then Some((candidate.value, s)) else best;
      Tracks(caps, bitrate, score, best', NextBest(caps, bitrate, score, bestAt, here))
  {
  }
}
