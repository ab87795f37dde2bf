/**
 * The serial-line CAN adapter (slcan): the ASCII line codec (`t`/`T` frame lines, `J`
 * timestamp-rollover lines), the `S0`..`S8` bitrate commands, the nearest supported rate
 * for a measured bitrate, and the driver that reassembles `\r`-terminated lines from the
 * chunks the serial port delivers.
 *
 * Lines are bytes. A byte is read as the character with the same code, which is what
 * `line[i] as char` does; `str::from_utf8` followed by `from_str_radix` fails exactly when
 * reading the bytes that way gives a non-digit, so both routes reject the same slices.
 */
module Slcan {
  import opened Wrappers
  import opened Bytes
  import opened CanFrames
  import opened Text
  import opened Hex

  const CR: byte := 0x0D

  /** The bytes of a line read as characters. */
  function Chars(b: seq<byte>): (s: string)
    ensures |s| == |b| && forall i :: 0 <= i < |b| ==> s[i] == b[i] as char
  {
    seq(|b|, i requires 0 <= i < |b| => b[i] as char)
  }

  // ---------------------------------------------------------------- the line parser

  /** The result of one line: the frame it carries, if any, and the timestamp high word after it. */
  datatype Parsed = Parsed(frame: Option<CanFrame>, high: u32)

  /** What a run of the parser as written does: return, or panic on an index out of bounds. */
  datatype Outcome<T> = Returns(value: T) | Panics

  /** Where the data begins: after `t` + 3 id digits + the DLC digit, or `T` + 8 + 1. */
  function HeaderLength(extended: bool): nat
  {
    if extended then 10 else 5
  }


  /** The 32-bit value of eight hex digits at `at`, placed under the high word. */
  function StampAt(s: string, at: nat, high: u32): (r: Option<u64>)
    requires at + 8 <= |s|
    ensures r.Some? <==> ParseUnsigned(s[at..at + 8], 16, U32_MAX).Some?
    ensures r.Some? ==> r.value == high * TWO_32 + ParseUnsigned(s[at..at + 8], 16, U32_MAX).value
  {
    match ParseUnsigned(s[at..at + 8], 16, U32_MAX)
    case None => None
    case Some(low) => HighLowFits(high, low); Some(high * TWO_32 + low)
  }

  lemma HighLowFits(high: u32, low: nat)
    requires low <= U32_MAX
    ensures high * TWO_32 + low < TWO_64
  {
    MulMonotone(high, U32_MAX, TWO_32);
  }

  /** A frame line carries a timestamp exactly when it is header + 2 * DLC + 8 digits + `\r` long. */
  predicate Stamped(s: string, extended: bool)
    requires |s| >= HeaderLength(extended)
  {
    var d := DigitValue(s[HeaderLength(extended) - 1]);
    d < 10 && |s| == HeaderLength(extended) + 2 * d + 8 + 1
  }

  /** The frame a `t` (standard) or `T` (extended) line at least a header long describes. */
  function FrameLine(s: string, extended: bool, high: u32, stamped: bool): Option<CanFrame>
    requires |s| >= HeaderLength(extended)
  {
    var hl := HeaderLength(extended);
    var id := ParseUnsigned(s[1..hl - 1], 16, U32_MAX);
    var dlc := DigitValue(s[hl - 1]);
    if id.None? || dlc >= 10 || |s| < hl + 2 * dlc then None
    else match HexPairs(s, hl, dlc)
      case None => None
      case Some(data) =>
        var at := hl + 2 * dlc;
        var ts := if stamped && |s| >= at + 8 then StampAt(s, at, high) else None;
        var f := if extended then NewEff(id.value, data) else New(id.value, data);
        if f.None? then None else Some(SetTimestamp(f.value, ts))
  }

  /**
   * `parse_slcan_line_bytes` with its length guards checked before the DLC digit is read:
   * a `J` line bumps the high word (wrapping at 2^32); a `t`/`T` line may give a frame;
   * anything else gives nothing.
   */
  function ParseText(high: u32, s: string): (r: Parsed)
    ensures r.high == if |s| > 0 && s[0] == 'J' then (high + 1) % TWO_32 else high
    ensures r.frame.Some? ==> |s| > 0 && (s[0] == 't' || s[0] == 'T')
    ensures r.frame.Some? ==> ValidFrame(r.frame.value) && IsDataFrame(r.frame.value)
    ensures r.frame.Some? ==> r.frame.value.extended == (s[0] == 'T')
  {
    if |s| == 0 then Parsed(None, high)
    else if s[0] == 't' || s[0] == 'T' then
      var extended := s[0] == 'T';
      if |s| < HeaderLength(extended) then Parsed(None, high)
      else Parsed(FrameLine(s, extended, high, Stamped(s, extended)), high)
    else if s[0] == 'J' then Parsed(None, (high + 1) % TWO_32)
    else Parsed(None, high)
  }

  /** The parser on the bytes of one line, as the reader hands it over (including its `\r`). */
  function ParseLine(high: u32, line: seq<byte>): Parsed
  {
    ParseText(high, Chars(line))
  }

  /**
   * `parse_slcan_line_bytes` as written (src/slcan.rs:39-117): for any line longer than one
   * character that starts with `t` or `T`, the timestamp test reads the DLC digit at index 4
   * (index 9) BEFORE the length guards, so a shorter line indexes past its end.
   */
  function ParseTextAsWritten(high: u32, s: string): (r: Outcome<Parsed>)
    ensures r.Panics? ==> |s| > 1 && (s[0] == 't' || s[0] == 'T') && |s| < HeaderLength(s[0] == 'T')
  {
    if |s| > 1 && (s[0] == 't' || s[0] == 'T') then
      var extended := s[0] == 'T';
      var hl := HeaderLength(extended);
      if |s| < hl then Panics
      else
        var d := DigitValue(s[hl - 1]);
        if d >= 10 then Returns(Parsed(None, high))
        else Returns(Parsed(FrameLine(s, extended, high, |s| == hl + d * 2 + 8 + 1), high))
    else Returns(ParseText(high, s))
  }

  /** The as-written parser panics exactly on the short frame lines, and agrees otherwise. */
  lemma AsWrittenPanicsOnlyOnShortLines(high: u32, s: string)
    ensures ParseTextAsWritten(high, s).Panics? <==>
      |s| > 1 && ((s[0] == 't' && |s| < 5) || (s[0] == 'T' && |s| < 10))
    ensures ParseTextAsWritten(high, s).Returns? ==> ParseTextAsWritten(high, s).value == ParseText(high, s)
  {
  }

  /** The two-byte line `t\r`, which a device can send when a line is cut short. */
  lemma AsWrittenPanicsOnTruncatedLine()
    ensures ParseTextAsWritten(0, "t\r") == Panics
    ensures ParseText(0, "t\r") == Parsed(None, 0)
  {
  }

  /**
   * What a parsed frame is made of in its line: the header's id digits and DLC digit, then
   * one hex pair per byte.
   */
  ghost predicate FrameFields(s: string, f: CanFrame)
  {
    var hl := HeaderLength(f.extended);
    && |s| >= hl + 2 * f.dlc
    && Some(f.id) == ParseUnsigned(s[1..hl - 1], 16, U32_MAX)
    && f.dlc == DigitValue(s[hl - 1]) == |f.data|
    && (forall j :: 0 <= j < f.dlc ==> Some(f.data[j]) == HexPairAt(s, hl, j))
  }

  /** What a frame `FrameLine` gives is made of, for a line with or without the timestamp test passed. */
  lemma FrameLineLayout(s: string, extended: bool, high: u32, stamped: bool)
    requires |s| >= HeaderLength(extended) && FrameLine(s, extended, high, stamped).Some?
    ensures var f := FrameLine(s, extended, high, stamped).value;
      var at := HeaderLength(extended) + 2 * f.dlc;
      && f.extended == extended
      && FrameFields(s, f)
      && f.timestamp == (if stamped && |s| >= at + 8 then StampAt(s, at, high) else None)
  {
  }

  /**
   * A parsed frame is made of its line's fields, and has a timestamp exactly when the line is
   * header + 2 * DLC + 8 digits + `\r` long and the eight digits parse, whose value is the
   * high word above those low 32 bits.
   */
  lemma ParsedFrameLayout(high: u32, s: string)
    requires ParseText(high, s).frame.Some?
    ensures var f := ParseText(high, s).frame.value;
      var at := HeaderLength(f.extended) + 2 * f.dlc;
      && FrameFields(s, f)
      && f.timestamp == (if |s| == at + 9 then StampAt(s, at, high) else None)
  {
    var extended := s[0] == 'T';
    ParsedIsFrameLine(high, s);
    FrameLineLayout(s, extended, high, Stamped(s, extended));
    StampLayout(s, extended, high, ParseText(high, s).frame.value.dlc);
  }

  /** A line that gives a frame is a `t` or `T` line at least a header long, read by `FrameLine`. */
  lemma ParsedIsFrameLine(high: u32, s: string)
    requires ParseText(high, s).frame.Some?
    ensures |s| >= HeaderLength(s[0] == 'T')
    ensures ParseText(high, s).frame == FrameLine(s, s[0] == 'T', high, Stamped(s, s[0] == 'T'))
  {
  }

  /** The timestamp `FrameLine` attaches under the length test of `ParseText`. */
  lemma StampLayout(s: string, extended: bool, high: u32, dlc: nat)
    requires |s| >= HeaderLength(extended) + 2 * dlc
    requires dlc == DigitValue(s[HeaderLength(extended) - 1]) < 10
    ensures var at := HeaderLength(extended) + 2 * dlc;
      var ts := if Stamped(s, extended) && |s| >= at + 8 then StampAt(s, at, high) else None;
      ts == if |s| == at + 9 then StampAt(s, at, high) else None
  {
  }

  // ---------------------------------------------------------------- the encoder

  /** The line `send_frame` writes: `t` + 3 or `T` + 8 hex id digits, the decimal DLC, the data, `\r`. */
  function EncodeFrame(f: CanFrame): string
  {
    (if f.extended then "T" + Format(f.id, 16, true, 8) else "t" + Format(f.id, 16, true, 3))
    + Digits(f.dlc, 10, true) + HexData(f.data) + "\r"
  }

  /** The header of an encoded valid data frame: its id digits fill the field exactly, one DLC digit. */
  lemma EncodedHeader(f: CanFrame)
    requires ValidFrame(f) && IsDataFrame(f)
    ensures var hl := HeaderLength(f.extended);
      && |Format(f.id, 16, true, hl - 2)| == hl - 2
      && Digits(f.dlc, 10, true) == [DigitChar(f.dlc, true)]
      && EncodeFrame(f) == [if f.extended then 'T' else 't'] + Format(f.id, 16, true, hl - 2)
                           + [DigitChar(f.dlc, true)] + HexData(f.data) + "\r"
  {
    if f.extended {
      assert Pow(16, 8) == 0x1_0000_0000 by {
        assert Pow(16, 0) == 1;
        assert Pow(16, 4) == 0x1_0000;
      }
      DigitsFit(f.id, 16, true, 8);
    } else {
      assert Pow(16, 3) == 0x1000 by { assert Pow(16, 0) == 1; }
      DigitsFit(f.id, 16, true, 3);
    }
  }

  /** The frame part of the parser on a line laid out as `send_frame` lays out a valid data frame. */
  /** `FrameLine` on a line whose id, DLC digit and data pairs read as given, without the timestamp test. */
  lemma FrameLineFromParts(s: string, extended: bool, high: u32, id: nat, data: seq<byte>)
    requires |s| >= HeaderLength(extended) + 2 * |data|
    requires ParseUnsigned(s[1..HeaderLength(extended) - 1], 16, U32_MAX) == Some(id)
    requires DigitValue(s[HeaderLength(extended) - 1]) == |data| < 10
    requires HexPairs(s, HeaderLength(extended), |data|) == Some(data)
    ensures FrameLine(s, extended, high, false) == if extended then NewEff(id, data) else New(id, data)
  {
  }

  /** Where the fields of a line laid out as `send_frame` lays it out sit. */
  lemma EncodedParts(f: CanFrame, s: string)
    requires ValidFrame(f) && IsDataFrame(f)
    requires var hl := HeaderLength(f.extended);
      && s == [if f.extended then 'T' else 't'] + Format(f.id, 16, true, hl - 2) + [DigitChar(f.dlc, true)]
              + HexData(f.data) + "\r"
      && |Format(f.id, 16, true, hl - 2)| == hl - 2
    ensures var hl := HeaderLength(f.extended);
      && |s| >= hl + 2 * |f.data|
      && s[1..hl - 1] == Format(f.id, 16, true, hl - 2)
      && s[hl - 1] == DigitChar(f.dlc, true)
      && HexPairs(s, hl, |f.data|) == Some(f.data)
  {
    var hl := HeaderLength(f.extended);
    LineParts(if f.extended then 'T' else 't', Format(f.id, 16, true, hl - 2), DigitChar(f.dlc, true), f.data, s);
  }

  /** Where the fields of `head`, id digits, DLC digit, data pairs and `\r` sit in a line. */
  lemma LineParts(head: char, idText: string, dlcChar: char, data: seq<byte>, s: string)
    requires s == [head] + idText + [dlcChar] + HexData(data) + "\r"
    ensures var hl := |idText| + 2;
      && |s| >= hl + 2 * |data|
      && s[1..hl - 1] == idText
      && s[hl - 1] == dlcChar
      && HexPairs(s, hl, |data|) == Some(data)
  {
    HexDataLayout(data);
    LineSlices(head, idText, dlcChar, HexData(data), s);
    LinePairs([head] + idText + [dlcChar], data, s);
  }

  /** The id digits and the DLC digit of a line, whatever follows them. */
  lemma LineSlices(head: char, idText: string, dlcChar: char, hex: string, s: string)
    requires s == [head] + idText + [dlcChar] + hex + "\r"
    ensures |s| == |idText| + 3 + |hex|
    ensures s[1..|idText| + 1] == idText && s[|idText| + 1] == dlcChar
  {
    assert s[1..|idText| + 1] == idText;
  }

  /** The data pairs of a line sit right after its header and read back as the data. */
  lemma LinePairs(pre: string, data: seq<byte>, s: string)
    requires s == pre + HexData(data) + "\r"
    ensures |s| == |pre| + 2 * |data| + 1 && HexPairs(s, |pre|, |data|) == Some(data)
  {
    HexDataLayout(data);
    HexPairsOfHexData(data, pre, "\r");
  }

  lemma FrameLineOfEncoded(f: CanFrame, s: string, high: u32)
    requires ValidFrame(f) && IsDataFrame(f)
    requires var hl := HeaderLength(f.extended);
      && s == [if f.extended then 'T' else 't'] + Format(f.id, 16, true, hl - 2) + [DigitChar(f.dlc, true)]
              + HexData(f.data) + "\r"
      && |Format(f.id, 16, true, hl - 2)| == hl - 2
    ensures |s| >= HeaderLength(f.extended)
    ensures FrameLine(s, f.extended, high, false) == Some(f.(timestamp := None))
  {
    var hl := HeaderLength(f.extended);
    EncodedParts(f, s);
    ParseFormat(f.id, 16, true, hl - 2, U32_MAX);
    FrameLineFromParts(s, f.extended, high, f.id, f.data);
    assert CanFrame(f.id, f.extended, false, false, |f.data|, f.data, None) == f.(timestamp := None);
  }

  /** Parsing the line `send_frame` writes for a standard or extended data frame gives it back, without a timestamp. */
  lemma EncodeParse(f: CanFrame, high: u32)
    requires ValidFrame(f) && IsDataFrame(f)
    ensures ParseText(high, EncodeFrame(f)) == Parsed(Some(f.(timestamp := None)), high)
  {
    var hl := HeaderLength(f.extended);
    var s := EncodeFrame(f);
    EncodedHeader(f);
    HexDataLayout(f.data);
    FrameLineOfEncoded(f, s, high);
    assert |s| == hl + 2 * f.dlc + 1;
    assert s[0] == (if f.extended then 'T' else 't');
    assert !Stamped(s, f.extended);
  }

  // ---------------------------------------------------------------- bitrates

  /** The rates the adapter supports, which are also the candidates for a measured rate. */
  const SUPPORTED_BITRATES: seq<u32> :=
    [10_000, 20_000, 50_000, 100_000, 125_000, 250_000, 500_000, 800_000, 1_000_000]

  /** The `S0`..`S8` command `set_bitrate` sends for a rate, or none for an unsupported rate. */
  function BitrateCommand(bitrate: u32): (cmd: Option<string>)
    ensures cmd.Some? <==> bitrate in SUPPORTED_BITRATES
    ensures forall i :: 0 <= i < |SUPPORTED_BITRATES| && SUPPORTED_BITRATES[i] == bitrate ==>
      cmd == Some(['S', DigitChar(i, true), '\r'])
  {
    match bitrate
    case 10_000 => Some("S0\r")
    case 20_000 => Some("S1\r")
    case 50_000 => Some("S2\r")
    case 100_000 => Some("S3\r")
    case 125_000 => Some("S4\r")
    case 250_000 => Some("S5\r")
    case 500_000 => Some("S6\r")
    case 800_000 => Some("S7\r")
    case 1_000_000 => Some("S8\r")
    case _ => None
  }

  function Distance(a: int, b: int): nat
  {
    if a >= b then a - b else b - a
  }

  /** `min_by_key` by distance from `actual`: the index of the first rate at the least distance. */
  function ClosestIndex(rates: seq<u32>, actual: u32): (k: nat)
    requires |rates| > 0
    ensures k < |rates|
    ensures forall i :: 0 <= i < |rates| ==> Distance(rates[k], actual) <= Distance(rates[i], actual)
    ensures forall i :: 0 <= i < k ==> Distance(rates[i], actual) > Distance(rates[k], actual)
    decreases |rates|
  {
    if |rates| == 1 then 0
    else
      var rest := 1 + ClosestIndex(rates[1..], actual);
      if Distance(rates[rest], actual) < Distance(rates[0], actual) then rest else 0
  }

  /** The decision `get_measured_bitrate` takes on the four bytes the adapter answers with. */
  function MeasuredBitrate(answer: seq<byte>): Result<u32, IoError>
    requires |answer| == 4
  {
    var actual := ReadLe32(answer, 0);
    if actual < 5000 then Err(IoError(Other, "Error detecting bitrate. Has the device been modified correctly?"))
    else Ok(SUPPORTED_BITRATES[ClosestIndex(SUPPORTED_BITRATES, actual)])
  }

  /**
   * In an ascending list, the rate `ClosestIndex` picks is one of them, no farther than any
   * other, and the lowest of those at that distance.
   */
  lemma ClosestIsLowest(rates: seq<u32>, actual: u32)
    requires |rates| > 0
    requires forall i, j :: 0 <= i < j < |rates| ==> rates[i] < rates[j]
    ensures var r := rates[ClosestIndex(rates, actual)];
      && r in rates
      && (forall x :: x in rates ==> Distance(r, actual) <= Distance(x, actual))
      && (forall x :: x in rates && Distance(x, actual) == Distance(r, actual) ==> r <= x)
  {
    var k := ClosestIndex(rates, actual);
    forall x | x in rates
      ensures Distance(rates[k], actual) <= Distance(x, actual)
      ensures Distance(x, actual) == Distance(rates[k], actual) ==> rates[k] <= x
    {
      var i :| 0 <= i < |rates| && rates[i] == x;
      if Distance(x, actual) == Distance(rates[k], actual) && k != i {
        assert k < i;
        assert rates[k] < rates[i];
      }
    }
  }

  /** The supported rates are listed in ascending order. */
  lemma SupportedAscending()
    ensures forall i, j :: 0 <= i < j < |SUPPORTED_BITRATES| ==> SUPPORTED_BITRATES[i] < SUPPORTED_BITRATES[j]
  {
  }

  /**
   * A reading under 5000 is an error; otherwise the answer is a supported rate, no farther
   * from the reading than any other, the lower of two equally near ones, and one
   * `set_bitrate` accepts.
   */
  lemma MeasuredBitrateNearest(answer: seq<byte>)
    requires |answer| == 4
    ensures MeasuredBitrate(answer).Err? <==> ReadLe32(answer, 0) < 5000
    ensures MeasuredBitrate(answer).Ok? ==>
      var r := MeasuredBitrate(answer).value;
      var actual := ReadLe32(answer, 0);
      && r in SUPPORTED_BITRATES
      && BitrateCommand(r).Some?
      && (forall x :: x in SUPPORTED_BITRATES ==> Distance(r, actual) <= Distance(x, actual))
      && (forall x :: x in SUPPORTED_BITRATES && Distance(x, actual) == Distance(r, actual) ==> r <= x)
  {
    var actual := ReadLe32(answer, 0);
    if actual >= 5000 {
      SupportedAscending();
      ClosestIsLowest(SUPPORTED_BITRATES, actual);
    }
  }

  // ---------------------------------------------------------------- line reassembly

  /** The position of the first `\r` at or after `i` (`FindCrFirst` states that it is the first). */
  function FindCrFrom(b: seq<byte>, i: nat): (r: Option<nat>)
    requires i <= |b|
    ensures r.Some? ==> i <= r.value < |b|
    decreases |b| - i
  {
    if i == |b| then None
    else if b[i] == CR then Some(i)
    else FindCrFrom(b, i + 1)
  }

  /** The position of the first `\r`, as `memchr(b'\r', ..)`. */
  function FindCr(b: seq<byte>): (r: Option<nat>)
    ensures r.Some? ==> r.value < |b|
  {
    FindCrFrom(b, 0)
  }

  /** `FindCrFrom` finds a `\r` with none before it from `i` on, and finds none only when there is none. */
  lemma {:induction false} FindCrFirst(b: seq<byte>, i: nat)
    requires i <= |b|
    ensures FindCrFrom(b, i).None? ==> forall j :: i <= j < |b| ==> b[j] != CR
    ensures FindCrFrom(b, i).Some? ==>
      b[FindCrFrom(b, i).value] == CR && forall j :: i <= j < FindCrFrom(b, i).value ==> b[j] != CR
    decreases |b| - i
  {
    if i < |b| && b[i] != CR {
      FindCrFirst(b, i + 1);
    }
  }

  /** Searching the slice from `c` on from `j` finds what searching the whole from `c + j` finds, less `c`. */
  lemma {:induction false} FindCrFromDrop(x: seq<byte>, c: nat, j: nat)
    requires c + j <= |x|
    ensures FindCrFrom(x, c + j) == if FindCrFrom(x[c..], j).None? then None else Some(c + FindCrFrom(x[c..], j).value)
    decreases |x| - c - j
  {
    if c + j < |x| {
      assert x[c..][j] == x[c + j];
      if x[c + j] != CR {
        FindCrFromDrop(x, c, j + 1);
      }
    }
  }

  /** The frames of complete lines, the cursor just past the last of them, and the high word after them. */
  datatype Lines = Lines(frames: seq<CanFrame>, consumed: nat, high: u32)

  /** The frames a parsed line adds: its frame if it has one (the `if let Some(frame)` push). */
  function FrameList(f: Option<CanFrame>): (r: seq<CanFrame>)
    ensures |r| <= 1 && (r == [] <==> f.None?) && (f.Some? ==> r == [f.value])
  {
    if f.Some? then [f.value] else []
  }

  /** A line parser: the high word before a line and the line, to what the line gives. */
  type LineParser = (u32, seq<byte>) -> Parsed

  /** Where the line loop leaves its cursor: just past the last `\r` from `start` on, or at `start`. */
  function Cursor(buf: seq<byte>, start: nat): (c: nat)
    requires start <= |buf|
    ensures start <= c <= |buf|
    decreases |buf| - start
  {
    var r := FindCrFrom(buf, start);
    if r.None? then start else Cursor(buf, r.value + 1)
  }

  /**
   * Every `\r`-terminated line from `start` on, in order, each handed with its `\r` to a
   * line parser (`ParseLine` in the driver) together with the high word the lines before
   * it left. Its cursor stops at `Cursor`, which `LinesFromRest` describes.
   */
  function LinesFrom(buf: seq<byte>, start: nat, high: u32, parse: LineParser): (d: Lines)
    requires start <= |buf|
    ensures d.consumed == Cursor(buf, start)
    decreases |buf| - start
  {
    var r := FindCrFrom(buf, start);
    if r.None? then Lines([], start, high)
    else
      var e := r.value;
      var p := parse(high, buf[start..e + 1]);
      var rest := LinesFrom(buf, e + 1, p.high, parse);
      Lines(FrameList(p.frame) + rest.frames, rest.consumed, rest.high)
  }

  /** What the loop of `read_frames` computes on its buffer. */
  function ParseLines(buf: seq<byte>, high: u32, parse: LineParser): Lines
  {
    LinesFrom(buf, 0, high, parse)
  }

  /** One step of `LinesFrom` when the next `\r` is at `e`. */
  lemma LinesFromStep(buf: seq<byte>, start: nat, high: u32, parse: LineParser, e: nat)
    requires start <= |buf| && FindCrFrom(buf, start) == Some(e)
    ensures var p := parse(high, buf[start..e + 1]);
      var rest := LinesFrom(buf, e + 1, p.high, parse);
      LinesFrom(buf, start, high, parse) == Lines(FrameList(p.frame) + rest.frames, rest.consumed, rest.high)
  {
    assert FindCrFrom(buf, start).value == e;
  }

  /** No `\r` lies at or after the cursor, and a cursor that moved stops just after one. */
  lemma {:induction false} CursorRest(buf: seq<byte>, start: nat)
    requires start <= |buf|
    ensures forall i :: Cursor(buf, start) <= i < |buf| ==> buf[i] != CR
    ensures Cursor(buf, start) > start ==> buf[Cursor(buf, start) - 1] == CR
    decreases |buf| - start
  {
    FindCrFirst(buf, start);
    var r := FindCrFrom(buf, start);
    if r.Some? {
      CursorRest(buf, r.value + 1);
    }
  }

  /**
   * The cursor stops past every `\r`, so what is kept holds no `\r`: it is the incomplete
   * tail. When the cursor moved, it stops just after a `\r`.
   */
  lemma LinesFromRest(buf: seq<byte>, start: nat, high: u32, parse: LineParser)
    requires start <= |buf|
    ensures var d := LinesFrom(buf, start, high, parse);
      && (forall i :: d.consumed <= i < |buf| ==> buf[i] != CR)
      && (d.consumed > start ==> buf[d.consumed - 1] == CR)
  {
    CursorRest(buf, start);
  }

  /** The state of the line loop: `frames` so far at `processed`, and the rest still to parse gives the whole. */
  ghost predicate LinesUpTo(all: seq<byte>, parse: LineParser, high0: u32, processed: nat, high: u32, frames: seq<CanFrame>)
  {
    && processed <= |all|
    && var rest := LinesFrom(all, processed, high, parse);
    ParseLines(all, high0, parse) == Lines(frames + rest.frames, rest.consumed, rest.high)
  }

  /** One more line, ending at the `\r` at `e`, moves the loop state past it. */
  lemma LinesUpToAdvance(all: seq<byte>, parse: LineParser, high0: u32, processed: nat, high: u32, frames: seq<CanFrame>, e: nat)
    requires LinesUpTo(all, parse, high0, processed, high, frames) && FindCrFrom(all, processed) == Some(e)
    ensures var p := parse(high, all[processed..e + 1]);
      LinesUpTo(all, parse, high0, e + 1, p.high, frames + FrameList(p.frame))
  {
    var p := parse(high, all[processed..e + 1]);
    var rest := LinesFrom(all, e + 1, p.high, parse);
    LinesFromStep(all, processed, high, parse, e);
    AppendAssoc(frames, FrameList(p.frame), rest.frames);
  }

  /** With no `\r` left, the loop state is the whole parse. */
  lemma LinesUpToFinish(all: seq<byte>, parse: LineParser, high0: u32, processed: nat, high: u32, frames: seq<CanFrame>)
    requires LinesUpTo(all, parse, high0, processed, high, frames) && FindCr(all[processed..]).None?
    ensures ParseLines(all, high0, parse) == Lines(frames, processed, high)
  {
    FindCrFromDrop(all, processed, 0);
    assert frames + [] == frames;
  }

  /**
   * The loop of `read_frames`: find each `\r` from the cursor on, hand the line up to and
   * including it to the parser, keep the frame it gives, move the cursor past it. The
   * frames, the cursor and the high word it ends with are those of `ParseLines`.
   */
  method TakeLines(buf: seq<byte>, high0: u32, parse: LineParser)
    returns (frames: seq<CanFrame>, processed: nat, high: u32)
    ensures ParseLines(buf, high0, parse) == Lines(frames, processed, high)
  {
    frames, processed, high := [], 0, high0;
    while FindCr(buf[processed..]).Some?
      invariant LinesUpTo(buf, parse, high0, processed, high, frames)
      decreases |buf| - processed
    {
      var rel := FindCr(buf[processed..]).value;
      var end := processed + rel + 1;
      FindCrFromDrop(buf, processed, 0);
      LinesUpToAdvance(buf, parse, high0, processed, high, frames, processed + rel);
      var p := parse(high, buf[processed..end]);
      high := p.high;
      frames := frames + FrameList(p.frame);
      processed := end;
    }
    LinesUpToFinish(buf, parse, high0, processed, high, frames);
  }

  // ---------------------------------------------------------------- the driver

  /**
   * `SlcanDriver`: the serial port is the list of command lines handed to it (`written`, in
   * order, whatever each write's outcome) and the chunks read from it, which arrive as
   * parameters; `leftover` keeps an incomplete line between reads.
   */
  class SlcanDriver {
    var leftover: seq<byte>
    var timestampHigh: u32
    var configuredBitrate: Option<u32>
    var written: seq<string>

    /** `SlcanDriver::open` once the port is open: an empty buffer, high word 0, no bitrate. */
    constructor ()
      ensures leftover == [] && timestampHigh == 0 && configuredBitrate == None && written == []
    {
      leftover := [];
      timestampHigh := 0;
      configuredBitrate := None;
      written := [];
    }

    /** `enable_timestamp`: writes `Z1\r`. */
    method EnableTimestamp(write: Result<(), IoError>) returns (r: Result<(), IoError>)
      modifies this`written
      ensures written == old(written) + ["Z1\r"] && r == write
    {
      written := written + ["Z1\r"];
      r := write;
    }

    /**
     * `set_bitrate`: an unsupported rate is refused with InvalidInput and nothing changes; a
     * supported one is recorded before its command is written, so it stays recorded when
     * the write fails.
     */
    method SetBitrate(bitrate: u32, write: Result<(), IoError>) returns (r: Result<(), IoError>)
      modifies this`configuredBitrate, this`written
      ensures bitrate !in SUPPORTED_BITRATES ==>
        && r == Err(IoError(InvalidInput, "Unsupported CAN bitrate: " + Digits(bitrate, 10, true)))
        && configuredBitrate == old(configuredBitrate) && written == old(written)
      ensures bitrate in SUPPORTED_BITRATES ==>
        && configuredBitrate == Some(bitrate) && r == write
        && written == old(written) + [BitrateCommand(bitrate).value]
    {
      var cmd := BitrateCommand(bitrate);
      if cmd.None? {
        return Err(IoError(InvalidInput, "Unsupported CAN bitrate: " + Digits(bitrate, 10, true)));
      }
      configuredBitrate := Some(bitrate);
      written := written + [cmd.value];
      r := write;
    }

    /** `open_channel`: writes `O\r`; no bitrate is required first. */
    method OpenChannel(write: Result<(), IoError>) returns (r: Result<(), IoError>)
      modifies this`written
      ensures written == old(written) + ["O\r"] && r == write
    {
      written := written + ["O\r"];
      r := write;
    }

    /** `send_frame`: builds the line a piece at a time and writes it. */
    method SendFrame(f: CanFrame, write: Result<(), IoError>) returns (r: Result<(), IoError>)
      modifies this`written
      ensures written == old(written) + [EncodeFrame(f)] && r == write
    {
      var cmd := if f.extended then "T" + Format(f.id, 16, true, 8) else "t" + Format(f.id, 16, true, 3);
      cmd := cmd + Digits(f.dlc, 10, true);
      ghost var head := cmd;
      var i := 0;
      while i < |f.data|
        invariant i <= |f.data| && cmd == head + HexData(f.data[..i])
      {
        assert f.data[..i + 1][..i] == f.data[..i];
        cmd := cmd + Format(f.data[i], 16, true, 2);
        i := i + 1;
      }
      assert f.data[..i] == f.data;
      cmd := cmd + "\r";
      written := written + [cmd];
      r := write;
    }

    /**
     * `read_frames`: appends the chunk read (a read error is returned with nothing changed),
     * parses every complete line in order with a cursor, then drops the parsed prefix and
     * keeps the incomplete tail, which holds no `\r`.
     */
    method ReadFrames(read: Result<seq<byte>, IoError>) returns (r: Result<seq<CanFrame>, IoError>)
      modifies this`leftover, this`timestampHigh
      ensures read.Err? ==>
        r == Err(read.error) && leftover == old(leftover) && timestampHigh == old(timestampHigh)
      ensures read.Ok? ==>
        var all := old(leftover) + read.value;
        var d := ParseLines(all, old(timestampHigh), ParseLine);
        && r == Ok(d.frames)
        && leftover == all[d.consumed..]
        && timestampHigh == d.high
      ensures read.Ok? ==> forall i :: 0 <= i < |leftover| ==> leftover[i] != CR
    {
      if read.Err? {
        return Err(read.error);
      }
      if |read.value| > 0 {
        leftover := leftover + read.value;
      }
      var buf := leftover;
      assert buf == old(leftover) + read.value;
      var frames, processed, high := TakeLines(buf, timestampHigh, ParseLine);
      LinesFromRest(buf, 0, timestampHigh, ParseLine);
      timestampHigh := high;
      if processed > 0 {
        leftover := buf[processed..];
      } else {
        DropDrop(buf, 0, 0);
      }
      return Ok(frames);
    }

    /** `close_channel`: writes `C\r` and flushes; the first failure is returned. */
    method CloseChannel(write: Result<(), IoError>, flush: Result<(), IoError>) returns (r: Result<(), IoError>)
      modifies this`written
      ensures written == old(written) + ["C\r"]
      ensures r == if write.Err? then write else flush
    {
      written := written + ["C\r"];
      if write.Err? {
        return write;
      }
      r := flush;
    }
  }
}
