/**
 * The `candump` tool's text handling: the `-t` timestamp modes, the `ifname[,filter]*`
 * interface argument with its filter grammar, and the line it prints for each frame.
 * Reading frames from the server's pipe, the wall clock and printing are not part of
 * this model.
 */
module Candump {
  import opened Wrappers
  import opened Bytes
  import opened CanFrames
  import opened Text
  import opened Hex

  // ---------------------------------------------------------------- timestamp modes

  /** `TimestampMode`; `NoTimestamp` is the mode when `-t` is not given. */
  datatype TimestampMode = NoTimestamp | Absolute | AbsoluteDate | Delta | Zero

  /** The letter of each mode `-t` can select. */
  function ModeChar(m: TimestampMode): char
    requires m != NoTimestamp
  {
    match m
    case Absolute => 'a'
    case AbsoluteDate => 'A'
    case Delta => 'd'
    case Zero => 'z'
  }

  /** `TimestampMode::from_char`: the four letters, and nothing for any other character. */
  function FromChar(c: char): (m: Option<TimestampMode>)
    ensures m.Some? <==> c in "aAdz"
    ensures m.Some? ==> m.value != NoTimestamp && ModeChar(m.value) == c
  {
    match c
    case 'a' => Some(Absolute)
    case 'A' => Some(AbsoluteDate)
    case 'd' => Some(Delta)
    case 'z' => Some(Zero)
    case _ => None
  }

  /** Each selectable mode comes back from its own letter. */
  lemma FromModeChar(m: TimestampMode)
    requires m != NoTimestamp
    ensures FromChar(ModeChar(m)) == Some(m)
  {
  }

  /** The mode `main` builds from the `-t` argument: an unknown letter means no timestamp. */
  function ModeOf(arg: Option<char>): (m: TimestampMode)
    ensures m == NoTimestamp <==> arg.None? || arg.value !in "aAdz"
    ensures m != NoTimestamp ==> arg == Some(ModeChar(m))
  {
    match arg
    case None => NoTimestamp
    case Some(c) =>
      match FromChar(c)
      case None => NoTimestamp
      case Some(m) => m
  }

  /**
   * `TimestampCtx::get_timestamp`, in microseconds. With `-H` it is the frame's own
   * timestamp, 0 when the frame has none, whatever the mode; without `-H` there is none
   * when `-t` was not given. The clock modes read the wall clock or an `Instant`, which is
   * not part of this model: `clock` stands for what the selected mode computes.
   */
  function Timestamp(hardware: bool, mode: TimestampMode, f: CanFrame, clock: u64): (t: Option<u64>)
    ensures hardware ==> t == Some(if f.timestamp.Some? then f.timestamp.value else 0)
    ensures !hardware ==> (t.None? <==> mode == NoTimestamp)
    ensures !hardware && t.Some? ==> t.value == clock
  {
    if hardware then Some(match f.timestamp case Some(ts) => ts case None => 0)
    else if mode == NoTimestamp then None
    else Some(clock)
  }

  // ---------------------------------------------------------------- output

  const MICROS: nat := 1_000_000

  /** `({t / 1_000_000}.{t % 1_000_000:06}) `, or nothing without a timestamp. */
  function TimestampText(t: Option<u64>): string
  {
    match t
    case None => ""
    case Some(us) => "(" + Digits(us / MICROS, 10, false) + "." + Format(us % MICROS, 10, false, 6) + ") "
  }

  /**
   * The timestamp text reads back: between `(` and `.` the whole seconds, then exactly six
   * digits of microseconds, then `) `; seconds and microseconds give back the timestamp.
   */
  lemma TimestampTextReadsBack(t: u64)
    ensures var s := TimestampText(Some(t));
            && |s| >= 11 && s[0] == '(' && s[|s| - 9] == '.' && s[|s| - 2..] == ") "
            && ParseUnsigned(s[1..|s| - 9], 10, MICROS * MICROS * MICROS) == Some(t / MICROS)
            && ParseUnsigned(s[|s| - 8..|s| - 2], 10, MICROS - 1) == Some(t % MICROS)
            && (t / MICROS) * MICROS + t % MICROS == t
  {
    var seconds := Digits(t / MICROS, 10, false);
    var micros := Format(t % MICROS, 10, false, 6);
    TimestampParts(t);
    BracketLayout(seconds, micros, TimestampText(Some(t)));
  }

  /** The seconds read back whole and the microseconds as exactly six digits. */
  lemma TimestampParts(t: u64)
    ensures |Digits(t / MICROS, 10, false)| >= 1
    ensures ParseUnsigned(Digits(t / MICROS, 10, false), 10, MICROS * MICROS * MICROS) == Some(t / MICROS)
    ensures |Format(t % MICROS, 10, false, 6)| == 6
    ensures ParseUnsigned(Format(t % MICROS, 10, false, 6), 10, MICROS - 1) == Some(t % MICROS)
    ensures (t / MICROS) * MICROS + t % MICROS == t
  {
    assert Pow(10, 6) == MICROS by {
      assert Pow(10, 0) == 1;
    }
    DigitsFit(t % MICROS, 10, false, 6);
    ParseFormat(t / MICROS, 10, false, 0, MICROS * MICROS * MICROS);
    ParseFormat(t % MICROS, 10, false, 6, MICROS - 1);
    assert ZeroPad(Digits(t / MICROS, 10, false), 0) == Digits(t / MICROS, 10, false);
  }

  /** Where the two numbers sit in `(a.b) ` when `b` is six characters long. */
  lemma BracketLayout(a: string, b: string, s: string)
    requires |a| >= 1 && |b| == 6 && s == "(" + a + "." + b + ") "
    ensures |s| >= 11 && s[0] == '(' && s[|s| - 9] == '.' && s[|s| - 2..] == ") "
    ensures s[1..|s| - 9] == a && s[|s| - 8..|s| - 2] == b
  {
  }

  /** The id: eight upper-case hex digits (format `08X`) for an extended frame, three (`03X`) otherwise. */
  function IdText(f: CanFrame): string
  {
    if f.extended then Format(f.id, 16, true, 8) else Format(f.id, 16, true, 3)
  }

  /** The `>08` format on a string: right-aligned in eight columns, padded with spaces (the `0` flag only pads numbers). */
  function IdField(f: CanFrame): string
  {
    var id := IdText(f);
    if |id| >= 8 then id else seq(8 - |id|, _ => ' ') + id
  }

  /**
   * The id column of every valid frame is exactly eight wide: spaces, then the id in
   * upper-case hex, eight digits for an extended frame and three for a standard data or
   * remote frame.
   */
  lemma IdFieldLayout(f: CanFrame)
    requires ValidFrame(f)
    ensures |IdField(f)| == 8
    ensures var k := |IdText(f)|;
            && (f.extended ==> k == 8)
            && (!f.extended && !f.error ==> k == 3)
            && 3 <= k <= 8
            && (forall i :: 0 <= i < 8 - k ==> IdField(f)[i] == ' ')
            && ParseUnsigned(IdField(f)[8 - k..], 16, U32_MAX) == Some(f.id)
  {
    var w := if f.extended then 8 else 3;
    assert Pow(16, 3) == 0x1000 && Pow(16, 8) == 0x1_0000_0000 by {
      assert Pow(16, 0) == 1;
    }
    if f.extended || !f.error {
      DigitsFit(f.id, 16, true, w);
    } else {
      DigitsFit(f.id, 16, true, 8);
    }
    ParseFormat(f.id, 16, true, w, U32_MAX);
    var id := IdText(f);
    assert IdField(f)[8 - |id|..] == id;
  }

  /** The data bytes in format `02X`, one text per byte. */
  function ByteTexts(d: seq<byte>): (r: seq<string>)
    ensures |r| == |d| && forall i :: 0 <= i < |d| ==> r[i] == Format(d[i], 16, true, 2)
  {
    seq(|d|, i requires 0 <= i < |d| => Format(d[i], 16, true, 2))
  }

  /** The byte texts joined with single spaces; nothing for no data. */
  function DataText(d: seq<byte>): string
  {
    if |d| == 0 then "" else Text.Join(ByteTexts(d), ' ')
  }

  /** Splitting the data column at its spaces gives one two-digit hex text per byte, which reads back as the byte. */
  lemma DataTextReadsBack(d: seq<byte>)
    requires |d| > 0
    ensures Split(DataText(d), ' ') == ByteTexts(d)
    ensures forall i :: 0 <= i < |d| ==>
              |ByteTexts(d)[i]| == 2 && ParseUnsigned(ByteTexts(d)[i], 16, 0xFF) == Some(d[i])
  {
    var texts := ByteTexts(d);
    forall i | 0 <= i < |d|
      ensures ' ' !in texts[i]
      ensures |texts[i]| == 2 && ParseUnsigned(texts[i], 16, 0xFF) == Some(d[i])
    {
      DigitsValue(d[i], 16, true);
      ZeroPadValue(Digits(d[i], 16, true), 2, 16);
      assert IsDigitOf(' ', 16) == false;
      HexByteWidth(d[i]);
      ParseFormat(d[i], 16, true, 2, 0xFF);
    }
    SplitOfJoin(texts, ' ');
  }

  /** The line printed for a frame: timestamp, interface, id column, `[dlc]`, the data bytes. */
  function DumpLine(t: Option<u64>, ifname: string, f: CanFrame): (line: string)
    ensures var head := TimestampText(t) + ifname;
            && |head| + 1 + |IdField(f)| + |DataText(f.data)| <= |line|
            && line[..|head|] == head
            && line[|head|] == ' '
            && line[|head| + 1..|head| + 1 + |IdField(f)|] == IdField(f)
            && line[|line| - |DataText(f.data)|..] == DataText(f.data)
  {
    var head := TimestampText(t) + ifname;
    var mid := "   [" + Digits(f.dlc, 10, false) + "]  ";
    ColumnLayout(head, IdField(f), mid, DataText(f.data));
    head + " " + IdField(f) + mid + DataText(f.data)
  }

  /** Where the columns of `head field mid tail` sit. */
  lemma ColumnLayout(head: string, field: string, mid: string, tail: string)
    ensures var line := head + " " + field + mid + tail;
            && |head| + 1 + |field| + |tail| <= |line|
            && line[..|head|] == head
            && line[|head|] == ' '
            && line[|head| + 1..|head| + 1 + |field|] == field
            && line[|line| - |tail|..] == tail
  {
    var line := head + " " + field + mid + tail;
    assert line == head + (" " + field + mid + tail);
    assert line == (head + " " + field + mid) + tail;
  }

  // ---------------------------------------------------------------- hex

  /** `is_hex`: every character is an ASCII hex digit (so the empty string is hex). */
  predicate IsHex(s: string)
  {
    forall i :: 0 <= i < |s| ==> IsAsciiHexDigit(s[i])
  }

  /** `u32::from_str_radix(s, 16)`. */
  function HexU32(s: string): (r: Result<u32, IntErrorKind>)
    ensures r.Ok? <==> ParseUnsigned(s, 16, U32_MAX).Some?
    ensures r.Ok? ==> r.value as nat == ParseUnsigned(s, 16, U32_MAX).value
    ensures r.Err? ==> ParseUnsignedResult(s, 16, U32_MAX) == Err(r.error)
  {
    ParseUnsignedAgrees(s, 16, U32_MAX);
    match ParseUnsignedResult(s, 16, U32_MAX)
    case Ok(v) => Ok(v as u32)
    case Err(e) => Err(e)
  }

  /** `parse_hex`: an optional `0x` or `0X`, then a hex `u32`. */
  function ParseHex(s: string): Result<u32, IntErrorKind>
  {
    match StripPrefix(s, "0x")
    case Some(rest) => HexU32(rest)
    case None =>
      match StripPrefix(s, "0X")
      case Some(rest) => HexU32(rest)
      case None => HexU32(s)
  }

  /** `u32::from_str_radix` reads back a formatted number. */
  lemma HexU32Format(n: u32, upper: bool, width: nat)
    ensures HexU32(Format(n, 16, upper, width)) == Ok(n)
  {
    ParseFormat(n, 16, upper, width, U32_MAX);
  }

  /** A text of hex digits carries neither prefix, so it is parsed whole. */
  lemma PlainHex(s: string)
    requires AllDigits(s, 16)
    ensures ParseHex(s) == HexU32(s)
  {
    if |s| >= 2 {
      assert IsDigitOf(s[1], 16);
      NotPrefixAt(s, "0x", 1);
      NotPrefixAt(s, "0X", 1);
    }
  }

  /** A formatted number, with or without either prefix, parses back as itself. */
  lemma ParseHexFormat(n: u32, prefix: string, upper: bool, width: nat)
    requires prefix == "" || prefix == "0x" || prefix == "0X"
    ensures ParseHex(prefix + Format(n, 16, upper, width)) == Ok(n)
  {
    var digits := Format(n, 16, upper, width);
    HexU32Format(n, upper, width);
    var s := prefix + digits;
    if prefix == "" {
      DigitsValue(n, 16, upper);
      ZeroPadValue(Digits(n, 16, upper), width, 16);
      assert s == digits;
      PlainHex(digits);
    } else if prefix == "0x" {
      assert s[..2] == "0x" && s[2..] == digits;
    } else {
      assert s[..2] == "0X" && s[2..] == digits;
      NotPrefixAt(s, "0x", 1);
    }
  }

  /**
   * An all-hex text parses as its value when that fits 32 bits and fails with
   * `PosOverflow` when it does not; it never carries a `0x` prefix.
   */
  lemma HexTextParse(s: string)
    requires |s| >= 1 && IsHex(s)
    ensures AllDigits(s, 16)
    ensures ParseHex(s) == if Value(s, 16) <= U32_MAX then Ok(Value(s, 16) as u32) else Err(PosOverflow)
  {
    forall i | 0 <= i < |s|
      ensures IsDigitOf(s[i], 16)
    {
      HexDigitIffAsciiHex(s[i]);
    }
    PlainHex(s);
    DigitsOverflow(s, 16, U32_MAX);
  }

  // ---------------------------------------------------------------- filters

  /** One filter of the interface argument. */
  datatype Filter =
    | Match(id: u32, mask: u32)
    | NotMatch(id: u32, mask: u32)
    | ErrorMask(errorMask: u32)
    | Join

  /** The interface argument once parsed (the pipe it then connects to is not modelled). */
  datatype InterfaceSpec = InterfaceSpec(ifname: string, filters: seq<Filter>)

  /** The error text of a failed id or mask field. */
  function FieldError(what: string, text: string, e: IntErrorKind): string
  {
    "invalid " + what + " '" + text + "': " + IntErrorText(e)
  }

  /** An `id` and a `mask` field, each parsed as hex, the id first. */
  function IdAndMask(a: string, b: string): Result<(u32, u32), string>
  {
    match ParseHex(a)
    case Err(e) => Err(FieldError("can_id", a, e))
    case Ok(id) =>
      match ParseHex(b)
      case Err(e) => Err(FieldError("can_mask", b, e))
      case Ok(mask) => Ok((id, mask))
  }

  /** A filter from an id and a mask field: `NotMatch` when the separator was `~`. */
  function PairFilter(a: string, b: string, inverted: bool): Result<Option<Filter>, string>
  {
    match IdAndMask(a, b)
    case Ok((id, mask)) => Ok(Some(if inverted then NotMatch(id, mask) else Match(id, mask)))
    case Err(e) => Err(e)
  }

  /** The last two forms: a bare hex id with the all-ones mask, or an error naming the token. */
  function BareId(token: string): Result<Option<Filter>, string>
  {
    if IsHex(token) then
      match ParseHex(token)
      case Ok(id) => Ok(Some(Match(id, 0xFFFF_FFFF)))
      case Err(e) => Err(FieldError("hex id", token, e))
    else Err("unrecognized filter token: '" + token + "'")
  }

  /** `id~mask`, else a bare id. */
  function TildeOrBare(token: string): Result<Option<Filter>, string>
  {
    match SplitOnce(token, '~')
    case Some((a, b)) => PairFilter(a, b, true)
    case None => BareId(token)
  }

  /** `id:mask`, else the later forms. */
  function ColonOrLater(token: string): Result<Option<Filter>, string>
  {
    match SplitOnce(token, ':')
    case Some((a, b)) => PairFilter(a, b, false)
    case None => TildeOrBare(token)
  }

  /** A non-empty trimmed token: the first of `j`/`J`, `#mask`, `id:mask`, `id~mask`, a bare hex id. */
  function TokenFilter(token: string): Result<Option<Filter>, string>
  {
    if EqIgnoreAsciiCase(token, "j") then Ok(Some(Join))
    else match StripPrefix(token, "#")
      case Some(rest) =>
        (match ParseHex(rest)
         case Ok(v) => Ok(Some(ErrorMask(v)))
         case Err(e) => Err(FieldError("error mask", rest, e)))
      case None => ColonOrLater(token)
  }

  /** One comma-separated token: trimmed, and nothing when that leaves it empty. */
  function ParseToken(raw: string): Result<Option<Filter>, string>
  {
    var token := Trim(raw);
    if |token| == 0 then Ok(None) else TokenFilter(token)
  }

  /** How one token is read; the interface argument uses `ParseToken`. */
  type TokenParser = string -> Result<Option<Filter>, string>

  /** The filters of tokens `i..` in order, or the error of the first token that fails. */
  function FiltersFrom(tokens: seq<string>, i: nat, parse: TokenParser): Result<seq<Filter>, string>
    requires i <= |tokens|
    decreases |tokens| - i
  {
    if i == |tokens| then Ok([])
    else match parse(tokens[i])
      case Err(e) => Err(e)
      case Ok(f) =>
        match FiltersFrom(tokens, i + 1, parse)
        case Err(e) => Err(e)
        case Ok(rest) => Ok((if f.Some? then [f.value] else []) + rest)
  }

  /** The parse of a whole interface argument: the name before the first comma, the filters after it. */
  function SpecOf(spec: string): Result<InterfaceSpec, string>
  {
    var parts := Split(spec, ',');
    match FiltersFrom(parts, 1, ParseToken)
    case Err(e) => Err(e)
    case Ok(filters) => Ok(InterfaceSpec(parts[0], filters))
  }

  /** Filters found so far put in front of the outcome of the rest. */
  function Prepend(done: seq<Filter>, rest: Result<seq<Filter>, string>): Result<seq<Filter>, string>
  {
    match rest
    case Ok(fs) => Ok(done + fs)
    case Err(e) => Err(e)
  }

  /** One step of the token loop: the outcome from token `i` on, by the outcome of token `i`. */
  lemma FiltersStep(tokens: seq<string>, i: nat, parse: TokenParser, done: seq<Filter>)
    requires i < |tokens|
    ensures parse(tokens[i]).Err? ==> Prepend(done, FiltersFrom(tokens, i, parse)) == Err(parse(tokens[i]).error)
    ensures parse(tokens[i]).Ok? ==>
              var more := if parse(tokens[i]).value.Some? then [parse(tokens[i]).value.value] else [];
              Prepend(done, FiltersFrom(tokens, i, parse)) == Prepend(done + more, FiltersFrom(tokens, i + 1, parse))
  {
    if parse(tokens[i]).Ok? && FiltersFrom(tokens, i + 1, parse).Ok? {
      var more := if parse(tokens[i]).value.Some? then [parse(tokens[i]).value.value] else [];
      assert done + (more + FiltersFrom(tokens, i + 1, parse).value)
          == (done + more) + FiltersFrom(tokens, i + 1, parse).value;
    }
  }

  /** `InterfaceSpec::parse_and_connect` up to the connection: the token loop pushing filters in order. */
  method ParseInterfaceSpec(spec: string) returns (r: Result<InterfaceSpec, string>)
    ensures r == SpecOf(spec)
  {
    var parts := Split(spec, ',');
    var ifname := parts[0];
    var filters: seq<Filter> := [];
    var i := 1;
    var all := FiltersFrom(parts, 1, ParseToken);
    assert all.Ok? ==> [] + all.value == all.value;
    while i < |parts|
      invariant 1 <= i <= |parts|
      invariant FiltersFrom(parts, 1, ParseToken) == Prepend(filters, FiltersFrom(parts, i, ParseToken))
    {
      var t := ParseToken(parts[i]);
      FiltersStep(parts, i, ParseToken, filters);
      assert t == ParseToken(parts[i]);
      if t.Err? {
        return Err(t.error);
      }
      if t.value.Some? {
        filters := filters + [t.value.value];
      } else {
        assert filters + [] == filters;
      }
      i := i + 1;
    }
    assert filters + [] == filters;
    r := Ok(InterfaceSpec(ifname, filters));
  }

  /** The interface name is the text before the first comma, or the whole argument. */
  lemma SpecName(spec: string)
    ensures SpecOf(spec).Ok? ==>
              SpecOf(spec).value.ifname == match SplitOnce(spec, ',') case None => spec case Some((a, _)) => a
  {
  }

  /**
   * The filters come out exactly when every token after the name parses, and then in
   * token order, empty tokens contributing nothing; otherwise the error is that of the
   * first token that fails.
   */
  lemma {:induction false} FiltersOutcome(tokens: seq<string>, i: nat, parse: TokenParser)
    requires i <= |tokens|
    ensures FiltersFrom(tokens, i, parse).Ok? <==> forall k :: i <= k < |tokens| ==> parse(tokens[k]).Ok?
    ensures FiltersFrom(tokens, i, parse).Err? ==>
              exists k :: i <= k < |tokens| && parse(tokens[k]) == Err(FiltersFrom(tokens, i, parse).error)
                          && forall m :: i <= m < k ==> parse(tokens[m]).Ok?
    decreases |tokens| - i
  {
    if i < |tokens| {
      FiltersOutcome(tokens, i + 1, parse);
      if parse(tokens[i]).Ok? && FiltersFrom(tokens, i + 1, parse).Err? {
        var k :| i + 1 <= k < |tokens| && parse(tokens[k]) == Err(FiltersFrom(tokens, i + 1, parse).error)
                 && forall m :: i + 1 <= m < k ==> parse(tokens[m]).Ok?;
        assert parse(tokens[k]) == Err(FiltersFrom(tokens, i, parse).error);
      }
    }
  }

  // ---------------------------------------------------------------- the grammar read backwards

  /** Eight upper-case hex digits. */
  function Hex8(n: u32): string
  {
    Format(n, 16, true, 8)
  }

  /** A pair token: an id, the separator, a mask. */
  function PairText(id: u32, sep: char, mask: u32): string
  {
    Hex8(id) + [sep] + Hex8(mask)
  }

  /** The plainest token for each filter. */
  function FilterText(f: Filter): string
  {
    match f
    case Join => "j"
    case ErrorMask(m) => "#" + Hex8(m)
    case Match(id, mask) => PairText(id, ':', mask)
    case NotMatch(id, mask) => PairText(id, '~', mask)
  }

  /** `Hex8` writes exactly eight hex digits. */
  lemma Hex8Digits(n: u32)
    ensures |Hex8(n)| == 8 && AllDigits(Hex8(n), 16)
    ensures ParseHex(Hex8(n)) == Ok(n)
  {
    assert Pow(16, 8) == 0x1_0000_0000 by {
      assert Pow(16, 0) == 1;
    }
    DigitsFit(n, 16, true, 8);
    DigitsValue(n, 16, true);
    ZeroPadValue(Digits(n, 16, true), 8, 16);
    ParseHexFormat(n, "", true, 8);
    assert "" + Hex8(n) == Hex8(n);
  }

  /** The shape of a pair token: no `#` in front, no whitespace at either end, separators only where put. */
  lemma PairTextShape(id: u32, sep: char, mask: u32)
    requires sep == ':' || sep == '~'
    ensures var t := PairText(id, sep, mask);
            && |t| == 17 && t[0] != '#' && Trim(t) == t && ',' !in t
            && (sep == '~' ==> ':' !in t)
            && SplitOnce(t, sep) == Some((Hex8(id), Hex8(mask)))
  {
    var t := PairText(id, sep, mask);
    Hex8Digits(id);
    Hex8Digits(mask);
    assert IsDigitOf(t[0], 16) && IsDigitOf(t[16], 16);
    assert !IsDigitOf(',', 16) && !IsDigitOf(':', 16) && !IsDigitOf(sep, 16);
    NotADigit(Hex8(id), ',');
    NotADigit(Hex8(mask), ',');
    NotADigit(Hex8(id), sep);
    NotADigit(Hex8(id), ':');
    NotADigit(Hex8(mask), ':');
    TrimUntouched(t);
    SplitOnceAround(Hex8(id), Hex8(mask), sep);
  }

  /** The shape of a mask token. */
  lemma MaskTextShape(m: u32)
    ensures var t := "#" + Hex8(m);
            && |t| == 9 && Trim(t) == t && ',' !in t
            && StripPrefix(t, "#") == Some(Hex8(m))
  {
    var t := "#" + Hex8(m);
    Hex8Digits(m);
    assert IsDigitOf(t[8], 16) && !IsDigitOf(',', 16);
    NotADigit(Hex8(m), ',');
    TrimUntouched(t);
    assert t[..1] == "#" && t[1..] == Hex8(m);
  }

  /** The plainest token holds no comma, so it stays one token of the argument. */
  lemma FilterTextShape(f: Filter)
    ensures |FilterText(f)| >= 1 && ',' !in FilterText(f)
  {
    assert !IsDigitOf(',', 16);
    if f.ErrorMask? {
      Hex8Digits(f.errorMask);
      NotADigit(Hex8(f.errorMask), ',');
    } else if !f.Join? {
      Hex8Digits(f.id);
      Hex8Digits(f.mask);
      NotADigit(Hex8(f.id), ',');
      NotADigit(Hex8(f.mask), ',');
    }
  }

  /** A `#` token whose mask field parses is that error mask. */
  lemma MaskToken(t: string, rest: string, m: u32)
    requires |t| >= 2 && StripPrefix(t, "#") == Some(rest) && ParseHex(rest) == Ok(m)
    ensures TokenFilter(t) == Ok(Some(ErrorMask(m)))
  {
  }

  /** A token split at its first `:` is a `Match` of the two fields. */
  lemma ColonPair(t: string, a: string, b: string)
    requires SplitOnce(t, ':') == Some((a, b))
    ensures ColonOrLater(t) == PairFilter(a, b, false)
  {
  }

  /** A token with no `:`, split at its first `~`, is a `NotMatch` of the two fields. */
  lemma TildePair(t: string, a: string, b: string)
    requires ':' !in t && SplitOnce(t, '~') == Some((a, b))
    ensures ColonOrLater(t) == PairFilter(a, b, true)
  {
    NoColon(t);
  }

  /** Two fields that parse make a filter of their values. */
  lemma PairFields(id: u32, mask: u32, inverted: bool)
    ensures PairFilter(Hex8(id), Hex8(mask), inverted)
            == Ok(Some(if inverted then NotMatch(id, mask) else Match(id, mask)))
  {
    Hex8Digits(id);
    Hex8Digits(mask);
  }

  /** Every filter's plainest token parses back to it. */
  lemma ParseFilterText(f: Filter)
    ensures ParseToken(FilterText(f)) == Ok(Some(f))
  {
    var t := FilterText(f);
    match f
    case Join =>
      TrimUntouched("j");
      TrimmedToken("j");
    case ErrorMask(m) =>
      MaskTextShape(m);
      Hex8Digits(m);
      TrimmedToken(t);
      MaskToken(t, Hex8(m), m);
    case Match(id, mask) =>
      PairTextShape(id, ':', mask);
      PairFields(id, mask, false);
      TrimmedToken(t);
      NeitherJoinNorMask(t);
      ColonPair(t, Hex8(id), Hex8(mask));
    case NotMatch(id, mask) =>
      PairTextShape(id, '~', mask);
      PairFields(id, mask, true);
      TrimmedToken(t);
      NeitherJoinNorMask(t);
      TildePair(t, Hex8(id), Hex8(mask));
  }

  /** The tokens of a list of filters. */
  function FilterTexts(fs: seq<Filter>): (r: seq<string>)
    ensures |r| == |fs| && forall i :: 0 <= i < |fs| ==> r[i] == FilterText(fs[i])
  {
    seq(|fs|, i requires 0 <= i < |fs| => FilterText(fs[i]))
  }

  /** An interface argument written from a name and filters. */
  function SpecText(ifname: string, filters: seq<Filter>): string
  {
    Text.Join([ifname] + FilterTexts(filters), ',')
  }

  /** Tokens that each parse to one filter give those filters in order. */
  lemma {:induction false} FiltersOfTexts(tokens: seq<string>, i: nat, parse: TokenParser, fs: seq<Filter>)
    requires i <= |tokens| && |tokens| - i == |fs|
    requires forall k :: i <= k < |tokens| ==> parse(tokens[k]) == Ok(Some(fs[k - i]))
    ensures FiltersFrom(tokens, i, parse) == Ok(fs)
    decreases |tokens| - i
  {
    if i < |tokens| {
      FiltersOfTexts(tokens, i + 1, parse, fs[1..]);
      assert fs == [fs[0]] + fs[1..];
    }
  }

  /** The tokens of any filters are free of commas. */
  lemma FilterTextsCommaFree(filters: seq<Filter>)
    ensures forall k :: 0 <= k < |filters| ==> ',' !in FilterTexts(filters)[k]
  {
    forall k | 0 <= k < |filters|
      ensures ',' !in FilterTexts(filters)[k]
    {
      FilterTextShape(filters[k]);
    }
  }

  /** Each filter's token parses back to it. */
  lemma FilterTokensParse(filters: seq<Filter>)
    ensures forall k :: 0 <= k < |filters| ==> ParseToken(FilterTexts(filters)[k]) == Ok(Some(filters[k]))
  {
    forall k | 0 <= k < |filters|
      ensures ParseToken(FilterTexts(filters)[k]) == Ok(Some(filters[k]))
    {
      ParseFilterText(filters[k]);
    }
  }

  /**
   * A name and comma-free tokens joined with commas split back into the name and the
   * tokens, so whatever reads each token as one filter reads the whole as those filters.
   */
  lemma FiltersOfJoined(ifname: string, texts: seq<string>, filters: seq<Filter>, parse: TokenParser)
    requires ',' !in ifname && |texts| == |filters|
    requires forall k :: 0 <= k < |texts| ==> ',' !in texts[k]
    requires forall k :: 0 <= k < |texts| ==> parse(texts[k]) == Ok(Some(filters[k]))
    ensures var parts := Split(Text.Join([ifname] + texts, ','), ',');
            |parts| >= 1 && parts[0] == ifname && FiltersFrom(parts, 1, parse) == Ok(filters)
  {
    var parts := [ifname] + texts;
    PartsOfCons(ifname, texts, filters, parse);
    SplitOfJoin(parts, ',');
    FiltersOfTexts(parts, 1, parse, filters);
  }

  /** What holds of the name and of each token holds of the parts, name first. */
  lemma PartsOfCons(ifname: string, texts: seq<string>, filters: seq<Filter>, parse: TokenParser)
    requires ',' !in ifname && |texts| == |filters|
    requires forall k :: 0 <= k < |texts| ==> ',' !in texts[k]
    requires forall k :: 0 <= k < |texts| ==> parse(texts[k]) == Ok(Some(filters[k]))
    ensures var parts := [ifname] + texts;
            && (forall k :: 0 <= k < |parts| ==> ',' !in parts[k])
            && (forall k :: 1 <= k < |parts| ==> parse(parts[k]) == Ok(Some(filters[k - 1])))
  {
    var parts := [ifname] + texts;
    assert forall k :: 1 <= k < |parts| ==> parts[k] == texts[k - 1];
  }

  /** An argument written from a comma-free name and any filters parses back to them. */
  lemma SpecRoundTrip(ifname: string, filters: seq<Filter>)
    requires ',' !in ifname
    ensures SpecOf(SpecText(ifname, filters)) == Ok(InterfaceSpec(ifname, filters))
  {
    FilterTextsCommaFree(filters);
    FilterTokensParse(filters);
    FiltersOfJoined(ifname, FilterTexts(filters), filters, ParseToken);
  }

  /** A token with nothing to trim is read as it stands. */
  lemma TrimmedToken(t: string)
    requires |t| >= 1 && Trim(t) == t
    ensures ParseToken(t) == TokenFilter(t)
  {
  }

  /** A token that is not `j` and does not start with `#` goes on to the pair forms. */
  lemma NeitherJoinNorMask(t: string)
    requires |t| >= 1 && (|t| != 1 || AsciiLower(t[0]) != 'j') && t[0] != '#'
    ensures TokenFilter(t) == ColonOrLater(t)
  {
    NotPrefixAt(t, "#", 0);
  }

  /** Without a `:` the token goes on to the later forms. */
  lemma NoColon(t: string)
    requires ':' !in t
    ensures ColonOrLater(t) == TildeOrBare(t)
  {
  }

  /** Without a `~` the token is a bare id or nothing. */
  lemma NoTilde(t: string)
    requires '~' !in t
    ensures TildeOrBare(t) == BareId(t)
  {
  }

  /** A token of hex digits is neither `j`, a mask nor a pair, so it is read as a bare id. */
  lemma DigitTokenIsBare(t: string)
    requires |t| >= 1 && AllDigits(t, 16)
    ensures ParseToken(t) == BareId(t)
  {
    assert IsDigitOf(t[0], 16);
    assert AsciiLower(t[0]) != 'j' && t[0] != '#';
    NotADigit(t, ':');
    NotADigit(t, '~');
    TrimDigits(t, 16);
    TrimmedToken(t);
    NeitherJoinNorMask(t);
    NoColon(t);
    NoTilde(t);
  }

  /**
   * A bare hex id matches that id under the all-ones mask when it fits 32 bits; when it
   * does not, the token is an overflow error naming it, never a wrapped id.
   */
  lemma BareHexId(t: string)
    requires |t| >= 1 && IsHex(t)
    ensures ParseToken(t) == if Value(t, 16) <= U32_MAX
                             then Ok(Some(Match(Value(t, 16) as u32, 0xFFFF_FFFF)))
                             else Err(FieldError("hex id", t, PosOverflow))
  {
    HexTextParse(t);
    DigitTokenIsBare(t);
  }

  /** A bare `0x` id is not all hex, so it is no filter at all. */
  lemma PrefixedBareIdUnrecognized(digits: string)
    requires |digits| >= 1 && AllDigits(digits, 16)
    ensures var t := "0x" + digits;
            ParseToken(t) == Err("unrecognized filter token: '" + t + "'")
  {
    var t := "0x" + digits;
    assert t[0] == '0' && t[1] == 'x' && t[|t| - 1] == digits[|digits| - 1];
    assert IsDigitOf(t[|t| - 1], 16) && !IsWhitespace(t[|t| - 1]);
    assert !IsAsciiHexDigit(t[1]);
    NotADigit(digits, ':');
    NotADigit(digits, '~');
    assert ':' !in t && '~' !in t;
    TrimUntouched(t);
    TrimmedToken(t);
    NeitherJoinNorMask(t);
    NoColon(t);
    NoTilde(t);
  }

  /** `:` is looked for before `~`: a hex id, a `:`, and the rest is an id/mask pair whatever the rest holds. */
  lemma ColonBeforeTilde(a: string, b: string)
    requires |a| >= 1 && AllDigits(a, 16)
    requires |b| >= 1 && !IsWhitespace(b[|b| - 1])
    ensures ParseToken(a + [':'] + b) == PairFilter(a, b, false)
  {
    var t := a + [':'] + b;
    assert t[0] == a[0] && t[|t| - 1] == b[|b| - 1];
    assert IsDigitOf(t[0], 16) && !IsWhitespace(t[0]);
    assert AsciiLower(t[0]) != 'j' && t[0] != '#';
    NotADigit(a, ':');
    TrimUntouched(t);
    TrimmedToken(t);
    NeitherJoinNorMask(t);
    SplitOnceAround(a, b, ':');
    ColonPair(t, a, b);
  }

  /** A text holding a `~` is never a number, with or without a sign. */
  lemma TildeNotNumber(s: string)
    requires '~' in s
    ensures ParseUnsigned(s, 16, U32_MAX) == None
  {
    var i :| 0 <= i < |s| && s[i] == '~';
    var digits := if s[0] == '+' then s[1..] else s;
    var j := if s[0] == '+' then i - 1 else i;
    assert 0 <= j < |digits| && digits[j] == '~' && !IsDigitOf('~', 16);
  }

  /** A field holding a `~` never parses as hex, so a mask that swallowed one is an error. */
  lemma TildeNotHex(s: string)
    requires '~' in s
    ensures ParseHex(s).Err?
  {
    match StripPrefix(s, "0x")
    case Some(rest) =>
      assert s[0] != '~' && s[1] != '~' && s == "0x" + rest;
      TildeNotNumber(rest);
    case None =>
      match StripPrefix(s, "0X")
      case Some(rest) =>
        assert s[0] != '~' && s[1] != '~' && s == "0X" + rest;
        TildeNotNumber(rest);
      case None =>
        TildeNotNumber(s);
  }

  /** An id/mask pair whose mask holds a `~` is an error, not a negated filter. */
  lemma TildeInMaskRejected(a: string, b: string)
    requires '~' in b
    ensures PairFilter(a, b, false).Err?
  {
    TildeNotHex(b);
  }

  lemma NotADigit(s: string, c: char)
    requires AllDigits(s, 16) && !IsDigitOf(c, 16)
    ensures c !in s
  {
  }
}
