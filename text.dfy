/**
 * The parts of Rust's `str` and integer-parsing library that the parsers and formatters
 * here rely on: `from_str_radix`, zero-padded `0N`/`0NX` formatting, `trim`, ASCII case
 * folding, `strip_prefix`, `split` and `split_once`. Strings are sequences of Unicode
 * scalar values; the byte-offset slicing of Rust strings agrees with this for ASCII text.
 */
module Text {
  import opened Wrappers

  // ---------------------------------------------------------------- digits

  /** `char::to_digit` for radix up to 36, with 36 standing for "not a digit". */
  function DigitValue(c: char): nat
  {
    if '0' <= c <= '9' then c as int - '0' as int
    else if 'a' <= c <= 'z' then c as int - 'a' as int + 10
    else if 'A' <= c <= 'Z' then c as int - 'A' as int + 10
    else 36
  }

  predicate IsDigitOf(c: char, radix: nat)
  {
    DigitValue(c) < radix
  }

  predicate AllDigits(s: string, radix: nat)
  {
    forall i :: 0 <= i < |s| ==> IsDigitOf(s[i], radix)
  }

  /** `char::is_ascii_hexdigit`. */
  predicate IsAsciiHexDigit(c: char)
  {
    '0' <= c <= '9' || 'a' <= c <= 'f' || 'A' <= c <= 'F'
  }

  lemma HexDigitIffAsciiHex(c: char)
    ensures IsDigitOf(c, 16) <==> IsAsciiHexDigit(c)
  {
  }

  /** The value of a digit string read most significant digit first. */
  function Value(s: string, radix: nat): nat
  {
    if |s| == 0 then 0 else Value(s[..|s| - 1], radix) * radix + DigitValue(s[|s| - 1])
  }

  /**
   * `uN::from_str_radix(s, radix)` for an unsigned type whose largest value is `max`:
   * one optional leading `+`, then at least one digit, and nothing larger than `max`.
   */
  function ParseUnsigned(s: string, radix: nat, max: nat): (r: Option<nat>)
    ensures r.Some? ==> r.value <= max
    ensures r.Some? ==> |s| >= 1
  {
    if |s| == 0 || (|s| == 1 && (s[0] == '+' || s[0] == '-')) then None
    else
      var digits := if s[0] == '+' then s[1..] else s;
      if AllDigits(digits, radix) && Value(digits, radix) <= max then Some(Value(digits, radix))
      else None
  }

  /** `s.parse::<usize>()` on a 64-bit target. */
  function ParseUsize(s: string): Option<nat>
  {
    ParseUnsigned(s, 10, 0xFFFF_FFFF_FFFF_FFFF)
  }

  // ---------------------------------------------------------------- parse errors

  /** The kinds of `ParseIntError` an unsigned parse can report. */
  datatype IntErrorKind = Empty | InvalidDigit | PosOverflow

  /** The `Display` text of each kind. */
  function IntErrorText(k: IntErrorKind): string
  {
    match k
    case Empty => "cannot parse integer from empty string"
    case InvalidDigit => "invalid digit found in string"
    case PosOverflow => "number too large to fit in target type"
  }

  /**
   * Where `from_str_radix` stops when it reads `d` from position `k` on: at the first
   * character that is not a digit, or at the first digit whose prefix exceeds `max`.
   */
  function ScanFailure(d: string, radix: nat, max: nat, k: nat): Option<IntErrorKind>
    requires k <= |d|
    decreases |d| - k
  {
    if k == |d| then None
    else if !IsDigitOf(d[k], radix) then Some(InvalidDigit)
    else if Value(d[..k + 1], radix) > max then Some(PosOverflow)
    else ScanFailure(d, radix, max, k + 1)
  }

  /** `uN::from_str_radix` with its error kind. */
  function ParseUnsignedResult(s: string, radix: nat, max: nat): Result<nat, IntErrorKind>
  {
    if |s| == 0 then Err(Empty)
    else if |s| == 1 && (s[0] == '+' || s[0] == '-') then Err(InvalidDigit)
    else
      var digits := if s[0] == '+' then s[1..] else s;
      match ScanFailure(digits, radix, max, 0)
      case Some(e) => Err(e)
      case None => Ok(Value(digits, radix))
  }

  /** A prefix of a digit string never has a larger value. */
  lemma {:induction false} ValuePrefix(s: string, j: nat, radix: nat)
    requires j <= |s| && 1 <= radix
    ensures Value(s[..j], radix) <= Value(s, radix)
    decreases |s|
  {
    if j < |s| {
      var init := s[..|s| - 1];
      ValuePrefix(init, j, radix);
      assert init[..j] == s[..j];
      MulMonotone(1, radix, Value(init, radix));
    } else {
      assert s[..j] == s;
    }
  }

  /** The scan finds nothing exactly when the rest is all digits and the whole value fits. */
  lemma {:induction false} ScanNone(d: string, radix: nat, max: nat, k: nat)
    requires k <= |d| && 1 <= radix
    requires forall i :: 0 <= i < k ==> IsDigitOf(d[i], radix)
    requires Value(d[..k], radix) <= max
    ensures ScanFailure(d, radix, max, k).None? <==> AllDigits(d, radix) && Value(d, radix) <= max
    decreases |d| - k
  {
    if k == |d| {
      assert d[..k] == d;
    } else if IsDigitOf(d[k], radix) {
      if Value(d[..k + 1], radix) > max {
        ValuePrefix(d, k + 1, radix);
      } else {
        ScanNone(d, radix, max, k + 1);
      }
    }
  }

  /** The parse with an error kind succeeds exactly when `ParseUnsigned` does, with the same value. */
  lemma ParseUnsignedAgrees(s: string, radix: nat, max: nat)
    requires 1 <= radix
    ensures ParseUnsignedResult(s, radix, max).Ok? <==> ParseUnsigned(s, radix, max).Some?
    ensures ParseUnsignedResult(s, radix, max).Ok? ==>
              ParseUnsignedResult(s, radix, max).value == ParseUnsigned(s, radix, max).value
  {
    if |s| > 0 && !(|s| == 1 && (s[0] == '+' || s[0] == '-')) {
      var digits := if s[0] == '+' then s[1..] else s;
      assert digits[..0] == "";
      ScanNone(digits, radix, max, 0);
    }
  }

  /** Digits that fit give their value; digits that do not fit give `PosOverflow`, never a wrapped value. */
  lemma DigitsOverflow(s: string, radix: nat, max: nat)
    requires 1 <= radix <= 36 && |s| >= 1 && AllDigits(s, radix)
    ensures ParseUnsignedResult(s, radix, max)
              == if Value(s, radix) <= max then Ok(Value(s, radix)) else Err(PosOverflow)
  {
    assert IsDigitOf(s[0], radix) && s[..0] == "";
    ScanNone(s, radix, max, 0);
    if Value(s, radix) > max {
      OverflowAt(s, radix, max, 0);
    }
  }

  /** Along an all-digit string the scan can only stop for overflow. */
  lemma {:induction false} OverflowAt(d: string, radix: nat, max: nat, k: nat)
    requires k <= |d| && AllDigits(d, radix)
    requires ScanFailure(d, radix, max, k).Some?
    ensures ScanFailure(d, radix, max, k) == Some(PosOverflow)
    decreases |d| - k
  {
    if k < |d| && Value(d[..k + 1], radix) <= max {
      OverflowAt(d, radix, max, k + 1);
    }
  }

  // ---------------------------------------------------------------- formatting

  function DigitChar(d: nat, upper: bool): (c: char)
    requires d < 16
    ensures DigitValue(c) == d
  {
    if d < 10 then ('0' as int + d) as char
    else if upper then ('A' as int + d - 10) as char
    else ('a' as int + d - 10) as char
  }

  /** The digits of `n` in `radix` with no leading zeros (`"0"` for zero). */
  function Digits(n: nat, radix: nat, upper: bool): (s: string)
    requires 2 <= radix <= 16
    ensures |s| >= 1
    decreases n
  {
    if n < radix then [DigitChar(n, upper)]
    else Digits(n / radix, radix, upper) + [DigitChar(n % radix, upper)]
  }

  /** Left-pads with `'0'` up to `width` characters, as the `0` flag of `format!` does. */
  function ZeroPad(s: string, width: nat): (r: string)
    ensures |r| == if |s| >= width then |s| else width
  {
    if |s| >= width then s else seq(width - |s|, _ => '0') + s
  }

  /** `n` zero-padded to `w` digits (formats `0w$`, `0w$X`, `0w$x`), by `radix` and `upper`. */
  function Format(n: nat, radix: nat, upper: bool, width: nat): string
    requires 2 <= radix <= 16
  {
    ZeroPad(Digits(n, radix, upper), width)
  }

  function Pow(b: nat, e: nat): nat
  {
    if e == 0 then 1 else b * Pow(b, e - 1)
  }

  /** Formatting writes only digits of the radix, and they read back as the number. */
  lemma {:induction false} DigitsValue(n: nat, radix: nat, upper: bool)
    requires 2 <= radix <= 16
    ensures AllDigits(Digits(n, radix, upper), radix)
    ensures Value(Digits(n, radix, upper), radix) == n
    decreases n
  {
    if n >= radix {
      var s := Digits(n, radix, upper);
      var front := Digits(n / radix, radix, upper);
      var last := DigitChar(n % radix, upper);
      DivModFacts(n, radix);
      DigitsValue(n / radix, radix, upper);
      assert s == front + [last];
      assert s[..|s| - 1] == front;
      assert Value(s, radix) == Value(front, radix) * radix + DigitValue(last);
    }
  }

  lemma DivModFacts(n: nat, d: nat)
    requires 2 <= d
    ensures n == (n / d) * d + n % d
    ensures n >= d ==> n / d < n
  {
    var q := n / d;
    assert n == d * q + n % d;
    if n >= d {
      assert q >= 1;
      assert d * q >= 2 * q by { MulMonotone(2, d, q); }
    }
  }

  /** Leading zeros do not change the value of a digit string. */
  lemma {:induction false} ZeroPadValue(s: string, width: nat, radix: nat)
    requires 2 <= radix && AllDigits(s, radix)
    ensures AllDigits(ZeroPad(s, width), radix)
    ensures Value(ZeroPad(s, width), radix) == Value(s, radix)
  {
    if |s| < width {
      ZerosThenValue(seq(width - |s|, _ => '0'), s, radix);
    }
  }

  lemma {:induction false} ZerosThenValue(z: string, s: string, radix: nat)
    requires 2 <= radix && forall i :: 0 <= i < |z| ==> z[i] == '0'
    ensures Value(z + s, radix) == Value(s, radix)
    decreases |s|
  {
    if |s| == 0 {
      assert z + s == z;
      ZerosValue(z, radix);
    } else {
      assert (z + s)[..|z + s| - 1] == z + s[..|s| - 1];
      ZerosThenValue(z, s[..|s| - 1], radix);
    }
  }

  lemma {:induction false} ZerosValue(z: string, radix: nat)
    requires forall i :: 0 <= i < |z| ==> z[i] == '0'
    ensures Value(z, radix) == 0
    decreases |z|
  {
    if |z| > 0 {
      ZerosValue(z[..|z| - 1], radix);
    }
  }

  /** A number below `radix^w` needs at most `w` digits, so `Format` is exactly `w` long. */
  lemma {:induction false} DigitsFit(n: nat, radix: nat, upper: bool, w: nat)
    requires 2 <= radix <= 16 && 1 <= w && n < Pow(radix, w)
    ensures |Digits(n, radix, upper)| <= w
    ensures |Format(n, radix, upper, w)| == w
    decreases w
  {
    if n >= radix {
      QuotientFits(n, radix, w);
      DigitsFit(n / radix, radix, upper, w - 1);
    }
  }

  /** A number of at least one digit and below `radix^w` leaves, once its last digit goes, a number below `radix^(w-1)`. */
  lemma QuotientFits(n: nat, radix: nat, w: nat)
    requires 2 <= radix <= n && 1 <= w && n < Pow(radix, w)
    ensures 2 <= w && n / radix < Pow(radix, w - 1)
  {
    var p := Pow(radix, w - 1);
    assert Pow(radix, w) == radix * p;
    assert Pow(radix, 0) == 1;
    MulMonotone(p, n / radix, radix);
  }

  lemma MulMonotone(a: nat, b: nat, d: nat)
    ensures a <= b ==> a * d <= b * d
  {
    if a <= b {
      assert b * d == a * d + (b - a) * d;
    }
  }

  /** `from_str_radix` reads back what `Format` wrote. */
  lemma ParseFormat(n: nat, radix: nat, upper: bool, width: nat, max: nat)
    requires 2 <= radix <= 16 && n <= max
    ensures ParseUnsigned(Format(n, radix, upper, width), radix, max) == Some(n)
  {
    var s := Format(n, radix, upper, width);
    DigitsValue(n, radix, upper);
    ZeroPadValue(Digits(n, radix, upper), width, radix);
    assert IsDigitOf(s[0], radix);
  }

  // ---------------------------------------------------------------- case and whitespace

  /** Unicode `White_Space`, the set `str::trim` removes. */
  predicate IsWhitespace(c: char)
  {
    var n := c as int;
    (0x09 <= n <= 0x0D) || n == 0x20 || n == 0x85 || n == 0xA0 || n == 0x1680
    || (0x2000 <= n <= 0x200A) || n == 0x2028 || n == 0x2029 || n == 0x202F
    || n == 0x205F || n == 0x3000
  }

  /** The first position at or after `i` that is not whitespace, or the end. */
  function FirstKept(s: string, i: nat): (k: nat)
    requires i <= |s|
    ensures i <= k <= |s|
    ensures k < |s| ==> !IsWhitespace(s[k])
    decreases |s| - i
  {
    if i < |s| && IsWhitespace(s[i]) then FirstKept(s, i + 1) else i
  }

  /** The end of the text before `j` once trailing whitespace is dropped. */
  function LastKept(s: string, j: nat): (k: nat)
    requires j <= |s|
    ensures k <= j
    ensures k > 0 ==> !IsWhitespace(s[k - 1])
  {
    if j > 0 && IsWhitespace(s[j - 1]) then LastKept(s, j - 1) else j
  }

  function TrimStart(s: string): (r: string)
    ensures |r| <= |s|
    ensures |r| > 0 ==> !IsWhitespace(r[0])
  {
    s[FirstKept(s, 0)..]
  }

  function TrimEnd(s: string): (r: string)
    ensures |r| <= |s|
    ensures |r| > 0 ==> !IsWhitespace(r[|r| - 1])
  {
    s[..LastKept(s, |s|)]
  }

  /** `str::trim`. */
  function Trim(s: string): (r: string)
    ensures |r| <= |s|
    ensures |r| > 0 ==> !IsWhitespace(r[0]) && !IsWhitespace(r[|r| - 1])
  {
    TrimEnd(TrimStart(s))
  }

  /** Trimming leaves a string alone when neither end is whitespace. */
  lemma TrimUntouched(s: string)
    requires |s| > 0 && !IsWhitespace(s[0]) && !IsWhitespace(s[|s| - 1])
    ensures Trim(s) == s
  {
    assert TrimStart(s) == s;
  }

  /** Digits of any radix up to 36 are never whitespace, so `trim` keeps formatted numbers. */
  lemma TrimDigits(s: string, radix: nat)
    requires radix <= 36 && |s| > 0 && AllDigits(s, radix)
    ensures Trim(s) == s
  {
    assert IsDigitOf(s[0], radix) && IsDigitOf(s[|s| - 1], radix);
    TrimUntouched(s);
  }

  function AsciiLower(c: char): char
  {
    if 'A' <= c <= 'Z' then (c as int + 32) as char else c
  }

  function AsciiUpper(c: char): char
  {
    if 'a' <= c <= 'z' then (c as int - 32) as char else c
  }

  /** `str::to_ascii_lowercase`. */
  function ToAsciiLower(s: string): (r: string)
    ensures |r| == |s| && forall i :: 0 <= i < |s| ==> r[i] == AsciiLower(s[i])
  {
    seq(|s|, i requires 0 <= i < |s| => AsciiLower(s[i]))
  }

  /** `str::to_ascii_uppercase`. */
  function ToAsciiUpper(s: string): (r: string)
    ensures |r| == |s| && forall i :: 0 <= i < |s| ==> r[i] == AsciiUpper(s[i])
  {
    seq(|s|, i requires 0 <= i < |s| => AsciiUpper(s[i]))
  }

  /** `str::eq_ignore_ascii_case`. */
  predicate EqIgnoreAsciiCase(a: string, b: string)
  {
    |a| == |b| && forall i :: 0 <= i < |a| ==> AsciiLower(a[i]) == AsciiLower(b[i])
  }

  // ---------------------------------------------------------------- splitting

  /** `str::strip_prefix`. */
  function StripPrefix(s: string, p: string): (r: Option<string>)
    ensures r.Some? <==> (|p| <= |s| && s[..|p|] == p)
    ensures r.Some? ==> s == p + r.value
  {
    if |p| <= |s| && s[..|p|] == p then Some(s[|p|..]) else None
  }

  /** A string differing from `p` at a position both have does not start with `p`. */
  lemma NotPrefixAt(s: string, p: string, i: nat)
    requires i < |p| && i < |s| && s[i] != p[i]
    ensures StripPrefix(s, p) == None
  {
    if |p| <= |s| {
      assert s[..|p|][i] == s[i];
    }
  }

  /** The position of the first `c` in `s`. */
  function IndexOf(s: string, c: char): (r: Option<nat>)
    ensures r.None? <==> c !in s
    ensures r.Some? ==> r.value < |s| && s[r.value] == c && c !in s[..r.value]
  {
    if |s| == 0 then None
    else if s[0] == c then Some(0)
    else match IndexOf(s[1..], c)
      case None => None
      case Some(i) => assert s[1..][..i] == s[1..i + 1]; Some(i + 1)
  }

  /** `str::split_once(c)`: the text around the first `c`. */
  function SplitOnce(s: string, c: char): (r: Option<(string, string)>)
    ensures r.None? <==> c !in s
    ensures r.Some? ==> s == r.value.0 + [c] + r.value.1 && c !in r.value.0
  {
    match IndexOf(s, c)
    case None => None
    case Some(i) => assert s == s[..i] + [c] + s[i + 1..]; Some((s[..i], s[i + 1..]))
  }

  /** `str::split(c)`, collected: the pieces between the occurrences of `c`. */
  function Split(s: string, c: char): (parts: seq<string>)
    ensures |parts| >= 1
    ensures forall k :: 0 <= k < |parts| ==> c !in parts[k]
    decreases |s|
  {
    match IndexOf(s, c)
    case None => [s]
    case Some(i) => [s[..i]] + Split(s[i + 1..], c)
  }

  /** Joining the pieces with `c` gives back the string. */
  function Join(parts: seq<string>, c: char): string
    requires |parts| >= 1
  {
    if |parts| == 1 then parts[0] else parts[0] + [c] + Join(parts[1..], c)
  }

  lemma {:induction false} SplitJoin(s: string, c: char)
    ensures Join(Split(s, c), c) == s
    decreases |s|
  {
    match IndexOf(s, c)
    case None =>
    case Some(i) =>
      SplitJoin(s[i + 1..], c);
      assert Split(s, c)[1..] == Split(s[i + 1..], c);
      assert s == s[..i] + [c] + s[i + 1..];
  }

  /** The first separator after a piece that does not contain it is the one that follows the piece. */
  lemma IndexAfter(a: string, b: string, c: char)
    requires c !in a
    ensures IndexOf(a + [c] + b, c) == Some(|a|)
  {
    var s := a + [c] + b;
    assert s[|a|] == c;
    assert forall j :: 0 <= j < |a| ==> s[j] == a[j];
    assert forall j :: |a| < j <= |s| ==> s[..j][|a|] == c;
  }

  /** `split_once` splits around the first separator. */
  lemma SplitOnceAround(a: string, b: string, c: char)
    requires c !in a
    ensures SplitOnce(a + [c] + b, c) == Some((a, b))
  {
    var s := a + [c] + b;
    IndexAfter(a, b, c);
    assert s[..|a|] == a && s[|a| + 1..] == b;
  }

  /** `split` gives two pieces exactly when `split_once` finds a separator and none follows it. */
  lemma SplitInTwo(s: string, c: char)
    ensures |Split(s, c)| == 2 <==> SplitOnce(s, c).Some? && c !in SplitOnce(s, c).value.1
    ensures |Split(s, c)| == 2 ==> Split(s, c) == [SplitOnce(s, c).value.0, SplitOnce(s, c).value.1]
  {
    match IndexOf(s, c)
    case None =>
    case Some(i) =>
      var rest := s[i + 1..];
      assert Split(s, c) == [s[..i]] + Split(rest, c);
      match IndexOf(rest, c) {
        case None =>
        case Some(j) => assert Split(rest, c) == [rest[..j]] + Split(rest[j + 1..], c);
      }
  }

  /** Splitting at a first separator puts the text before it in front of the split of the rest. */
  lemma SplitStep(a: string, rest: string, c: char)
    requires c !in a
    ensures Split(a + [c] + rest, c) == [a] + Split(rest, c)
  {
    var s := a + [c] + rest;
    IndexAfter(a, rest, c);
    assert s[..|a|] == a && s[|a| + 1..] == rest;
  }

  /** Splitting a join of pieces free of the separator gives the pieces back. */
  lemma {:induction false} SplitOfJoin(parts: seq<string>, c: char)
    requires |parts| >= 1 && forall k :: 0 <= k < |parts| ==> c !in parts[k]
    ensures Split(Join(parts, c), c) == parts
    decreases |parts|
  {
    if |parts| == 1 {
      assert Join(parts, c) == parts[0];
    } else {
      var rest := Join(parts[1..], c);
      assert Join(parts, c) == parts[0] + [c] + rest;
      assert c !in parts[0];
      SplitOfJoin(parts[1..], c);
      SplitStep(parts[0], rest, c);
      assert parts == [parts[0]] + parts[1..];
    }
  }

  /** The number of pieces is one more than the number of separators. */
  function Count(s: string, c: char): nat
  {
    if |s| == 0 then 0 else (if s[0] == c then 1 else 0) + Count(s[1..], c)
  }

  lemma {:induction false} SplitCount(s: string, c: char)
    ensures |Split(s, c)| == Count(s, c) + 1
    decreases |s|
  {
    match IndexOf(s, c)
    case None => NoneCount(s, c);
    case Some(i) =>
      SplitCount(s[i + 1..], c);
      CountAppend(s[..i], s[i..], c);
      NoneCount(s[..i], c);
      assert s[i..][1..] == s[i + 1..];
      assert s == s[..i] + s[i..];
  }

  lemma {:induction false} NoneCount(s: string, c: char)
    requires c !in s
    ensures Count(s, c) == 0
    decreases |s|
  {
    if |s| > 0 {
      assert c !in s[1..] by { assert forall k :: 0 <= k < |s| - 1 ==> s[1..][k] == s[k + 1]; }
      NoneCount(s[1..], c);
    }
  }

  lemma {:induction false} CountAppend(a: string, b: string, c: char)
    ensures Count(a + b, c) == Count(a, c) + Count(b, c)
    decreases |a|
  {
    if |a| > 0 {
      assert (a + b)[1..] == a[1..] + b;
      CountAppend(a[1..], b, c);
    } else {
      assert a + b == b;
    }
  }
}
