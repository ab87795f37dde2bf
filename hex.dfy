/**
 * Two-digit hexadecimal byte fields, as the text codecs read them with
 * `u8::from_str_radix(.., 16)` and write them with the `02X` format.
 */
module Hex {
  import opened Wrappers
  import opened Bytes
  import opened Text

  /** The two hex digits at `start + 2 * j` as a byte, as `u8::from_str_radix(.., 16)`. */
  function HexPairAt(s: string, start: nat, j: nat): Option<byte>
    requires start + 2 * j + 2 <= |s|
  {
    match ParseUnsigned(s[start + 2 * j..start + 2 * j + 2], 16, 0xFF)
    case None => None
    case Some(v) => Some(v as byte)
  }

  /** The `n` data bytes from `start` on, or none when any pair is not hex. */
  function HexPairs(s: string, start: nat, n: nat): (r: Option<seq<byte>>)
    requires start + 2 * n <= |s|
    ensures r.Some? <==> forall j :: 0 <= j < n ==> HexPairAt(s, start, j).Some?
    ensures r.Some? ==> |r.value| == n && forall j :: 0 <= j < n ==> Some(r.value[j]) == HexPairAt(s, start, j)
  {
    if forall j :: 0 <= j < n ==> HexPairAt(s, start, j).Some?
    then Some(seq(n, j requires 0 <= j < n => HexPairAt(s, start, j).value))
    else None
  }

  /** Two upper-case hex digits per byte, in order. */
  function HexData(d: seq<byte>): (s: string)
  {
    if |d| == 0 then "" else HexData(d[..|d| - 1]) + Format(d[|d| - 1], 16, true, 2)
  }

  lemma HexByteWidth(b: byte)
    ensures |Format(b, 16, true, 2)| == 2
  {
    assert Pow(16, 2) == 256 by { assert Pow(16, 0) == 1; }
    DigitsFit(b, 16, true, 2);
  }

  /** The `j`-th pair of the hex data is the `j`-th byte's two digits. */
  lemma {:induction false} HexDataLayout(d: seq<byte>)
    ensures |HexData(d)| == 2 * |d|
    ensures forall j :: 0 <= j < |d| ==> HexData(d)[2 * j..2 * j + 2] == Format(d[j], 16, true, 2)
    decreases |d|
  {
    if |d| > 0 {
      var init := d[..|d| - 1];
      HexDataLayout(init);
      HexByteWidth(d[|d| - 1]);
      var s := HexData(d);
      assert s == HexData(init) + Format(d[|d| - 1], 16, true, 2);
      forall j | 0 <= j < |d|
        ensures s[2 * j..2 * j + 2] == Format(d[j], 16, true, 2)
      {
        if j < |d| - 1 {
          assert s[2 * j..2 * j + 2] == HexData(init)[2 * j..2 * j + 2];
        } else {
          assert s[2 * j..2 * j + 2] == s[|HexData(init)|..];
        }
      }
    }
  }

  /** Reading the hex data back, wherever it sits in a line, gives the bytes. */
  lemma HexPairsOfHexData(d: seq<byte>, pre: string, post: string)
    ensures |pre| + 2 * |d| <= |pre + HexData(d) + post|
    ensures HexPairs(pre + HexData(d) + post, |pre|, |d|) == Some(d)
  {
    var s := pre + HexData(d) + post;
    HexDataLayout(d);
    forall j | 0 <= j < |d|
      ensures HexPairAt(s, |pre|, j) == Some(d[j])
    {
      assert s[|pre| + 2 * j..|pre| + 2 * j + 2] == HexData(d)[2 * j..2 * j + 2];
      ParseFormat(d[j], 16, true, 2, 0xFF);
    }
    assert HexPairs(s, |pre|, |d|).value == d;
  }

  /** The hex text on its own reads back as the bytes. */
  lemma HexDataReadsBack(d: seq<byte>)
    ensures |HexData(d)| == 2 * |d|
    ensures HexPairs(HexData(d), 0, |d|) == Some(d)
  {
    HexDataLayout(d);
    HexPairsOfHexData(d, "", "");
    assert "" + HexData(d) + "" == HexData(d);
  }

  /** The hex text holds nothing but hex digits. */
  lemma {:induction false} HexDataDigits(d: seq<byte>)
    ensures AllDigits(HexData(d), 16)
    decreases |d|
  {
    if |d| > 0 {
      var last := d[|d| - 1];
      HexDataDigits(d[..|d| - 1]);
      DigitsValue(last, 16, true);
      ZeroPadValue(Digits(last, 16, true), 2, 16);
      assert HexData(d) == HexData(d[..|d| - 1]) + Format(last, 16, true, 2);
    }
  }
}
