/**
 * The `ID#DATA` argument of the `cansend` tool: a hexadecimal id, one `#`, then two hex
 * digits per data byte. An id above 0x7FF makes an extended frame, anything up to 0x7FF a
 * standard one, so a small id can never be sent in the extended format.
 */
module Cansend {
  import opened Wrappers
  import opened Bytes
  import opened CanFrames
  import opened Text
  import opened Hex

  /**
   * The arguments `cansend` turns into a frame: exactly one `#`; before it a hex number of at
   * most 29 bits (the `u32` parse takes more, the frame constructors refuse it); after it an
   * even number of characters, at most sixteen, every pair of them a hex byte.
   */
  predicate Acceptable(input: string)
  {
    match SplitOnce(input, '#')
    case None => false
    case Some((idText, dataText)) =>
      && '#' !in dataText
      && ParseUnsigned(idText, 16, U32_MAX).Some?
      && ParseUnsigned(idText, 16, U32_MAX).value <= EFF_MAX
      && |dataText| % 2 == 0
      && |dataText| <= 2 * CLASSIC_MAX_DLC
      && forall j :: 0 <= j < |dataText| / 2 ==> HexPairAt(dataText, 0, j).Some?
  }

  /** `f` is the data frame the argument spells: its id, its bytes pair by pair, the format by the id's size. */
  predicate Describes(input: string, f: CanFrame)
  {
    match SplitOnce(input, '#')
    case None => false
    case Some((idText, dataText)) =>
      && ParseUnsigned(idText, 16, U32_MAX) == Some(f.id)
      && f.extended == (f.id > SFF_MAX)
      && |dataText| == 2 * |f.data|
      && HexPairs(dataText, 0, |f.data|) == Some(f.data)
      && ValidFrame(f) && IsDataFrame(f) && f.timestamp == None
  }

  /** `parse_cansend_frame`: a frame exactly for the acceptable arguments, and then the one they spell. */
  function ParseCansendFrame(input: string): (r: Option<CanFrame>)
    ensures r.Some? <==> Acceptable(input)
    ensures r.Some? ==> Describes(input, r.value)
  {
    SplitInTwo(input, '#');
    var parts := Split(input, '#');
    if |parts| != 2 then None
    else match ParseUnsigned(parts[0], 16, U32_MAX)
      case None => None
      case Some(id) =>
        var extended := id > SFF_MAX;
        var dataText := parts[1];
        if |dataText| % 2 != 0 then None
        else match HexPairs(dataText, 0, |dataText| / 2)
          case None => None
          case Some(data) => if extended then NewEff(id, data) else New(id, data)
  }

  /** The argument that names a frame most plainly: 3 or 8 upper-case id digits, `#`, the bytes in hex. */
  function CansendText(f: CanFrame): string
  {
    Format(f.id, 16, true, if f.extended then 8 else 3) + "#" + HexData(f.data)
  }

  /** Digits of a radix never include a character that is not one. */
  lemma NotADigit(s: string, radix: nat, c: char)
    requires AllDigits(s, radix) && !IsDigitOf(c, radix)
    ensures c !in s
  {
  }

  /** Where the id and the data of the plain argument sit, and that each reads back. */
  lemma CansendTextParts(f: CanFrame)
    requires ValidFrame(f) && IsDataFrame(f)
    ensures var idText := Format(f.id, 16, true, if f.extended then 8 else 3);
            var dataText := HexData(f.data);
            && SplitOnce(CansendText(f), '#') == Some((idText, dataText))
            && '#' !in dataText
            && ParseUnsigned(idText, 16, U32_MAX) == Some(f.id)
            && |dataText| == 2 * |f.data|
            && HexPairs(dataText, 0, |f.data|) == Some(f.data)
  {
    var width := if f.extended then 8 else 3;
    var idText := Format(f.id, 16, true, width);
    var dataText := HexData(f.data);
    DigitsValue(f.id, 16, true);
    ZeroPadValue(Digits(f.id, 16, true), width, 16);
    NotADigit(idText, 16, '#');
    HexDataDigits(f.data);
    NotADigit(dataText, 16, '#');
    SplitOnceAround(idText, dataText, '#');
    ParseFormat(f.id, 16, true, width, U32_MAX);
    HexDataReadsBack(f.data);
  }

  /** Every data frame whose format matches its id's size reads back from its plain argument. */
  lemma CansendRoundTrip(f: CanFrame)
    requires ValidFrame(f) && IsDataFrame(f) && f.timestamp == None
    requires f.extended == (f.id > SFF_MAX)
    ensures ParseCansendFrame(CansendText(f)) == Some(f)
  {
    var text := CansendText(f);
    var dataText := HexData(f.data);
    CansendTextParts(f);
    assert |dataText| / 2 == |f.data|;
    assert forall j :: 0 <= j < |f.data| ==> HexPairAt(dataText, 0, j).Some?;
    assert Acceptable(text);
    var g := ParseCansendFrame(text).value;
    assert Describes(text, g);
    assert g.id == f.id && g.data == f.data;
  }
}
