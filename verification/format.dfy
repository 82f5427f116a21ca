/** The formatters of tktitler.py: a title rendered with a relative prefix
    (`prefix`, `kprefix`), an absolute postfix (`postfix`) or as an e-mail
    local part (`email`). The source's `type` selectors are strings, so an
    unknown one is a ValueError, as in the source. */
module Format {

  import opened Results
  import opened Text
  import opened Replace

  /** A title: the root name and the period (year) of its holder. */
  datatype Title = Title(root: string, period: int)

  const PrefixTypeNormal := "normal"
  const PrefixTypeUnicode := "unicode"

  const PostfixTypeSingle := "single"
  const PostfixTypeDouble := "double"
  const PostfixTypeSlash := "slash"
  const PostfixTypeLongSingle := "longsingle"
  const PostfixTypeLongSlash := "longslash"

  const EmailTypePostfix := "postfix"
  const EmailTypePrefix := "prefix"

  const Superscripts := "⁰¹²³⁴⁵⁶⁷⁸⁹"

  /** `unicode_superscript`: each decimal digit as its superscript glyph. */
  function Superscript(digits: string): (r: string)
    requires AllDigits(digits)
    ensures |r| == |digits|
  {
    seq(|digits|, i requires 0 <= i < |digits| => Superscripts[DigitValue(digits[i])])
  }

  /** The digits of an exponent, as `sup_fn` renders them. */
  function Exponent(n: nat, unicode: bool): string {
    if unicode then Superscript(NatToString(n)) else NatToString(n)
  }

  const AgeTable: seq<string> := ["K", "", "G", "B", "O", "TO"]

  /** The relative prefix for `age = gfyear - period`. */
  function AgeText(age: int, unicode: bool): string {
    if age < -1 then "K" + Exponent(-age, unicode)
    else if age + 1 < |AgeTable| then AgeTable[age + 1]
    else "T" + Exponent(age - 3, unicode) + "O"
  }

  predicate IsPrefixType(style: string) {
    style == PrefixTypeNormal || style == PrefixTypeUnicode
  }

  /** `prefix(titletupel, gfyear, type)`. */
  function Prefix(t: Title, gfyear: int, style: string): (r: Result<string>)
    ensures r.Err? <==> !IsPrefixType(style)
    ensures r.Err? ==> r.error == ValueError
  {
    var root := FunnySubstitute(t.root);
    var age := gfyear - t.period;
    if !IsPrefixType(style) then Err(ValueError)
    else Ok(AgeText(age, style == PrefixTypeUnicode) + root)
  }

  /** `kprefix`: a title that is not yet in the future is written as K
      followed by the prefix of the period before, so that the K (one period
      ahead) and the shifted period cancel. The result always starts with K. */
  function KPrefix(t: Title, gfyear: int, style: string): (r: Result<string>)
    ensures r.Err? <==> !IsPrefixType(style)
    ensures r.Ok? ==> |r.value| >= 1 && r.value[0] == 'K'
  {
    if gfyear - t.period <= -1 then Prefix(t, gfyear, style)
    else match Prefix(Title(t.root, t.period - 1), gfyear, style)
      case Ok(s) => Ok("K" + s)
      case Err(e) => Err(e)
  }

  /** The five postfix renderings, after the period has been checked. */
  function PostfixText(root: string, period: int, style: string): Result<string> {
    var p, q := IntToString(period), IntToString(period + 1);
    if style == PostfixTypeSingle then Ok(root + Slice(p, 2, 4))
    else if style == PostfixTypeDouble then Ok(root + Slice(p, 2, 4) + Slice(q, 2, 4))
    else if style == PostfixTypeSlash then Ok(root + Slice(p, 2, 4) + "/" + Slice(q, 2, 4))
    else if style == PostfixTypeLongSingle then Ok(root + p)
    else if style == PostfixTypeLongSlash then Ok(root + p + "/" + q)
    else Err(ValueError)
  }

  predicate IsPostfixType(style: string) {
    style in {PostfixTypeSingle, PostfixTypeDouble, PostfixTypeSlash,
              PostfixTypeLongSingle, PostfixTypeLongSlash}
  }

  /** The period check the source means: a four-digit calendar year. */
  predicate IsFourDigitYear(period: int) {
    1000 <= period <= 9999
  }

  /** `postfix` as written: the check `len(str(period)) == 4` also lets
      -999 .. -100 through. */
  function PostfixAsWritten(t: Title, gfyear: int, style: string): Result<string> {
    if |IntToString(t.period)| != 4 then Err(ValueError)
    else PostfixText(FunnySubstitute(t.root), t.period, style)
  }

  /** `postfix` with the period check on four-digit years. */
  function Postfix(t: Title, gfyear: int, style: string): (r: Result<string>)
    ensures r.Err? <==> !IsFourDigitYear(t.period) || !IsPostfixType(style)
    ensures r.Err? ==> r.error == ValueError
  {
    if !IsFourDigitYear(t.period) then Err(ValueError)
    else PostfixText(FunnySubstitute(t.root), t.period, style)
  }

  predicate IsEmailType(style: string) {
    style == EmailTypePostfix || style == EmailTypePrefix
  }

  function EmailText(t: Title, gfyear: int, style: string): Result<string> {
    var root := EmailRoot(t.root);
    if style == EmailTypePostfix then Ok(root + Slice(IntToString(t.period), 2, 4))
    else if style == EmailTypePrefix then
      Ok(Prefix(Title("", t.period), gfyear, PrefixTypeNormal).value + root)
    else Err(ValueError)
  }

  /** `email` as written, with the same `len(str(period)) == 4` check. */
  function EmailAsWritten(t: Title, gfyear: int, style: string): Result<string> {
    if |IntToString(t.period)| != 4 then Err(ValueError) else EmailText(t, gfyear, style)
  }

  /** `email` with the period check on four-digit years. */
  function Email(t: Title, gfyear: int, style: string): (r: Result<string>)
    ensures r.Err? <==> !IsFourDigitYear(t.period) || !IsEmailType(style)
    ensures r.Err? ==> r.error == ValueError
  {
    if !IsFourDigitYear(t.period) then Err(ValueError) else EmailText(t, gfyear, style)
  }

  // ---------------------------------------------------------------------
  // Properties of the formatters

  /** Replaces each ASCII digit by its superscript glyph. */
  function Superscripted(s: string): (r: string)
    ensures |r| == |s|
  {
    seq(|s|, i requires 0 <= i < |s| => if IsDigit(s[i]) then Superscripts[DigitValue(s[i])] else s[i])
  }

  lemma SuperscriptedConcat(a: string, b: string)
    ensures Superscripted(a + b) == Superscripted(a) + Superscripted(b)
  {
  }

  /** The Unicode prefix is the plain one with its digits superscripted;
      the root is not touched. */
  lemma PrefixUnicodeIsSuperscripted(t: Title, gfyear: int)
    ensures Prefix(t, gfyear, PrefixTypeUnicode).Ok?
    ensures Prefix(t, gfyear, PrefixTypeUnicode).value ==
      Superscripted(AgeText(gfyear - t.period, false)) + FunnySubstitute(t.root)
  {
    var age := gfyear - t.period;
    if age < -1 {
      SuperscriptedConcat("K", NatToString(-age));
      assert Superscripted("K") == "K";
    } else if age > 4 {
      SuperscriptedConcat("T", NatToString(age - 3));
      SuperscriptedConcat("T" + NatToString(age - 3), "O");
      assert Superscripted("T") == "T";
      assert Superscripted("O") == "O";
    } else {
      assert Superscripted(AgeTable[age + 1]) == AgeTable[age + 1];
    }
  }

  /** kprefix equals prefix for the future titles and is K followed by the
      prefix of the period before otherwise. */
  lemma KPrefixCases(t: Title, gfyear: int, style: string)
    requires IsPrefixType(style)
    ensures gfyear - t.period <= -1 ==> KPrefix(t, gfyear, style) == Prefix(t, gfyear, style)
    ensures gfyear - t.period > -1 ==>
      KPrefix(t, gfyear, style) == Ok("K" + Prefix(Title(t.root, t.period - 1), gfyear, style).value)
  {
  }

  /** The five postfixes of a four-digit year, in terms of its digits. The
      reference year is never read. */
  lemma PostfixCases(t: Title, gfyear: int, otherGfyear: int)
    requires IsFourDigitYear(t.period)
    ensures var p, root := t.period, FunnySubstitute(t.root);
      && Postfix(t, gfyear, PostfixTypeSingle) == Ok(root + Pad2(p % 100))
      && Postfix(t, gfyear, PostfixTypeDouble) == Ok(root + Pad2(p % 100) + Pad2((p + 1) % 100))
      && Postfix(t, gfyear, PostfixTypeSlash) == Ok(root + Pad2(p % 100) + "/" + Pad2((p + 1) % 100))
      && Postfix(t, gfyear, PostfixTypeLongSingle) == Ok(root + NatToString(p))
      && Postfix(t, gfyear, PostfixTypeLongSlash) == Ok(root + NatToString(p) + "/" + NatToString(p + 1))
    ensures forall style :: Postfix(t, gfyear, style) == Postfix(t, otherGfyear, style)
  {
    YearSlices(t.period);
  }

  /** On non-negative periods the corrected check agrees with the source's. */
  lemma PostfixMatchesAsWritten(t: Title, gfyear: int, style: string)
    requires t.period >= 0
    ensures Postfix(t, gfyear, style) == PostfixAsWritten(t, gfyear, style)
  {
    IntToStringLength4(t.period);
  }

  /** The source's check lets the negative period -123 through and renders
      it with the digits after the minus sign. */
  lemma PostfixAsWrittenAcceptsNegative()
    ensures PostfixAsWritten(Title("CERM", -123), 2016, PostfixTypeSingle) == Ok("CERM23")
    ensures Postfix(Title("CERM", -123), 2016, PostfixTypeSingle) == Err(ValueError)
  {
    IntToStringLength4(-123);
    NegativeYearSlice(-123);
    NoKassWithoutK("CERM");
    FunnyUntouched("CERM");
    assert Pad2(23) == "23";
    var t := Title("CERM", -123);
    assert |IntToString(t.period)| == 4;
    assert PostfixAsWritten(t, 2016, PostfixTypeSingle) == PostfixText("CERM", -123, PostfixTypeSingle);
    assert PostfixText("CERM", -123, PostfixTypeSingle) == Ok("CERM" + Slice(IntToString(-123), 2, 4));
    assert "CERM" + "23" == "CERM23";
  }

  lemma EmailMatchesAsWritten(t: Title, gfyear: int, style: string)
    requires t.period >= 0
    ensures Email(t, gfyear, style) == EmailAsWritten(t, gfyear, style)
  {
    IntToStringLength4(t.period);
  }

  /** The same check in `email` lets -123 through for every root. */
  lemma EmailAsWrittenAcceptsNegative(root: string)
    ensures EmailAsWritten(Title(root, -123), 2016, EmailTypePostfix) == Ok(EmailRoot(root) + "23")
    ensures Email(Title(root, -123), 2016, EmailTypePostfix) == Err(ValueError)
  {
    IntToStringLength4(-123);
    NegativeYearSlice(-123);
    assert Pad2(23) == "23";
  }

  /** The two e-mail forms: the digraph-spelled root with the year of the
      century after it, or with the plain prefix (for an empty root) before
      it. */
  lemma EmailCases(t: Title, gfyear: int)
    requires IsFourDigitYear(t.period)
    ensures Email(t, gfyear, EmailTypePostfix) == Ok(EmailRoot(t.root) + Pad2(t.period % 100))
    ensures Email(t, gfyear, EmailTypePrefix) ==
      Ok(AgeText(gfyear - t.period, false) + EmailRoot(t.root))
  {
    YearSlices(t.period);
    FunnyUntouched("");
    var a := AgeText(gfyear - t.period, false);
    assert Prefix(Title("", t.period), gfyear, PrefixTypeNormal) == Ok(a + "");
    assert a + "" == a;
  }

  lemma AgeTextHasNoNative(age: int)
    ensures forall i :: 0 <= i < |AgeText(age, false)| ==> !IsNative(AgeText(age, false)[i])
  {
    var a := AgeText(age, false);
    if age < -1 {
      assert a == "K" + NatToString(-age);
    } else if age > 4 {
      assert a == "T" + NatToString(age - 3) + "O";
    } else {
      assert a == AgeTable[age + 1];
    }
  }

  /** No e-mail form contains æ, ø, å, Æ, Ø or Å. */
  lemma EmailHasNoNative(t: Title, gfyear: int, style: string)
    requires Email(t, gfyear, style).Ok?
    ensures forall i :: 0 <= i < |Email(t, gfyear, style).value| ==>
      !IsNative(Email(t, gfyear, style).value[i])
  {
    EmailCases(t, gfyear);
    EmailRootHasNoNative(t.root);
    AgeTextHasNoNative(gfyear - t.period);
    var pad := Pad2(t.period % 100);
    assert forall i :: 0 <= i < |pad| ==> !IsNative(pad[i]);
  }
}
