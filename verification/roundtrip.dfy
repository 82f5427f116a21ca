/** The formatters read back by `get_period`: every relative prefix the
    formatter writes evaluates to the age it encodes, and the short
    postfixes resolve to the period inside the window the century rule
    covers. */
module RoundTrip {

  import opened Results
  import opened Text
  import opened Replace
  import opened Format
  import opened Periods
  import opened Alias
  import opened AliasFacts

  /** A string of step letters and digits is its own upper case and has no
      final newline. */
  lemma PrefixCharsUnchanged(s: string)
    requires forall i :: 0 <= i < |s| ==> IsPrefixChar(s[i])
    ensures CaseModelled(s)
    ensures Upper(s) == s
    ensures StripFinalNewline(s) == s
  {
  }

  lemma AllPrefixChars(step: char, digits: string)
    requires IsStep(step) && AllDigits(digits)
    ensures forall i :: 0 <= i < |[step] + digits| ==> IsPrefixChar(([step] + digits)[i])
  {
  }

  /** A well-formed prefix with an empty postfix reads back as the
      reference year minus its terms. */
  lemma PeriodOfPrefix(a: string, gfyear: int)
    requires CaseModelled(a) && StripFinalNewline(Upper(a)) == a
    requires PrefixShaped(a)
    ensures Period(a, "", gfyear).Ok? && Period(a, "", gfyear).value == gfyear - Grad(Terms(a))
  {
    assert PostfixShaped(StripFinalNewline(""));
    assert ResolvePostfix("", gfyear) == Ok(gfyear);
  }

  /** The same for a well-formed prefix of step letters and digits whose
      terms add up to g. */
  lemma PrefixCharsPeriod(a: string, g: int, gfyear: int)
    requires forall i :: 0 <= i < |a| ==> IsPrefixChar(a[i])
    requires PrefixShaped(a) && Grad(Terms(a)) == g
    ensures CaseModelled(a)
    ensures Period(a, "", gfyear).Ok? && Period(a, "", gfyear).value == gfyear - g
  {
    PrefixCharsUnchanged(a);
    PeriodOfPrefix(a, gfyear);
  }

  /** An empty prefix with a well-formed postfix reads back as the year the
      postfix names. */
  lemma PeriodOfPostfix(x: string, gfyear: int)
    requires PostfixShaped(x)
    ensures Period("", x, gfyear) == ResolvePostfix(x, gfyear)
  {
    assert Upper("") == "";
    assert StripFinalNewline("") == "";
    assert PrefixShaped("");
    assert Terms("") == [] && Grad([]) == 0;
    assert StripFinalNewline(x) == x;
  }

  /** A step letter with a numeric exponent. */
  lemma StepWithExponent(step: char, n: nat)
    requires IsStep(step)
    ensures var a := [step] + NatToString(n);
      && (forall i :: 0 <= i < |a| ==> IsPrefixChar(a[i]))
      && PrefixShaped(a) && Terms(a) == [Term(step, NatToString(n))]
      && Grad(Terms(a)) == Weight(step) * n
  {
    var d := NatToString(n);
    SingleTerm(step, d);
    NatToStringRoundTrip(n);
    AllPrefixChars(step, d);
  }

  /** A step letter alone. */
  lemma BareStep(step: char)
    requires IsStep(step)
    ensures var a := [step];
      && (forall i :: 0 <= i < |a| ==> IsPrefixChar(a[i]))
      && PrefixShaped(a) && Terms(a) == [Term(step, "")]
      && Grad(Terms(a)) == Weight(step)
  {
    assert [step] + "" == [step];
    SingleTerm(step, "");
  }

  /** Two prefixes one after the other add up. */
  lemma PrefixPair(a: string, b: string)
    requires forall i :: 0 <= i < |a| ==> IsPrefixChar(a[i])
    requires forall i :: 0 <= i < |b| ==> IsPrefixChar(b[i])
    requires PrefixShaped(a) && PrefixShaped(b) && b != [] && IsStep(b[0])
    ensures forall i :: 0 <= i < |a + b| ==> IsPrefixChar((a + b)[i])
    ensures PrefixShaped(a + b)
    ensures Grad(Terms(a + b)) == Grad(Terms(a)) + Grad(Terms(b))
  {
    TermsConcat(a, b);
    GradConcat(Terms(a), Terms(b));
  }

  /** The prefix of the more than four periods back: T, the age less three, O. */
  lemma OldAgeValue(age: int)
    requires age > 4
    ensures var a := AgeText(age, false);
      && (forall i :: 0 <= i < |a| ==> IsPrefixChar(a[i]))
      && PrefixShaped(a) && Grad(Terms(a)) == age && IsStep(a[0])
  {
    var d := NatToString(age - 3);
    assert AgeText(age, false) == ['T'] + d + ['O'];
    StepWithExponent('T', age - 3);
    BareStep('O');
    PrefixPair(['T'] + d, ['O']);
  }

  /** The prefix of a future period: K and how many periods ahead. */
  lemma FutureAgeValue(age: int)
    requires age < -1
    ensures var a := AgeText(age, false);
      && (forall i :: 0 <= i < |a| ==> IsPrefixChar(a[i]))
      && PrefixShaped(a) && Grad(Terms(a)) == age
  {
    assert AgeText(age, false) == ['K'] + NatToString(-age);
    StepWithExponent('K', -age);
  }

  /** The table entries K, G, B and O: one step letter. */
  lemma TableStepValue(age: int)
    requires age == -1 || 1 <= age <= 3
    ensures var a := AgeText(age, false);
      && (forall i :: 0 <= i < |a| ==> IsPrefixChar(a[i]))
      && PrefixShaped(a) && Grad(Terms(a)) == age && (age > 0 ==> IsStep(a[0]))
  {
    var step := if age == -1 then 'K' else if age == 1 then 'G' else if age == 2 then 'B' else 'O';
    assert AgeText(age, false) == [step];
    BareStep(step);
  }

  /** The table entry TO, four periods back. */
  lemma TableToValue(age: int)
    requires age == 4
    ensures var a := AgeText(age, false);
      && (forall i :: 0 <= i < |a| ==> IsPrefixChar(a[i]))
      && PrefixShaped(a) && Grad(Terms(a)) == age && IsStep(a[0])
  {
    assert AgeText(age, false) == ['T'] + ['O'];
    TwoSteps('T', 'O');
  }

  /** Two step letters without exponents. */
  lemma TwoSteps(x: char, y: char)
    requires IsStep(x) && IsStep(y)
    ensures var a := [x] + [y];
      && (forall i :: 0 <= i < |a| ==> IsPrefixChar(a[i]))
      && PrefixShaped(a) && Grad(Terms(a)) == Weight(x) + Weight(y)
  {
    BareStep(x);
    BareStep(y);
    PrefixPair([x], [y]);
  }

  /** The table entries K, "", G, B, O and TO. */
  lemma TableAgeValue(age: int)
    requires -1 <= age <= 4
    ensures var a := AgeText(age, false);
      && (forall i :: 0 <= i < |a| ==> IsPrefixChar(a[i]))
      && PrefixShaped(a) && Grad(Terms(a)) == age && (age > 0 ==> IsStep(a[0]))
  {
    if age == 4 {
      TableToValue(age);
    } else if age == 0 {
      assert AgeText(age, false) == [];
    } else {
      TableStepValue(age);
    }
  }

  /** The plain prefix is well formed and its terms add up to the age. */
  lemma AgeTextValue(age: int)
    ensures var a := AgeText(age, false);
      && (forall i :: 0 <= i < |a| ==> IsPrefixChar(a[i]))
      && PrefixShaped(a) && Grad(Terms(a)) == age && (age > 0 ==> IsStep(a[0]))
  {
    if age < -1 {
      FutureAgeValue(age);
    } else if age <= 4 {
      TableAgeValue(age);
    } else {
      OldAgeValue(age);
    }
  }

  /** The plain age text reads back as the period it was written for. */
  lemma AgeTextPeriod(period: int, gfyear: int)
    ensures CaseModelled(AgeText(gfyear - period, false))
    ensures Period(AgeText(gfyear - period, false), "", gfyear).Ok?
    ensures Period(AgeText(gfyear - period, false), "", gfyear).value == period
  {
    var a := AgeText(gfyear - period, false);
    AgeTextValue(gfyear - period);
    PrefixCharsUnchanged(a);
    PeriodOfPrefix(a, gfyear);
  }

  /** `get_period(prefix(("", p), g), "", g) == p` for every period and
      reference year. */
  lemma PrefixRoundTrip(period: int, gfyear: int)
    ensures Prefix(Title("", period), gfyear, PrefixTypeNormal).Ok?
    ensures var text := Prefix(Title("", period), gfyear, PrefixTypeNormal).value;
      CaseModelled(text) && Period(text, "", gfyear).Ok? && Period(text, "", gfyear).value == period
  {
    PlainPrefixValue(period, gfyear);
    AgeTextPeriod(period, gfyear);
  }

  /** The plain prefix of a title with no root is the age text. */
  lemma PlainPrefixValue(period: int, gfyear: int)
    ensures Prefix(Title("", period), gfyear, PrefixTypeNormal) == Ok(AgeText(gfyear - period, false))
  {
    FunnyUntouched("");
    assert AgeText(gfyear - period, false) + "" == AgeText(gfyear - period, false);
  }

  /** K before the age text of a past period: one period fewer. */
  lemma KAgeTextValue(age: int)
    requires age >= 1
    ensures var text := "K" + AgeText(age, false);
      && (forall i :: 0 <= i < |text| ==> IsPrefixChar(text[i]))
      && PrefixShaped(text) && Grad(Terms(text)) == age - 1
  {
    var a := AgeText(age, false);
    AgeTextValue(age);
    BareStep('K');
    PrefixPair("K", a);
  }

  /** K before the age text of the period after reads back as the period. */
  lemma KAgeTextPeriod(period: int, gfyear: int)
    requires gfyear - period >= 0
    ensures CaseModelled("K" + AgeText(gfyear - (period - 1), false))
    ensures Period("K" + AgeText(gfyear - (period - 1), false), "", gfyear).Ok?
    ensures Period("K" + AgeText(gfyear - (period - 1), false), "", gfyear).value == period
  {
    var text := "K" + AgeText(gfyear - (period - 1), false);
    KAgeTextValue(gfyear - period + 1);
    PrefixCharsPeriod(text, gfyear - period, gfyear);
  }

  /** The same for kprefix: its leading K and the shifted period cancel. */
  lemma KPrefixRoundTrip(period: int, gfyear: int)
    ensures KPrefix(Title("", period), gfyear, PrefixTypeNormal).Ok?
    ensures var text := KPrefix(Title("", period), gfyear, PrefixTypeNormal).value;
      CaseModelled(text) && Period(text, "", gfyear).Ok? && Period(text, "", gfyear).value == period
  {
    KPrefixCases(Title("", period), gfyear, PrefixTypeNormal);
    if gfyear - period <= -1 {
      PrefixRoundTrip(period, gfyear);
    } else {
      PlainPrefixValue(period - 1, gfyear);
      assert KPrefix(Title("", period), gfyear, PrefixTypeNormal) == Ok("K" + AgeText(gfyear - (period - 1), false));
      KAgeTextPeriod(period, gfyear);
    }
  }

  /** A two-digit postfix with an empty prefix: the century rule. */
  lemma TwoDigitPeriod(y: nat, gfyear: int)
    requires y < 100
    ensures Period("", Pad2(y), gfyear) == Ok(Century(y))
  {
    ResolveTwoDigits(y, gfyear);
    PeriodOfPostfix(Pad2(y), gfyear);
  }

  /** A single postfix names its period for the years 1957 .. 2056. */
  lemma PostfixSingleRoundTrip(period: int, gfyear: int)
    requires 1957 <= period <= 2056
    ensures Postfix(Title("", period), gfyear, PostfixTypeSingle).Ok?
    ensures Period("", Postfix(Title("", period), gfyear, PostfixTypeSingle).value, gfyear) == Ok(period)
  {
    var y := period % 100;
    assert Postfix(Title("", period), gfyear, PostfixTypeSingle).Ok? && Postfix(Title("", period), gfyear, PostfixTypeSingle).value == Pad2(y) by {
      PostfixCases(Title("", period), gfyear, gfyear);
      FunnyUntouched("");
      assert "" + Pad2(y) == Pad2(y);
    }
    TwoDigitPeriod(y, gfyear);
  }

  /** A four-digit postfix with an empty prefix, by the source's checks. */
  lemma FourDigitPeriod(a: nat, b: nat, gfyear: int)
    requires a < 100 && b < 100
    ensures var r := Period("", Pad2(a) + Pad2(b), gfyear);
      if a == 20 && b == 21 then r == Err(NotImplementedError)
      else if (a + 1) % 100 == b then r.Ok? && r.value == Century(a)
      else if a == 19 || a == 20 then r.Ok? && r.value == 100 * a + b
      else r == Err(ValueError)
  {
    ResolveFourDigits(a, b, gfyear);
    PeriodOfPostfix(Pad2(a) + Pad2(b), gfyear);
  }

  /** The last two digits of a year of 1957 .. 2056 and of the next year:
      consecutive modulo 100, and read back by the century rule. */
  lemma ConsecutiveYears(period: int)
    requires 1957 <= period <= 2056
    ensures var a, b := period % 100, (period + 1) % 100;
      && (a + 1) % 100 == b && Century(a) == period
      && (a == 20 && b == 21 <==> period == 2020)
  {
    var a, b := period % 100, (period + 1) % 100;
    if period < 1999 {
      assert a == period - 1900 && b == a + 1;
    } else if period == 1999 {
      assert a == 99 && b == 0;
    } else {
      assert a == period - 2000 && b == a + 1;
    }
  }

  /** A double postfix names its period for the years 1957 .. 2056, except
      2020, whose postfix 2021 the source refuses. */
  lemma PostfixDoubleRoundTrip(period: int, gfyear: int)
    requires 1957 <= period <= 2056
    ensures Postfix(Title("", period), gfyear, PostfixTypeDouble).Ok?
    ensures var text := Postfix(Title("", period), gfyear, PostfixTypeDouble).value;
      if period == 2020 then Period("", text, gfyear) == Err(NotImplementedError)
      else Period("", text, gfyear).Ok? && Period("", text, gfyear).value == period
  {
    var a, b := period % 100, (period + 1) % 100;
    assert Postfix(Title("", period), gfyear, PostfixTypeDouble).Ok? && Postfix(Title("", period), gfyear, PostfixTypeDouble).value == Pad2(a) + Pad2(b) by {
      PostfixCases(Title("", period), gfyear, gfyear);
      FunnyUntouched("");
      assert "" + Pad2(a) + Pad2(b) == Pad2(a) + Pad2(b);
    }
    ConsecutiveYears(period);
    FourDigitPeriod(a, b, gfyear);
  }

  /** A four-digit postfix names its year for 1900 .. 2099, except 1920,
      which reads as the double postfix 19/20 and gives 2019, and 2021,
      which the source refuses. */
  lemma PostfixLongSingleRoundTrip(period: int, gfyear: int)
    requires 1900 <= period <= 2099
    ensures Postfix(Title("", period), gfyear, PostfixTypeLongSingle).Ok?
    ensures Period("", Postfix(Title("", period), gfyear, PostfixTypeLongSingle).value, gfyear) ==
      if period == 2021 then Err(NotImplementedError)
      else if period == 1920 then Ok(2019)
      else Ok(period)
  {
    var a, b := period / 100, period % 100;
    assert Postfix(Title("", period), gfyear, PostfixTypeLongSingle).Ok? && Postfix(Title("", period), gfyear, PostfixTypeLongSingle).value == Pad2(a) + Pad2(b) by {
      PostfixCases(Title("", period), gfyear, gfyear);
      FunnyUntouched("");
      FourDigitNumeral(period);
      assert "" + NatToString(period) == Pad2(a) + Pad2(b);
    }
    assert a == if period < 2000 then 19 else 20;
    assert b == period - 100 * a;
    FourDigitPeriod(a, b, gfyear);
  }

  /** The slash forms are not read back: `get_period` accepts digits only. */
  lemma PostfixSlashNotReadBack(period: int, gfyear: int)
    requires IsFourDigitYear(period)
    ensures Postfix(Title("", period), gfyear, PostfixTypeSlash).Ok?
    ensures Period("", Postfix(Title("", period), gfyear, PostfixTypeSlash).value, gfyear) == Err(ValueError)
  {
    PostfixCases(Title("", period), gfyear, gfyear);
    FunnyUntouched("");
    var text := Postfix(Title("", period), gfyear, PostfixTypeSlash).value;
    assert text[2] == '/';
    assert !PostfixShaped(StripFinalNewline(text));
    assert StripFinalNewline(Upper("")) == "";
  }

  /** Every relative prefix the formatter writes is a run a `pre` group of
      `parse_bestfu_alias` can be. */
  lemma AgeTextIsPre(age: int)
    ensures PreShaped(AgeText(age, false))
  {
    AgeTextValue(age);
    var a := AgeText(age, false);
    if age < -1 {
      assert a == ['K'] + NatToString(-age);
    } else if age <= 0 {
      assert a == AgeTable[age + 1];
    }
  }

  /** A string of at most four characters other than KASS has no KASS. */
  lemma ShortNoKass(s: string)
    requires |s| <= 4 && s != "KASS"
    ensures NoKass(s)
  {
    forall i | 0 <= i < |s| ensures !StartsWith(s[i..], "KASS") {
      assert i == 0 ==> s[i..] == s;
    }
  }

  /** A string of ASCII capitals is its own upper case. */
  lemma CapitalsUnchanged(s: string)
    requires forall i :: 0 <= i < |s| ==> 'A' <= s[i] <= 'Z'
    ensures CaseModelled(s) && Upper(s) == s
  {
  }

  /** The BEST roots are ASCII capitals, and only KASS starts with a step
      letter. */
  lemma BestRootText(root: string)
    requires root in BestRoots
    ensures CaseModelled(root) && Upper(root) == root && |root| <= 4
    ensures root != "KASS" ==> !IsPrefixChar(root[0])
  {
    CapitalsUnchanged(root);
  }

  /** Two strings that are their own upper case make one. */
  lemma UnchangedConcat(a: string, b: string)
    requires CaseModelled(a) && Upper(a) == a && CaseModelled(b) && Upper(b) == b
    ensures CaseModelled(a + b) && Upper(a + b) == a + b
  {
    var t := a + b;
    forall i | 0 <= i < |t| ensures CaseModelledChar(t[i]) && Upper(t)[i] == t[i] {
      if i < |a| {
        assert t[i] == a[i] && UpperChar(a[i]) == Upper(a)[i];
      } else {
        assert t[i] == b[i - |a|] && UpperChar(b[i - |a|]) == Upper(b)[i - |a|];
      }
    }
  }

  /** The prefix of a BEST title other than KASS is the age text and the
      root as it stands. */
  lemma BestPrefixValue(root: string, period: int, gfyear: int)
    requires root in BestRoots && root != "KASS"
    ensures Prefix(Title(root, period), gfyear, PrefixTypeNormal) == Ok(AgeText(gfyear - period, false) + root)
  {
    BestRootText(root);
    ShortNoKass(root);
    FunnyUntouched(root);
  }

  /** That prefix is its own upper case. */
  lemma BestPrefixText(root: string, period: int, gfyear: int)
    requires root in BestRoots
    ensures CaseModelled(AgeText(gfyear - period, false) + root)
    ensures Upper(AgeText(gfyear - period, false) + root) == AgeText(gfyear - period, false) + root
  {
    var a := AgeText(gfyear - period, false);
    BestRootText(root);
    AgeTextValue(gfyear - period);
    PrefixCharsUnchanged(a);
    UnchangedConcat(a, root);
  }

  /** Read back, the age text is the `pre` group and gives the period. */
  lemma BestPrefixResolved(root: string, period: int, gfyear: int)
    requires root in BestRoots
    ensures var a := AgeText(gfyear - period, false);
      && Matches(Cut(Best, |a|, root, 0, 0), a + root)
      && Resolve(Cut(Best, |a|, root, 0, 0), a + root, gfyear) == Ok(("BEST", root, period))
  {
    var a := AgeText(gfyear - period, false);
    var c := Cut(Best, |a|, root, 0, 0);
    AgeTextIsPre(gfyear - period);
    BestCutGroups(a, root);
    AgeTextPeriod(period, gfyear);
    assert GroupsPeriod(c, a + root, gfyear) == Ok(period);
  }

  /** `parse_bestfu_alias(prefix((root, p), g), g) == ('BEST', root, p)` for
      every BEST root but KASS, whose prefix is written with KA$$. */
  lemma BestPrefixParses(root: string, period: int, gfyear: int)
    requires root in BestRoots && root != "KASS"
    ensures Prefix(Title(root, period), gfyear, PrefixTypeNormal).Ok?
    ensures var text := Prefix(Title(root, period), gfyear, PrefixTypeNormal).value;
      CaseModelled(text) && BestFuAlias(text, gfyear) == Ok(("BEST", root, period))
  {
    var a := AgeText(gfyear - period, false);
    BestPrefixValue(root, period, gfyear);
    BestPrefixText(root, period, gfyear);
    BestRootText(root);
    AgeTextIsPre(gfyear - period);
    BestAfterPre(a, root);
    BestPrefixResolved(root, period, gfyear);
  }

  /** A BEST root other than KASS after a run of step letters and digits
      that reads as a period: the parse takes the run as the `pre` group and
      returns the root with that period. */
  lemma BestPreParses(a: string, root: string, period: int, gfyear: int)
    requires forall i :: 0 <= i < |a| ==> IsPrefixChar(a[i])
    requires PreShaped(a) && CaseModelled(a)
    requires Period(a, "", gfyear).Ok? && Period(a, "", gfyear).value == period
    requires root in BestRoots && root != "KASS"
    ensures CaseModelled(a + root) && BestFuAlias(a + root, gfyear) == Ok(("BEST", root, period))
  {
    var c := Cut(Best, |a|, root, 0, 0);
    BestRootText(root);
    PrefixCharsUnchanged(a);
    UnchangedConcat(a, root);
    BestAfterPre(a, root);
    BestCutGroups(a, root);
    assert GroupsPeriod(c, a + root, gfyear) == Ok(period);
  }

  /** K before the age text of the period after is a `pre` run. */
  lemma KAgeTextPre(period: int, gfyear: int)
    requires gfyear - period >= 0
    ensures var a := "K" + AgeText(gfyear - (period - 1), false);
      (forall i :: 0 <= i < |a| ==> IsPrefixChar(a[i])) && PreShaped(a)
  {
    KAgeTextValue(gfyear - period + 1);
  }

  /** The kprefix of a BEST title other than KASS that is not in the future:
      K, the age text of the period before, then the root. */
  lemma KPrefixBestText(root: string, period: int, gfyear: int)
    requires root in BestRoots && root != "KASS" && gfyear - period >= 0
    ensures KPrefix(Title(root, period), gfyear, PrefixTypeNormal) ==
      Ok(("K" + AgeText(gfyear - (period - 1), false)) + root)
  {
    KPrefixCases(Title(root, period), gfyear, PrefixTypeNormal);
    BestPrefixValue(root, period - 1, gfyear);
    var a := AgeText(gfyear - (period - 1), false);
    assert "K" + (a + root) == ("K" + a) + root;
  }

  /** `parse_bestfu_alias(kprefix((root, p), g), g) == ('BEST', root, p)` for
      every BEST root but KASS: the parse takes the leading K into the `pre`
      group, where it cancels the shifted period. */
  lemma KPrefixBestParses(root: string, period: int, gfyear: int)
    requires root in BestRoots && root != "KASS"
    ensures KPrefix(Title(root, period), gfyear, PrefixTypeNormal).Ok?
    ensures var text := KPrefix(Title(root, period), gfyear, PrefixTypeNormal).value;
      CaseModelled(text) && BestFuAlias(text, gfyear) == Ok(("BEST", root, period))
  {
    KPrefixCases(Title(root, period), gfyear, PrefixTypeNormal);
    if gfyear - period <= -1 {
      BestPrefixParses(root, period, gfyear);
    } else {
      var a := "K" + AgeText(gfyear - (period - 1), false);
      KPrefixBestText(root, period, gfyear);
      KAgeTextPre(period, gfyear);
      KAgeTextPeriod(period, gfyear);
      BestPreParses(a, root, period, gfyear);
    }
  }
}
