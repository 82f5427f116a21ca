/** The examples in the docstrings of `get_period` and
    `parse_bestfu_alias`, as the model evaluates them. */
module Doctests {

  import opened Results
  import opened Text
  import opened Replace
  import opened Format
  import opened Periods
  import opened RoundTrip
  import opened Alias
  import opened AliasFacts

  lemma EmptyIsReferenceYear()
    ensures Period("", "", 2016).Ok? && Period("", "", 2016).value == 2016
  {
    assert StripFinalNewline(Upper("")) == "";
    assert PostfixShaped(StripFinalNewline(""));
  }

  lemma BestIsTwoBack()
    ensures Period("B", "", 2016).Ok? && Period("B", "", 2016).value == 2014
  {
    assert Upper("B") == "B";
    assert StripFinalNewline("B") == ['B'] + "";
    SingleTerm('B', "");
    assert PostfixShaped(StripFinalNewline(""));
  }

  /** T30 reads as T with exponent 30, thirty periods back; the docstring
      gives 2010 for it, which is the value of T3O. */
  lemma T30IsThirtyBack()
    ensures Period("T30", "", 2016).Ok? && Period("T30", "", 2016).value == 1986
  {
    assert Upper("T30") == "T30";
    assert StripFinalNewline("T30") == ['T'] + "30";
    SingleTerm('T', "30");
    assert DigitsValue("30") == 30 by {
      assert "30"[..1] == "3";
      assert "3"[..0] == "";
    }
    assert PostfixShaped(StripFinalNewline(""));
  }

  /** Two terms one after the other, with an empty postfix. */
  lemma TwoTermPeriod(x: char, dx: string, y: char, dy: string, gfyear: int)
    requires IsStep(x) && IsStep(y) && AllDigits(dx) && AllDigits(dy)
    ensures var s := ([x] + dx) + ([y] + dy);
      && CaseModelled(s) && Period(s, "", gfyear).Ok?
      && Period(s, "", gfyear).value == gfyear - TermValue(Term(x, dx)) - TermValue(Term(y, dy))
  {
    var a, b := [x] + dx, [y] + dy;
    SingleTerm(x, dx);
    SingleTerm(y, dy);
    AllPrefixChars(x, dx);
    AllPrefixChars(y, dy);
    PrefixPair(a, b);
    PrefixCharsPeriod(a + b, TermValue(Term(x, dx)) + TermValue(Term(y, dy)), gfyear);
  }

  /** T3O: T with exponent 3 and O, three periods back each. */
  lemma T3OIsSixBack()
    ensures Period("T3O", "", 2016).Ok? && Period("T3O", "", 2016).value == 2010
  {
    assert "T3O" == (['T'] + "3") + (['O'] + "");
    assert TermValue(Term('T', "3")) == 3 && TermValue(Term('O', "")) == 3 by {
      assert "3"[..0] == "";
    }
    TwoTermPeriod('T', "3", 'O', "", 2016);
  }

  lemma G2B2IsSixBack()
    ensures Period("G2B2", "", 2016).Ok? && Period("G2B2", "", 2016).value == 2010
  {
    assert "G2B2" == (['G'] + "2") + (['B'] + "2");
    assert DigitsValue("2") == 2 by {
      assert "2"[..0] == "";
    }
    assert TermValue(Term('G', "2")) == 2 && TermValue(Term('B', "2")) == 4;
    TwoTermPeriod('G', "2", 'B', "2", 2016);
  }

  lemma LiteralYear()
    ensures Period("", "2010", 2016).Ok? && Period("", "2010", 2016).value == 2010
  {
    assert Pad2(20) + Pad2(10) == "2010";
    ResolveFourDigits(20, 10, 2016);
    PeriodOfPostfix("2010", 2016);
  }

  lemma TwoDigitYear()
    ensures Period("", "10", 2017).Ok? && Period("", "10", 2017).value == 2010
  {
    assert Pad2(10) == "10";
    ResolveTwoDigits(10, 2017);
    PeriodOfPostfix("10", 2017);
  }

  lemma DoubleYear()
    ensures Period("", "1011", 2018).Ok? && Period("", "1011", 2018).value == 2010
  {
    assert Pad2(10) + Pad2(11) == "1011";
    ResolveFourDigits(10, 11, 2018);
    PeriodOfPostfix("1011", 2018);
  }

  /** Prefix and postfix together: O counts three back from 2016. */
  lemma PrefixAndPostfix()
    ensures Period("O", "2016", 2030).Ok? && Period("O", "2016", 2030).value == 2013
  {
    assert Upper("O") == "O";
    assert StripFinalNewline("O") == ['O'] + "";
    SingleTerm('O', "");
    assert Pad2(20) + Pad2(16) == "2016";
    ResolveFourDigits(20, 16, 2030);
    assert StripFinalNewline("2016") == "2016";
  }

  /** 2021 as a postfix is refused. */
  lemma Postfix2021Refused()
    ensures Period("", "2021", 2016) == Err(NotImplementedError)
  {
    assert Pad2(20) + Pad2(21) == "2021";
    ResolveFourDigits(20, 21, 2016);
    PeriodOfPostfix("2021", 2016);
  }

  /** 56 is read as 2056, 57 as 1957. */
  lemma CenturyBoundary()
    ensures Period("", "56", 2016).Ok? && Period("", "56", 2016).value == 2056
    ensures Period("", "57", 2016).Ok? && Period("", "57", 2016).value == 1957
  {
    assert Pad2(56) == "56" && Pad2(57) == "57";
    ResolveTwoDigits(56, 2016);
    ResolveTwoDigits(57, 2016);
    PeriodOfPostfix("56", 2016);
    PeriodOfPostfix("57", 2016);
  }

  lemma OIsThreeBack()
    ensures Period("O", "", 2016) == Ok(2013)
  {
    assert Upper("O") == "O";
    assert StripFinalNewline("O") == ['O'] + "";
    SingleTerm('O', "");
    assert PostfixShaped(StripFinalNewline(""));
  }

  /** O is the longest `pre` group OFORM allows: F is no step letter. */
  lemma OformPreBound(m: Cut)
    requires Matches(m, "OFORM")
    ensures m.pre <= 1
  {
  }

  /** After the O, FORM is the only BEST root. */
  lemma OformBestCut(m: Cut)
    requires Matches(m, "OFORM") && m.pattern == Best && m.pre == 1
    ensures m == Cut(Best, 1, "FORM", 0, 0)
  {
    var s := "OFORM";
    var c := Cut(Best, 1, "FORM", 0, 0);
    assert s[1..5] == "FORM" && s[..1] == "O";
    assert Matches(c, s);
    BestDetermined(s, m, c);
  }

  /** The match taken on OFORM: the BEST pattern with O as `pre` group. */
  lemma OformCut(s: string)
    requires s == "OFORM"
    ensures FirstMatch(s, TitlePatterns) == Some(Cut(Best, 1, "FORM", 0, 0))
  {
    var c := Cut(Best, 1, "FORM", 0, 0);
    assert s[1..5] == "FORM" && s[..1] == "O";
    assert Matches(c, s);
    BestFirst(s);
    var m := FirstMatch(s, TitlePatterns).value;
    LongestPre(s, TitlePatterns, c);
    OformPreBound(m);
    OformBestCut(m);
  }

  /** The triple for that match: O counts three years back. */
  lemma OformResolved()
    ensures Matches(Cut(Best, 1, "FORM", 0, 0), "OFORM")
    ensures Resolve(Cut(Best, 1, "FORM", 0, 0), "OFORM", 2016) == Ok(("BEST", "FORM", 2013))
  {
    var s := "OFORM";
    var c := Cut(Best, 1, "FORM", 0, 0);
    assert s[1..5] == "FORM" && s[..1] == "O";
    assert PreText(c, s) == "O" && PostText(c, s) == "";
    OIsThreeBack();
  }

  /** `parse_bestfu_alias('OFORM', 2016)`. */
  lemma OformIsBestForm()
    ensures BestFuAlias("OFORM", 2016) == Ok(("BEST", "FORM", 2013))
  {
    assert Upper("OFORM") == "OFORM";
    OformCut("OFORM");
    OformResolved();
  }

  /** FUAAA has no `pre` group, and no BEST root starts with FU. */
  lemma FuaaaShape(s: string, c: Cut)
    requires s == "FUAAA" && Matches(c, s)
    ensures c.pre == 0 && c.pattern == Fu
  {
  }

  /** EFU does not occur at the start of FUAAA. */
  lemma FuaaaNoEfu(s: string, c: Cut)
    requires s == "FUAAA" && c.stem == "EFU" && c.pre == 0
    ensures !Hits(c, s)
  {
    assert s[0..3][0] == 'F';
  }

  /** FU, A, A leaves an A that no `post` group can be. */
  lemma FuaaaShortLetters(s: string, c: Cut)
    requires s == "FUAAA" && Matches(c, s) && c.stem == "FU" && c.pre == 0
    ensures c.letter1 == 2 || c.letter2 == 2
  {
  }

  /** No match of FUAAA comes before FU, A, AA in the order the matcher
      tries them. */
  lemma FuaaaNoneBefore(s: string, m: Cut)
    requires s == "FUAAA" && Matches(m, s)
    ensures !Precedes(m, Cut(Fu, 0, "FU", 1, 2))
  {
    FuaaaShape(s, m);
    if m.stem == "EFU" {
      FuaaaNoEfu(s, m);
    } else {
      FuaaaShortLetters(s, m);
    }
  }

  /** FUAAA cuts as FU, A, AA or as FU, AA, A; the matcher tries the short
      first letter first and takes FU, A, AA. */
  lemma FuaaaCut(s: string)
    requires s == "FUAAA"
    ensures FirstMatch(s, TitlePatterns) == Some(Cut(Fu, 0, "FU", 1, 2))
  {
    var c := Cut(Fu, 0, "FU", 1, 2);
    assert s[0..2] == "FU";
    assert Matches(c, s);
    FirstMatchNone(s, TitlePatterns);
    var m := FirstMatch(s, TitlePatterns).value;
    FuaaaShape(s, m);
    FuaaaNoneBefore(s, m);
    if m != c {
      TakenFirst(s, TitlePatterns, c);
    }
  }

  /** The triple for that match: the digraph AA reads as Å. */
  lemma FuaaaResolved()
    ensures Matches(Cut(Fu, 0, "FU", 1, 2), "FUAAA")
    ensures Resolve(Cut(Fu, 0, "FU", 1, 2), "FUAAA", 2016) == Ok(("FU", "FUAÅ", 2016))
  {
    var s := "FUAAA";
    var c := Cut(Fu, 0, "FU", 1, 2);
    assert s[0..2] == "FU";
    assert PreText(c, s) == "" && PostText(c, s) == "";
    assert Letter1Text(c, s) == "A" && Letter2Text(c, s) == "AA";
    assert "FU" + Native("A") + Native("AA") == "FUAÅ";
    EmptyIsReferenceYear();
    assert GroupsPeriod(c, s, 2016) == Ok(2016);
  }

  /** FUAAA parses as FUAÅ, not FUÅA. */
  lemma FuaaaIsFuAAring()
    ensures BestFuAlias("FUAAA", 2016) == Ok(("FU", "FUAÅ", 2016))
  {
    assert Upper("FUAAA") == "FUAAA";
    FuaaaCut("FUAAA");
    FuaaaResolved();
  }

  /** The e-mail spelling of a four-letter root, letter by letter. */
  lemma EmailRootOfFour(root: string)
    requires |root| == 4
    ensures EmailRoot(root) == Digraph(root[0]) + Digraph(root[1]) + Digraph(root[2]) + Digraph(root[3])
  {
    EmailRootIsSpelled(root);
    var t1, t2, t3 := root[1..], root[2..], root[3..];
    assert t1[1..] == t2 && t2[1..] == t3 && t3[1..] == [];
    assert Spelled(t3) == Digraph(root[3]);
    assert Spelled(t2) == Digraph(root[2]) + Spelled(t3);
    assert Spelled(t1) == Digraph(root[1]) + Spelled(t2);
  }

  lemma AgeTextFive(age: int)
    requires age == 5
    ensures AgeText(age, false) == "T2O"
  {
    assert NatToString(2) == "2";
  }

  /** The e-mail prefix form of (FUHØ, 2011) with 2016 as the reference
      year: T2O and the root spelled with OE. */
  lemma FuhoeEmail(root: string, alias: string)
    requires root == "FUHØ" && alias == "T2OFUHOE"
    ensures Email(Title(root, 2011), 2016, EmailTypePrefix) == Ok(alias)
  {
    EmailCases(Title(root, 2011), 2016);
    FuhoeSpelling(root);
    AgeTextFive(2016 - 2011);
    assert alias == "T2O" + "FUHOE";
  }

  lemma FuhoeSpelling(root: string)
    requires root == "FUHØ"
    ensures EmailRoot(root) == "FUHOE"
  {
    EmailRootOfFour(root);
    assert Digraph(root[0]) == "F" && Digraph(root[1]) == "U";
    assert Digraph(root[2]) == "H" && Digraph(root[3]) == "OE";
  }

  /** Every match of T2OFUHOE is an FU match after the `pre` group T2O. */
  lemma FuhoeShape(s: string, c: Cut)
    requires s == "T2OFUHOE" && Matches(c, s)
    ensures c.pre == 3 && c.pattern == Fu
  {
    PreStops(s, 3, c);
    assert c.stem != [] && s[c.pre..c.pre + |c.stem|] == c.stem;
    assert s[c.pre] == c.stem[0];
  }

  /** EFU does not occur after T2O. */
  lemma FuhoeNoEfu(s: string, c: Cut)
    requires s == "T2OFUHOE" && c.stem == "EFU" && c.pre == 3
    ensures !Hits(c, s)
  {
    assert s[3..6][0] == 'F';
  }

  /** FU, H, O leaves an E that no `post` group can be. */
  lemma FuhoeShortLetters(s: string, c: Cut)
    requires s == "T2OFUHOE" && Matches(c, s) && c.stem == "FU" && c.pre == 3
    ensures c.letter1 == 2 || c.letter2 == 2
  {
  }

  /** No match of T2OFUHOE comes before T2O, FU, H, OE. */
  lemma FuhoeNoneBefore(s: string, m: Cut)
    requires s == "T2OFUHOE" && Matches(m, s)
    ensures !Precedes(m, Cut(Fu, 3, "FU", 1, 2))
  {
    FuhoeShape(s, m);
    if m.stem == "EFU" {
      FuhoeNoEfu(s, m);
    } else {
      FuhoeShortLetters(s, m);
    }
  }

  /** The match taken on T2OFUHOE: H as a one-character letter, then the
      digraph OE, since O alone would leave an E that no `post` group can
      be. */
  lemma FuhoeCut(s: string)
    requires s == "T2OFUHOE"
    ensures FirstMatch(s, TitlePatterns) == Some(Cut(Fu, 3, "FU", 1, 2))
  {
    var c := Cut(Fu, 3, "FU", 1, 2);
    FuhoeGroups(s);
    FirstMatchNone(s, TitlePatterns);
    var m := FirstMatch(s, TitlePatterns).value;
    FuhoeShape(s, m);
    FuhoeNoneBefore(s, m);
    if m != c {
      TakenFirst(s, TitlePatterns, c);
    }
  }

  /** T2O: T with exponent 2 and O, five periods back. */
  lemma T2OIsFiveBack()
    ensures Period("T2O", "", 2016).Ok? && Period("T2O", "", 2016).value == 2011
  {
    assert "T2O" == (['T'] + "2") + (['O'] + "");
    assert TermValue(Term('T', "2")) == 2 && TermValue(Term('O', "")) == 3 by {
      assert "2"[..0] == "";
    }
    TwoTermPeriod('T', "2", 'O', "", 2016);
  }

  /** The groups of that match. */
  lemma FuhoeGroups(s: string)
    requires s == "T2OFUHOE"
    ensures Matches(Cut(Fu, 3, "FU", 1, 2), s)
    ensures PreText(Cut(Fu, 3, "FU", 1, 2), s) == "T2O" && PostText(Cut(Fu, 3, "FU", 1, 2), s) == ""
    ensures Letter1Text(Cut(Fu, 3, "FU", 1, 2), s) == "H" && Letter2Text(Cut(Fu, 3, "FU", 1, 2), s) == "OE"
  {
    assert s[3..5] == "FU" && s[..3] == "T2O";
  }

  /** The triple for that match: T2O is five periods back, OE reads as Ø. */
  lemma FuhoeResolved(s: string)
    requires s == "T2OFUHOE"
    ensures Matches(Cut(Fu, 3, "FU", 1, 2), s)
    ensures Resolve(Cut(Fu, 3, "FU", 1, 2), s, 2016) == Ok(("FU", "FUHØ", 2011))
  {
    FuhoeGroups(s);
    FuhoePeriod(s);
    assert "FU" + Native("H") + Native("OE") == "FUHØ";
  }

  /** The `pre` group T2O of that match is five periods back. */
  lemma FuhoePeriod(s: string)
    requires s == "T2OFUHOE"
    ensures Matches(Cut(Fu, 3, "FU", 1, 2), s)
    ensures GroupsPeriod(Cut(Fu, 3, "FU", 1, 2), s, 2016) == Ok(2011)
  {
    FuhoeGroups(s);
    T2OIsFiveBack();
  }

  /** The e-mail form T2OFUHOE of (FUHØ, 2011) parses back as that title. */
  lemma FuhoeEmailReadBack(root: string, alias: string)
    requires root == "FUHØ" && alias == "T2OFUHOE"
    ensures Email(Title(root, 2011), 2016, EmailTypePrefix) == Ok(alias)
    ensures CaseModelled(alias) && BestFuAlias(alias, 2016) == Ok(("FU", root, 2011))
  {
    FuhoeEmail(root, alias);
    FuhoeParses(alias);
  }

  /** `parse_bestfu_alias('T2OFUHOE', 2016)`. */
  lemma FuhoeParses(alias: string)
    requires alias == "T2OFUHOE"
    ensures CaseModelled(alias) && BestFuAlias(alias, 2016) == Ok(("FU", "FUHØ", 2011))
  {
    var c := Cut(Fu, 3, "FU", 1, 2);
    assert alias == "T2O" + "FUHOE";
    PrefixCharsUnchanged("T2O");
    CapitalsUnchanged("FUHOE");
    UnchangedConcat("T2O", "FUHOE");
    FuhoeCut(alias);
    FuhoeResolved(alias);
    assert BestFuAlias(alias, 2016) == Resolve(c, alias, 2016);
  }

  /** The e-mail form of (FUÅA, 2016) with 2016 as the reference year is
      FUAAA, which is also the spelling of FUAÅ. */
  lemma FuaaEmail(root: string, alias: string)
    requires root == "FUÅA" && alias == "FUAAA"
    ensures Email(Title(root, 2016), 2016, EmailTypePrefix) == Ok(alias)
  {
    EmailCases(Title(root, 2016), 2016);
    FuaaSpelling(root);
    assert AgeText(2016 - 2016, false) == "";
    assert alias == "" + "FUAAA";
  }

  lemma FuaaSpelling(root: string)
    requires root == "FUÅA"
    ensures EmailRoot(root) == "FUAAA"
  {
    EmailRootOfFour(root);
    assert Digraph(root[0]) == "F" && Digraph(root[1]) == "U";
    assert Digraph(root[2]) == "AA" && Digraph(root[3]) == "A";
  }

  /** So the e-mail form does not always read back: FUAAA parses as FUAÅ,
      not FUÅA. */
  lemma FuaaEmailNotReadBack(root: string, alias: string)
    requires root == "FUÅA" && alias == "FUAAA"
    ensures Email(Title(root, 2016), 2016, EmailTypePrefix) == Ok(alias)
    ensures CaseModelled(alias) && BestFuAlias(alias, 2016) == Ok(("FU", "FUAÅ", 2016))
  {
    FuaaEmail(root, alias);
    CapitalsUnchanged(alias);
    FuaaaIsFuAAring();
  }
}
