/** `get_period`: a relative prefix and an absolute postfix read back into a
    period. The postfix fixes the base year (the reference year when it is
    empty) and the prefix terms, each a step letter with an optional
    exponent, are subtracted from it. */
module Periods {

  import opened Results
  import opened Text

  predicate IsStep(c: char) {
    c in "KGBOT"
  }

  /** `prefix_value`: how many periods back one step letter goes. */
  function Weight(step: char): int
    requires IsStep(step)
  {
    match step
    case 'K' => -1
    case 'G' => 1
    case 'B' => 2
    case 'O' => 3
    case 'T' => 1
  }

  /** How many digits `[0-9]*` takes, greedily, at the start of s. */
  function DigitRun(s: string): (n: nat)
    ensures n <= |s| && AllDigits(s[..n])
    ensures n == |s| || !IsDigit(s[n])
  {
    if s == [] || !IsDigit(s[0]) then 0
    else
      var m := DigitRun(s[1..]);
      assert s[..1 + m] == [s[0]] + s[1..][..m];
      1 + m
  }

  /** Whether all of s matches `([KGBOT][0-9]*)*`, each term taking its
      digits greedily. */
  predicate PrefixShaped(s: string)
    decreases |s|
  {
    s == [] || (IsStep(s[0]) && PrefixShaped(s[1 + DigitRun(s[1..])..]))
  }

  /** One match of `([KGBOT])([0-9]*)`: the step letter and its exponent. */
  datatype Term = Term(step: char, exponent: string)

  predicate ValidTerm(t: Term) {
    IsStep(t.step) && AllDigits(t.exponent)
  }

  predicate ValidTerms(ts: seq<Term>) {
    forall i :: 0 <= i < |ts| ==> ValidTerm(ts[i])
  }

  /** `re.findall(r"([KGBOT])([0-9]*)", s)` on a string of the prefix shape:
      one term per step letter, with the digits that follow it. */
  function Terms(s: string): (ts: seq<Term>)
    requires PrefixShaped(s)
    ensures ValidTerms(ts)
    decreases |s|
  {
    if s == [] then []
    else
      var n := DigitRun(s[1..]);
      [Term(s[0], s[1..][..n])] + Terms(s[1 + n..])
  }

  /** `prefix_value[base] * int(exponent or 1)`. */
  function TermValue(t: Term): int
    requires ValidTerm(t)
  {
    Weight(t.step) * (if t.exponent == "" then 1 else DigitsValue(t.exponent))
  }

  /** The sum the source accumulates in `grad`, term by term. */
  function Grad(ts: seq<Term>): int
    requires ValidTerms(ts)
  {
    if ts == [] then 0 else Grad(ts[..|ts| - 1]) + TermValue(ts[|ts| - 1])
  }

  /** s without one final newline: Python's `$` also matches just before it. */
  function StripFinalNewline(s: string): (r: string)
    ensures |r| <= |s|
  {
    if |s| > 0 && s[|s| - 1] == '\n' then s[..|s| - 1] else s
  }

  /** Whether all of s matches `([0-9]{2}){0,2}`. */
  predicate PostfixShaped(s: string) {
    (|s| == 0 || |s| == 2 || |s| == 4) && AllDigits(s)
  }

  /** A two-digit year: the 1900s above 56, the 2000s otherwise. */
  function Century(y: nat): int {
    if y > 56 then 1900 + y else 2000 + y
  }

  /** The base period a postfix names, with the source's checks in order. */
  function ResolvePostfix(postfix: string, gfyear: int): Result<int>
    requires PostfixShaped(StripFinalNewline(postfix))
  {
    if postfix == "" then Ok(gfyear)
    else if |postfix| == 4 then
      assert StripFinalNewline(postfix) == postfix;
      var first, second := DigitsValue(postfix[0..2]), DigitsValue(postfix[2..4]);
      if postfix == "2021" then Err(NotImplementedError)
      else if (first + 1) % 100 == second then Ok(Century(first))
      else if first == 19 || first == 20 then Ok(DigitsValue(postfix))
      else Err(ValueError)
    else if |postfix| == 2 then
      assert StripFinalNewline(postfix) == postfix;
      Ok(Century(DigitsValue(postfix[0..2])))
    else Err(ValueError)
  }

  /** `get_period(prefix, postfix, gfyear)`. */
  function Period(prefix: string, postfix: string, gfyear: int): Result<int>
    requires CaseModelled(prefix)
  {
    var p := StripFinalNewline(Upper(prefix));
    if !PrefixShaped(p) then Err(ValueError)
    else if !PostfixShaped(StripFinalNewline(postfix)) then Err(ValueError)
    else match ResolvePostfix(postfix, gfyear)
      case Err(e) => Err(e)
      case Ok(period) => Ok(period - Grad(Terms(p)))
  }

  /** `get_period`, with the source's loop over the prefix terms. */
  method GetPeriod(prefix: string, postfix: string, gfyear: int) returns (r: Result<int>)
    requires CaseModelled(prefix)
    ensures r == Period(prefix, postfix, gfyear)
  {
    var p := StripFinalNewline(Upper(prefix));
    if !PrefixShaped(p) {
      return Err(ValueError);
    }
    if !PostfixShaped(StripFinalNewline(postfix)) {
      return Err(ValueError);
    }
    var period: int;
    match ResolvePostfix(postfix, gfyear) {
      case Err(e) => return Err(e);
      case Ok(v) => period := v;
    }
    var grad := SumTerms(Terms(p));
    return Ok(period - grad);
  }

  /** The loop of `get_period` over the prefix terms, adding up their
      values. */
  method SumTerms(terms: seq<Term>) returns (grad: int)
    requires ValidTerms(terms)
    ensures grad == Grad(terms)
  {
    grad := 0;
    for i := 0 to |terms|
      invariant grad == Grad(terms[..i])
    {
      assert terms[..i + 1][..i] == terms[..i];
      grad := grad + TermValue(terms[i]);
    }
    assert terms[..|terms|] == terms;
  }

  // ---------------------------------------------------------------------
  // The prefix grammar and its value

  predicate IsPrefixChar(c: char) {
    IsStep(c) || IsDigit(c)
  }

  /** The greedy matcher accepts exactly the strings over the step letters
      and digits that are empty or start with a step letter. */
  lemma PrefixShapedIff(s: string)
    ensures PrefixShaped(s) <==>
      (s == [] || IsStep(s[0])) && forall i :: 0 <= i < |s| ==> IsPrefixChar(s[i])
  {
    if PrefixShaped(s) {
      ShapedPrefixChars(s);
    }
    if (s == [] || IsStep(s[0])) && forall i :: 0 <= i < |s| ==> IsPrefixChar(s[i]) {
      PrefixCharsShaped(s);
    }
  }

  lemma {:induction false} ShapedPrefixChars(s: string)
    requires PrefixShaped(s)
    ensures forall i :: 0 <= i < |s| ==> IsPrefixChar(s[i])
    decreases |s|
  {
    if s != [] {
      var n := DigitRun(s[1..]);
      var rest := s[1 + n..];
      ShapedPrefixChars(rest);
      forall i | 0 <= i < |s| ensures IsPrefixChar(s[i]) {
        if 1 <= i < 1 + n {
          assert s[i] == s[1..][..n][i - 1];
        } else if i >= 1 + n {
          assert s[i] == rest[i - 1 - n];
        }
      }
    }
  }

  lemma {:induction false} PrefixCharsShaped(s: string)
    requires s == [] || IsStep(s[0])
    requires forall i :: 0 <= i < |s| ==> IsPrefixChar(s[i])
    ensures PrefixShaped(s)
    decreases |s|
  {
    if s != [] {
      var n := DigitRun(s[1..]);
      var rest := s[1 + n..];
      assert rest == [] || IsStep(rest[0]) by {
        if rest != [] {
          assert rest[0] == s[1..][n];
        }
      }
      forall i | 0 <= i < |rest| ensures IsPrefixChar(rest[i]) {
        assert rest[i] == s[1 + n + i];
      }
      PrefixCharsShaped(rest);
    }
  }

  /** A term followed by more terms: its digits stop where the next step
      letter starts. */
  lemma DigitRunStops(step: char, digits: string, rest: string)
    requires AllDigits(digits)
    requires rest == [] || IsStep(rest[0])
    ensures DigitRun(digits + rest) == |digits|
    decreases |digits|
  {
    if digits != [] {
      assert (digits + rest)[1..] == digits[1..] + rest;
      DigitRunStops(step, digits[1..], rest);
    } else {
      assert digits + rest == rest;
    }
  }

  /** One step of the matcher: a step letter, the digits of its exponent,
      then the rest, which is empty or starts with the next step letter. */
  lemma TermsStep(s: string, digits: string, rest: string)
    requires |s| >= 1 && IsStep(s[0]) && AllDigits(digits)
    requires s[1..] == digits + rest
    requires rest == [] || IsStep(rest[0])
    ensures PrefixShaped(s) <==> PrefixShaped(rest)
    ensures PrefixShaped(s) ==> Terms(s) == [Term(s[0], digits)] + Terms(rest)
  {
    DigitRunStops(s[0], digits, rest);
    assert s[1..][..|digits|] == digits;
    assert s[1 + |digits|..] == rest;
  }

  lemma ConcatAssoc(x: seq<Term>, y: seq<Term>, z: seq<Term>)
    ensures x + (y + z) == (x + y) + z
  {
  }

  lemma SplitAfterFirst(a: string, b: string, digits: string, rest: string)
    requires |a| >= 1 && a[1..] == digits + rest
    ensures (a + b)[0] == a[0] && (a + b)[1..] == digits + (rest + b)
  {
    assert (a + b)[1..] == a[1..] + b;
  }

  /** The digits after the first letter, and the rest after them. */
  lemma DigitsThenRest(a: string, digits: string, rest: string)
    requires a != [] && digits == a[1..][..DigitRun(a[1..])] && rest == a[1 + DigitRun(a[1..])..]
    ensures AllDigits(digits) && a[1..] == digits + rest
  {
    var t := a[1..];
    assert rest == t[|digits|..];
  }

  /** The first term of a non-empty prefix starts with a step letter, and
      what follows its digits is a prefix again. */
  lemma FirstTerm(a: string, rest: string)
    requires PrefixShaped(a) && a != [] && rest == a[1 + DigitRun(a[1..])..]
    ensures IsStep(a[0]) && PrefixShaped(rest) && (rest == [] || IsStep(rest[0]))
  {
  }

  lemma StepConcat(a: string, b: string)
    requires a == [] || IsStep(a[0])
    requires b == [] || IsStep(b[0])
    ensures a + b == [] || IsStep((a + b)[0])
  {
    if a == [] {
      assert a + b == b;
    }
  }

  /** Prefixes compose: the terms of a + b are those of a then those of b
      when b is empty or starts with a step letter. */
  lemma {:induction false} TermsConcat(a: string, b: string)
    requires PrefixShaped(a) && PrefixShaped(b)
    requires b == [] || IsStep(b[0])
    ensures PrefixShaped(a + b)
    ensures Terms(a + b) == Terms(a) + Terms(b)
    decreases |a|
  {
    if a == [] {
      assert a + b == b;
    } else {
      var n := DigitRun(a[1..]);
      var digits, rest := a[1..][..n], a[1 + n..];
      DigitsThenRest(a, digits, rest);
      FirstTerm(a, rest);
      TermsStep(a, digits, rest);
      TermsConcat(rest, b);
      SplitAfterFirst(a, b, digits, rest);
      StepConcat(rest, b);
      TermsStep(a + b, digits, rest + b);
      ConcatAssoc([Term(a[0], digits)], Terms(rest), Terms(b));
    }
  }

  lemma {:induction false} GradConcat(xs: seq<Term>, ys: seq<Term>)
    requires ValidTerms(xs) && ValidTerms(ys)
    ensures ValidTerms(xs + ys)
    ensures Grad(xs + ys) == Grad(xs) + Grad(ys)
    decreases |ys|
  {
    ValidConcat(xs, ys);
    if ys == [] {
      assert xs + ys == xs;
    } else {
      var zs, init := xs + ys, ys[..|ys| - 1];
      assert zs[..|zs| - 1] == xs + init;
      assert zs[|zs| - 1] == ys[|ys| - 1];
      ValidConcat(xs, init);
      GradConcat(xs, init);
    }
  }

  lemma ValidConcat(xs: seq<Term>, ys: seq<Term>)
    requires ValidTerms(xs) && ValidTerms(ys)
    ensures ValidTerms(xs + ys)
    ensures ys != [] ==> ValidTerms(ys[..|ys| - 1])
  {
    var zs := xs + ys;
    forall i | 0 <= i < |zs| ensures ValidTerm(zs[i]) {
      if i < |xs| {
        assert zs[i] == xs[i];
      } else {
        assert zs[i] == ys[i - |xs|];
      }
    }
  }

  /** A single term: a step letter and its exponent digits. */
  lemma SingleTerm(step: char, digits: string)
    requires IsStep(step) && AllDigits(digits)
    ensures PrefixShaped([step] + digits)
    ensures Terms([step] + digits) == [Term(step, digits)]
    ensures Grad(Terms([step] + digits)) ==
      Weight(step) * (if digits == "" then 1 else DigitsValue(digits))
  {
    var s := [step] + digits;
    assert s[1..] == digits;
    DigitRunStops(step, digits, []);
    assert digits + [] == digits;
    assert s[1 + |digits|..] == [];
    assert [Term(step, digits)][..0] == [];
  }

  // ---------------------------------------------------------------------
  // The postfix rules

  /** A two-digit postfix y: 1900 + y above 56, 2000 + y otherwise. */
  lemma ResolveTwoDigits(y: nat, gfyear: int)
    requires y < 100
    ensures PostfixShaped(Pad2(y))
    ensures ResolvePostfix(Pad2(y), gfyear) == Ok(if y > 56 then 1900 + y else 2000 + y)
  {
    Pad2Value(y);
    assert Pad2(y)[0..2] == Pad2(y);
  }

  /** The value of four digits is that of the first two times 100 plus
      that of the last two. */
  lemma FourDigitValue(s: string)
    requires |s| == 4 && AllDigits(s)
    ensures DigitsValue(s[0..2]) < 100 && DigitsValue(s[2..4]) < 100
    ensures DigitsValue(s) == 100 * DigitsValue(s[0..2]) + DigitsValue(s[2..4])
  {
    var hi, lo := s[0..2], s[2..4];
    assert s == hi + lo;
    assert Pow10(2) == 100;
    DigitsValueConcat(hi, lo);
    DigitsValueBound(hi);
    DigitsValueBound(lo);
  }

  /** A four-digit postfix ab cd, with the source's checks in order: 2021 is
      refused, consecutive years resolve ab by the century rule, 19xx and
      20xx are literal years, anything else is an error. */
  lemma ResolveFourDigits(a: nat, b: nat, gfyear: int)
    requires a < 100 && b < 100
    ensures PostfixShaped(Pad2(a) + Pad2(b))
    ensures ResolvePostfix(Pad2(a) + Pad2(b), gfyear) ==
      if a == 20 && b == 21 then Err(NotImplementedError)
      else if (a + 1) % 100 == b then Ok(if a > 56 then 1900 + a else 2000 + a)
      else if a == 19 || a == 20 then Ok(100 * a + b)
      else Err(ValueError)
  {
    var s := Pad2(a) + Pad2(b);
    Pad2Value(a);
    Pad2Value(b);
    assert s[0..2] == Pad2(a) && s[2..4] == Pad2(b);
    FourDigitValue(s);
    assert s == "2021" ==> a == 20 && b == 21 by {
      if s == "2021" {
        FourDigitValue("2021");
        assert "2021"[0..2] == "20" && "2021"[2..4] == "21";
        assert "20"[..1] == "2" && "21"[..1] == "2";
        assert "2"[..0] == [];
      }
    }
  }

  /** Whatever the reference year, a non-empty postfix names a year of the
      window 1900 .. 2099. */
  lemma ResolvePostfixRange(postfix: string, gfyear: int)
    requires PostfixShaped(StripFinalNewline(postfix))
    requires postfix != "" && ResolvePostfix(postfix, gfyear).Ok?
    ensures 1900 <= ResolvePostfix(postfix, gfyear).value <= 2099
  {
    if |postfix| == 4 {
      FourDigitValue(postfix);
    } else if |postfix| == 2 {
      assert postfix[0..2] == postfix;
      DigitsValueBound(postfix);
      assert Pow10(2) == 100;
    }
  }

  /** A prefix is read the same in either case. */
  lemma PeriodIgnoresCase(prefix: string, postfix: string, gfyear: int)
    requires CaseModelled(prefix)
    ensures CaseModelled(Upper(prefix))
    ensures Period(Upper(prefix), postfix, gfyear) == Period(prefix, postfix, gfyear)
  {
    UpperIdempotent(prefix);
  }

  /** A character other than a step letter or a digit in the upper-cased
      prefix (outside a final newline) is a ValueError, and so is a postfix
      that is not 0, 2 or 4 digits. */
  lemma PeriodRejects(prefix: string, postfix: string, gfyear: int)
    requires CaseModelled(prefix)
    requires var p := StripFinalNewline(Upper(prefix));
      (exists i :: 0 <= i < |p| && !IsPrefixChar(p[i])) || !PostfixShaped(StripFinalNewline(postfix))
    ensures Period(prefix, postfix, gfyear) == Err(ValueError)
  {
    PrefixShapedIff(StripFinalNewline(Upper(prefix)));
  }
}
