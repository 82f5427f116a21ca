/** What `parse_bestfu_alias` promises about the match it takes: BEST is
    tried before FU, the `pre` group is as long as the alias allows, no
    match is taken exactly when no way of cutting the alias into groups
    fits the patterns (`FirstMatchNone`; an alias with a match can still be
    refused by `get_period`, as FORM2021 is), and a successful parse
    returns a BEST root or an E?FU root with two letters read natively. */
module AliasFacts {

  import opened Results
  import opened Text
  import opened Periods
  import opened Alias

  /** The match taken is the first candidate of its pattern. */
  lemma {:induction false} FirstIsHead(s: string, patterns: seq<Pattern>)
    requires FirstMatch(s, patterns).Some?
    ensures Candidates(FirstMatch(s, patterns).value.pattern, s) != []
    ensures FirstMatch(s, patterns).value == Candidates(FirstMatch(s, patterns).value.pattern, s)[0]
  {
    if Candidates(patterns[0], s) == [] {
      FirstIsHead(s, patterns[1..]);
    }
  }

  /** The first cut of cs that hits is the first that `Hitting` keeps. */
  lemma {:induction false} HittingFirst(cs: seq<Cut>, s: string, k: nat)
    requires k < |cs| && Hits(cs[k], s)
    requires forall j :: 0 <= j < k ==> !Hits(cs[j], s)
    ensures Hitting(cs, s) != [] && Hitting(cs, s)[0] == cs[k]
  {
    if k > 0 {
      assert !Hits(cs[0], s);
      HittingFirst(cs[1..], s, k - 1);
    }
  }

  /** Nothing is taken exactly when no cut of any of the patterns matches. */
  lemma {:induction false} FirstMatchNone(s: string, patterns: seq<Pattern>)
    ensures FirstMatch(s, patterns).None? <==> forall c: Cut :: c.pattern in patterns ==> !Matches(c, s)
  {
    if patterns != [] {
      FirstMatchNone(s, patterns[1..]);
      forall c: Cut | c.pattern in patterns && Matches(c, s)
        ensures FirstMatch(s, patterns).Some?
      {
        if c.pattern == patterns[0] {
          CandidatesComplete(s, c);
        } else {
          assert c.pattern in patterns[1..];
        }
      }
    }
  }

  /** BEST is tried first: the match taken is a BEST match exactly when the
      alias has one. */
  lemma BestFirst(s: string)
    ensures (FirstMatch(s, TitlePatterns).Some? && FirstMatch(s, TitlePatterns).value.pattern == Best)
            <==> exists c: Cut :: c.pattern == Best && Matches(c, s)
  {
    if c: Cut :| c.pattern == Best && Matches(c, s) {
      CandidatesComplete(s, c);
    }
  }

  /** The match taken comes before every other match of its pattern in
      the order the matcher tries them: the longest `pre` group first, then
      the earliest alternative. */
  lemma TakenFirst(s: string, patterns: seq<Pattern>, c: Cut)
    requires FirstMatch(s, patterns).Some?
    requires Matches(c, s) && c.pattern == FirstMatch(s, patterns).value.pattern
    requires c != FirstMatch(s, patterns).value
    ensures Precedes(FirstMatch(s, patterns).value, c)
  {
    FirstIsHead(s, patterns);
    CandidatesComplete(s, c);
    var cs := Candidates(c.pattern, s);
    var k :| 0 <= k < |cs| && cs[k] == c;
    assert Precedes(cs[0], cs[k]);
  }

  /** In particular the `pre` group of the match taken is as long as that
      of any match of the same pattern. */
  lemma LongestPre(s: string, patterns: seq<Pattern>, c: Cut)
    requires FirstMatch(s, patterns).Some?
    requires Matches(c, s) && c.pattern == FirstMatch(s, patterns).value.pattern
    ensures c.pre <= FirstMatch(s, patterns).value.pre
  {
    if c != FirstMatch(s, patterns).value {
      TakenFirst(s, patterns, c);
    }
  }

  /** The BEST roots start with distinct letters, so a BEST match is
      determined by the length of its `pre` group. */
  lemma BestDetermined(s: string, c: Cut, d: Cut)
    requires Matches(c, s) && Matches(d, s) && c.pattern == Best && d.pattern == Best
    requires c.pre == d.pre
    ensures c == d
  {
    assert c.stem[0] == s[c.pre] == d.stem[0];
  }

  /** A `pre` group stops before the first character that is no step letter
      or digit. */
  lemma PreStops(s: string, k: nat, c: Cut)
    requires Matches(c, s) && k < |s| && !IsPrefixChar(s[k])
    ensures c.pre <= k
  {
  }

  /** A BEST root after a run that a `pre` group can be is a match. */
  lemma BestCutAfterPre(pre: string, root: string)
    requires PreShaped(pre) && root in BestRoots
    ensures Matches(Cut(Best, |pre|, root, 0, 0), pre + root)
  {
    var s := pre + root;
    assert s[..|pre|] == pre && s[|pre|..|pre| + |root|] == root;
  }

  /** The groups of that match: the run, and an empty `post` group. */
  lemma BestCutGroups(pre: string, root: string)
    requires PreShaped(pre) && root in BestRoots
    ensures Matches(Cut(Best, |pre|, root, 0, 0), pre + root)
    ensures PreText(Cut(Best, |pre|, root, 0, 0), pre + root) == pre
    ensures PostText(Cut(Best, |pre|, root, 0, 0), pre + root) == ""
  {
    BestCutAfterPre(pre, root);
  }

  /** A BEST root that does not start with a step letter or digit, after a
      run that a `pre` group can be, is read with exactly that run as the
      `pre` group. */
  lemma BestAfterPre(pre: string, root: string)
    requires PreShaped(pre) && root in BestRoots && !IsPrefixChar(root[0])
    ensures FirstMatch(pre + root, TitlePatterns) == Some(Cut(Best, |pre|, root, 0, 0))
  {
    var s := pre + root;
    var c := Cut(Best, |pre|, root, 0, 0);
    BestCutAfterPre(pre, root);
    BestFirst(s);
    var m := FirstMatch(s, TitlePatterns).value;
    LongestPre(s, TitlePatterns, c);
    assert s[|pre|] == root[0];
    PreStops(s, |pre|, m);
    BestDetermined(s, m, c);
  }

  /** An alias that no cut matches is refused for want of a match; for the
      other direction see `FirstMatchNone`. */
  lemma RefusedWithoutMatch(alias: string, gfyear: int)
    requires CaseModelled(alias)
    requires forall c :: !Matches(c, Upper(alias))
    ensures BestFuAlias(alias, gfyear) == Err(ValueError)
  {
    FirstMatchNone(Upper(alias), TitlePatterns);
  }

  /** Groups of text that spell the alias and fit a pattern's groups give a
      match: the parse does not refuse the alias for want of one. */
  lemma SplitIsMatched(alias: string, c: Cut, pre: string, l1: string, l2: string, post: string)
    requires CaseModelled(alias)
    requires EndsAs(Upper(alias), pre + (c.stem + l1 + l2) + post)
    requires c.pre == |pre| && c.letter1 == |l1| && c.letter2 == |l2| && StemAllowed(c)
    requires PreShaped(pre) && PostShaped(post)
    requires c.pattern == Best ==> l1 == [] && l2 == []
    requires c.pattern == Fu ==> IsLetter(l1) && IsLetter(l2)
    ensures FirstMatch(Upper(alias), TitlePatterns).Some?
  {
    GroupsMatch(c, Upper(alias), pre, l1, l2, post);
    FirstMatchNone(Upper(alias), TitlePatterns);
    assert c.pattern in TitlePatterns;
  }

  /** A `pre` group is a prefix `get_period` accepts. */
  lemma {:induction false} PreShapedPrefix(pre: string)
    requires PreShaped(pre)
    ensures PrefixShaped(pre)
    decreases |pre|
  {
    if pre != [] {
      var n := DigitRun(pre[1..]);
      var rest := pre[1 + n..];
      forall i | 0 <= i < |rest| ensures IsPrefixChar(rest[i]) {
        assert rest[i] == pre[1 + n + i];
      }
      if rest != [] {
        assert rest[0] == pre[1..][n];
        assert IsStep(rest[0]);
      }
      PreShapedPrefix(rest);
    }
  }

  /** A letter read natively is one character of `[A-Z]|Æ|Ø|Å`. */
  lemma NativeLetter(l: string)
    requires IsLetter(l)
    ensures |Native(l)| == 1 && IsSingleLetter(Native(l)[0])
  {
  }

  /** A triple `parse_bestfu_alias` can return: a BEST root, or E?FU and
      two letters of `[A-Z]|Æ|Ø|Å`. */
  predicate TitleShaped(kind: string, root: string) {
    || (kind == "BEST" && root in BestRoots)
    || (&& kind in FuKinds && |root| == |kind| + 2 && root[..|kind|] == kind
        && IsSingleLetter(root[|kind|]) && IsSingleLetter(root[|kind| + 1]))
  }

  /** The groups of the cut spell s: the `pre` group, the stem and the two
      letters, the `post` group and at most a final newline. */
  predicate SpellsAlias(c: Cut, s: string) {
    && RootEnd(c) <= |s|
    && EndsAs(s, PreText(c, s) + RootText(c, s) + PostText(c, s))
    && RootText(c, s) == c.stem + Letter1Text(c, s) + Letter2Text(c, s)
  }

  /** The triple for a match: the BEST root as it stands, or E?FU and two
      letters read natively, with the period `get_period` gives for the
      `pre` and `post` groups. */
  lemma ResolveShape(c: Cut, s: string, gfyear: int)
    requires Matches(c, s) && Resolve(c, s, gfyear).Ok?
    ensures TitleShaped(Resolve(c, s, gfyear).value.0, Resolve(c, s, gfyear).value.1)
    ensures c.pattern == Best <==> Resolve(c, s, gfyear).value.0 == "BEST"
    ensures GroupsPeriod(c, s, gfyear) == Ok(Resolve(c, s, gfyear).value.2)
  {
    MatchShapes(c, s);
    if c.pattern == Fu {
      var root := Resolve(c, s, gfyear).value.1;
      var n1, n2 := Native(Letter1Text(c, s)), Native(Letter2Text(c, s));
      NativeLetter(Letter1Text(c, s));
      NativeLetter(Letter2Text(c, s));
      assert root == c.stem + n1 + n2;
      assert root[..|c.stem|] == c.stem;
      assert root[|c.stem|] == n1[0];
      assert root[|c.stem| + 1] == n2[0];
    }
  }

  /** A successful parse returns a BEST root or E?FU with two letters read
      natively. */
  lemma ParsedShape(alias: string, gfyear: int)
    requires CaseModelled(alias) && BestFuAlias(alias, gfyear).Ok?
    ensures TitleShaped(BestFuAlias(alias, gfyear).value.0, BestFuAlias(alias, gfyear).value.1)
  {
    ResolveShape(FirstMatch(Upper(alias), TitlePatterns).value, Upper(alias), gfyear);
  }

  /** The period of a successful parse is what `get_period` gives for the
      `pre` and `post` groups of the match taken, whose groups spell the
      alias. */
  lemma ParsedPeriod(alias: string, gfyear: int)
    requires CaseModelled(alias) && BestFuAlias(alias, gfyear).Ok?
    ensures FirstMatch(Upper(alias), TitlePatterns).Some?
    ensures var s, m := Upper(alias), FirstMatch(Upper(alias), TitlePatterns).value;
      && SpellsAlias(m, s)
      && GroupsPeriod(m, s, gfyear) == Ok(BestFuAlias(alias, gfyear).value.2)
  {
    var s := Upper(alias);
    var m := FirstMatch(s, TitlePatterns).value;
    ResolveShape(m, s, gfyear);
    RootSpells(m, s);
    AliasSpells(m, s);
  }

  /** `get_period` accepts a `pre` group with a `post` group of at most
      two digits. */
  lemma ShortPostfixPeriod(pre: string, post: string, gfyear: int)
    requires PreShaped(pre) && PostShaped(post) && |post| <= 2
    ensures CaseModelled(pre) && Period(pre, post, gfyear).Ok?
  {
    PreShapedPrefix(pre);
    PreShapedCaseModelled(pre);
    assert Upper(pre) == pre;
    assert StripFinalNewline(pre) == pre;
    assert StripFinalNewline(post) == post;
  }

  /** Once a match is found, only a four-digit `post` group can make
      `get_period` refuse it. */
  lemma ShortPostfixResolved(c: Cut, s: string, gfyear: int)
    requires Matches(c, s) && |PostText(c, s)| <= 2
    ensures Resolve(c, s, gfyear).Ok?
  {
    MatchShapes(c, s);
    ShortPostfixPeriod(PreText(c, s), PostText(c, s), gfyear);
  }

  /** An alias with a match is refused only for a four-digit `post` group. */
  lemma ShortPostfixAccepted(alias: string, gfyear: int)
    requires CaseModelled(alias)
    requires FirstMatch(Upper(alias), TitlePatterns).Some?
    requires |PostText(FirstMatch(Upper(alias), TitlePatterns).value, Upper(alias))| <= 2
    ensures BestFuAlias(alias, gfyear).Ok?
  {
    ShortPostfixResolved(FirstMatch(Upper(alias), TitlePatterns).value, Upper(alias), gfyear);
  }
}
