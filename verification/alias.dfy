/** `parse_bestfu_alias`: an alias such as OFORM, FUAÅ17 or GEFUAEOE is
    split into a prefix, a root and a postfix by two anchored regular
    expressions, one for the BEST roots and one for the FU roots, and the
    prefix and postfix are read back by `get_period`.

    Python's backtracking matcher is modelled by listing the ways a pattern
    can match in the order the matcher tries them: the `pre` group from its
    longest run down to empty, the alternatives of each group from left to
    right, and `E?` with the E before without it. The match the source
    takes is the first of the list. */
module Alias {

  import opened Results
  import opened Text
  import opened Periods

  const BestRoots: seq<string> := ["CERM", "FORM", "INKA", "KASS", "NF", "PR", "SEKR", "VC"]

  /** `E?FU`, the E tried first. */
  const FuKinds: seq<string> := ["EFU", "FU"]

  /** The two entries of `title_patterns`, in the order they are tried. */
  datatype Pattern = Best | Fu

  /** Where one way of matching a pattern cuts the alias: the length of the
      `pre` group, the stem, and the lengths of the two letters. For BEST
      the stem is the root and the letters are empty; for FU the stem is
      the `a` group (EFU or FU) and the letters are the `b` and `c` groups.
      The `root` group is the stem followed by the letters, and the `post`
      group is what follows the root, less the one final newline that `$`
      lets through. */
  datatype Cut = Cut(pattern: Pattern, pre: nat, stem: string, letter1: nat, letter2: nat)

  function RootEnd(c: Cut): nat {
    c.pre + |c.stem| + c.letter1 + c.letter2
  }

  // ---------------------------------------------------------------------
  // The groups of a cut

  function PreText(c: Cut, s: string): string
    requires RootEnd(c) <= |s|
  {
    s[..c.pre]
  }

  function RootText(c: Cut, s: string): string
    requires RootEnd(c) <= |s|
  {
    s[c.pre..RootEnd(c)]
  }

  function Letter1Text(c: Cut, s: string): string
    requires RootEnd(c) <= |s|
  {
    s[c.pre + |c.stem|..c.pre + |c.stem| + c.letter1]
  }

  function Letter2Text(c: Cut, s: string): string
    requires RootEnd(c) <= |s|
  {
    s[c.pre + |c.stem| + c.letter1..RootEnd(c)]
  }

  function PostText(c: Cut, s: string): string
    requires RootEnd(c) <= |s|
  {
    s[RootEnd(c)..PostEnd(s, RootEnd(c))]
  }

  // ---------------------------------------------------------------------
  // The sub-patterns

  /** `(?:[KGBOT][KGBOT0-9]*)?` */
  predicate PreShaped(pre: string) {
    pre == [] || (IsStep(pre[0]) && forall i :: 0 <= i < |pre| ==> IsPrefixChar(pre[i]))
  }

  /** The one-character alternatives of `letter`: `[A-Z]`, Æ, Ø and Å. */
  predicate IsSingleLetter(c: char) {
    ('A' <= c <= 'Z') || c == 'Æ' || c == 'Ø' || c == 'Å'
  }

  /** The two-character alternatives of `letter`: AE, OE and AA. */
  predicate IsDigraph(a: char, b: char) {
    (a == 'A' && b == 'E') || (a == 'O' && b == 'E') || (a == 'A' && b == 'A')
  }

  /** `[A-Z]|Æ|Ø|Å|AE|OE|AA` */
  predicate IsLetter(l: string) {
    (|l| == 1 && IsSingleLetter(l[0])) || (|l| == 2 && IsDigraph(l[0], l[1]))
  }

  /** A `letter` of length n occurs in s at j. */
  predicate LetterAt(s: string, j: nat, n: nat) {
    && j + n <= |s|
    && ((n == 1 && IsSingleLetter(s[j])) || (n == 2 && IsDigraph(s[j], s[j + 1])))
  }

  /** `(?:[0-9]{2}|[0-9]{4})?` */
  predicate PostShaped(post: string) {
    || |post| == 0
    || (|post| == 2 && IsDigit(post[0]) && IsDigit(post[1]))
    || (|post| == 4 && IsDigit(post[0]) && IsDigit(post[1]) && IsDigit(post[2]) && IsDigit(post[3]))
  }

  /** Where the `post` group must end: before the one final newline `$`
      lets through, if there is one after e, and otherwise at the end. */
  function PostEnd(s: string, e: nat): nat {
    if e < |s| && s[|s| - 1] == '\n' then |s| - 1 else |s|
  }

  /** A `post` group starts at e: two or four digits or nothing, up to
      where it must end. */
  predicate PostAt(s: string, e: nat) {
    var n := PostEnd(s, e);
    && e <= n
    && (|| n - e == 0
        || (n - e == 2 && IsDigit(s[e]) && IsDigit(s[e + 1]))
        || (n - e == 4 && IsDigit(s[e]) && IsDigit(s[e + 1]) && IsDigit(s[e + 2]) && IsDigit(s[e + 3])))
  }

  /** a occurs in s at i. */
  predicate Occurs(s: string, i: nat, a: string) {
    i + |a| <= |s| && s[i..i + |a|] == a
  }

  /** The stem is one the pattern allows. */
  predicate StemAllowed(c: Cut) {
    match c.pattern
    case Best => c.stem in BestRoots
    case Fu => c.stem in FuKinds
  }

  /** The letters match the pattern's letter sub-patterns. */
  predicate LettersHit(c: Cut, s: string) {
    match c.pattern
    case Best => c.letter1 == 0 && c.letter2 == 0
    case Fu => LetterAt(s, c.pre + |c.stem|, c.letter1) && LetterAt(s, c.pre + |c.stem| + c.letter1, c.letter2)
  }

  /** From c.pre on, the cut's stem, letters and `post` group match. */
  predicate Hits(c: Cut, s: string) {
    RootEnd(c) <= |s| && Occurs(s, c.pre, c.stem) && LettersHit(c, s) && PostAt(s, RootEnd(c))
  }

  /** c is a match of `^pre(?P<root>...)post$` on s. */
  predicate Matches(c: Cut, s: string) {
    StemAllowed(c) && Hits(c, s) && PreShaped(s[..c.pre])
  }

  /** t is x, or x and the one final newline `$` lets through. */
  predicate EndsAs(t: string, x: string) {
    t == x || t == x + "\n"
  }

  // ---------------------------------------------------------------------
  // The matches as groups of text

  /** What a `post` group found by position reads. */
  lemma PostRead(s: string, e: nat)
    requires e <= |s|
    ensures e <= PostEnd(s, e) && EndsAs(s[e..], s[e..PostEnd(s, e)])
    ensures PostAt(s, e) <==> PostShaped(s[e..PostEnd(s, e)])
  {
    if e < |s| && s[|s| - 1] == '\n' {
      assert s[e..] == s[e..|s| - 1] + "\n";
    } else {
      assert s[e..] == s[e..|s|];
    }
  }

  /** A `post` group that ends the alias is found by position. */
  lemma PostOf(s: string, e: nat, post: string)
    requires e <= |s| && PostShaped(post) && EndsAs(s[e..], post)
    ensures e <= PostEnd(s, e) && s[e..PostEnd(s, e)] == post && PostAt(s, e)
  {
    if s[e..] == post {
      if e < |s| {
        assert s[|s| - 1] == post[|post| - 1];
      }
    } else {
      assert s[|s| - 1] == (post + "\n")[|post|];
      assert s[e..|s| - 1] == post;
    }
    PostRead(s, e);
  }

  lemma LetterText(s: string, j: nat, n: nat)
    requires LetterAt(s, j, n)
    ensures IsLetter(s[j..j + n])
  {
    assert s[j..j + n][0] == s[j];
    if n == 2 {
      assert s[j..j + n][1] == s[j + 1];
    }
  }

  lemma Assoc(a: string, b: string, c: string)
    ensures a + (b + c) == (a + b) + c
  {
  }

  /** The root of a cut whose stem occurs is the stem and the two letters. */
  lemma RootSpells(c: Cut, s: string)
    requires RootEnd(c) <= |s| && Occurs(s, c.pre, c.stem)
    ensures RootText(c, s) == c.stem + Letter1Text(c, s) + Letter2Text(c, s)
  {
    var j := c.pre + |c.stem|;
    var k := j + c.letter1;
    SliceThree(s, c.pre, j, k, RootEnd(c));
  }

  lemma SliceThree(s: string, i: nat, j: nat, k: nat, e: nat)
    requires i <= j <= k <= e <= |s|
    ensures s[i..e] == s[i..j] + s[j..k] + s[k..e]
  {
  }

  /** The groups of a cut spell the alias: the `pre` group, the root, then
      the `post` group and at most a final newline. */
  lemma AliasSpells(c: Cut, s: string)
    requires RootEnd(c) <= |s|
    ensures EndsAs(s, PreText(c, s) + RootText(c, s) + PostText(c, s))
  {
    var e := RootEnd(c);
    PostRead(s, e);
    assert s == s[..c.pre] + s[c.pre..e] + s[e..];
    Assoc(s[..c.pre] + s[c.pre..e], s[e..PostEnd(s, e)], "\n");
  }

  /** Each group of a match matches its sub-pattern. */
  lemma MatchShapes(c: Cut, s: string)
    requires Matches(c, s)
    ensures PreShaped(PreText(c, s)) && PostShaped(PostText(c, s))
    ensures c.pattern == Best ==> c.stem in BestRoots && Letter1Text(c, s) == [] && Letter2Text(c, s) == []
    ensures c.pattern == Fu ==> c.stem in FuKinds && IsLetter(Letter1Text(c, s)) && IsLetter(Letter2Text(c, s))
  {
    PostRead(s, RootEnd(c));
    if c.pattern == Fu {
      LetterText(s, c.pre + |c.stem|, c.letter1);
      LetterText(s, c.pre + |c.stem| + c.letter1, c.letter2);
    }
  }

  /** Reading an occurrence of a off the front of s[j..]. */
  lemma Peel(s: string, j: nat, a: string, x: string)
    requires j <= |s| && EndsAs(s[j..], a + x)
    ensures Occurs(s, j, a) && EndsAs(s[j + |a|..], x)
  {
    Assoc(a, x, "\n");
    assert s[j..][..|a|] == a;
    assert s[j..][|a|..] == s[j + |a|..];
  }

  /** Where the groups of text that spell the alias lie in it. */
  lemma GroupsPlace(s: string, pre: string, stem: string, l1: string, l2: string, post: string)
    requires EndsAs(s, pre + (stem + l1 + l2) + post)
    ensures s[..|pre|] == pre && Occurs(s, |pre|, stem)
    ensures Occurs(s, |pre| + |stem|, l1) && Occurs(s, |pre| + |stem| + |l1|, l2)
    ensures |pre| + |stem| + |l1| + |l2| <= |s|
    ensures EndsAs(s[|pre| + |stem| + |l1| + |l2|..], post)
  {
    var i := |pre|;
    var j := i + |stem|;
    var k := j + |l1|;
    assert pre + (stem + l1 + l2) + post == pre + (stem + (l1 + (l2 + post))) by {
      Assoc(pre, stem + l1 + l2, post);
      Assoc(stem, l1, l2);
      Assoc(stem, l1 + l2, post);
      Assoc(l1, l2, post);
    }
    assert s[0..] == s;
    Peel(s, 0, pre, stem + (l1 + (l2 + post)));
    Peel(s, i, stem, l1 + (l2 + post));
    Peel(s, j, l1, l2 + post);
    Peel(s, k, l2, post);
  }

  /** The same positions, as a cut gives them. */
  lemma CutPlace(c: Cut, s: string, pre: string, l1: string, l2: string, post: string)
    requires EndsAs(s, pre + (c.stem + l1 + l2) + post)
    requires c.pre == |pre| && c.letter1 == |l1| && c.letter2 == |l2|
    ensures RootEnd(c) <= |s| && s[..c.pre] == pre && Occurs(s, c.pre, c.stem)
    ensures Occurs(s, c.pre + |c.stem|, l1) && Occurs(s, c.pre + |c.stem| + |l1|, l2)
    ensures EndsAs(s[RootEnd(c)..], post)
  {
    GroupsPlace(s, pre, c.stem, l1, l2, post);
  }

  /** A letter that occurs in s is a `letter` there. */
  lemma LetterOf(s: string, j: nat, l: string)
    requires Occurs(s, j, l) && IsLetter(l)
    ensures LetterAt(s, j, |l|)
  {
    assert s[j] == s[j..j + |l|][0];
    if |l| == 2 {
      assert s[j + 1] == s[j..j + |l|][1];
    }
  }

  /** Groups of text found where a cut puts them make the cut a match. */
  lemma PlacedMatch(c: Cut, s: string, l1: string, l2: string, post: string)
    requires RootEnd(c) <= |s| && PreShaped(s[..c.pre]) && Occurs(s, c.pre, c.stem)
    requires Occurs(s, c.pre + |c.stem|, l1) && Occurs(s, c.pre + |c.stem| + |l1|, l2)
    requires c.letter1 == |l1| && c.letter2 == |l2|
    requires EndsAs(s[RootEnd(c)..], post) && PostShaped(post)
    requires StemAllowed(c)
    requires c.pattern == Best ==> l1 == [] && l2 == []
    requires c.pattern == Fu ==> IsLetter(l1) && IsLetter(l2)
    ensures Matches(c, s)
    ensures Letter1Text(c, s) == l1 && Letter2Text(c, s) == l2 && PostText(c, s) == post
  {
    PostOf(s, RootEnd(c), post);
    if c.pattern == Fu {
      LetterOf(s, c.pre + |c.stem|, l1);
      LetterOf(s, c.pre + |c.stem| + |l1|, l2);
    }
  }

  /** Groups of text that spell the alias and match their sub-patterns are
      the groups of a match. */
  lemma GroupsMatch(c: Cut, s: string, pre: string, l1: string, l2: string, post: string)
    requires EndsAs(s, pre + (c.stem + l1 + l2) + post)
    requires c.pre == |pre| && c.letter1 == |l1| && c.letter2 == |l2| && StemAllowed(c)
    requires PreShaped(pre) && PostShaped(post)
    requires c.pattern == Best ==> l1 == [] && l2 == []
    requires c.pattern == Fu ==> IsLetter(l1) && IsLetter(l2)
    ensures Matches(c, s)
    ensures PreText(c, s) == pre && Letter1Text(c, s) == l1 && Letter2Text(c, s) == l2
    ensures PostText(c, s) == post
  {
    CutPlace(c, s, pre, l1, l2, post);
    PlacedMatch(c, s, l1, l2, post);
  }

  // ---------------------------------------------------------------------
  // The matcher's choices, in the order it tries them

  /** `[KGBOT0-9]*` at the start of s, greedily. */
  function PrefixRun(s: string): (n: nat)
    ensures n <= |s|
    ensures forall i :: 0 <= i < n ==> IsPrefixChar(s[i])
    ensures n == |s| || !IsPrefixChar(s[n])
  {
    if s == [] || !IsPrefixChar(s[0]) then 0 else 1 + PrefixRun(s[1..])
  }

  /** n, n - 1, ..., 1 */
  function Countdown(n: nat): (r: seq<nat>)
    ensures |r| == n
    ensures forall k :: 0 <= k < n ==> r[k] == n - k
  {
    if n == 0 then [] else [n] + Countdown(n - 1)
  }

  /** The lengths the `pre` group takes, longest first: the star gives back
      one character at a time and the optional group is tried empty last. */
  function PreLengths(s: string): (r: seq<nat>)
    ensures |r| >= 1 && r[|r| - 1] == 0
    ensures forall k :: 0 <= k < |r| ==> r[k] <= |s| && PreShaped(s[..r[k]])
    ensures forall j, k :: 0 <= j < k < |r| ==> r[j] > r[k]
  {
    if s != [] && IsStep(s[0]) then
      var n := 1 + PrefixRun(s[1..]);
      var r := Countdown(n) + [0];
      assert forall k :: 0 <= k < n ==> PreShaped(s[..r[k]]) by {
        forall k | 0 <= k < n ensures PreShaped(s[..r[k]]) {
          assert forall i :: 1 <= i < r[k] ==> s[..r[k]][i] == s[1..][i - 1];
        }
      }
      assert s[..r[n]] == [];
      r
    else
      assert s[..0] == [];
      [0]
  }

  /** Where x stands in xs, or |xs| if it is not there. */
  function Position(xs: seq<string>, x: string): (n: nat)
    ensures n <= |xs| && (n < |xs| <==> x in xs)
    ensures n < |xs| ==> xs[n] == x
  {
    if xs == [] then 0 else if xs[0] == x then 0 else 1 + Position(xs[1..], x)
  }

  /** In a list without repeats each entry stands at its own place. */
  lemma {:induction false} PositionOf(xs: seq<string>, n: nat)
    requires n < |xs| && forall j, k :: 0 <= j < k < |xs| ==> xs[j] != xs[k]
    ensures Position(xs, xs[n]) == n
  {
    if n > 0 {
      assert xs[0] != xs[n];
      assert xs[1..][n - 1] == xs[n];
      PositionOf(xs[1..], n - 1);
    }
  }

  /** The BEST roots start with distinct letters. */
  lemma RootPosition(n: nat)
    requires n < |BestRoots|
    ensures Position(BestRoots, BestRoots[n]) == n
  {
    forall j, k | 0 <= j < k < |BestRoots| ensures BestRoots[j] != BestRoots[k] {
      assert BestRoots[j][0] != BestRoots[k][0];
    }
    PositionOf(BestRoots, n);
  }

  lemma KindPosition(n: nat)
    requires n < |FuKinds|
    ensures Position(FuKinds, FuKinds[n]) == n
  {
    assert FuKinds[0][0] != FuKinds[1][0];
    PositionOf(FuKinds, n);
  }

  /** Which alternative of its pattern a cut takes, counted in the order the
      matcher tries them: the BEST roots from left to right; for FU, EFU
      before FU and for each the letter lengths 1 1, 1 2, 2 1, 2 2 (the
      one-character alternatives of `letter` come before its digraphs, and
      the second letter is backtracked first). */
  function Rank(c: Cut): nat {
    match c.pattern
    case Best => Position(BestRoots, c.stem)
    case Fu => 4 * Position(FuKinds, c.stem) + (if c.letter1 == 2 then 2 else 0) + (if c.letter2 == 2 then 1 else 0)
  }

  /** The matcher tries c before d: a longer `pre` group, or the same one
      and an earlier alternative. */
  predicate Precedes(c: Cut, d: Cut) {
    c.pre > d.pre || (c.pre == d.pre && Rank(c) < Rank(d))
  }

  /** The cuts of cs come in the order the matcher tries them. */
  predicate InOrder(cs: seq<Cut>) {
    forall j, k :: 0 <= j < k < |cs| ==> Precedes(cs[j], cs[k])
  }

  lemma Join(a: seq<Cut>, b: seq<Cut>)
    requires InOrder(a) && InOrder(b)
    requires forall x, y :: x in a && y in b ==> Precedes(x, y)
    ensures InOrder(a + b)
  {
    var r := a + b;
    forall j, k | 0 <= j < k < |r| ensures Precedes(r[j], r[k]) {
      if k < |a| {
        assert r[j] == a[j] && r[k] == a[k];
      } else if j < |a| {
        assert r[j] in a && r[k] in b;
      } else {
        assert r[j] == b[j - |a|] && r[k] == b[k - |a|];
      }
    }
  }

  /** The cuts the matcher tries for the BEST roots from the n-th on, with
      a `pre` group of length i. */
  function BestCuts(i: nat, n: nat): (r: seq<Cut>)
    requires n <= |BestRoots|
    ensures forall c :: c in r ==> c.pattern == Best && c.pre == i && c.stem in BestRoots && Rank(c) >= n
    ensures forall c :: c in r ==> c.letter1 == 0 && c.letter2 == 0
    ensures InOrder(r)
    decreases |BestRoots| - n
  {
    if n == |BestRoots| then []
    else
      var c, rest := Cut(Best, i, BestRoots[n], 0, 0), BestCuts(i, n + 1);
      RootPosition(n);
      Join([c], rest);
      [c] + rest
  }

  /** The four ways of matching the letters after the n-th kind, by their
      lengths: at most one one-character and one two-character alternative
      of `letter` match at a position, and the one-character ones come
      first. */
  function FuLetterCuts(i: nat, n: nat): (r: seq<Cut>)
    requires n < |FuKinds|
    ensures forall c :: c in r ==> c.pattern == Fu && c.pre == i && c.stem == FuKinds[n]
    ensures forall c :: c in r ==> 4 * n <= Rank(c) < 4 * n + 4
    ensures InOrder(r)
  {
    var k := FuKinds[n];
    KindPosition(n);
    [Cut(Fu, i, k, 1, 1), Cut(Fu, i, k, 1, 2), Cut(Fu, i, k, 2, 1), Cut(Fu, i, k, 2, 2)]
  }

  /** The cuts the matcher tries for `E?FU` and the two letters from the
      n-th kind on, with a `pre` group of length i. */
  function FuCuts(i: nat, n: nat): (r: seq<Cut>)
    requires n <= |FuKinds|
    ensures forall c :: c in r ==> c.pattern == Fu && c.pre == i && c.stem in FuKinds && Rank(c) >= 4 * n
    ensures InOrder(r)
    decreases |FuKinds| - n
  {
    if n == |FuKinds| then []
    else
      var here, rest := FuLetterCuts(i, n), FuCuts(i, n + 1);
      Join(here, rest);
      here + rest
  }

  /** The cuts one pattern tries with a `pre` group of length i, in order. */
  function CutsAt(pattern: Pattern, i: nat): (r: seq<Cut>)
    ensures forall c :: c in r ==> c.pattern == pattern && c.pre == i && StemAllowed(c)
    ensures InOrder(r)
  {
    match pattern
    case Best => BestCuts(i, 0)
    case Fu => FuCuts(i, 0)
  }

  lemma HeadAbove(lens: seq<nat>)
    requires |lens| > 0 && forall j, k :: 0 <= j < k < |lens| ==> lens[j] > lens[k]
    ensures forall m :: m in lens[1..] ==> m < lens[0]
  {
    forall m | m in lens[1..] ensures m < lens[0] {
      var k :| 0 <= k < |lens[1..]| && lens[1..][k] == m;
      assert lens[k + 1] == m;
    }
  }

  /** The cuts one pattern tries for the `pre` lengths lens, in order. */
  function Tried(pattern: Pattern, lens: seq<nat>): (r: seq<Cut>)
    requires forall j, k :: 0 <= j < k < |lens| ==> lens[j] > lens[k]
    ensures forall c :: c in r ==> c.pattern == pattern && c.pre in lens && StemAllowed(c)
    ensures InOrder(r)
  {
    if lens == [] then []
    else
      var here, rest := CutsAt(pattern, lens[0]), Tried(pattern, lens[1..]);
      HeadAbove(lens);
      Join(here, rest);
      here + rest
  }

  /** The cuts of cs that hit on s, in the order of cs. */
  function Hitting(cs: seq<Cut>, s: string): (r: seq<Cut>)
    ensures forall c :: c in r ==> c in cs && Hits(c, s)
  {
    if cs == [] then []
    else if Hits(cs[0], s) then [cs[0]] + Hitting(cs[1..], s)
    else Hitting(cs[1..], s)
  }

  /** Filtering keeps the order. */
  lemma {:induction false} HittingInOrder(cs: seq<Cut>, s: string)
    requires InOrder(cs)
    ensures InOrder(Hitting(cs, s))
  {
    if cs != [] {
      var rest := Hitting(cs[1..], s);
      assert InOrder(cs[1..]) by {
        forall j, k | 0 <= j < k < |cs[1..]| ensures Precedes(cs[1..][j], cs[1..][k]) {
          assert cs[1..][j] == cs[j + 1] && cs[1..][k] == cs[k + 1];
        }
      }
      HittingInOrder(cs[1..], s);
      if Hits(cs[0], s) {
        forall y | y in rest ensures Precedes(cs[0], y) {
          var k :| 0 <= k < |cs[1..]| && cs[1..][k] == y;
          assert cs[k + 1] == y;
        }
        Join([cs[0]], rest);
      }
    }
  }

  /** Every match of the pattern on s, in the order the matcher tries them. */
  function Candidates(pattern: Pattern, s: string): (r: seq<Cut>)
    ensures forall c :: c in r ==> Matches(c, s) && c.pattern == pattern
    ensures InOrder(r)
  {
    var cs := Tried(pattern, PreLengths(s));
    HittingInOrder(cs, s);
    Hitting(cs, s)
  }

  // ---------------------------------------------------------------------
  // The result

  /** `letter_map.get(letter, letter)`: AE, OE and AA read as Æ, Ø and Å. */
  function Native(letter: string): string {
    if letter == "AE" then "Æ"
    else if letter == "OE" then "Ø"
    else if letter == "AA" then "Å"
    else letter
  }

  lemma PreShapedCaseModelled(pre: string)
    requires PreShaped(pre)
    ensures CaseModelled(pre)
  {
  }

  /** `get_period(mo.group("pre"), mo.group("post"), gfyear)` for a match. */
  function GroupsPeriod(c: Cut, s: string, gfyear: int): Result<int>
    requires Matches(c, s)
  {
    PreShapedCaseModelled(PreText(c, s));
    Period(PreText(c, s), PostText(c, s), gfyear)
  }

  /** The (kind, root, period) triple for a match: the BEST root as it
      stands, the FU root with its letters read natively; the errors of
      `get_period` propagate. */
  function Resolve(c: Cut, s: string, gfyear: int): Result<(string, string, int)>
    requires Matches(c, s)
  {
    match GroupsPeriod(c, s, gfyear)
    case Err(e) => Err(e)
    case Ok(period) =>
      if c.pattern == Best then Ok(("BEST", c.stem, period))
      else Ok((c.stem, c.stem + Native(Letter1Text(c, s)) + Native(Letter2Text(c, s)), period))
  }

  const TitlePatterns: seq<Pattern> := [Best, Fu]

  /** The match of the first pattern that matches at all. */
  function FirstMatch(s: string, patterns: seq<Pattern>): (r: Option<Cut>)
    ensures r.Some? ==> Matches(r.value, s) && r.value.pattern in patterns
  {
    if patterns == [] then None
    else
      var candidates := Candidates(patterns[0], s);
      if candidates != [] then Some(candidates[0]) else FirstMatch(s, patterns[1..])
  }

  /** `parse_bestfu_alias(alias, gfyear)`. */
  function BestFuAlias(alias: string, gfyear: int): Result<(string, string, int)>
    requires CaseModelled(alias)
  {
    match FirstMatch(Upper(alias), TitlePatterns)
    case None => Err(ValueError)
    case Some(c) => Resolve(c, Upper(alias), gfyear)
  }

  /** The loop body of `parse_bestfu_alias` once a pattern has matched:
      `get_period` of the `pre` and `post` groups, then the triple. */
  method ResolveMatch(c: Cut, s: string, gfyear: int) returns (r: Result<(string, string, int)>)
    requires Matches(c, s)
    ensures r == Resolve(c, s, gfyear)
  {
    var pre, post := PreText(c, s), PostText(c, s);
    PreShapedCaseModelled(pre);
    var period := GetPeriod(pre, post, gfyear);
    if period.Err? {
      return Err(period.error);
    }
    if c.pattern == Fu {
      var letter1, letter2 := Letter1Text(c, s), Letter2Text(c, s);
      return Ok((c.stem, c.stem + Native(letter1) + Native(letter2), period.value));
    }
    return Ok(("BEST", c.stem, period.value));
  }

  /** `parse_bestfu_alias`, with the source's loop over the patterns and its
      early return. */
  method ParseBestFuAlias(alias: string, gfyear: int) returns (r: Result<(string, string, int)>)
    requires CaseModelled(alias)
    ensures r == BestFuAlias(alias, gfyear)
  {
    var s := Upper(alias);
    for k := 0 to |TitlePatterns|
      invariant FirstMatch(s, TitlePatterns) == FirstMatch(s, TitlePatterns[k..])
    {
      var candidates := Candidates(TitlePatterns[k], s);
      if candidates != [] {
        var c := candidates[0];
        r := ResolveMatch(c, s, gfyear);
        return;
      }
      assert TitlePatterns[k..][1..] == TitlePatterns[k + 1..];
    }
    return Err(ValueError);
  }

  // ---------------------------------------------------------------------
  // The matcher misses no match

  lemma RunBound(t: string, k: nat)
    requires k <= |t| && forall i :: 0 <= i < k ==> IsPrefixChar(t[i])
    ensures k <= PrefixRun(t)
  {
  }

  /** Every length a `pre` group can have on s is tried. */
  lemma PreLengthsComplete(s: string, pre: string)
    requires PreShaped(pre) && |pre| <= |s| && s[..|pre|] == pre
    ensures |pre| in PreLengths(s)
  {
    var r := PreLengths(s);
    if pre == [] {
      assert r[|r| - 1] == 0;
    } else {
      assert s[0] == pre[0];
      RunBound(s[1..], |pre| - 1) by {
        forall i | 0 <= i < |pre| - 1 ensures IsPrefixChar(s[1..][i]) {
          assert s[1..][i] == pre[i + 1];
        }
      }
      var n := 1 + PrefixRun(s[1..]);
      assert r[n - |pre|] == |pre|;
    }
  }

  lemma {:induction false} BestCutsComplete(i: nat, n: nat, c: Cut)
    requires c.pattern == Best && c.pre == i && c.stem in BestRoots && c.letter1 == 0 && c.letter2 == 0
    requires n <= Rank(c)
    ensures c in BestCuts(i, n)
    decreases |BestRoots| - n
  {
    if Rank(c) != n {
      BestCutsComplete(i, n + 1, c);
    }
  }

  lemma {:induction false} FuCutsComplete(i: nat, n: nat, c: Cut)
    requires c.pattern == Fu && c.pre == i && c.stem in FuKinds
    requires 1 <= c.letter1 <= 2 && 1 <= c.letter2 <= 2
    requires n <= Position(FuKinds, c.stem)
    ensures c in FuCuts(i, n)
    decreases |FuKinds| - n
  {
    if Position(FuKinds, c.stem) != n {
      FuCutsComplete(i, n + 1, c);
    } else {
      assert c in FuLetterCuts(i, n);
    }
  }

  /** A cut that hits is among the cuts its pattern tries. */
  lemma CutsAtComplete(s: string, c: Cut)
    requires StemAllowed(c) && Hits(c, s)
    ensures c in CutsAt(c.pattern, c.pre)
  {
    if c.pattern == Best {
      BestCutsComplete(c.pre, 0, c);
    } else {
      FuCutsComplete(c.pre, 0, c);
    }
  }

  lemma {:induction false} TriedComplete(pattern: Pattern, lens: seq<nat>, c: Cut)
    requires forall j, k :: 0 <= j < k < |lens| ==> lens[j] > lens[k]
    requires c.pre in lens && c in CutsAt(pattern, c.pre)
    ensures c in Tried(pattern, lens)
  {
    if lens[0] != c.pre {
      TriedComplete(pattern, lens[1..], c);
    }
  }

  lemma {:induction false} HittingComplete(cs: seq<Cut>, s: string, c: Cut)
    requires c in cs && Hits(c, s)
    ensures c in Hitting(cs, s)
  {
    if cs[0] != c {
      HittingComplete(cs[1..], s, c);
    }
  }

  /** The candidate list holds every match of the pattern. */
  lemma CandidatesComplete(s: string, c: Cut)
    requires Matches(c, s)
    ensures c in Candidates(c.pattern, s)
  {
    PreLengthsComplete(s, s[..c.pre]);
    CutsAtComplete(s, c);
    TriedComplete(c.pattern, PreLengths(s), c);
    HittingComplete(Tried(c.pattern, PreLengths(s)), s, c);
  }
}
