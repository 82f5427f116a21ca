/** Literal substitution of a dictionary of strings, scanning left to right
    (tktitler.py's `__multireplace`), and its two uses: the KASS display form
    and the e-mail digraphs. */
module Replace {

  import opened Results

  /** A replacement dictionary, as its items in the dictionary's iteration
      order. */
  type Replacements = seq<(string, string)>

  predicate StartsWith(s: string, key: string) {
    |key| <= |s| && s[..|key|] == key
  }

  /** The source's dictionaries have no empty key; an empty key would make
      the alternation regex match the empty string. */
  predicate NonEmptyKeys(reps: Replacements) {
    forall k :: 0 <= k < |reps| ==> reps[k].0 != []
  }

  /** The alternative the regex `k1|k2|...` takes at the start of s, among
      the first n items: the keys are sorted longest first (a stable sort)
      and the first alternative that matches wins, so it is the longest key
      that s starts with, the earliest one in iteration order on a tie. The
      source's two tables never have two keys of the same length that start
      at the same position, so the tie rule is never used on them. */
  function ChooseKey(s: string, reps: Replacements, n: nat): (r: Option<nat>)
    requires n <= |reps|
    ensures r.None? <==> forall k :: 0 <= k < n ==> !StartsWith(s, reps[k].0)
    ensures r.Some? ==> r.value < n && StartsWith(s, reps[r.value].0)
    ensures r.Some? ==> forall k :: 0 <= k < n && StartsWith(s, reps[k].0) ==>
      |reps[k].0| < |reps[r.value].0| || (|reps[k].0| == |reps[r.value].0| && r.value <= k)
  {
    if n == 0 then None
    else
      var best := ChooseKey(s, reps, n - 1);
      if StartsWith(s, reps[n - 1].0) && (best.None? || |reps[best.value].0| < |reps[n - 1].0|)
      then Some(n - 1)
      else best
  }

  /** `regexp.sub(lambda m: replacements[m.group(0)], s)`: every
      non-overlapping occurrence, leftmost first, is replaced by its value. */
  function MultiReplace(s: string, reps: Replacements): string
    requires NonEmptyKeys(reps)
    decreases |s|
  {
    if s == [] then []
    else match ChooseKey(s, reps, |reps|)
      case Some(k) => reps[k].1 + MultiReplace(s[|reps[k].0|..], reps)
      case None => [s[0]] + MultiReplace(s[1..], reps)
  }

  /** No key occurs anywhere in s. */
  predicate NoKeyIn(s: string, reps: Replacements) {
    forall i, k :: 0 <= i < |s| && 0 <= k < |reps| ==> !StartsWith(s[i..], reps[k].0)
  }

  /** A string in which no key occurs is left as it is. */
  lemma {:induction false} MultiReplaceUntouched(s: string, reps: Replacements)
    requires NonEmptyKeys(reps) && NoKeyIn(s, reps)
    ensures MultiReplace(s, reps) == s
  {
    if s != [] {
      assert s[0..] == s;
      assert ChooseKey(s, reps, |reps|).None?;
      assert NoKeyIn(s[1..], reps) by {
        forall i, k | 0 <= i < |s[1..]| && 0 <= k < |reps|
          ensures !StartsWith(s[1..][i..], reps[k].0)
        {
          assert s[1..][i..] == s[i + 1..];
        }
      }
      MultiReplaceUntouched(s[1..], reps);
    }
  }

  // ---------------------------------------------------------------------
  // The KASS display form (`__funny_substitute`)

  const FunnyTable: Replacements := [("KASS", "KA$$")]

  function FunnySubstitute(root: string): string {
    MultiReplace(root, FunnyTable)
  }

  predicate NoKass(s: string) {
    forall i :: 0 <= i < |s| ==> !StartsWith(s[i..], "KASS")
  }

  /** A string without the letter K has no KASS in it. */
  lemma NoKassWithoutK(s: string)
    requires forall i :: 0 <= i < |s| ==> s[i] != 'K'
    ensures NoKass(s)
  {
    forall i | 0 <= i < |s| ensures !StartsWith(s[i..], "KASS") {
      assert s[i..][0] == s[i];
    }
  }

  /** A root without KASS is displayed as it is. */
  lemma FunnyUntouched(root: string)
    requires NoKass(root)
    ensures FunnySubstitute(root) == root
  {
    MultiReplaceUntouched(root, FunnyTable);
  }

  /** The first KASS of a root becomes KA$$ and the scan goes on after it;
      KASS cannot overlap itself, so no earlier occurrence can straddle it. */
  lemma {:induction false} FunnyFirstKass(a: string, b: string)
    requires NoKass(a)
    ensures FunnySubstitute(a + "KASS" + b) == a + "KA$$" + FunnySubstitute(b)
  {
    var s := a + "KASS" + b;
    if a == [] {
      assert s == "KASS" + b;
      assert StartsWith(s, "KASS");
      assert s[4..] == b;
    } else {
      assert !StartsWith(s, "KASS") by {
        if |a| >= 4 {
          assert a[0..] == a;
          assert s[..4] == a[..4];
        } else {
          assert s[|a|] == 'K';
        }
      }
      assert ChooseKey(s, FunnyTable, 1).None?;
      assert s[1..] == a[1..] + "KASS" + b;
      assert NoKass(a[1..]) by {
        forall i | 0 <= i < |a[1..]| ensures !StartsWith(a[1..][i..], "KASS") {
          assert a[1..][i..] == a[i + 1..];
        }
      }
      FunnyFirstKass(a[1..], b);
    }
  }

  // ---------------------------------------------------------------------
  // The e-mail digraphs

  const EmailTable: Replacements :=
    [("æ", "ae"), ("ø", "oe"), ("å", "aa"), ("Æ", "AE"), ("Ø", "OE"), ("Å", "AA")]

  predicate IsNative(c: char) {
    c in "æøåÆØÅ"
  }

  /** The ASCII spelling of one character: a digraph for the six Danish
      letters, the character itself otherwise. */
  function Digraph(c: char): (r: string)
    ensures forall i :: 0 <= i < |r| ==> !IsNative(r[i])
    ensures !IsNative(c) ==> r == [c]
  {
    match c
    case 'æ' => "ae"
    case 'ø' => "oe"
    case 'å' => "aa"
    case 'Æ' => "AE"
    case 'Ø' => "OE"
    case 'Å' => "AA"
    case _ => [c]
  }

  function EmailRoot(root: string): string {
    MultiReplace(root, EmailTable)
  }

  /** Every key has one character, so the scan replaces each character on
      its own. */
  lemma EmailRootStep(c: char, s: string)
    ensures EmailRoot([c] + s) == Digraph(c) + EmailRoot(s)
  {
    var t := [c] + s;
    assert t[1..] == s;
    assert t[..1] == [c];
    var k := ChooseKey(t, EmailTable, |EmailTable|);
    forall j | 0 <= j < |EmailTable|
      ensures StartsWith(t, EmailTable[j].0) <==> EmailTable[j].0 == [c]
    {
      assert |EmailTable[j].0| == 1;
    }
    if IsNative(c) {
      var j :| 0 <= j < |EmailTable| && EmailTable[j].0 == [c] by {
        if c == 'æ' { assert EmailTable[0].0 == [c]; }
        else if c == 'ø' { assert EmailTable[1].0 == [c]; }
        else if c == 'å' { assert EmailTable[2].0 == [c]; }
        else if c == 'Æ' { assert EmailTable[3].0 == [c]; }
        else if c == 'Ø' { assert EmailTable[4].0 == [c]; }
        else { assert EmailTable[5].0 == [c]; }
      }
      assert k.Some?;
      assert EmailTable[k.value].1 == Digraph(c);
    } else {
      assert k.None?;
    }
  }

  /** The reference reading of the e-mail form: each character spelled on
      its own. */
  function Spelled(s: string): string {
    if s == [] then [] else Digraph(s[0]) + Spelled(s[1..])
  }

  /** The scan of `__multireplace` over the e-mail table spells each
      character on its own. */
  lemma {:induction false} EmailRootIsSpelled(s: string)
    ensures EmailRoot(s) == Spelled(s)
  {
    if s != [] {
      assert s == [s[0]] + s[1..];
      EmailRootStep(s[0], s[1..]);
      EmailRootIsSpelled(s[1..]);
    }
  }

  lemma {:induction false} SpelledConcat(a: string, b: string)
    ensures Spelled(a + b) == Spelled(a) + Spelled(b)
  {
    if a == [] {
      assert a + b == b;
    } else {
      assert (a + b)[1..] == a[1..] + b;
      SpelledConcat(a[1..], b);
    }
  }

  /** The digraph expansion works character by character. */
  lemma EmailRootConcat(a: string, b: string)
    ensures EmailRoot(a + b) == EmailRoot(a) + EmailRoot(b)
  {
    EmailRootIsSpelled(a + b);
    EmailRootIsSpelled(a);
    EmailRootIsSpelled(b);
    SpelledConcat(a, b);
  }

  lemma {:induction false} SpelledHasNoNative(s: string)
    ensures forall i :: 0 <= i < |Spelled(s)| ==> !IsNative(Spelled(s)[i])
  {
    if s != [] {
      SpelledHasNoNative(s[1..]);
    }
  }

  /** No æ, ø, å, Æ, Ø or Å is left in the e-mail form. */
  lemma EmailRootHasNoNative(s: string)
    ensures forall i :: 0 <= i < |EmailRoot(s)| ==> !IsNative(EmailRoot(s)[i])
  {
    EmailRootIsSpelled(s);
    SpelledHasNoNative(s);
  }

  lemma {:induction false} SpelledUntouched(s: string)
    requires forall i :: 0 <= i < |s| ==> !IsNative(s[i])
    ensures Spelled(s) == s
  {
    if s != [] {
      SpelledUntouched(s[1..]);
    }
  }

  /** Every other character is left untouched. */
  lemma EmailRootUntouched(s: string)
    requires forall i :: 0 <= i < |s| ==> !IsNative(s[i])
    ensures EmailRoot(s) == s
  {
    EmailRootIsSpelled(s);
    SpelledUntouched(s);
  }
}
