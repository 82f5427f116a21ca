# tktitler in Dafny

A model of `tktitler.py`, the library that writes and reads the titles of a
student association's board (BEST) and its committee (FU). A title is a
root and a period, the year its holder was elected, such as (FORM, 2013).
It is written in one of these forms:

- relative to a reference year `gfyear`, with a prefix of step letters
  (`OFORM`: O counts three periods back);
- absolute, with a postfix of digits (`FORM13`, `FORM1314`, `FORM2013/2014`);
- as an e-mail local part, with æ/ø/å spelled as ae/oe/aa.

The library also reads these forms back: `get_period` reads a prefix and a
postfix, and `parse_bestfu_alias` reads a whole alias.

The model has nine modules:

- `Results`: the errors `ValueError` and `NotImplementedError`, and the
  `Result` and `Option` types.
- `Text`: Python's `str()` of an integer, `int()` of a run of digits, clamped
  slicing, and `str.upper()` on the alphabet titles use.
- `Replace`: `__multireplace` as a left-to-right scan that takes the longest
  key, `__funny_substitute` (KASS → KA$$), and the e-mail digraph table.
- `Format`: `prefix`, `kprefix`, `postfix` and `email`. The `type` selectors
  stay strings, so an unknown one gives the source's ValueError.
- `Periods`: `get_period`, both as the function `Period` and as the method
  `GetPeriod` with the source's loop over the prefix terms.
- `Alias`: `parse_bestfu_alias`. The regular expressions are modelled as the
  ordered list of ways each pattern can cut the alias. The order is the one
  Python's backtracking matcher uses:
  - the `pre` group from longest to empty;
  - the BEST roots from left to right;
  - EFU before FU;
  - for each letter, the one-character alternatives before the digraphs.

  The function `BestFuAlias` takes the first cut of that list. The method
  `ParseBestFuAlias` keeps the source's loop over `title_patterns` and its
  early return.
- `AliasFacts` and `RoundTrip`: what the parse promises, and the formatters
  read back by the parsers.
- `Doctests`: the docstring examples, as the model evaluates them.

Where a docstring and the code disagree, the model follows the code. The
docstring of `get_period` gives 2010 for `get_period("T30", "", 2016)`.
Under the code, T with exponent 30 goes thirty periods back, to 1986, and
`Doctests.T30IsThirtyBack` proves that value. 2010 is the value of `T3O`,
proved in `Doctests.T3OIsSixBack`.

## Model

| member | source | states |
|---|---|---|
| Text.NatToStringRoundTrip | tktitler.py:230 | `int` of the numeral `str(n)` gives n back |
| Text.DigitsValueConcat | tktitler.py:230 | a run of digits is worth the value of its front part shifted by the length of the rest, plus the value of the rest |
| Text.IntToStringLength4 | tktitler.py:74-75 | `len(str(p)) == 4` holds exactly for 1000..9999 and for -999..-100 |
| Text.YearSlices | tktitler.py:82-84 | for a four-digit year, `str(p)[2:4]` and `str(p+1)[2:4]` are the two-digit years of the century of p and p+1, 9999 → 00 included, and `str(p)[0:2]` is its century |
| Text.FourDigitNumeral | tktitler.py:88 | the numeral of a four-digit year is its century followed by its year of the century |
| Text.UpperIdempotent | tktitler.py:188 | upper-casing twice is upper-casing once |
| Replace.ChooseKey | tktitler.py:151-154 | the regex alternative taken at a position: none exactly when no key starts there; otherwise a key that starts there, and the longest one (the earliest in the dictionary's iteration order on a tie, which the source's two tables never produce) |
| Replace.MultiReplaceUntouched | tktitler.py:136-157 | a string in which no key occurs is returned as it is |
| Replace.FunnyFirstKass | tktitler.py:130-133 | the first KASS of a root becomes KA$$, the text before it is kept and the scan goes on after it |
| Replace.FunnyUntouched | tktitler.py:130-133 | a root without KASS is displayed unchanged |
| Replace.Digraph | tktitler.py:111-112 | the spelling of one character contains no æøåÆØÅ, and any other character is spelled as itself |
| Replace.EmailRootStep | tktitler.py:111-113 | the digraph scan replaces the first character on its own and goes on with the rest |
| Replace.EmailRootIsSpelled | tktitler.py:111-113 | `__multireplace` with the e-mail table equals the character-by-character reference spelling |
| Replace.EmailRootConcat | tktitler.py:111-113 | the e-mail spelling of a + b is the spelling of a followed by that of b |
| Replace.EmailRootHasNoNative | tktitler.py:111-113 | no æ, ø, å, Æ, Ø or Å is left in the e-mail spelling |
| Replace.EmailRootUntouched | tktitler.py:111-113 | a root without those six letters is spelled as it is |
| Format.Superscript | tktitler.py:29-31 | the superscript rendering has one glyph per digit |
| Format.Prefix | tktitler.py:14-47 | an error exactly when the type is neither normal nor unicode, and that error is a ValueError |
| Format.PrefixUnicodeIsSuperscripted | tktitler.py:26-47 | the unicode prefix is the plain prefix with its digits superscripted, followed by the substituted root |
| Format.KPrefix | tktitler.py:50-57 | an error exactly when the type is invalid; a successful result always starts with K |
| Format.Postfix | tktitler.py:67-94 | an error exactly when the period is not a four-digit year or the type is not one of the five, and that error is a ValueError |
| Format.PostfixCases | tktitler.py:79-94 | the five postfixes, in terms of the digits of p and p+1; the result does not depend on gfyear |
| Format.PostfixMatchesAsWritten | tktitler.py:74-75 | on non-negative periods the corrected check and the source's check give the same result |
| Format.PostfixAsWrittenAcceptsNegative | tktitler.py:74-75 | the source's check lets (CERM, -123) through as CERM23; the corrected check refuses it |
| Format.Email | tktitler.py:101-123 | an error exactly when the period is not a four-digit year or the type is neither postfix nor prefix, and that error is a ValueError |
| Format.EmailCases | tktitler.py:115-123 | POSTFIX gives the spelled root and the two-digit year; PREFIX gives the plain age prefix and then the spelled root |
| Format.EmailMatchesAsWritten | tktitler.py:108-109 | on non-negative periods the corrected check and the source's check give the same result |
| Format.EmailAsWrittenAcceptsNegative | tktitler.py:108-109 | the source's check lets period -123 through for every root; the corrected check refuses it |
| Format.EmailHasNoNative | tktitler.py:111-123 | no e-mail form contains æ, ø, å, Æ, Ø or Å |
| Periods.DigitRun | tktitler.py:229 | `[0-9]*` taken greedily: all digits, followed by the end or by a non-digit |
| Periods.PrefixShapedIff | tktitler.py:189-190 | the prefix regex accepts exactly the strings of step letters and digits that are empty or start with a step letter (both directions) |
| Periods.TermsConcat | tktitler.py:229 | the terms `findall` yields for a + b are those of a followed by those of b |
| Periods.GradConcat | tktitler.py:228-231 | the weighted sum of two runs of terms is the sum of their sums |
| Periods.SingleTerm | tktitler.py:227-231 | one step letter with exponent digits is worth its weight times the exponent, and 1 when the exponent is empty |
| Periods.SumTerms | tktitler.py:228-231 | the loop's `grad` is the weighted sum of all the terms |
| Periods.GetPeriod | tktitler.py:159-233 | the method with the source's loop returns exactly the specification `Period` |
| Periods.ResolveTwoDigits | tktitler.py:217-222 | a two-digit postfix y is 1900+y above 56 and 2000+y otherwise |
| Periods.ResolveFourDigits | tktitler.py:197-216 | four digits ab cd, in the source's order: 2021 is a NotImplementedError, then consecutive years resolve ab by the century rule, then 19xx/20xx are literal years, and anything else is a ValueError |
| Periods.ResolvePostfixRange | tktitler.py:194-224 | a non-empty postfix that resolves names a year of 1900..2099, whatever gfyear is |
| Periods.PeriodIgnoresCase | tktitler.py:188 | the prefix is read the same in either case |
| Periods.PeriodRejects | tktitler.py:188-192 | a character other than a step letter or digit in the prefix, or a postfix that is not 0, 2 or 4 digits, is a ValueError |
| Alias.PostRead | tktitler.py:248 | the `post` group reaches the end of the alias or the one final newline that `$` allows, and it matches exactly when its text has 0, 2 or 4 digits |
| Alias.AliasSpells | tktitler.py:256 | the groups of a cut spell the alias, up to a final newline |
| Alias.RootSpells | tktitler.py:265 | the `root` group is the kind followed by the two letters (the source's assert) |
| Alias.MatchShapes | tktitler.py:247-254 | each group of a match fits its sub-pattern: a BEST root and no letters, or E?FU and two `letter`s |
| Alias.GroupsMatch | tktitler.py:247-256 | conversely, groups of text that spell the alias and fit the sub-patterns are a match with those groups |
| Alias.PreLengths | tktitler.py:247 | the `pre` lengths tried: strictly decreasing, ending with 0, each one a valid `pre` group |
| Alias.PreLengthsComplete | tktitler.py:247 | every length a `pre` group can have on the alias is tried |
| Alias.Candidates | tktitler.py:255-257 | the candidate list holds only matches of the pattern, in the matcher's order |
| Alias.CandidatesComplete | tktitler.py:255-257 | every match of the pattern is in the candidate list |
| Alias.FirstMatch | tktitler.py:255-258 | a cut that is taken is a match of one of the patterns |
| Alias.ResolveMatch | tktitler.py:258-272 | the loop body returns the (kind, root, period) triple for the match, or the error of `get_period` |
| Alias.ParseBestFuAlias | tktitler.py:236-273 | the method with the source's loop and early return gives exactly `BestFuAlias` |
| AliasFacts.FirstMatchNone | tktitler.py:255-273 | nothing is taken exactly when no cut of any pattern matches (both directions) |
| AliasFacts.BestFirst | tktitler.py:251-255 | the match taken is a BEST match exactly when the alias has one |
| AliasFacts.TakenFirst | tktitler.py:247-257 | the match taken precedes every other match of its pattern in the matcher's order |
| AliasFacts.LongestPre | tktitler.py:247 | the `pre` group taken is at least as long as that of any match of the same pattern |
| AliasFacts.BestDetermined | tktitler.py:252 | two BEST matches with the same `pre` length are the same cut |
| AliasFacts.PreStops | tktitler.py:247 | a `pre` group stops before the first character that is not a step letter or digit |
| AliasFacts.BestAfterPre | tktitler.py:247-257 | a BEST root not starting with a step letter, after a valid `pre` run, is taken with exactly that run as `pre` |
| AliasFacts.RefusedWithoutMatch | tktitler.py:273 | an alias that nothing matches is a ValueError |
| AliasFacts.SplitIsMatched | tktitler.py:255-257 | an alias that can be split into fitting groups is not refused for lack of a match |
| AliasFacts.PreShapedPrefix | tktitler.py:259 | a `pre` group passes `get_period`'s prefix check |
| AliasFacts.NativeLetter | tktitler.py:250 | a letter read through `letter_map` is one character of `[A-Z]`, Æ, Ø, Å |
| AliasFacts.ResolveShape | tktitler.py:258-272 | a resolved match gives BEST and a BEST root exactly for the BEST pattern, or E?FU and two single letters, with the period of its groups |
| AliasFacts.ParsedShape | tktitler.py:236-273 | a successful parse is ('BEST', one of the eight roots) or (E?FU, E?FU and two letters of `[A-Z]`/Æ/Ø/Å) |
| AliasFacts.ParsedPeriod | tktitler.py:259 | the period of a successful parse is what `get_period` gives for the `pre` and `post` groups of the match taken, whose groups spell the alias |
| AliasFacts.ShortPostfixPeriod | tktitler.py:259 | `get_period` accepts a `pre` group with a `post` group of at most two digits |
| AliasFacts.ShortPostfixResolved | tktitler.py:259 | a match whose `post` group has at most two digits always resolves |
| AliasFacts.ShortPostfixAccepted | tktitler.py:255-272 | an alias with a match is refused only for a four-digit `post` group |
| RoundTrip.PeriodOfPostfix | tktitler.py:194-224 | with an empty prefix, the period is the year a well-formed postfix names |
| RoundTrip.PeriodOfPrefix | tktitler.py:194-195 | a valid prefix with an empty postfix reads as gfyear minus its terms |
| RoundTrip.PrefixPair | tktitler.py:228-231 | two valid prefixes one after the other make a valid prefix worth the sum of their values |
| RoundTrip.FutureAgeValue | tktitler.py:42-43 | K and the digits of -age is a valid prefix worth age |
| RoundTrip.TableAgeValue | tktitler.py:41-45 | the table entries K, "", G, B, O, TO are valid prefixes worth -1..4 |
| RoundTrip.OldAgeValue | tktitler.py:46-47 | T, the digits of age-3, then O is a valid prefix worth age |
| RoundTrip.AgeTextValue | tktitler.py:41-47 | every plain age text is a valid prefix whose terms add up to the age |
| RoundTrip.AgeTextPeriod | tktitler.py:41-47 | the plain age text for gfyear - p reads back as p |
| RoundTrip.PlainPrefixValue | tktitler.py:22-47 | the plain prefix of a title with an empty root is the age text |
| RoundTrip.PrefixRoundTrip | tktitler.py:14-47 | `get_period(prefix(("", p), g), "", g) == p` for every p and g |
| RoundTrip.KAgeTextPeriod | tktitler.py:56-57 | K before the age text of the period before reads back as the period |
| RoundTrip.KPrefixRoundTrip | tktitler.py:50-57 | `get_period(kprefix(("", p), g), "", g) == p` for every p and g |
| RoundTrip.TwoDigitPeriod | tktitler.py:217-222 | a two-digit postfix alone gives the century rule's year |
| RoundTrip.PostfixSingleRoundTrip | tktitler.py:81-82 | the single postfix reads back as its period for 1957..2056 |
| RoundTrip.FourDigitPeriod | tktitler.py:197-216 | a four-digit postfix alone gives the year the source's checks choose |
| RoundTrip.ConsecutiveYears | tktitler.py:206-211 | the year-of-century digits of p and p+1 are consecutive mod 100, and the century rule gives p back, for 1957..2056 |
| RoundTrip.PostfixDoubleRoundTrip | tktitler.py:83-84 | the double postfix reads back as its period for 1957..2056, except 2020, whose 2021 is a NotImplementedError |
| RoundTrip.PostfixLongSingleRoundTrip | tktitler.py:87-88 | the long single postfix reads back for 1900..2099, except that 2021 is a NotImplementedError and 1920 reads as 2019 |
| RoundTrip.PostfixSlashNotReadBack | tktitler.py:85-86 | the slash postfix is a ValueError for `get_period` |
| RoundTrip.AgeTextIsPre | tktitler.py:247 | every plain age text fits the alias `pre` group |
| RoundTrip.BestRootText | tktitler.py:252 | the BEST roots are upper-case ASCII, and only KASS starts with a step letter |
| RoundTrip.BestPrefixValue | tktitler.py:22-47 | the prefix of a BEST title other than KASS is the age text and then the root |
| RoundTrip.BestPrefixResolved | tktitler.py:258-272 | the cut with the age text as `pre` and the root resolves to ('BEST', root, p) |
| RoundTrip.BestPrefixParses | tktitler.py:236-273 | `parse_bestfu_alias(prefix((root, p), g), g) == ('BEST', root, p)` for every BEST root but KASS |
| RoundTrip.BestPreParses | tktitler.py:247-272 | a BEST root other than KASS after a `pre` run that reads as period p parses as ('BEST', root, p) |
| RoundTrip.KPrefixBestParses | tktitler.py:50-57 | `parse_bestfu_alias(kprefix((root, p), g), g) == ('BEST', root, p)` for every BEST root but KASS: the leading K joins the `pre` group and cancels the shifted period |
| Doctests.EmptyIsReferenceYear | tktitler.py:165-166 | `get_period("", "", 2016)` is 2016 |
| Doctests.BestIsTwoBack | tktitler.py:168-169 | `get_period("B", "", 2016)` is 2014 |
| Doctests.T30IsThirtyBack | tktitler.py:170-171 | under the code `get_period("T30", "", 2016)` is 1986, not the 2010 the docstring gives |
| Doctests.G2B2IsSixBack | tktitler.py:172-173 | `get_period("G2B2", "", 2016)` is 2010 |
| Doctests.T3OIsSixBack | tktitler.py:228-231 | `get_period("T3O", "", 2016)` is 2010 |
| Doctests.TwoTermPeriod | tktitler.py:228-231 | two terms with an empty postfix read as gfyear minus both their values |
| Doctests.LiteralYear | tktitler.py:176-177 | `get_period("", "2010", 2016)` is 2010 |
| Doctests.TwoDigitYear | tktitler.py:178-179 | `get_period("", "10", 2017)` is 2010 |
| Doctests.DoubleYear | tktitler.py:180-181 | `get_period("", "1011", 2018)` is 2010 |
| Doctests.PrefixAndPostfix | tktitler.py:184-185 | `get_period("O", "2016", 2030)` is 2013 |
| Doctests.Postfix2021Refused | tktitler.py:203-205 | the postfix 2021 is a NotImplementedError |
| Doctests.CenturyBoundary | tktitler.py:217-222 | 56 reads as 2056 and 57 as 1957 |
| Doctests.OIsThreeBack | tktitler.py:227 | `get_period("O", "", 2016)` is 2013 |
| Doctests.OformCut | tktitler.py:247-257 | OFORM is cut as `pre` O and the BEST root FORM |
| Doctests.OformIsBestForm | tktitler.py:242-243 | `parse_bestfu_alias('OFORM', 2016)` is ('BEST', 'FORM', 2013) |
| Doctests.FuaaaCut | tktitler.py:249-253 | FUAAA is cut as FU, A, AA: the one-character first letter is tried first |
| Doctests.FuaaaIsFuAAring | tktitler.py:261-270 | `parse_bestfu_alias('FUAAA', 2016)` is ('FU', 'FUAÅ', 2016) |
| Doctests.FuhoeEmail | tktitler.py:115-123 | `email(("FUHØ", 2011), 2016, "prefix")` is T2OFUHOE |
| Doctests.T2OIsFiveBack | tktitler.py:228-231 | `get_period("T2O", "", 2016)` is 2011 |
| Doctests.FuhoeCut | tktitler.py:249-253 | T2OFUHOE is cut as `pre` T2O, FU, H and the digraph OE: O alone would leave an E that is no `post` group |
| Doctests.FuhoeParses | tktitler.py:261-270 | `parse_bestfu_alias('T2OFUHOE', 2016)` is ('FU', 'FUHØ', 2011) |
| Doctests.FuhoeEmailReadBack | tktitler.py:249-250 | the e-mail prefix form of (FUHØ, 2011) parses back as that title |
| Doctests.FuaaEmailNotReadBack | tktitler.py:249-250 | the e-mail prefix form of (FUÅA, 2016) is FUAAA, which parses as FUAÅ: the e-mail form does not always read back |

## Left out

- The `isinstance` checks that raise TypeError (tktitler.py:17-20, 70-73, 104-107): Dafny's types make them vacuous.
- Error messages: only the kind of error is modelled.
- `parse` (tktitler.py:126-127) returns None and does nothing else, so there is nothing to model.
- The module default `gfyear = 2016` (tktitler.py:7) is only a default argument value; the model always passes the reference year explicitly.
- Periods.Period: requires the prefix to be `CaseModelled` (ASCII, æøåÆØÅ and the superscript digits), because `Upper` models `str.upper()` only on that alphabet.
- Alias.BestFuAlias: requires the alias to be `CaseModelled`, for the same reason; full Unicode case mapping is not modelled.
- Replace.MultiReplace: requires a dictionary without an empty key. Both of the source's dictionaries meet this, and an empty key would change how the regex behaves.
- Periods.Terms: `re.findall` is modelled only on prefixes that passed the prefix check, which is the only place the source applies it.
- Python's regex engine is not modelled in general. Each pattern is modelled by the ordered list of cuts the backtracking matcher tries.
- RoundTrip.BestPrefixParses: excludes KASS. Its prefix is written with KA$$, and the parse reads the K as a step letter and then finds no root, so the round trip fails for it.
- The slash and long-slash postfixes are not read back by any parser in the source. The model proves that `get_period` refuses the slash postfix (RoundTrip.PostfixSlashNotReadBack).
- No general round trip is proved for the unicode prefix. `get_period` reads it back only when it has no digits, which covers ages -1 to 4.
- No general round trip is proved for the e-mail forms. `parse_bestfu_alias` reads the digraphs AE/OE/AA back as Æ/Ø/Å, and the model proves one example, T2OFUHOE → (FU, FUHØ, 2011) (Doctests.FuhoeEmailReadBack). It also proves that the round trip fails in general: FUÅA and FUAÅ are both spelled FUAAA, and FUAAA parses as FUAÅ (Doctests.FuaaEmailNotReadBack).

## Findings

| source | as written | input that shows it | evidently intended | confidence | as-written member | corrected member |
|---|---|---|---|---|---|---|
| tktitler.py:74-75 | `len(str(period)) == 4` accepts -999..-100, whose numeral has a minus sign and three digits | `postfix(("CERM", -123), type="single")` gives `CERM23` | only four-digit years pass, and others are a ValueError | not executed | Format.PostfixAsWrittenAcceptsNegative | Format.Postfix |
| tktitler.py:108-109 | the same check in `email` accepts -999..-100 | `email((root, -123))` gives the spelled root followed by `23` | only four-digit years pass, and others are a ValueError | not executed | Format.EmailAsWrittenAcceptsNegative | Format.Email |
