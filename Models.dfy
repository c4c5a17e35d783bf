/**
 * recipes/models.py: the ingredient-name parsing and pantry scoring of
 * `Recipe`, and the integer part of its `visual_dna`.
 */
module Models {
  import opened PyStr
  import opened Patterns

  /** Characters `ingredient_names` cuts from both ends of a name (models.py:96). */
  const NameEdge: set<char> := {'[', ']', '\'', '"', '\\', ' ', '\t'}

  /** The same set without the backslash, as `match_score` (models.py:112) and
      `recipe_detail` (views.py:299) use it. */
  const QuoteEdge: set<char> := {'[', ']', '\'', '"', ' ', '\t'}

  // ---------------------------------------------------------------- ingredient_names

  /** One comma-separated part as `ingredient_names` cleans it: annotations in
      parentheses removed, whitespace stripped, then brackets, quotes, backslashes,
      spaces and tabs stripped. */
  function CleanName(part: string): (r: string)
    ensures Stripped(r, NameEdge) && |r| <= |part|
  {
    Strip(Strip(RemoveGroups(part), Whitespace), NameEdge)
  }

  /** Every part cleaned, in order. */
  function CleanAll(parts: seq<string>): seq<string>
  {
    seq(|parts|, k requires 0 <= k < |parts| => CleanName(parts[k]))
  }

  /** The non-empty strings of `xs`, in order. */
  function NonEmpty(xs: seq<string>): seq<string>
  {
    if xs == [] then []
    else NonEmpty(xs[..|xs| - 1]) + (if xs[|xs| - 1] == "" then [] else [xs[|xs| - 1]])
  }

  /** The names `ingredient_names` keeps from `parts`: each part cleaned, the empty ones dropped. */
  function KeptNames(parts: seq<string>): seq<string>
  {
    NonEmpty(CleanAll(parts))
  }

  /** The value of the `Recipe.ingredient_names` property. */
  function IngredientNamesOf(raw: string): seq<string> {
    KeptNames(Split(raw, ','))
  }

  /** `Recipe.ingredient_names`: loops over the comma-separated parts of
      `ingredients_raw` and appends each non-empty cleaned name. */
  method IngredientNames(raw: string) returns (names: seq<string>)
    ensures names == IngredientNamesOf(raw)
    ensures forall k :: 0 <= k < |names| ==> names[k] != "" && Stripped(names[k], NameEdge)
  {
    var parts := Split(raw, ',');
    ghost var cleaned := CleanAll(parts);
    names := [];
    var i: nat := 0;
    while i < |parts|
      invariant i <= |parts|
      invariant names == NonEmpty(cleaned[..i])
    {
      var clean := CleanName(parts[i]);
      if clean != "" {
        names := names + [clean];
      }
      NonEmptyStep(cleaned, i);
      i := i + 1;
    }
    assert cleaned[..|parts|] == cleaned;
    KeptNamesClean(parts);
  }

  /** One more string extends the non-empty ones by that string, if it is not empty. */
  lemma NonEmptyStep(xs: seq<string>, i: nat)
    requires i < |xs|
    ensures NonEmpty(xs[..i + 1]) == NonEmpty(xs[..i]) + (if xs[i] == "" then [] else [xs[i]])
  {
    assert xs[..i + 1][..i] == xs[..i];
  }

  /** Where each kept string comes from: the indices of the non-empty strings. */
  function NonEmptyIndices(xs: seq<string>): seq<nat>
  {
    if xs == [] then []
    else
      var n := |xs| - 1;
      NonEmptyIndices(xs[..n]) + (if xs[n] == "" then [] else [n])
  }

  /** The k-th kept string is the non-empty string of `xs` at index `NonEmptyIndices(xs)[k]`. */
  lemma {:induction false} NonEmptyOrigin(xs: seq<string>)
    ensures |NonEmptyIndices(xs)| == |NonEmpty(xs)| <= |xs|
    ensures forall k :: 0 <= k < |NonEmptyIndices(xs)| ==>
              NonEmptyIndices(xs)[k] < |xs| && NonEmpty(xs)[k] == xs[NonEmptyIndices(xs)[k]] != ""
  {
    if xs != [] {
      var n := |xs| - 1;
      NonEmptyOrigin(xs[..n]);
    }
  }

  /** The indices strictly increase. */
  lemma {:induction false} NonEmptyIndicesIncrease(xs: seq<string>)
    ensures forall k :: 0 <= k < |NonEmptyIndices(xs)| ==> NonEmptyIndices(xs)[k] < |xs|
    ensures forall k, l :: 0 <= k < l < |NonEmptyIndices(xs)| ==> NonEmptyIndices(xs)[k] < NonEmptyIndices(xs)[l]
  {
    if xs != [] {
      NonEmptyIndicesIncrease(xs[..|xs| - 1]);
    }
  }

  /** Every index left out holds the empty string. */
  lemma {:induction false} NonEmptyIndicesComplete(xs: seq<string>)
    ensures forall j :: 0 <= j < |xs| && j !in NonEmptyIndices(xs) ==> xs[j] == ""
  {
    if xs != [] {
      var n := |xs| - 1;
      var front := xs[..n];
      NonEmptyIndicesComplete(front);
      assert NonEmptyIndices(xs) == NonEmptyIndices(front) + (if xs[n] == "" then [] else [n]);
      forall j | 0 <= j < n && j !in NonEmptyIndices(xs) ensures xs[j] == "" {
        assert front[j] == xs[j];
      }
    }
  }

  /** A list without empty strings keeps all of them. */
  lemma {:induction false} NonEmptyAll(xs: seq<string>)
    requires forall k :: 0 <= k < |xs| ==> xs[k] != ""
    ensures NonEmpty(xs) == xs
  {
    if xs != [] {
      var n := |xs| - 1;
      NonEmptyAll(xs[..n]);
      assert xs[..n] + [xs[n]] == xs;
    }
  }

  /** Every kept name is non-empty and has none of the cut characters at either end. */
  lemma KeptNamesClean(parts: seq<string>)
    ensures forall k :: 0 <= k < |KeptNames(parts)| ==>
              KeptNames(parts)[k] != "" && Stripped(KeptNames(parts)[k], NameEdge)
  {
    NonEmptyOrigin(CleanAll(parts));
  }

  /** Where each kept name comes from: the indices of the parts that clean to a non-empty name. */
  function KeptIndices(parts: seq<string>): seq<nat>
  {
    NonEmptyIndices(CleanAll(parts))
  }

  /** `ingredient_names` keeps at most one name per part and keeps the parts' order:
      the k-th name is the cleaned part at index `KeptIndices(parts)[k]`. */
  lemma KeptNamesOrigin(parts: seq<string>)
    ensures |KeptIndices(parts)| == |KeptNames(parts)| <= |parts|
    ensures forall k :: 0 <= k < |KeptIndices(parts)| ==>
              KeptIndices(parts)[k] < |parts| && KeptNames(parts)[k] == CleanName(parts[KeptIndices(parts)[k]])
  {
    NonEmptyOrigin(CleanAll(parts));
  }

  /** The kept indices strictly increase, so the names keep the parts' order. */
  lemma KeptIndicesIncrease(parts: seq<string>)
    ensures forall k :: 0 <= k < |KeptIndices(parts)| ==> KeptIndices(parts)[k] < |parts|
    ensures forall k, l :: 0 <= k < l < |KeptIndices(parts)| ==> KeptIndices(parts)[k] < KeptIndices(parts)[l]
  {
    NonEmptyIndicesIncrease(CleanAll(parts));
  }

  /** Every part that is left out cleans to the empty string. */
  lemma KeptIndicesComplete(parts: seq<string>)
    ensures forall j :: 0 <= j < |parts| && j !in KeptIndices(parts) ==> CleanName(parts[j]) == ""
  {
    NonEmptyIndicesComplete(CleanAll(parts));
  }

  /** No brackets, quotes or blanks are letters. */
  lemma EdgesHaveNoLetters()
    ensures NoLetters(NameEdge) && NoLetters(QuoteEdge) && NoLetters(Whitespace)
  {
    WhitespaceHasNoLetters();
  }

  /** A word that begins and ends with a letter is stripped of any letter-free set. */
  lemma WordStripped(w: string, cs: set<char>)
    requires NoLetters(cs) && w != [] && IsLetter(w[0]) && IsLetter(w[|w| - 1])
    ensures Stripped(w, cs)
  {
  }

  /** A word that begins and ends with a letter is its own clean name, after any blank padding. */
  lemma CleanWord(part: string, pad: string, w: string)
    requires RemoveGroups(part) == pad + w
    requires forall k :: 0 <= k < |pad| ==> pad[k] in Whitespace
    requires w != [] && IsLetter(w[0]) && IsLetter(w[|w| - 1])
    ensures CleanName(part) == w
  {
    EdgesHaveNoLetters();
    WordStripped(w, Whitespace);
    WordStripped(w, NameEdge);
    StripPadded(pad, w, Whitespace);
    StrippedIsFixpoint(w, NameEdge);
  }

  lemma CleanTomato()
    ensures CleanName("Tomato (2)") == "Tomato"
  {
    assert "Tomato" + " " + "(" + "2" + ")" == "Tomato (2)";
    RemoveGroupsAnnotated("Tomato", " ", "2");
    EdgesHaveNoLetters();
    WordStripped("Tomato", Whitespace);
    WordStripped("Tomato", NameEdge);
    StrippedIsFixpoint("Tomato", Whitespace);
    StrippedIsFixpoint("Tomato", NameEdge);
  }

  lemma CleanOnion()
    ensures CleanName(" Onion (1)") == "Onion"
  {
    assert " Onion" + " " + "(" + "1" + ")" == " Onion (1)";
    RemoveGroupsAnnotated(" Onion", " ", "1");
    assert " Onion" == " " + "Onion";
    CleanWord(" Onion (1)", " ", "Onion");
  }

  lemma CleanOil()
    ensures CleanName(" Oil") == "Oil"
  {
    RemoveGroupsNoParen(" Oil");
    assert " Oil" == " " + "Oil";
    CleanWord(" Oil", " ", "Oil");
  }

  /** Stripping a stripped word with leading padding gives the word. */
  lemma StripPadded(pad: string, word: string, cs: set<char>)
    requires forall k :: 0 <= k < |pad| ==> pad[k] in cs
    requires Stripped(word, cs)
    ensures Strip(pad + word, cs) == word
  {
    var s := pad + word;
    assert s[|pad|..|s|] == word;
    StripUnique(s, cs, |pad|, |s|);
  }

  /** Parts that all clean to non-empty names are all kept, in order. */
  lemma KeptAll(parts: seq<string>, names: seq<string>)
    requires |names| == |parts|
    requires forall k :: 0 <= k < |parts| ==> CleanName(parts[k]) == names[k] != ""
    ensures KeptNames(parts) == names
  {
    assert CleanAll(parts) == names;
    NonEmptyAll(names);
  }

  lemma KeptThree(a: string, b: string, c: string)
    requires CleanName(a) != "" && CleanName(b) != "" && CleanName(c) != ""
    ensures KeptNames([a, b, c]) == [CleanName(a), CleanName(b), CleanName(c)]
  {
    var p := [a, b, c];
    var r := CleanAll(p);
    NonEmptyThree(r, CleanName(a), CleanName(b), CleanName(c));
  }

  lemma NonEmptyThree(r: seq<string>, x: string, y: string, z: string)
    requires |r| == 3 && r[0] == x != "" && r[1] == y != "" && r[2] == z != ""
    ensures NonEmpty(r) == [x, y, z]
  {
    NonEmptyAll(r);
    assert r == [x, y, z];
  }

  /** The test fixture "Tomato (2), Onion (1), Oil" yields Tomato, Onion and Oil (recipes/tests.py:24-39). */
  lemma IngredientNamesExample()
    ensures IngredientNamesOf("Tomato (2), Onion (1), Oil") == ["Tomato", "Onion", "Oil"]
  {
    FixtureSplit();
    CleanTomato();
    CleanOnion();
    CleanOil();
    KeptThree("Tomato (2)", " Onion (1)", " Oil");
  }

  lemma FixtureSplit()
    ensures Split("Tomato (2), Onion (1), Oil", ',') == ["Tomato (2)", " Onion (1)", " Oil"]
  {
    var parts := ["Tomato (2)", " Onion (1)", " Oil"];
    assert "Tomato (2), Onion (1), Oil" == Join(parts, ',');
    SplitJoin(parts, ',');
  }

  /** A name that the parser keeps exactly as it is. */
  predicate PlainName(n: string) {
    n != "" && ',' !in n && '(' !in n && Stripped(n, Whitespace) && Stripped(n, NameEdge)
  }

  /** Joining plain names with commas and parsing the result gives the names back. */
  lemma {:induction false} IngredientNamesOfJoin(names: seq<string>)
    requires names != []
    requires forall k :: 0 <= k < |names| ==> PlainName(names[k])
    ensures IngredientNamesOf(Join(names, ',')) == names
  {
    SplitJoin(names, ',');
    KeptNamesPlain(names);
  }

  lemma KeptNamesPlain(names: seq<string>)
    requires forall k :: 0 <= k < |names| ==> PlainName(names[k])
    ensures KeptNames(names) == names
  {
    forall k | 0 <= k < |names| ensures CleanName(names[k]) == names[k] {
      PlainClean(names[k]);
    }
    assert CleanAll(names) == names;
    NonEmptyAll(names);
  }

  lemma PlainClean(n: string)
    requires PlainName(n)
    ensures CleanName(n) == n
  {
    RemoveGroupsNoParen(n);
    StrippedIsFixpoint(n, Whitespace);
    StrippedIsFixpoint(n, NameEdge);
  }

  // ---------------------------------------------------------------- match_score

  /** The triple `match_score` returns. */
  datatype Score = Score(matched: nat, total: nat, pct: int)

  /** `r` is an integer rounding of `num / den`: `floor(num / den) <= r <= ceil(num / den)`.
      Every fact about `pct` below is proved from this alone, whatever the rounding mode. */
  predicate IsRoundingOf(r: int, num: int, den: int)
    requires den > 0
  {
    (r - 1) * den < num < (r + 1) * den
  }

  /** How `pct` turns `100 * matched / total` into an integer. models.py:121 computes
      `round(matched / total * 100)` on binary floating point, which this model does not
      carry; a rounding is therefore a parameter of the scoring, and only `Rounds` is known
      of the one Python uses. */
  type Rounding = (nat, nat) -> int

  /** `rnd` rounds every quotient to one of the two integers around it. */
  ghost predicate Rounds(rnd: Rounding) {
    forall num: nat, den: nat :: den > 0 ==> IsRoundingOf(rnd(num, den), num, den)
  }

  /** Round-half-to-even of the exact quotient `num / den`: the nearest integer, and the even
      one of the two on a tie. It is one rounding in the band, not Python's: for 23 of 40
      items the exact quotient 57.5 gives 58, while the float product `23 / 40 * 100` falls
      just below 57.5 and `round` gives 57. */
  function RoundHalfEven(num: nat, den: nat): (r: int)
    requires den > 0
    ensures IsRoundingOf(r, num, den)
    ensures 2 * (num % den) != den ==> 2 * r * den - den < 2 * num < 2 * r * den + den
    ensures 2 * (num % den) == den ==> r % 2 == 0 && (2 * num == 2 * r * den + den || 2 * num + den == 2 * r * den)
  {
    var q, rem := num / den, num % den;
    DivMod(num, den);
    var r := if 2 * rem < den || (2 * rem == den && q % 2 == 0) then q else q + 1;
    HalfEvenFacts(num, den, q, rem, r);
    r
  }

  lemma HalfEvenFacts(num: int, den: int, q: int, rem: int, r: int)
    requires den > 0 && num == q * den + rem && 0 <= rem < den
    requires r == if 2 * rem < den || (2 * rem == den && q % 2 == 0) then q else q + 1
    ensures IsRoundingOf(r, num, den)
    ensures 2 * rem != den ==> 2 * r * den - den < 2 * num < 2 * r * den + den
    ensures 2 * rem == den ==> r % 2 == 0 && (2 * num == 2 * r * den + den || 2 * num + den == 2 * r * den)
  {
    MulShift(q, den);
    Offset(num, den, q, rem);
  }

  /** The distance from `num` to `r * den`, when `num == q * den + rem` and `r == q + k`. */
  lemma Offset(num: int, den: int, q: int, rem: int)
    requires num == q * den + rem
    ensures 2 * num - 2 * q * den == 2 * rem
    ensures 2 * num - 2 * (q + 1) * den == 2 * rem - 2 * den
  {
    assert (q + 1) * den == q * den + den;
  }

  /** `RoundHalfEven` as a `Rounding`. */
  const HalfEven: Rounding := (num: nat, den: nat) => if den > 0 then RoundHalfEven(num, den) else 0

  /** Some rounding meets `Rounds`, so the lemmas that require it are not vacuous. */
  lemma HalfEvenRounds()
    ensures Rounds(HalfEven)
  {
  }

  /** The two roundings around 57.5 lead to different scores: 57 and 58 both lie in the band. */
  lemma RoundingUndetermined()
    ensures IsRoundingOf(57, 100 * 23, 40) && IsRoundingOf(58, 100 * 23, 40)
    ensures RoundHalfEven(100 * 23, 40) == 58
  {
  }

  lemma DivMod(num: nat, den: nat)
    requires den > 0
    ensures num == (num / den) * den + num % den && 0 <= num % den < den
  {
  }

  lemma MulShift(q: int, d: int)
    ensures (q - 1) * d == q * d - d && (q + 1) * d == q * d + d && (q + 2) * d == q * d + 2 * d
  {
  }

  /** A percentage rounded by any mode lies in [0, 100]; it is 100 for a full match
      and 0 for no match (recipes/tests.py:41-47). */
  lemma PercentBounds(r: int, matched: nat, total: nat)
    requires 0 < total && matched <= total && IsRoundingOf(r, 100 * matched, total)
    ensures 0 <= r <= 100
    ensures matched == total ==> r == 100
    ensures matched == 0 ==> r == 0
  {
    CancelLess(0, r + 1, total);
    CancelLess(r - 1, 100, total);
    if matched == total {
      CancelLess(100, r + 1, total);
    }
    if matched == 0 {
      CancelLess(r - 1, 0, total);
    }
  }

  /** `a * c < b * c` with `c > 0` forces `a < b`. */
  lemma CancelLess(a: int, b: int, c: int)
    requires c > 0
    ensures a * c < b * c ==> a < b
  {
    if a >= b {
      assert a * c - b * c == (a - b) * c;
    }
  }

  /** Python's `a in b or b in a` between two strings. */
  predicate Overlaps(a: string, b: string) {
    Contains(b, a) || Contains(a, b)
  }

  /** `p in ing or ing in p` does not depend on which side is the pantry item. */
  lemma OverlapsSymmetric(a: string, b: string)
    ensures Overlaps(a, b) <==> Overlaps(b, a)
  {
  }

  /** `names_lower` in `match_score`: each name lowered and stripped of quotes and brackets. */
  function LowerNames(names: seq<string>): (r: seq<string>)
  {
    seq(|names|, k requires 0 <= k < |names| => Strip(Lower(names[k]), QuoteEdge))
  }

  /** A pantry item counts when, lowered and stripped, it overlaps some recipe name. */
  predicate ItemMatches(item: string, namesLower: seq<string>) {
    exists n :: n in namesLower && Overlaps(Strip(Lower(item), Whitespace), n)
  }

  /** The pantry items `match_score` counts. */
  function MatchedItems(names: seq<string>, pantry: set<string>): (m: set<string>)
    ensures m <= pantry
  {
    set p | p in pantry && ItemMatches(p, LowerNames(names))
  }

  lemma SubsetCard<T>(a: set<T>, b: set<T>)
    requires a <= b
    ensures |a| <= |b|
  {
    assert b == a + (b - a);
  }

  /** `Recipe.match_score(pantry_set)`. */
  function MatchScore(raw: string, pantry: set<string>, rnd: Rounding): (s: Score)
    ensures s.total == |pantry|
    ensures s.matched <= s.total
    ensures pantry == {} ==> s == Score(0, 0, 0)
    ensures Rounds(rnd) && s.total > 0 ==> IsRoundingOf(s.pct, 100 * s.matched, s.total)
    ensures s.matched == |MatchedItems(IngredientNamesOf(raw), pantry)|
  {
    var m := MatchedItems(IngredientNamesOf(raw), pantry);
    SubsetCard(m, pantry);
    if pantry == {} then Score(0, 0, 0)
    else Score(|m|, |pantry|, rnd(100 * |m|, |pantry|))
  }

  /** The percentage of any score is in [0, 100], is 100 exactly when every pantry
      item matched and 0 when none did (models.py:121). */
  lemma MatchScorePercent(raw: string, pantry: set<string>, rnd: Rounding)
    requires Rounds(rnd)
    ensures var s := MatchScore(raw, pantry, rnd);
      0 <= s.pct <= 100
      && (s.total > 0 && s.matched == s.total ==> s.pct == 100)
      && (s.matched == 0 ==> s.pct == 0)
  {
    var s := MatchScore(raw, pantry, rnd);
    if s.total > 0 {
      PercentBounds(s.pct, s.matched, s.total);
    }
  }

  /** The strip in `names_lower` does nothing: names from `ingredient_names` are
      already free of those characters at both ends, and `lower()` keeps it so. */
  lemma LowerNamesJustLower(raw: string)
    ensures var names := IngredientNamesOf(raw);
      |LowerNames(names)| == |names|
      && forall k :: 0 <= k < |names| ==> LowerNames(names)[k] == Lower(names[k])
  {
    var names := IngredientNamesOf(raw);
    KeptNamesClean(Split(raw, ','));
    forall k | 0 <= k < |names| ensures LowerNames(names)[k] == Lower(names[k]) {
      LowerOfClean(names[k]);
    }
  }

  lemma LowerOfClean(n: string)
    requires Stripped(n, NameEdge)
    ensures Strip(Lower(n), QuoteEdge) == Lower(n)
  {
    StrippedSubset(n, QuoteEdge, NameEdge);
    StrippedIsFixpoint(n, QuoteEdge);
    StripLower(n, QuoteEdge);
  }

  /** `matched` counts the pantry items that, lowered and whitespace-stripped, overlap some
      lowered ingredient name of the recipe: the quote strip of `names_lower` changes nothing. */
  lemma MatchedCount(raw: string, pantry: set<string>, rnd: Rounding)
    ensures MatchScore(raw, pantry, rnd).matched
            == |(set p | p in pantry && exists n :: n in IngredientNamesOf(raw) && Overlaps(Strip(Lower(p), Whitespace), Lower(n)))|
  {
    LowerNamesJustLower(raw);
    MatchedPlain(IngredientNamesOf(raw), pantry);
  }

  /** When `names_lower` only lower-cases, an item counts iff it overlaps some lowered name. */
  lemma MatchedPlain(names: seq<string>, pantry: set<string>)
    requires |LowerNames(names)| == |names| && forall k :: 0 <= k < |names| ==> LowerNames(names)[k] == Lower(names[k])
    ensures MatchedItems(names, pantry)
            == set p | p in pantry && exists n :: n in names && Overlaps(Strip(Lower(p), Whitespace), Lower(n))
  {
    var lowered := LowerNames(names);
    var plain := set p | p in pantry && exists n :: n in names && Overlaps(Strip(Lower(p), Whitespace), Lower(n));
    forall p | p in pantry ensures ItemMatches(p, lowered) <==> p in plain {
      var item := Strip(Lower(p), Whitespace);
      if ItemMatches(p, lowered) {
        var l :| l in lowered && Overlaps(item, l);
        var k :| 0 <= k < |names| && lowered[k] == l;
        assert names[k] in names;
      }
      if p in plain {
        var n :| n in names && Overlaps(item, Lower(n));
        var k :| 0 <= k < |names| && names[k] == n;
        assert lowered[k] in lowered;
      }
    }
  }

  /** Adding one new item to the pantry adds one to `total` and zero or one to `matched`. */
  lemma MatchScoreAddItem(raw: string, pantry: set<string>, rnd: Rounding, item: string)
    requires item !in pantry
    ensures var before, after := MatchScore(raw, pantry, rnd), MatchScore(raw, pantry + {item}, rnd);
      after.total == before.total + 1
      && before.matched <= after.matched <= before.matched + 1
  {
    MatchedAddItem(IngredientNamesOf(raw), pantry, item);
  }

  lemma MatchedAddItem(names: seq<string>, pantry: set<string>, item: string)
    requires item !in pantry
    ensures |MatchedItems(names, pantry)| <= |MatchedItems(names, pantry + {item})| <= |MatchedItems(names, pantry)| + 1
  {
    var m0 := MatchedItems(names, pantry);
    var m1 := MatchedItems(names, pantry + {item});
    if ItemMatches(item, LowerNames(names)) {
      assert m1 == m0 + {item};
    } else {
      assert m1 == m0;
    }
  }

  /** When every pantry item, lowered and stripped, is itself a lowered recipe name,
      every item counts and the score is 100 (recipes/tests.py:45-47). */
  lemma MatchScoreFull(raw: string, pantry: set<string>, rnd: Rounding)
    requires Rounds(rnd) && pantry != {}
    requires forall p :: p in pantry ==> Strip(Lower(p), Whitespace) in LowerNames(IngredientNamesOf(raw))
    ensures MatchScore(raw, pantry, rnd) == Score(|pantry|, |pantry|, 100)
  {
    var names := IngredientNamesOf(raw);
    forall p | p in pantry ensures ItemMatches(p, LowerNames(names)) {
      var n := Strip(Lower(p), Whitespace);
      ContainsSelf(n);
    }
    assert MatchedItems(names, pantry) == pantry;
    MatchScorePercent(raw, pantry, rnd);
  }

  /** One of two pantry items matching gives exactly 50, whatever the rounding mode. */
  lemma HalfMatchIsFifty(r: int)
    requires IsRoundingOf(r, 100 * 1, 2)
    ensures r == 50
  {
  }

  // ---------------------------------------------------------------- visual_dna

  /** The integer part of `visual_dna`: hue, saturation and lightness. */
  datatype Dna = Dna(hue: int, sat: int, lit: int)

  /** `visual_dna` for a name whose adler32 hash is `hash`; `& 0xffffffff` is taken mod 2^32. */
  function VisualDna(hash: int): (d: Dna)
    ensures 0 <= d.hue < 360 && 80 <= d.sat < 100 && 45 <= d.lit < 60
  {
    var h := hash % 0x1_0000_0000;
    Dna(h % 360, 80 + h % 20, 45 + h % 15)
  }

  /** Because 20 and 15 divide 360, saturation and lightness are fixed by the hue. */
  lemma VisualDnaFromHue(hash: int)
    ensures var d := VisualDna(hash);
      d.sat == 80 + d.hue % 20 && d.lit == 45 + d.hue % 15
  {
    HueMod(hash % 0x1_0000_0000);
  }

  lemma HueMod(h: int)
    requires 0 <= h
    ensures h % 20 == (h % 360) % 20 && h % 15 == (h % 360) % 15
  {
    var q, r := h / 360, h % 360;
    assert h == 360 * q + r;
    ShiftMod20(r, 18 * q);
    ShiftMod15(r, 24 * q);
  }

  lemma ShiftMod20(r: int, k: int)
    ensures (r + 20 * k) % 20 == r % 20
  {
  }

  lemma ShiftMod15(r: int, k: int)
    ensures (r + 15 * k) % 15 == r % 15
  {
  }
}
