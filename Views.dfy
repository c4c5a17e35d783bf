/**
 * recipes/views.py: the pure logic of the views — the ingredient and
 * instruction lists of `recipe_detail`, and the query guard and result cut of
 * `ingredient_search`.
 */
module Views {
  import opened Wrappers
  import opened PyStr
  import opened Patterns
  import opened Models

  // ---------------------------------------------------------------- recipe_detail: ingredient_list

  /** One row of `ingredient_list`. */
  datatype DetailLine = DetailLine(name: string, qty: string, inPantry: bool)

  /** The name `recipe_detail` derives from one comma-separated part (views.py:299):
      like `ingredient_names`, but a backslash is not cut from the ends. */
  function DetailName(part: string): (r: string)
    ensures Stripped(r, QuoteEdge) && |r| <= |part|
  {
    Strip(Strip(RemoveGroups(part), Whitespace), QuoteEdge)
  }

  /** `in_pantry` (views.py:303): some pantry name is inside the lower-cased name, or holds it. */
  predicate InPantry(name: string, pantryNames: set<string>): (b: bool)
    ensures Lower(name) in pantryNames ==> b
    ensures pantryNames == {} ==> !b
  {
    ContainsSelf(Lower(name));
    exists p :: p in pantryNames && Overlaps(p, Lower(name))
  }

  /** The line one part gives, if its name is not empty. */
  function DetailLineOf(part: string, pantryNames: set<string>): Option<DetailLine>
  {
    var name := DetailName(part);
    if name == "" then None else Some(DetailLine(name, QtyOrEmpty(part), InPantry(name, pantryNames)))
  }

  /** Every part's candidate line, in order. */
  function DetailCandidates(parts: seq<string>, pantryNames: set<string>): seq<Option<DetailLine>>
  {
    seq(|parts|, k requires 0 <= k < |parts| => DetailLineOf(parts[k], pantryNames))
  }

  /** The ingredient list built from `parts`: one line per part with a non-empty name. */
  function DetailLines(parts: seq<string>, pantryNames: set<string>): seq<DetailLine>
  {
    Present(DetailCandidates(parts, pantryNames))
  }

  /** The value of `ingredient_list` for a recipe's `ingredients_raw`. */
  function DetailIngredientsOf(raw: string, pantryNames: set<string>): seq<DetailLine> {
    DetailLines(Split(raw, ','), pantryNames)
  }

  /** The loop of `recipe_detail` that appends to `ingredient_list` (views.py:296-304). */
  method DetailIngredients(raw: string, pantryNames: set<string>) returns (lines: seq<DetailLine>)
    ensures lines == DetailIngredientsOf(raw, pantryNames)
    ensures forall k :: 0 <= k < |lines| ==> lines[k].name != "" && Stripped(lines[k].name, QuoteEdge)
  {
    var parts := Split(raw, ',');
    ghost var cands := DetailCandidates(parts, pantryNames);
    lines := [];
    var i: nat := 0;
    while i < |parts|
      invariant i <= |parts|
      invariant lines == Present(cands[..i])
    {
      var part := parts[i];
      var rawName := DetailName(part);
      var qty := QtyOrEmpty(part);
      if rawName != "" {
        var inPantry := exists p | p in pantryNames :: Contains(Lower(rawName), p) || Contains(p, Lower(rawName));
        lines := lines + [DetailLine(rawName, qty, inPantry)];
      }
      PresentStep(cands, i);
      i := i + 1;
    }
    assert cands[..|parts|] == cands;
    DetailLinesClean(parts, pantryNames);
  }

  /** Every line has a non-empty name with no bracket, quote, space or tab at either end. */
  lemma DetailLinesClean(parts: seq<string>, pantryNames: set<string>)
    ensures forall k :: 0 <= k < |DetailLines(parts, pantryNames)| ==>
              DetailLines(parts, pantryNames)[k].name != ""
              && Stripped(DetailLines(parts, pantryNames)[k].name, QuoteEdge)
  {
    PresentOrigin(DetailCandidates(parts, pantryNames));
  }

  /** The indices of the parts that give a line. */
  function DetailIndices(parts: seq<string>, pantryNames: set<string>): seq<nat>
  {
    PresentIndices(DetailCandidates(parts, pantryNames))
  }

  /** Line k comes from the part at index `DetailIndices(parts)[k]`: its name is that part's
      name, its quantity the part's first parenthesised content (or ""), and `inPantry` the
      overlap test on that name. */
  lemma DetailLinesOrigin(parts: seq<string>, pantryNames: set<string>)
    ensures |DetailIndices(parts, pantryNames)| == |DetailLines(parts, pantryNames)| <= |parts|
    ensures forall k :: 0 <= k < |DetailIndices(parts, pantryNames)| ==>
              var j := DetailIndices(parts, pantryNames)[k];
              j < |parts| && DetailName(parts[j]) != ""
              && DetailLines(parts, pantryNames)[k]
                 == DetailLine(DetailName(parts[j]), QtyOrEmpty(parts[j]), InPantry(DetailName(parts[j]), pantryNames))
  {
    PresentOrigin(DetailCandidates(parts, pantryNames));
  }

  /** The line indices strictly increase, so lines keep the parts' order. */
  lemma DetailIndicesIncrease(parts: seq<string>, pantryNames: set<string>)
    ensures forall k :: 0 <= k < |DetailIndices(parts, pantryNames)| ==> DetailIndices(parts, pantryNames)[k] < |parts|
    ensures forall k, l :: 0 <= k < l < |DetailIndices(parts, pantryNames)| ==>
              DetailIndices(parts, pantryNames)[k] < DetailIndices(parts, pantryNames)[l]
  {
    PresentIndicesIncrease(DetailCandidates(parts, pantryNames));
  }

  /** The name `ingredient_names` gives a part is the detail name with backslashes
      also cut from the ends. */
  lemma CleanNameOfDetailName(part: string)
    ensures CleanName(part) == Strip(DetailName(part), NameEdge)
  {
    StripThenWider(Strip(RemoveGroups(part), Whitespace), QuoteEdge, NameEdge);
  }

  /** The two parsers disagree on a trailing backslash: "Tomato\" is "Tomato" to
      `ingredient_names` but keeps its backslash on the detail page. */
  lemma BackslashDiffers()
    ensures CleanName("Tomato\\") == "Tomato"
    ensures DetailName("Tomato\\") == "Tomato\\"
  {
    var s := "Tomato\\";
    BackslashBlankFree(s);
    StripUnique(s, NameEdge, 0, 6) by {
      assert s[0..6] == "Tomato";
      EdgesHaveNoLetters();
      WordStripped("Tomato", NameEdge);
    }
  }

  /** "Tomato\" has no parenthesis and is already stripped of blanks and quotes. */
  lemma BackslashBlankFree(s: string)
    requires s == "Tomato\\"
    ensures Strip(RemoveGroups(s), Whitespace) == s && DetailName(s) == s
  {
    assert s[|s| - 1] == '\\' && IsLetter(s[0]);
    EdgesHaveNoLetters();
    assert '(' !in s;
    PlainFixed(s, Whitespace, QuoteEdge);
  }

  /** A string without `(` that is stripped of both sets passes both strips unchanged. */
  lemma PlainFixed(s: string, ws: set<char>, edge: set<char>)
    requires '(' !in s && Stripped(s, ws) && Stripped(s, edge)
    ensures Strip(RemoveGroups(s), ws) == s && Strip(Strip(RemoveGroups(s), ws), edge) == s
  {
    RemoveGroupsNoParen(s);
    StrippedIsFixpoint(s, ws);
    StrippedIsFixpoint(s, edge);
  }

  // ---------------------------------------------------------------- recipe_detail: instructions_list

  /** The stripped, non-empty pieces of `parts`. */
  function Steps(parts: seq<string>): (steps: seq<string>)
    ensures |steps| <= |parts|
    ensures forall k :: 0 <= k < |steps| ==> steps[k] != "" && Stripped(steps[k], Whitespace)
  {
    if parts == [] then []
    else
      var n := |parts| - 1;
      var s := Strip(parts[n], Whitespace);
      Steps(parts[..n]) + (if s == "" then [] else [s])
  }

  /** `instructions_list` (views.py:316): the instructions split on '.', each piece stripped,
      empty pieces dropped. */
  function InstructionSteps(text: string): (steps: seq<string>)
    ensures |steps| <= |Split(text, '.')|
    ensures forall k :: 0 <= k < |steps| ==> steps[k] != "" && Stripped(steps[k], Whitespace)
  {
    Steps(Split(text, '.'))
  }

  /** Stripping never brings in a character the string did not have. */
  lemma StripKeepsAbsent(s: string, cs: set<char>, c: char)
    requires c !in s
    ensures c !in Strip(s, cs)
  {
    var lo, hi := StripBounds(s, cs);
  }

  lemma {:induction false} StepsKeepAbsent(parts: seq<string>, c: char)
    requires forall j :: 0 <= j < |parts| ==> c !in parts[j]
    ensures forall k :: 0 <= k < |Steps(parts)| ==> c !in Steps(parts)[k]
  {
    if parts != [] {
      var n := |parts| - 1;
      StepsKeepAbsent(parts[..n], c);
      StripKeepsAbsent(parts[n], Whitespace, c);
    }
  }

  /** Every step is non-empty, has no whitespace at either end and contains no '.'. */
  lemma InstructionStepsClean(text: string)
    ensures forall k :: 0 <= k < |InstructionSteps(text)| ==>
              InstructionSteps(text)[k] != "" && Stripped(InstructionSteps(text)[k], Whitespace)
              && '.' !in InstructionSteps(text)[k]
  {
    StepsKeepAbsent(Split(text, '.'), '.');
  }

  lemma {:induction false} StepsOfSteps(steps: seq<string>)
    requires forall k :: 0 <= k < |steps| ==> steps[k] != "" && Stripped(steps[k], Whitespace)
    ensures Steps(steps) == steps
  {
    if steps != [] {
      var n := |steps| - 1;
      StepsOfSteps(steps[..n]);
      StrippedIsFixpoint(steps[n], Whitespace);
      assert steps[..n] + [steps[n]] == steps;
    }
  }

  /** Joining clean steps with '.' and splitting the text again gives the steps back. */
  lemma InstructionStepsOfJoin(steps: seq<string>)
    requires steps != []
    requires forall k :: 0 <= k < |steps| ==>
               steps[k] != "" && Stripped(steps[k], Whitespace) && '.' !in steps[k]
    ensures InstructionSteps(Join(steps, '.')) == steps
  {
    SplitJoin(steps, '.');
    StepsOfSteps(steps);
  }

  // ---------------------------------------------------------------- ingredient_search

  /** The fields of an `Ingredient` row that the search reads. */
  datatype CatalogIngredient = CatalogIngredient(id: int, name: string, category: string, nameLower: string)

  /** One entry of the search response. */
  datatype SearchHit = SearchHit(id: int, name: string, category: string, inPantry: bool)

  /** Queries shorter than this are answered with nothing (views.py:165). */
  const MinQueryLength: nat := 2

  /** At most this many ingredients are returned (views.py:172). */
  const MaxSearchResults: nat := 40

  /** The query as the view normalises it: stripped, then lower-cased. */
  function NormalQuery(q: string): (r: string)
    ensures |r| <= |q| && Stripped(r, Whitespace)
  {
    WhitespaceHasNoLetters();
    LowerStripped(Strip(q, Whitespace), Whitespace);
    Lower(Strip(q, Whitespace))
  }

  /** `name_lower__contains=q` or `name__icontains=q`. */
  predicate NameMatches(i: CatalogIngredient, q: string) {
    Contains(i.nameLower, q) || Contains(Lower(i.name), q)
  }

  /** The catalog rows matching `q`, in catalog order. */
  function Matching(catalog: seq<CatalogIngredient>, q: string): (r: seq<CatalogIngredient>)
    ensures |r| <= |catalog|
  {
    if catalog == [] then []
    else
      var n := |catalog| - 1;
      Matching(catalog[..n], q) + (if NameMatches(catalog[n], q) then [catalog[n]] else [])
  }

  /** Exactly the matching catalog rows are in `Matching`. */
  lemma {:induction false} MatchingExact(catalog: seq<CatalogIngredient>, q: string)
    ensures forall x :: x in Matching(catalog, q) <==> x in catalog && NameMatches(x, q)
  {
    if catalog != [] {
      var n := |catalog| - 1;
      MatchingExact(catalog[..n], q);
      assert catalog == catalog[..n] + [catalog[n]];
    }
  }

  /** The first `n` elements, or all of them. */
  function Take<T>(s: seq<T>, n: nat): (r: seq<T>)
    ensures |r| <= n && |r| <= |s| && r == s[..|r|]
    ensures |s| <= n ==> r == s
    ensures |s| > n ==> |r| == n
  {
    if |s| <= n then s else s[..n]
  }

  function Hit(i: CatalogIngredient, pantryIds: set<int>): SearchHit {
    SearchHit(i.id, i.name, i.category, i.id in pantryIds)
  }

  /** `ingredient_search`. The caller's catalog order stands in for `order_by('name')`;
      SQL collation is not modelled. */
  function SearchIngredients(query: string, catalog: seq<CatalogIngredient>, pantryIds: set<int>): (hits: seq<SearchHit>)
    ensures |NormalQuery(query)| < MinQueryLength ==> hits == []
    ensures |hits| <= MaxSearchResults
    ensures |NormalQuery(query)| >= MinQueryLength ==>
              var m := Matching(catalog, NormalQuery(query));
              |hits| == if |m| < MaxSearchResults then |m| else MaxSearchResults
    ensures |NormalQuery(query)| >= MinQueryLength ==>
              forall k :: 0 <= k < |hits| ==> hits[k] == Hit(Matching(catalog, NormalQuery(query))[k], pantryIds)
    ensures forall k :: 0 <= k < |hits| ==> (hits[k].inPantry <==> hits[k].id in pantryIds)
  {
    var q := NormalQuery(query);
    if |q| < MinQueryLength then []
    else
      var found := Take(Matching(catalog, q), MaxSearchResults);
      seq(|found|, k requires 0 <= k < |found| => Hit(found[k], pantryIds))
  }

  /** Every hit is a catalog ingredient whose name matches the normalised query. */
  lemma SearchHitsMatch(query: string, catalog: seq<CatalogIngredient>, pantryIds: set<int>)
    ensures forall h :: h in SearchIngredients(query, catalog, pantryIds) ==>
              exists x :: x in catalog && NameMatches(x, NormalQuery(query)) && Hit(x, pantryIds) == h
  {
    var q := NormalQuery(query);
    if |q| >= MinQueryLength {
      var m := Matching(catalog, q);
      var found := Take(m, MaxSearchResults);
      MatchingExact(catalog, q);
      forall h | h in SearchIngredients(query, catalog, pantryIds)
        ensures exists x :: x in catalog && NameMatches(x, q) && Hit(x, pantryIds) == h
      {
        var k :| 0 <= k < |found| && SearchIngredients(query, catalog, pantryIds)[k] == h;
        assert found[k] in m;
      }
    }
  }

  /** When at most 40 ingredients match a long enough query, every one of them is returned. */
  lemma SearchComplete(query: string, catalog: seq<CatalogIngredient>, pantryIds: set<int>, x: CatalogIngredient)
    requires |NormalQuery(query)| >= MinQueryLength
    requires |Matching(catalog, NormalQuery(query))| <= MaxSearchResults
    requires x in catalog && NameMatches(x, NormalQuery(query))
    ensures Hit(x, pantryIds) in SearchIngredients(query, catalog, pantryIds)
  {
    var q := NormalQuery(query);
    var m := Matching(catalog, q);
    MatchingExact(catalog, q);
    var k :| 0 <= k < |m| && m[k] == x;
    assert SearchIngredients(query, catalog, pantryIds)[k] == Hit(x, pantryIds);
  }
}
