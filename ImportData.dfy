/**
 * recipes/management/commands/import_data.py: the value parsers `safe_int` and
 * `parse_bool`, the ingredient lookup of `import_recipes` with its nested
 * `find_ingredient`, and the loop that links recipes to ingredients.
 */
module ImportData {
  import opened Wrappers
  import opened PyStr
  import opened Patterns
  import opened Models

  // ---------------------------------------------------------------- safe_int

  /** CPython refuses `int()` of a decimal string longer than this many digits
      (`sys.int_info.default_max_str_digits`) and raises `ValueError`. */
  const MaxStrDigits: nat := 4300

  /** `servings` when the column is missing or has no digits (import_data.py:129). */
  const DefaultServings: nat := 4

  function DigitValue(c: char): nat
    requires IsDigit(c)
  {
    c as int - '0' as int
  }

  function DigitChar(d: nat): (c: char)
    requires d < 10
    ensures IsDigit(c) && DigitValue(c) == d
  {
    ('0' as int + d) as char
  }

  /** The number a string of decimal digits denotes. */
  function DecimalValue(s: string): nat
    requires forall k :: 0 <= k < |s| ==> IsDigit(s[k])
  {
    if s == [] then 0
    else DecimalValue(s[..|s| - 1]) * 10 + DigitValue(s[|s| - 1])
  }

  /** `str(n)` for a natural number. */
  function NatToDecimal(n: nat): (s: string)
    ensures s != [] && forall k :: 0 <= k < |s| ==> IsDigit(s[k])
  {
    if n < 10 then [DigitChar(n)] else NatToDecimal(n / 10) + [DigitChar(n % 10)]
  }

  /** `safe_int(val, default)`: the digits of `val` read as a decimal number; `default`
      when there are none, or too many for `int()` (the `except` branch). */
  function SafeInt(val: string, default: int): (r: int)
    ensures KeepDigits(val) == [] ==> r == default
    ensures r >= 0 || r == default
  {
    var v := KeepDigits(val);
    if v == [] || |v| > MaxStrDigits then default else DecimalValue(v)
  }

  /** Reading back the decimal form of a number gives the number. */
  lemma {:induction false} DecimalRoundTrip(n: nat)
    ensures DecimalValue(NatToDecimal(n)) == n
  {
    if n >= 10 {
      DecimalRoundTrip(n / 10);
      var s := NatToDecimal(n / 10) + [DigitChar(n % 10)];
      assert s[..|s| - 1] == NatToDecimal(n / 10);
    }
  }

  /** A string of digits keeps all of them. */
  lemma {:induction false} KeepDigitsOfDigits(s: string)
    requires forall k :: 0 <= k < |s| ==> IsDigit(s[k])
    ensures KeepDigits(s) == s
  {
    if s != [] {
      KeepDigitsOfDigits(s[1..]);
      assert s == [s[0]] + s[1..];
    }
  }

  /** A leading `'0'` does not change the value of a digit string. */
  lemma {:induction false} DecimalLeadingZero(s: string)
    requires forall k :: 0 <= k < |s| ==> IsDigit(s[k])
    ensures DecimalValue("0" + s) == DecimalValue(s)
  {
    if s != [] {
      var n := |s| - 1;
      DecimalLeadingZero(s[..n]);
      var t := "0" + s;
      assert t[..|t| - 1] == "0" + s[..n];
      assert t[|t| - 1] == s[n];
    } else {
      assert ("0" + s)[..0] == [];
    }
  }

  /** Any non-empty digit string `int()` accepts is read as its decimal value, so leading
      zeros are ignored: `safe_int("007")` is 7. */
  lemma SafeIntOfDigits(s: string, default: int)
    requires forall k :: 0 <= k < |s| ==> IsDigit(s[k])
    requires 0 < |s| < MaxStrDigits
    ensures SafeInt(s, default) == DecimalValue(s)
    ensures SafeInt("0" + s, default) == SafeInt(s, default)
  {
    KeepDigitsOfDigits(s);
    KeepDigitsOfDigits("0" + s);
    DecimalLeadingZero(s);
  }

  lemma SafeIntLeadingZeros(default: int)
    ensures SafeInt("007", default) == 7
  {
    assert "7" == NatToDecimal(7);
    SafeIntOfDecimal(7, default);
    assert "07" == "0" + "7";
    SafeIntOfDigits("7", default);
    assert "007" == "0" + "07";
    SafeIntOfDigits("07", default);
  }

  lemma {:induction false} KeepDigitsConcat(a: string, b: string)
    ensures KeepDigits(a + b) == KeepDigits(a) + KeepDigits(b)
  {
    if a != [] {
      KeepDigitsConcat(a[1..], b);
      var h := if IsDigit(a[0]) then [a[0]] else "";
      assert (a + b)[0] == a[0] && (a + b)[1..] == a[1..] + b;
      assert KeepDigits(a + b) == h + KeepDigits(a[1..] + b);
      assert KeepDigits(a) == h + KeepDigits(a[1..]);
      assert h + (KeepDigits(a[1..]) + KeepDigits(b)) == (h + KeepDigits(a[1..])) + KeepDigits(b);
    } else {
      assert a + b == b;
    }
  }

  /** `safe_int(str(n))` is `n` for any number `int()` accepts. */
  lemma SafeIntOfDecimal(n: nat, default: int)
    requires |NatToDecimal(n)| <= MaxStrDigits
    ensures SafeInt(NatToDecimal(n), default) == n
  {
    KeepDigitsOfDigits(NatToDecimal(n));
    DecimalRoundTrip(n);
  }

  /** A character that is not a digit changes nothing: "-5" gives 5, "30 mins" gives 30. */
  lemma SafeIntIgnoresNonDigit(a: string, c: char, b: string, default: int)
    requires !IsDigit(c)
    ensures SafeInt(a + [c] + b, default) == SafeInt(a + b, default)
  {
    KeepDigitsConcat(a + [c], b);
    KeepDigitsConcat(a, [c]);
    KeepDigitsConcat(a, b);
    assert [c][1..] == [];
    assert KeepDigits([c]) == [] + KeepDigits([]);
    assert KeepDigits(a) + [] == KeepDigits(a);
    assert a + [c] + b == (a + [c]) + b;
  }

  /** A number with more digits than `int()` accepts falls back to the default. */
  lemma SafeIntTooLong(val: string, default: int)
    requires |KeepDigits(val)| > MaxStrDigits
    ensures SafeInt(val, default) == default
  {
  }

  lemma SafeIntNegativeSign(default: int)
    ensures SafeInt("-5", default) == 5
  {
    assert "-5" == [] + ['-'] + "5";
    SafeIntIgnoresNonDigit([], '-', "5", default);
    assert "5" == NatToDecimal(5);
    SafeIntOfDecimal(5, default);
  }

  /** `safe_int(row.get('Servings', 4), 4)` is 4 both when the column is missing (the
      value is the number 4, read through `str`) and when it has no digits. */
  lemma ServingsDefault(val: string)
    ensures SafeInt(NatToDecimal(DefaultServings), DefaultServings) == DefaultServings
    ensures KeepDigits(val) == [] ==> SafeInt(val, DefaultServings) == DefaultServings
  {
    SafeIntOfDecimal(DefaultServings, DefaultServings);
  }

  // ---------------------------------------------------------------- parse_bool

  /** `parse_bool`: the stripped, lower-cased value is "yes", "true" or "1". */
  predicate ParseBool(val: string): (b: bool)
    ensures Strip(val, Whitespace) == [] ==> !b
    ensures b ==> 1 <= |Strip(val, Whitespace)| <= 4
  {
    Lower(Strip(val, Whitespace)) in {"yes", "true", "1"}
  }

  lemma LowerLower(s: string)
    ensures Lower(Lower(s)) == Lower(s)
  {
  }

  /** Case does not matter. */
  lemma ParseBoolIgnoresCase(val: string)
    ensures ParseBool(Lower(val)) == ParseBool(val)
  {
    EdgesHaveNoLetters();
    StripLower(val, Whitespace);
    LowerLower(Strip(val, Whitespace));
  }

  /** Surrounding whitespace does not matter. */
  lemma ParseBoolIgnoresPadding(pre: string, w: string, post: string)
    requires AllIn(pre, 0, |pre|, Whitespace) && AllIn(post, 0, |post|, Whitespace)
    requires Stripped(w, Whitespace)
    ensures ParseBool(pre + w + post) == ParseBool(w)
  {
    var s := pre + w + post;
    assert s[|pre|..|pre| + |w|] == w;
    assert AllIn(s, 0, |pre|, Whitespace) by {
      forall k | 0 <= k < |pre| ensures s[k] in Whitespace { assert s[k] == pre[k]; }
    }
    assert AllIn(s, |pre| + |w|, |s|, Whitespace) by {
      forall k | |pre| + |w| <= k < |s| ensures s[k] in Whitespace { assert s[k] == post[k - |pre| - |w|]; }
    }
    StripUnique(s, Whitespace, |pre|, |pre| + |w|);
    StrippedIsFixpoint(w, Whitespace);
  }

  /** A stripped word is true exactly when its lower-case form is one of the three. */
  lemma ParseBoolWord(w: string)
    requires Stripped(w, Whitespace)
    ensures ParseBool(w) <==> Lower(w) in {"yes", "true", "1"}
  {
    StrippedIsFixpoint(w, Whitespace);
  }

  /** The defaults of the `Is_*` columns: "Yes" is true and "No" is false. */
  lemma ParseBoolDefaults()
    ensures ParseBool("Yes") && !ParseBool("No")
  {
    EdgesHaveNoLetters();
    WordStripped("Yes", Whitespace);
    WordStripped("No", Whitespace);
    ParseBoolWord("Yes");
    ParseBoolWord("No");
    assert Lower("Yes") == "yes";
    assert Lower("No") == "no";
  }

  // ---------------------------------------------------------------- the ingredient lookup

  /** An ingredient as the lookup sees it: its primary key and `name_lower`. */
  datatype CatalogItem = CatalogItem(id: int, nameLower: string)

  /** `ing_lookup = {i.name_lower: i for i in ...}`: a later ingredient with the same
      `name_lower` replaces an earlier one. */
  function LookupMap(catalog: seq<CatalogItem>): (m: map<string, int>)
    ensures catalog != [] ==> catalog[|catalog| - 1].nameLower in m && m[catalog[|catalog| - 1].nameLower] == catalog[|catalog| - 1].id
  {
    if catalog == [] then map[]
    else
      var n := |catalog| - 1;
      LookupMap(catalog[..n])[catalog[n].nameLower := catalog[n].id]
  }

  /** `ing_keys = list(ing_lookup.keys())`: each name once, where it first occurs. */
  function LookupKeys(catalog: seq<CatalogItem>): (keys: seq<string>)
    ensures |keys| <= |catalog|
    ensures catalog != [] ==> keys != [] && keys[0] == catalog[0].nameLower
  {
    if catalog == [] then []
    else
      var n := |catalog| - 1;
      var keys := LookupKeys(catalog[..n]);
      if catalog[n].nameLower in keys then keys else keys + [catalog[n].nameLower]
  }

  predicate Distinct(keys: seq<string>) {
    forall i, j :: 0 <= i < j < |keys| ==> keys[i] != keys[j]
  }

  /** The keys list holds each key of the lookup exactly once, and nothing else. */
  lemma {:induction false} LookupKeysExact(catalog: seq<CatalogItem>)
    ensures Distinct(LookupKeys(catalog))
    ensures forall k :: k in LookupKeys(catalog) <==> k in LookupMap(catalog)
    ensures forall k :: k in LookupMap(catalog) <==> exists j :: 0 <= j < |catalog| && catalog[j].nameLower == k
  {
    if catalog != [] {
      var n := |catalog| - 1;
      var front := catalog[..n];
      LookupKeysExact(front);
      forall k ensures k in LookupMap(catalog) <==> exists j :: 0 <= j < |catalog| && catalog[j].nameLower == k {
        if k in LookupMap(front) {
          var j :| 0 <= j < n && front[j].nameLower == k;
          assert catalog[j] == front[j];
        }
        if exists j :: 0 <= j < |catalog| && catalog[j].nameLower == k {
          var j :| 0 <= j < |catalog| && catalog[j].nameLower == k;
          if j < n {
            assert front[j] == catalog[j];
          }
        }
      }
    }
  }

  /** The lookup maps a name to the last ingredient that has it. */
  lemma {:induction false} LookupMapLast(catalog: seq<CatalogItem>, j: nat)
    requires j < |catalog|
    requires forall m :: j < m < |catalog| ==> catalog[m].nameLower != catalog[j].nameLower
    ensures catalog[j].nameLower in LookupMap(catalog)
    ensures LookupMap(catalog)[catalog[j].nameLower] == catalog[j].id
  {
    var n := |catalog| - 1;
    if j < n {
      var front := catalog[..n];
      LookupMapLast(front, j);
      assert front[j] == catalog[j];
    }
  }

  // ---------------------------------------------------------------- find_ingredient

  /** The first of `keys[i..]` that overlaps `n`, looked up. */
  function FirstPartialFrom(lookup: map<string, int>, keys: seq<string>, n: string, i: nat): Option<int>
    requires i <= |keys| && forall k :: k in keys ==> k in lookup
    decreases |keys| - i
  {
    if i == |keys| then None
    else if Overlaps(keys[i], n) then Some(lookup[keys[i]])
    else FirstPartialFrom(lookup, keys, n, i + 1)
  }

  /** What `find_ingredient(rawName)` returns: the exact entry for the lower-cased,
      stripped name if there is one, else the first key that overlaps it. */
  function Find(lookup: map<string, int>, keys: seq<string>, rawName: string): (r: Option<int>)
    requires forall k :: k in keys ==> k in lookup
    ensures var n := Strip(Lower(rawName), Whitespace);
      (n in lookup ==> r == Some(lookup[n]))
      && (r.Some? ==> exists k :: k in lookup && (k == n || Overlaps(k, n)) && lookup[k] == r.value)
      && (r.None? <==> n !in lookup && forall k :: k in keys ==> !Overlaps(k, n))
  {
    var n := Strip(Lower(rawName), Whitespace);
    FirstPartialFromIsFirst(lookup, keys, n, 0);
    if n in lookup then Some(lookup[n]) else FirstPartialFrom(lookup, keys, n, 0)
  }

  /** `find_ingredient`: an exact lookup, then a scan of `ing_keys` that returns at the first hit. */
  method FindIngredient(lookup: map<string, int>, keys: seq<string>, rawName: string) returns (r: Option<int>)
    requires forall k :: k in keys ==> k in lookup
    ensures r == Find(lookup, keys, rawName)
  {
    var n := Strip(Lower(rawName), Whitespace);
    if n in lookup {
      return Some(lookup[n]);
    }
    var i: nat := 0;
    while i < |keys|
      invariant i <= |keys|
      invariant FirstPartialFrom(lookup, keys, n, i) == FirstPartialFrom(lookup, keys, n, 0)
    {
      var key := keys[i];
      if Contains(n, key) || Contains(key, n) {
        return Some(lookup[key]);
      }
      i := i + 1;
    }
    return None;
  }

  /** The partial scan stops at the first overlapping key. */
  lemma {:induction false} FirstPartialFromIsFirst(lookup: map<string, int>, keys: seq<string>, n: string, i: nat)
    requires i <= |keys| && forall k :: k in keys ==> k in lookup
    ensures FirstPartialFrom(lookup, keys, n, i).Some? ==>
      exists j :: i <= j < |keys| && Overlaps(keys[j], n)
                  && FirstPartialFrom(lookup, keys, n, i) == Some(lookup[keys[j]])
                  && forall m :: i <= m < j ==> !Overlaps(keys[m], n)
    ensures FirstPartialFrom(lookup, keys, n, i).None? ==> forall j :: i <= j < |keys| ==> !Overlaps(keys[j], n)
    decreases |keys| - i
  {
    if i < |keys| && !Overlaps(keys[i], n) {
      FirstPartialFromIsFirst(lookup, keys, n, i + 1);
    }
  }

  /** Without an exact key, the result is the entry of the first overlapping key in
      `ing_keys` order, and None exactly when no key overlaps. */
  lemma FindPartial(lookup: map<string, int>, keys: seq<string>, rawName: string)
    requires forall k :: k in keys ==> k in lookup
    requires Strip(Lower(rawName), Whitespace) !in lookup
    ensures var n := Strip(Lower(rawName), Whitespace);
      Find(lookup, keys, rawName).Some? ==>
        exists j :: 0 <= j < |keys| && Overlaps(keys[j], n)
                    && Find(lookup, keys, rawName) == Some(lookup[keys[j]])
                    && forall m :: 0 <= m < j ==> !Overlaps(keys[m], n)
    ensures var n := Strip(Lower(rawName), Whitespace);
      Find(lookup, keys, rawName).None? <==> forall j :: 0 <= j < |keys| ==> !Overlaps(keys[j], n)
  {
    var n := Strip(Lower(rawName), Whitespace);
    FirstPartialFromIsFirst(lookup, keys, n, 0);
    if forall j :: 0 <= j < |keys| ==> !Overlaps(keys[j], n) {
      FirstPartialNone(lookup, keys, n, 0);
    }
  }

  lemma {:induction false} FirstPartialNone(lookup: map<string, int>, keys: seq<string>, n: string, i: nat)
    requires i <= |keys| && forall k :: k in keys ==> k in lookup
    requires forall j :: i <= j < |keys| ==> !Overlaps(keys[j], n)
    ensures FirstPartialFrom(lookup, keys, n, i).None?
    decreases |keys| - i
  {
    if i < |keys| {
      FirstPartialNone(lookup, keys, n, i + 1);
    }
  }

  /** Whatever it returns is some ingredient of the catalog. */
  lemma FindInCatalog(catalog: seq<CatalogItem>, rawName: string)
    ensures forall k :: k in LookupKeys(catalog) ==> k in LookupMap(catalog)
    ensures Find(LookupMap(catalog), LookupKeys(catalog), rawName).Some? ==>
      Find(LookupMap(catalog), LookupKeys(catalog), rawName).value in LookupMap(catalog).Values
  {
    LookupKeysExact(catalog);
    var lookup, keys := LookupMap(catalog), LookupKeys(catalog);
    var n := Strip(Lower(rawName), Whitespace);
    if n !in lookup {
      FirstPartialFromIsFirst(lookup, keys, n, 0);
    }
  }

  // ---------------------------------------------------------------- import_recipes: linking

  /** One CSV row as the linking loop sees it: the `Ingredients` column, and whether
      `Recipe.objects.create` raised for it. */
  datatype Row = Row(ingredients: string, createFails: bool)

  /** A queued `RecipeIngredient`: the recipe (the position of its row), the ingredient and the quantity. */
  datatype Link = Link(recipe: nat, ingredient: int, quantity: string)

  /** The name the loop looks up for one part (import_data.py:152). */
  function RawName(part: string): (r: string)
    ensures Stripped(r, Whitespace) && |r| <= |part|
  {
    Strip(RemoveGroups(part), Whitespace)
  }

  /** The link one part queues, if any (import_data.py:152-159). */
  function PartLink(recipe: nat, part: string, lookup: map<string, int>, keys: seq<string>): Option<Link>
    requires forall k :: k in keys ==> k in lookup
  {
    var raw := RawName(part);
    if raw == "" then None
    else match Find(lookup, keys, raw)
      case None => None
      case Some(id) => Some(Link(recipe, id, QtyOrEmpty(part)))
  }

  function PartLinks(recipe: nat, parts: seq<string>, lookup: map<string, int>, keys: seq<string>): seq<Option<Link>>
    requires forall k :: k in keys ==> k in lookup
  {
    seq(|parts|, j requires 0 <= j < |parts| => PartLink(recipe, parts[j], lookup, keys))
  }

  /** The links one created recipe queues, in the order of its parts. */
  function RowLinks(recipe: nat, ingredients: string, lookup: map<string, int>, keys: seq<string>): seq<Link>
    requires forall k :: k in keys ==> k in lookup
  {
    Present(PartLinks(recipe, Split(ingredients, ','), lookup, keys))
  }

  /** The links each row queues; a row whose recipe could not be created queues none. */
  function RowQueues(rows: seq<Row>, lookup: map<string, int>, keys: seq<string>): seq<seq<Link>>
    requires forall k :: k in keys ==> k in lookup
  {
    seq(|rows|, i requires 0 <= i < |rows| =>
      if rows[i].createFails then [] else RowLinks(i, rows[i].ingredients, lookup, keys))
  }

  /** All links queued for `rows`, row after row. */
  function AllLinks(rows: seq<Row>, lookup: map<string, int>, keys: seq<string>): seq<Link>
    requires forall k :: k in keys ==> k in lookup
  {
    Flatten(RowQueues(rows, lookup, keys))
  }

  /** The concatenation of `xss`, in order. */
  function Flatten<T>(xss: seq<seq<T>>): seq<T>
  {
    if xss == [] then [] else Flatten(xss[..|xss| - 1]) + xss[|xss| - 1]
  }

  lemma FlattenStep<T>(xss: seq<seq<T>>, i: nat)
    requires i < |xss|
    ensures Flatten(xss[..i + 1]) == Flatten(xss[..i]) + xss[i]
  {
    assert xss[..i + 1][..i] == xss[..i];
  }

  /** Every element of the concatenation comes from one of the pieces. */
  lemma {:induction false} FlattenMember<T>(xss: seq<seq<T>>, x: T)
    requires x in Flatten(xss)
    ensures exists i :: 0 <= i < |xss| && x in xss[i]
  {
    var n := |xss| - 1;
    if x !in xss[n] {
      FlattenMember(xss[..n], x);
      var i :| 0 <= i < n && x in xss[..n][i];
      assert x in xss[i];
    }
  }

  /** The number of rows whose recipe was created. */
  function Created(rows: seq<Row>): nat
  {
    if rows == [] then 0
    else Created(rows[..|rows| - 1]) + (if rows[|rows| - 1].createFails then 0 else 1)
  }

  /** `count` counts the created recipes: at most one per row, one per row when none fails. */
  lemma {:induction false} CreatedBounds(rows: seq<Row>)
    ensures Created(rows) <= |rows|
    ensures (forall i :: 0 <= i < |rows| ==> !rows[i].createFails) ==> Created(rows) == |rows|
    ensures (forall i :: 0 <= i < |rows| ==> rows[i].createFails) ==> Created(rows) == 0
  {
    if rows != [] {
      var front := rows[..|rows| - 1];
      CreatedBounds(front);
      assert forall i :: 0 <= i < |front| ==> front[i] == rows[i];
    }
  }

  /** Each queued link belongs to its recipe and comes from one part, in part order: the
      part's name is not empty, `find_ingredient` found the ingredient for it, and the
      quantity is the part's first parenthesised content (or ""). Every such part queues one. */
  lemma RowLinksOrigin(recipe: nat, ingredients: string, lookup: map<string, int>, keys: seq<string>)
    requires forall k :: k in keys ==> k in lookup
    ensures var parts, links := Split(ingredients, ','), RowLinks(recipe, ingredients, lookup, keys);
      var idx := PresentIndices(PartLinks(recipe, parts, lookup, keys));
      |idx| == |links| <= |parts|
      && (forall k :: 0 <= k < |links| ==>
            idx[k] < |parts| && RawName(parts[idx[k]]) != ""
            && links[k] == Link(recipe, links[k].ingredient, QtyOrEmpty(parts[idx[k]]))
            && Find(lookup, keys, RawName(parts[idx[k]])) == Some(links[k].ingredient))
      && (forall k, l :: 0 <= k < l < |idx| ==> idx[k] < idx[l])
      && (forall j :: 0 <= j < |parts| && RawName(parts[j]) != "" && Find(lookup, keys, RawName(parts[j])).Some? ==> j in idx)
  {
    PartsLinksOrigin(recipe, Split(ingredients, ','), lookup, keys);
  }

  lemma PartsLinksOrigin(recipe: nat, parts: seq<string>, lookup: map<string, int>, keys: seq<string>)
    requires forall k :: k in keys ==> k in lookup
    ensures var xs := PartLinks(recipe, parts, lookup, keys);
      var idx, links := PresentIndices(xs), Present(xs);
      |idx| == |links| <= |parts|
      && (forall k :: 0 <= k < |links| ==>
            idx[k] < |parts| && RawName(parts[idx[k]]) != ""
            && links[k] == Link(recipe, links[k].ingredient, QtyOrEmpty(parts[idx[k]]))
            && Find(lookup, keys, RawName(parts[idx[k]])) == Some(links[k].ingredient))
      && (forall k, l :: 0 <= k < l < |idx| ==> idx[k] < idx[l])
      && (forall j :: 0 <= j < |parts| && RawName(parts[j]) != "" && Find(lookup, keys, RawName(parts[j])).Some? ==> j in idx)
  {
    var xs := PartLinks(recipe, parts, lookup, keys);
    var idx, links := PresentIndices(xs), Present(xs);
    PresentOrigin(xs);
    PresentIndicesIncrease(xs);
    PresentIndicesComplete(xs);
    forall k | 0 <= k < |links|
      ensures RawName(parts[idx[k]]) != ""
              && links[k] == Link(recipe, links[k].ingredient, QtyOrEmpty(parts[idx[k]]))
              && Find(lookup, keys, RawName(parts[idx[k]])) == Some(links[k].ingredient)
    {
      PartLinkSome(recipe, parts[idx[k]], lookup, keys, links[k]);
    }
    forall j | 0 <= j < |parts| && RawName(parts[j]) != "" && Find(lookup, keys, RawName(parts[j])).Some?
      ensures j in idx
    {
      assert xs[j].Some?;
    }
  }

  /** What a queued link says about its part. */
  lemma PartLinkSome(recipe: nat, part: string, lookup: map<string, int>, keys: seq<string>, l: Link)
    requires forall k :: k in keys ==> k in lookup
    requires PartLink(recipe, part, lookup, keys) == Some(l)
    ensures RawName(part) != "" && l == Link(recipe, l.ingredient, QtyOrEmpty(part))
            && Find(lookup, keys, RawName(part)) == Some(l.ingredient)
  {
  }

  /** Every queued link names a created recipe and is one of that row's links. */
  lemma AllLinksSound(rows: seq<Row>, lookup: map<string, int>, keys: seq<string>)
    requires forall k :: k in keys ==> k in lookup
    ensures forall l :: l in AllLinks(rows, lookup, keys) ==>
              l.recipe < |rows| && !rows[l.recipe].createFails
              && l in RowLinks(l.recipe, rows[l.recipe].ingredients, lookup, keys)
  {
    var queues := RowQueues(rows, lookup, keys);
    forall l | l in AllLinks(rows, lookup, keys)
      ensures l.recipe < |rows| && !rows[l.recipe].createFails
              && l in RowLinks(l.recipe, rows[l.recipe].ingredients, lookup, keys)
    {
      FlattenMember(queues, l);
      var i :| 0 <= i < |queues| && l in queues[i];
      RowLinksRecipe(i, rows[i].ingredients, lookup, keys);
    }
  }

  lemma RowLinksRecipe(recipe: nat, ingredients: string, lookup: map<string, int>, keys: seq<string>)
    requires forall k :: k in keys ==> k in lookup
    ensures forall l :: l in RowLinks(recipe, ingredients, lookup, keys) ==> l.recipe == recipe
  {
    var xs := PartLinks(recipe, Split(ingredients, ','), lookup, keys);
    PresentOrigin(xs);
    forall l | l in RowLinks(recipe, ingredients, lookup, keys) ensures l.recipe == recipe {
      var k :| 0 <= k < |Present(xs)| && Present(xs)[k] == l;
    }
  }

  // ---------------------------------------------------------------- bulk_create(ignore_conflicts=True)

  /** Some stored link joins this recipe and ingredient. */
  predicate HasPair(table: seq<Link>, recipe: nat, ingredient: int) {
    exists l :: l in table && l.recipe == recipe && l.ingredient == ingredient
  }

  /** `unique_together = ('recipe', 'ingredient')` (models.py:149-150). */
  predicate UniquePairs(table: seq<Link>) {
    forall i, j :: 0 <= i < j < |table| ==>
      table[i].recipe != table[j].recipe || table[i].ingredient != table[j].ingredient
  }

  /** Insert `batch` in order, skipping each link whose pair is already stored. */
  function BulkInsert(table: seq<Link>, batch: seq<Link>): (r: seq<Link>)
    ensures |table| <= |r| <= |table| + |batch|
  {
    if batch == [] then table
    else
      var t := BulkInsert(table, batch[..|batch| - 1]);
      var l := batch[|batch| - 1];
      if HasPair(t, l.recipe, l.ingredient) then t else t + [l]
  }

  /** Inserting two batches one after the other is inserting them as one batch, so when
      `ri_bulk` is flushed does not change the table. */
  lemma {:induction false} BulkInsertConcat(table: seq<Link>, a: seq<Link>, b: seq<Link>)
    ensures BulkInsert(BulkInsert(table, a), b) == BulkInsert(table, a + b)
  {
    if b != [] {
      var n := |b| - 1;
      BulkInsertConcat(table, a, b[..n]);
      assert (a + b)[..|a + b| - 1] == a + b[..n];
      assert (a + b)[|a + b| - 1] == b[n];
    } else {
      assert a + b == a;
    }
  }

  /** The stored rows stay as they were and every new row is from the batch. */
  lemma {:induction false} BulkInsertKeeps(table: seq<Link>, batch: seq<Link>)
    ensures var t := BulkInsert(table, batch);
      |table| <= |t| && t[..|table|] == table && forall l :: l in t ==> l in table || l in batch
  {
    if batch != [] {
      var front := batch[..|batch| - 1];
      BulkInsertKeeps(table, front);
      var t := BulkInsert(table, front);
      var l := batch[|batch| - 1];
      assert (t + [l])[..|table|] == t[..|table|];
      assert forall x :: x in front ==> x in batch;
    }
  }

  /** Pairs stay unique. */
  lemma {:induction false} BulkInsertUnique(table: seq<Link>, batch: seq<Link>)
    requires UniquePairs(table)
    ensures UniquePairs(BulkInsert(table, batch))
  {
    if batch != [] {
      BulkInsertUnique(table, batch[..|batch| - 1]);
    }
  }

  /** A pair is stored exactly when it was stored before or the batch has it. */
  lemma {:induction false} BulkInsertPairs(table: seq<Link>, batch: seq<Link>, r: nat, g: int)
    ensures HasPair(BulkInsert(table, batch), r, g) <==> HasPair(table, r, g) || HasPair(batch, r, g)
  {
    if batch != [] {
      var front := batch[..|batch| - 1];
      var l := batch[|batch| - 1];
      BulkInsertPairs(table, front, r, g);
      var t := BulkInsert(table, front);
      if !HasPair(t, l.recipe, l.ingredient) {
        AppendPair(t, l, r, g);
      }
      assert batch == front + [l];
      AppendPair(front, l, r, g);
    }
  }

  lemma AppendPair(t: seq<Link>, l: Link, r: nat, g: int)
    ensures HasPair(t + [l], r, g) <==> HasPair(t, r, g) || (l.recipe == r && l.ingredient == g)
  {
    if HasPair(t + [l], r, g) {
      var x :| x in t + [l] && x.recipe == r && x.ingredient == g;
    }
    if HasPair(t, r, g) {
      var x :| x in t && x.recipe == r && x.ingredient == g;
      assert x in t + [l];
    }
  }

  // ---------------------------------------------------------------- import_recipes

  /** `import_recipes` (import_data.py:96-171): builds the lookup, then runs the row loop. */
  method ImportRecipes(rows: seq<Row>, catalog: seq<CatalogItem>) returns (count: nat, table: seq<Link>)
    ensures forall k :: k in LookupKeys(catalog) ==> k in LookupMap(catalog)
    ensures count == Created(rows)
    ensures table == BulkInsert([], AllLinks(rows, LookupMap(catalog), LookupKeys(catalog)))
  {
    var lookup := LookupMap(catalog);
    var keys := LookupKeys(catalog);
    LookupKeysExact(catalog);
    count, table := LinkRecipes(rows, lookup, keys);
  }

  /** What the import leaves in the `RecipeIngredient` table: each (recipe, ingredient) pair at
      most once (models.py:149-150), only links some created row queued, and every pair that
      some created row queued. */
  lemma ImportedTable(rows: seq<Row>, lookup: map<string, int>, keys: seq<string>, r: nat, g: int)
    requires forall k :: k in keys ==> k in lookup
    ensures var links := AllLinks(rows, lookup, keys);
      var table := BulkInsert([], links);
      UniquePairs(table)
      && (forall l :: l in table ==> l in links)
      && (HasPair(table, r, g) <==> HasPair(links, r, g))
  {
    var links := AllLinks(rows, lookup, keys);
    BulkInsertUnique([], links);
    BulkInsertKeeps([], links);
    BulkInsertPairs([], links, r, g);
  }

  /** The row loop of `import_recipes` (import_data.py:111-171): `count` is the number of
      created recipes, and the `RecipeIngredient` table ends up as all queued links
      inserted in order, the first one per pair kept. */
  method LinkRecipes(rows: seq<Row>, lookup: map<string, int>, keys: seq<string>) returns (count: nat, table: seq<Link>)
    requires forall k :: k in keys ==> k in lookup
    ensures count == Created(rows)
    ensures table == BulkInsert([], AllLinks(rows, lookup, keys))
  {
    count := 0;
    table := [];
    var riBulk: seq<Link> := [];
    var i: nat := 0;
    ghost var queues := RowQueues(rows, lookup, keys);
    assert rows[..0] == [] && queues[..0] == [];
    while i < |rows|
      invariant i <= |rows|
      invariant count == Created(rows[..i])
      invariant BulkInsert(table, riBulk) == BulkInsert([], Flatten(queues[..i]))
    {
      ghost var queued := riBulk;
      ghost var flushed := table;
      count, table, riBulk := LinkRow(i, rows[i], lookup, keys, count, table, riBulk, queues[i]);
      QueueStep(queues, i, flushed, queued, queues[i]);
      CreatedStep(rows, i);
      i := i + 1;
    }
    assert rows[..|rows|] == rows && queues[..|rows|] == queues;
    if riBulk != [] {
      table := BulkInsert(table, riBulk);
    }
  }

  /** One row of the loop (import_data.py:112-168): a created recipe queues its links and
      bumps `count`, and every 500 created recipes the queue is flushed into the table. */
  method LinkRow(i: nat, row: Row, lookup: map<string, int>, keys: seq<string>,
                 count: nat, table: seq<Link>, riBulk: seq<Link>, ghost queue: seq<Link>)
    returns (count': nat, table': seq<Link>, riBulk': seq<Link>)
    requires forall k :: k in keys ==> k in lookup
    requires queue == if row.createFails then [] else RowLinks(i, row.ingredients, lookup, keys)
    ensures count' == count + if row.createFails then 0 else 1
    ensures BulkInsert(table', riBulk') == BulkInsert(table, riBulk + queue)
  {
    count', table', riBulk' := count, table, riBulk;
    if !row.createFails {
      var parts := Split(row.ingredients, ',');
      riBulk' := LinkParts(i, parts, lookup, keys, riBulk);
      count' := count + 1;
      if count' % 500 == 0 && riBulk' != [] {
        FlushKeeps(table, riBulk');
        table' := BulkInsert(table, riBulk');
        riBulk' := [];
      }
    } else {
      assert riBulk + queue == riBulk;
    }
  }

  /** The part loop for one created recipe (import_data.py:151-159): appends its links to `riBulk`. */
  method LinkParts(recipe: nat, parts: seq<string>, lookup: map<string, int>, keys: seq<string>, riBulk: seq<Link>)
    returns (after: seq<Link>)
    requires forall k :: k in keys ==> k in lookup
    ensures after == riBulk + Present(PartLinks(recipe, parts, lookup, keys))
  {
    ghost var xs := PartLinks(recipe, parts, lookup, keys);
    after := riBulk;
    var j: nat := 0;
    while j < |parts|
      invariant j <= |parts|
      invariant after == riBulk + Present(xs[..j])
    {
      var link := LinkPart(recipe, parts[j], lookup, keys);
      if link.Some? {
        after := after + [link.value];
      }
      PresentStep(xs, j);
      j := j + 1;
    }
    assert xs[..|parts|] == xs;
  }

  /** One part (import_data.py:152-159): skip an empty name, else take the quantity and
      queue a link if `find_ingredient` finds the ingredient. */
  method LinkPart(recipe: nat, part: string, lookup: map<string, int>, keys: seq<string>) returns (link: Option<Link>)
    requires forall k :: k in keys ==> k in lookup
    ensures link == PartLink(recipe, part, lookup, keys)
  {
    var raw := Strip(RemoveGroups(part), Whitespace);
    if raw == "" {
      return None;
    }
    var qty := QtyOrEmpty(part);
    var ing := FindIngredient(lookup, keys, raw);
    if ing.Some? {
      link := Some(Link(recipe, ing.value, qty));
    } else {
      link := None;
    }
  }

  /** Flushing `ri_bulk` leaves nothing queued and the same table to come. */
  lemma FlushKeeps(table: seq<Link>, queued: seq<Link>)
    ensures BulkInsert(BulkInsert(table, queued), []) == BulkInsert(table, queued)
  {
  }

  /** One row of the outer loop keeps the table to come, whether or not `ri_bulk` was flushed. */
  lemma QueueStep(queues: seq<seq<Link>>, i: nat, table: seq<Link>, queued: seq<Link>, links: seq<Link>)
    requires i < |queues| && links == queues[i]
    requires BulkInsert(table, queued) == BulkInsert([], Flatten(queues[..i]))
    ensures BulkInsert(table, queued + links) == BulkInsert([], Flatten(queues[..i + 1]))
  {
    FlattenStep(queues, i);
    BulkInsertConcat(table, queued, links);
    BulkInsertConcat([], Flatten(queues[..i]), links);
  }

  lemma CreatedStep(rows: seq<Row>, i: nat)
    requires i < |rows|
    ensures Created(rows[..i + 1]) == Created(rows[..i]) + if rows[i].createFails then 0 else 1
  {
    assert rows[..i + 1][..i] == rows[..i];
  }

}
