# Ratatouille recipe matcher — a verified model of its core

The recipe site matches free-text recipe ingredient lists against a user's
pantry. This project models that core in Dafny:

- Parsing an ingredient list (`Recipe.ingredient_names`, and the loops in
  `recipe_detail` and `import_recipes` that do almost the same):
  - split on commas;
  - delete every `\s*\(.*?\)` group;
  - strip whitespace, then brackets and quotes;
  - drop empty names;
  - take the first `(...)` content as the quantity.
- Scoring a recipe against a pantry (`Recipe.match_score`): how many pantry
  items overlap, by substring either way, some lower-cased recipe name, and
  the rounded percentage.
- `visual_dna`: hue, saturation and lightness from a 32-bit hash.
- The recipe-matching views (`match_recipes`, `api_match`):
  - score every recipe;
  - keep those with `pct >= min_match` and `total > 0`;
  - rank with a stable sort on `(-pct, -matched)`;
  - cut to `limit`.
- The pantry as a set of ingredient ids that `pantry_toggle`, `pantry_clear`
  and the session-to-user migration in `register` change in place.
- `ingredient_search`: the query guard and the 40-result cut.
- The instruction steps of `recipe_detail`.
- The import command's helpers:
  - `safe_int` and `parse_bool`;
  - the ingredient lookup and the nested `find_ingredient`;
  - the row loop of `import_recipes`, which links recipes to ingredients
    through `ri_bulk` and `bulk_create(ignore_conflicts=True)`.

The modules follow the program:

- `PyStr`: Python's `str` operations, as the code uses them:
  - `isspace()` whitespace;
  - ASCII `lower()`;
  - `strip(chars)`;
  - `split`/`join`;
  - `in`.
- `Patterns`: the three regular expressions, each written as a scan with
  Python `re` semantics.
- `Models`: models.py.
- `Views` and `Ranking`: views.py.
- `Pantry`: the pantry views. `UserPantry` is a class whose ingredient set
  its methods update.
- `ImportData`: import_data.py.
- `Wrappers`: `Option`, plus the values present in a sequence of options.

Loops in the source are loops here:

- `ingredient_names`;
- the `ingredient_list` loop;
- the scoring scan;
- `find_ingredient`;
- the row and part loops of `import_recipes`.

Each loop is a method proved equal to a specification function. The
properties are lemmas about that function.

Three copies of the name cleaning differ:

- The `ingredient_names` copy (models.py:95-96) removes the `(...)` groups,
  strips whitespace, then strips brackets, quotes, a backslash, spaces and
  tabs (`Models.CleanName`).
- The `recipe_detail` copy (views.py:299) strips the same set without the
  backslash (`Views.DetailName`). So does the strip that `match_score` adds
  on top of `ingredient_names` (models.py:112), which then changes nothing.
- The `import_recipes` copy (import_data.py:152) strips whitespace only: no
  brackets, quotes or backslashes (`ImportData.RawName`).

`Views.BackslashDiffers` shows that the first two disagree on the part
`Tomato\`.

`pct` is `round(matched / total * 100)` on binary floating point. The model
does not carry floats, so the rounding is a parameter `rnd` of the scoring
and of the views that use it. All that is known of it is `Models.Rounds`:
`rnd` gives the floor or the ceiling of `100*matched/total`. Every fact about
`pct` is proved from that alone. `Models.RoundHalfEven`, the exact
half-to-even rounding, is one such rounding but not Python's. For 23 of 40
items it gives 58, while Python's float product falls just below 57.5 and
`round` gives 57 (`Models.RoundingUndetermined`). So which recipes pass
`min_match` at such a boundary depends on the rounding, and the model leaves
that open.

## Model

| member | source | states |
|---|---|---|
| Models.IngredientNames | recipes/models.py:88-99 | the loop's result is the specification `IngredientNamesOf(raw)`, and every name is non-empty with no `[ ] ' " \`, space or tab at either end |
| Models.CleanName | recipes/models.py:95-96 | a cleaned part has none of `[ ] ' " \`, space or tab at either end and is no longer than the part |
| Models.KeptNamesClean | recipes/models.py:95-98 | every kept name is non-empty and stripped of the edge characters |
| Models.KeptNamesOrigin | recipes/models.py:92-98 | at most one name per comma-separated part; the k-th name is the cleaned form of part `KeptIndices[k]` |
| Models.KeptIndicesIncrease | recipes/models.py:92-98 | names come out in the order of their parts |
| Models.KeptIndicesComplete | recipes/models.py:97-98 | a part yields no name only if its cleaned form is empty |
| Models.NonEmptyAll | recipes/models.py:97-98 | when no cleaned part is empty, all of them are kept |
| Models.IngredientNamesExample | recipes/tests.py:24-39 | `"Tomato (2), Onion (1), Oil"` gives exactly `["Tomato", "Onion", "Oil"]`, so Tomato and Onion are among the names |
| Models.CleanTomato | recipes/tests.py:27 | the part `Tomato (2)` cleans to `Tomato` |
| Models.CleanOnion | recipes/tests.py:27 | the part ` Onion (1)` cleans to `Onion` |
| Models.CleanOil | recipes/tests.py:27 | the part ` Oil` cleans to `Oil` |
| Models.FixtureSplit | recipes/tests.py:27 | the fixture splits into its three parts |
| Models.CleanWord | recipes/models.py:95-96 | a part that is padding plus a word with letters at both ends cleans to the word |
| Models.IngredientNamesOfJoin | recipes/models.py:92-98 | joining plain names with commas and parsing gives the names back |
| Models.KeptNamesPlain | recipes/models.py:92-98 | plain names are kept unchanged |
| Models.PlainClean | recipes/models.py:95-96 | cleaning leaves a plain name unchanged |
| Models.MatchScore | recipes/models.py:101-121 | an empty pantry scores exactly (0, 0, 0); `total` is the pantry size; `matched <= total` counts the matching pantry items; for a rounding that meets `Rounds`, `pct` rounds `100*matched/total` |
| Models.MatchedCount | recipes/models.py:112-119 | `matched` is the number of pantry items that, lower-cased and whitespace-stripped, overlap some lower-cased ingredient name by substring either way |
| Models.MatchedPlain | recipes/models.py:116-119 | when `names_lower` only lower-cases, the counted items are those overlapping some lower-cased name |
| Models.MatchedItems | recipes/models.py:116-119 | the pantry items whose lower-cased, whitespace-stripped form overlaps, by substring either way, some entry of `names_lower`; a subset of the pantry |
| Models.OverlapsSymmetric | recipes/models.py:118 | `p in ing or ing in p` is symmetric |
| Models.LowerNamesJustLower | recipes/models.py:112 | the `strip("[]'\" \t")` in `names_lower` changes nothing: every name is just lower-cased |
| Models.LowerOfClean | recipes/models.py:112 | a name already stripped of the edge characters stays stripped after `lower()` |
| Models.MatchScorePercent | recipes/models.py:121 | `0 <= pct <= 100`; a full match gives 100 and no match gives 0 |
| Models.PercentBounds | recipes/models.py:121 | any rounding of `100*matched/total` lies in 0..100, is 100 when all match and 0 when none do |
| Models.RoundHalfEven | recipes/models.py:121 | the exact half-to-even rounding is the nearest integer, the even one on a tie, and lies in the rounding band |
| Models.RoundingUndetermined | recipes/models.py:121 | 57 and 58 both round 23 of 40 items; the half-to-even rounding gives 58 |
| Models.HalfMatchIsFifty | recipes/models.py:121 | one match out of two is 50 under any rounding |
| Models.MatchScoreFull | recipes/tests.py:45-47 | a pantry all of whose items are recipe names scores (n, n, 100) |
| Models.MatchScoreAddItem | recipes/models.py:113-120 | adding an item raises `total` by one and `matched` by at most one |
| Models.MatchedAddItem | recipes/models.py:116-119 | adding an item adds at most one matched item and loses none |
| Models.VisualDna | recipes/models.py:131-136 | for any hash, hue is in [0,360), sat in [80,100) and lit in [45,60) |
| Models.VisualDnaFromHue | recipes/models.py:134-136 | saturation and lightness are fixed by the hue |
| PyStr.Strip | recipes/models.py:95 | the result has no stripped character at either end and is no longer than the input |
| PyStr.StripBounds | recipes/models.py:95 | the result is one slice of the input, with only stripped characters cut on both sides |
| PyStr.StripUnique | recipes/models.py:95 | `strip` is the only slice with both properties |
| PyStr.StrippedIsFixpoint | recipes/models.py:96 | stripping a stripped string changes nothing |
| PyStr.StripAbsorbs | recipes/models.py:95-96 | stripping a subset after a wider set changes nothing |
| PyStr.StripThenWider | recipes/models.py:95-96 | stripping a narrower set before a wider one is the same as the wider one alone |
| PyStr.StripInner | recipes/models.py:95 | cutting stripped characters off the ends first does not change `strip` |
| PyStr.StripLower | recipes/models.py:112 | for a set without letters, `strip` and `lower` commute |
| PyStr.LowerConcat | recipes/models.py:112 | `lower` distributes over concatenation |
| PyStr.LowerChar | recipes/models.py:112 | `lower` maps A-Z to a-z and leaves every other character alone |
| PyStr.Split | recipes/models.py:92 | `split` gives at least one part and no part holds the separator |
| PyStr.JoinSplit | recipes/models.py:92 | joining the parts of a split gives the string back |
| PyStr.SplitJoin | recipes/models.py:92 | splitting a join of separator-free parts gives the parts back |
| PyStr.SplitPlain | recipes/models.py:92 | a string without the separator splits into itself |
| PyStr.ContainsIffOccurs | recipes/models.py:118 | `a in b` holds iff `a` is the slice of `b` at some offset |
| PyStr.ContainsSelf | recipes/models.py:118 | every string contains itself |
| Patterns.GroupEndAtIsShortestMatch | recipes/models.py:95 | the scan ends each `\s*\(.*?\)` match where the lazy regex does: a match exists iff it finds one, and no match is shorter |
| Patterns.RemoveGroups | recipes/models.py:95 | removing groups never lengthens the string |
| Patterns.RemoveGroupsNoParen | recipes/models.py:95 | a string without `(` is unchanged |
| Patterns.RemoveGroupsAnnotated | recipes/models.py:95 | `name`, then whitespace, then `(q)` becomes `name` |
| Patterns.RemoveGroupsPlainRun | recipes/models.py:95 | a run without `(` ending in a non-space is copied unchanged |
| Patterns.QtyAtExact | recipes/views.py:300 | the scan at one index finds `q` iff `\(([^)]+)\)` matches there with group `q` |
| Patterns.FirstQtyIsLeftmost | recipes/views.py:300-301 | the search reports the leftmost match, and none only when nothing matches |
| Patterns.QtyOrEmpty | recipes/views.py:300-301 | the group of the first `\(([^)]+)\)` match, or `''` exactly when nothing matches (also import_data.py:155-156); it never holds `)` |
| Patterns.KeepDigits | recipes/management/commands/import_data.py:22 | the result holds only digits and is no longer than the input |
| Views.DetailIngredients | recipes/views.py:297-304 | the loop's result is `DetailIngredientsOf(raw, pantry)`, each name non-empty and stripped |
| Views.DetailName | recipes/views.py:299 | a `recipe_detail` name has none of `[ ] ' "`, space or tab at either end and is no longer than the part |
| Views.InPantry | recipes/views.py:303 | a name whose lower-case form is a pantry name is in the pantry; nothing is with an empty pantry |
| Views.DetailLinesClean | recipes/views.py:302 | every listed name is non-empty and stripped of the quote set |
| Views.DetailLinesOrigin | recipes/views.py:298-304 | entry k comes from one part: its cleaned name, the part's first quantity or '', and `in_pantry` iff some pantry name overlaps the lower-cased name |
| Views.DetailIndicesIncrease | recipes/views.py:297-304 | entries come out in part order |
| Views.CleanNameOfDetailName | recipes/views.py:299 | the `ingredient_names` name is the `recipe_detail` name with a backslash also cut |
| Views.BackslashDiffers | recipes/models.py:96 | on the part `Tomato\`, `ingredient_names` gives `Tomato` but `recipe_detail` keeps `Tomato\` |
| Views.BackslashBlankFree | recipes/views.py:299 | the part `Tomato\` has no group or whitespace to remove |
| Views.Steps | recipes/views.py:316 | every step is non-empty and whitespace-trimmed, at most one per piece |
| Views.InstructionSteps | recipes/views.py:316 | `instructions_list`: the `.`-separated pieces trimmed, blanks dropped, so at most one step per piece, each non-empty and trimmed |
| Views.InstructionStepsClean | recipes/views.py:316 | every instruction step is non-empty, trimmed and contains no '.' |
| Views.StepsKeepAbsent | recipes/views.py:316 | a character absent from every piece is absent from every step |
| Views.StepsOfSteps | recipes/views.py:316 | clean steps are kept unchanged |
| Views.InstructionStepsOfJoin | recipes/views.py:316 | joining clean steps with '.' and splitting again gives them back |
| Views.Matching | recipes/views.py:170-172 | the filter keeps at most all of the catalog |
| Views.MatchingExact | recipes/views.py:170-172 | an ingredient is kept iff it is in the catalog and matches by either name |
| Views.Take | recipes/views.py:172 | `[:n]` is a prefix of exactly `n` elements when the list is longer, the whole list otherwise |
| Views.SearchIngredients | recipes/views.py:162-180 | a query shorter than 2 after strip/lower gives nothing; otherwise the first min(40, number of matches) matches, in catalog order, hit k being match k, each flagged `in_pantry` iff its id is in the pantry |
| Views.SearchHitsMatch | recipes/views.py:170-180 | every hit is a matching catalog ingredient |
| Views.NormalQuery | recipes/views.py:164 | the query stripped, then lower-cased: no longer than the input, with no whitespace at either end |
| Views.SearchComplete | recipes/views.py:170-180 | when at most 40 match, every match is a hit |
| Ranking.ScoreRecipes | recipes/views.py:249-260 | the scan's result is `Scored(recipes, pantry, rnd, min_match)` |
| Ranking.KeptSound | recipes/views.py:252-260 | every entry passed the filter and carries its recipe's score |
| Ranking.KeptComplete | recipes/views.py:252-260 | every recipe that passes the filter has its entry |
| Ranking.KeptIncreasing | recipes/views.py:249-260 | entries are in scan order |
| Ranking.KeptNone | recipes/views.py:253 | when every total is 0, nothing is kept |
| Ranking.ScoredExact | recipes/views.py:249-260 | an entry is kept iff its recipe's `match_score` passes the filter; `missing == total - matched >= 0`; scan order |
| Ranking.ScoredEmptyPantry | recipes/views.py:225-228 | with an empty pantry no recipe is scored, as the early return gives |
| Ranking.Keep | recipes/views.py:253 | the filter `pct >= min_match and total > 0` (also views.py:389): an empty pantry never passes, and a non-empty one with `pct >= 0` passes any `min_match <= 0` |
| Ranking.Insert | recipes/views.py:262 | insertion adds exactly the one entry |
| Ranking.Before | recipes/views.py:262 | the sort order (also views.py:395): pct descending, then matched descending, then scan index ascending, which is the order Python's stable sort on `(-pct, -matched)` gives; irreflexive, and on equal keys decided by scan order |
| Ranking.InsertRanked | recipes/views.py:262 | insertion behind equal keys keeps the order ranked |
| Ranking.SortScored | recipes/views.py:262 | the sort gives a permutation ordered by pct desc, matched desc, then scan order |
| Ranking.RankedUnique | recipes/views.py:262 | only one ranked order exists, so it is Python's stable sort |
| Ranking.MatchRecipes | recipes/views.py:221-262 | the ranked list is a permutation of the kept entries, ranked, each with `pct >= min_match`, `total > 0`, `missing == total - matched >= 0` |
| Ranking.PrefixSlice | recipes/views.py:396 | `s[:n]` for any integer `n`, with negative `n` counting from the end |
| Ranking.ApiMatch | recipes/views.py:374-396 | `count` is the whole filtered length; as many entries are shown as `scored[:limit]` holds, ranked, drawn from the kept entries, and each ranks ahead of every kept entry not shown; an empty pantry gives none |
| Ranking.ShownAreBest | recipes/views.py:395-396 | every shown entry ranks before every entry cut off |
| Pantry.ToggleOutcome | recipes/views.py:192-203 | the four toggle outcomes listed below |
| Pantry.ToggleTwice | recipes/views.py:195-200 | toggling twice restores the pantry |
| Pantry.AddIdempotent | recipes/views.py:195-197 | adding twice is adding once |
| Pantry.UserPantry.Toggle | recipes/views.py:186-203 | the pantry and the response become `ToggleOutcome` of the old pantry |
| Pantry.UserPantry.Clear | recipes/views.py:206-210 | the pantry becomes empty and the count is 0 |
| Pantry.UserPantry.MergeFrom | recipes/views.py:433-440 | the user pantry gains every session ingredient and loses none; no session pantry changes nothing |
| Pantry.UserPantry.constructor | recipes/views.py:21 | a new pantry is empty |
| ImportData.SafeInt | recipes/management/commands/import_data.py:20-25 | no digits gives the default; otherwise the result is non-negative or the default |
| ImportData.SafeIntOfDecimal | recipes/management/commands/import_data.py:23 | the decimal form of `n` parses back to `n` |
| ImportData.SafeIntIgnoresNonDigit | recipes/management/commands/import_data.py:22 | a non-digit anywhere in the value does not change the result |
| ImportData.SafeIntTooLong | recipes/management/commands/import_data.py:23-25 | more than 4300 digits makes `int()` raise, so the default is returned |
| ImportData.SafeIntNegativeSign | recipes/management/commands/import_data.py:20-25 | `"-5"` gives 5: the sign is dropped |
| ImportData.SafeIntOfDigits | recipes/management/commands/import_data.py:20-22 | a non-empty digit string within the limit reads as its decimal value, and a leading `0` changes nothing |
| ImportData.SafeIntLeadingZeros | recipes/management/commands/import_data.py:20-22 | `"007"` gives 7 |
| ImportData.DecimalLeadingZero | recipes/management/commands/import_data.py:22 | a leading `0` does not change the decimal value |
| ImportData.ServingsDefault | recipes/management/commands/import_data.py:129 | `servings` is 4 when the column is missing and when it has no digits |
| ImportData.KeepDigitsConcat | recipes/management/commands/import_data.py:22 | digit filtering distributes over concatenation |
| ImportData.KeepDigitsOfDigits | recipes/management/commands/import_data.py:22 | a string of digits is unchanged |
| ImportData.DecimalRoundTrip | recipes/management/commands/import_data.py:23 | the decimal value of the decimal form of `n` is `n` |
| ImportData.DigitChar | recipes/management/commands/import_data.py:23 | the digit character for `d` has value `d` |
| ImportData.NatToDecimal | recipes/management/commands/import_data.py:23 | the decimal form is non-empty and all digits |
| ImportData.ParseBoolWord | recipes/management/commands/import_data.py:28-29 | for a trimmed value, true iff its lower-case form is one of yes, true, 1 |
| ImportData.ParseBoolIgnoresPadding | recipes/management/commands/import_data.py:28-29 | surrounding whitespace does not matter |
| ImportData.ParseBoolIgnoresCase | recipes/management/commands/import_data.py:28-29 | letter case does not matter |
| ImportData.LowerLower | recipes/management/commands/import_data.py:29 | `lower` is idempotent |
| ImportData.ParseBool | recipes/management/commands/import_data.py:28-29 | a blank value is false; a true value is one to four characters once trimmed |
| ImportData.ParseBoolDefaults | recipes/management/commands/import_data.py:65-67 | the column defaults `Yes` and `No` parse to true and false |
| ImportData.LookupKeysExact | recipes/management/commands/import_data.py:96-99 | the keys are distinct and are exactly the lookup's keys, which are exactly the catalog's lower-case names |
| ImportData.LookupMap | recipes/management/commands/import_data.py:97 | `ing_lookup`: the last ingredient of the catalog is the one its name maps to, so a later duplicate name wins |
| ImportData.LookupKeys | recipes/management/commands/import_data.py:99 | `ing_keys`: no more keys than ingredients, the first key being the first ingredient's name |
| ImportData.LookupMapLast | recipes/management/commands/import_data.py:97 | for a repeated name, the dict comprehension keeps the last ingredient |
| ImportData.FindIngredient | recipes/management/commands/import_data.py:101-109 | the loop with early return computes `Find` |
| ImportData.Find | recipes/management/commands/import_data.py:101-109 | an exact key wins; a found id belongs to a key equal to or overlapping the name; None iff there is no exact key and no key overlaps |
| ImportData.FindPartial | recipes/management/commands/import_data.py:106-109 | otherwise the result is the first key in order that overlaps the name, and None iff no key does |
| ImportData.FirstPartialFromIsFirst | recipes/management/commands/import_data.py:106-108 | the partial scan returns the first overlapping key from its start |
| ImportData.FirstPartialNone | recipes/management/commands/import_data.py:109 | with no overlapping key, the scan finds nothing |
| ImportData.FindInCatalog | recipes/management/commands/import_data.py:96-109 | a found ingredient is one of the catalog's |
| ImportData.ImportRecipes | recipes/management/commands/import_data.py:96-171 | `count` is the number of created recipes; the table is all queued links, inserted in order |
| ImportData.ImportedTable | recipes/management/commands/import_data.py:170-171 | the final table is unique per (recipe, ingredient) pair, holds only queued links, and holds every queued pair |
| ImportData.LinkRecipes | recipes/management/commands/import_data.py:111-171 | the row loop, flushing every 500 created recipes and at the end, gives the same count and table |
| ImportData.LinkRow | recipes/management/commands/import_data.py:116-168 | a created row adds one to `count` and its links to what will be stored; a failed row adds nothing |
| ImportData.LinkParts | recipes/management/commands/import_data.py:151-159 | the part loop appends exactly the row's links to `ri_bulk` |
| ImportData.LinkPart | recipes/management/commands/import_data.py:152-159 | one part gives the link `PartLink` specifies |
| ImportData.RawName | recipes/management/commands/import_data.py:152 | the looked-up name has no whitespace at either end and is no longer than the part |
| ImportData.RowLinksOrigin | recipes/management/commands/import_data.py:151-159 | each link comes from one part, in order: non-empty name, the ingredient `find_ingredient` found, the part's first quantity or ''; every such part queues one |
| ImportData.PartsLinksOrigin | recipes/management/commands/import_data.py:151-159 | the same for any list of parts |
| ImportData.PartLinkSome | recipes/management/commands/import_data.py:152-159 | a queued link has a non-empty name, the found ingredient and the part's quantity |
| ImportData.RowLinksRecipe | recipes/management/commands/import_data.py:159 | every link of a row names that row's recipe |
| ImportData.AllLinksSound | recipes/management/commands/import_data.py:115-168 | every queued link names a created recipe and is one of its row's links |
| ImportData.CreatedBounds | recipes/management/commands/import_data.py:161 | `count` is at most the number of rows; it is all of them when none fails and 0 when all fail |
| ImportData.CreatedStep | recipes/management/commands/import_data.py:161 | `count` grows by one exactly for a created recipe |
| ImportData.QueueStep | recipes/management/commands/import_data.py:162-166 | one more row's links keep the table to come |
| ImportData.BulkInsertConcat | recipes/management/commands/import_data.py:162-171 | inserting two batches in turn is inserting them as one, so the flush points do not change the table |
| ImportData.BulkInsert | recipes/management/commands/import_data.py:165 | inserting a batch keeps every stored row and adds at most one row per link |
| ImportData.BulkInsertKeeps | recipes/management/commands/import_data.py:165 | stored rows stay, and new rows come from the batch |
| ImportData.BulkInsertUnique | recipes/models.py:149-150 | `ignore_conflicts` keeps pairs unique |
| ImportData.BulkInsertPairs | recipes/management/commands/import_data.py:165 | a pair is stored iff it was stored before or the batch has it |
| ImportData.AppendPair | recipes/management/commands/import_data.py:165 | appending a row adds exactly its pair |

`Pantry.ToggleOutcome` states these outcomes:

- An unknown id leaves the pantry unchanged and answers not-found.
- `add` makes the ingredient a member.
- `toggle` flips its membership.
- Any other action removes it.
- No other member changes.

## Left out

- The Django ORM, with these exceptions:
  - the pantry is a set of ids;
  - the `RecipeIngredient` table is a sequence of links;
  - the catalog is a sequence of (id, lower-case name) in the order of `Ingredient.objects.all()`.

  Queryset filters, `order_by`, `get_or_create`, transactions and the
  deletion of old rows are not modelled.
- HTTP, JSON, decorators, CSRF, sessions, authentication, templates and
  `Paginator`. Request parameters are inputs; their defaults (`min_match`
  10, `limit` 12, `action` `toggle`) are not modelled. The `ValueError` that
  `int()` raises on a malformed `min_match` or `limit` is not modelled.
- CSV reading and all `stdout` progress output. The rows are an input
  sequence.
- `Recipe.objects.create` is a boolean per row, saying whether it raised. No
  other exception inside the row's `try` is modelled. A failure of
  `bulk_create` is not modelled either.
- `safe_float` and every float field, including `delay` and `duration` of
  `visual_dna`: floating point.
- `zlib.adler32` is a foreign computation. Its value is an input to
  `Models.VisualDna`.
- `Models.MatchScore`: `pct` is `rnd(100*matched, total)` for a rounding
  `rnd` that is a parameter. Python's float `round` is not modelled, so the
  model does not decide which of the two neighbouring integers `pct` is, nor
  whether `Ranking.Keep` passes a recipe whose exact percentage lies within
  one of `min_match`, nor how such recipes rank.
- Unicode `lower()` and Unicode `\d`. The model lower-cases only A-Z and
  counts only 0-9 as digits, so names with other letters or digits are
  outside the model.
- SQL collation and `icontains` in `ingredient_search`. `Views.Matching`
  uses the model's `lower()`. The caller's catalog order stands in for
  `order_by('name')`; SQL collation is not modelled.
- `order_by('?')` similar recipes, saved recipes, `recipe_list` filters and
  sorting, and the `home` statistics: database queries only.
- The emoji tables of `home` and their lookups with a fallback icon: display
  only.
- The order of `pantry_list` and `get_pantry_ingredients`. The pantry is a
  set.
- `ImportData.SafeInt` assumes CPython's default limit of 4300 digits for
  `int()` of a string.
- `import_ingredients`: CSV reading and row creation, except `parse_bool`,
  which is modelled.
