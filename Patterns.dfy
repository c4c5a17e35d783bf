/**
 * The regular expressions of the recipe code, written out as left-to-right
 * scans with Python `re` semantics (no flags: `.` matches anything but a
 * newline, `\s` is the str.isspace() set):
 *   re.sub(r'\s*\(.*?\)', '', s)    removes parenthesised annotations,
 *   re.search(r'\(([^)]+)\)', s)    finds the first quantity in parentheses,
 *   re.sub(r'[^\d]', '', s)         keeps the decimal digits.
 */
module Patterns {
  import opened Wrappers
  import opened PyStr

  // ------------------------------------------------ re.sub(r'\s*\(.*?\)', '', s)

  /** The first index at or after `i` holding ')' or a newline (or `|s|`):
      where the lazy `.*?\)` either closes or gives up. */
  function CloseOrBreak(s: string, i: nat): (k: nat)
    requires i <= |s|
    ensures i <= k <= |s|
    ensures forall m :: i <= m < k ==> s[m] != ')' && s[m] != '\n'
    ensures k < |s| ==> s[k] == ')' || s[k] == '\n'
    decreases |s| - i
  {
    if i == |s| || s[i] == ')' || s[i] == '\n' then i else CloseOrBreak(s, i + 1)
  }

  /** `s[i..e]` is a match of `\s*\(.*?\)` whose `(` stands at index `w`. */
  predicate IsGroupMatch(s: string, sp: set<char>, i: nat, w: nat, e: nat) {
    i <= w && w + 2 <= e <= |s| && AllIn(s, i, w, sp)
    && s[w] == '(' && s[e - 1] == ')'
    && forall m :: w < m < e - 1 ==> s[m] != '\n'
  }

  /** Where the match of `\s*\(.*?\)` that the regex engine tries at index `i` ends, if there is one. */
  function GroupEndAt(s: string, sp: set<char>, i: nat): (e: Option<nat>)
    requires i <= |s|
    ensures e.Some? ==> i < e.value <= |s|
  {
    var w := LeftCut(s, sp, i);
    if w < |s| && s[w] == '(' then
      var k := CloseOrBreak(s, w + 1);
      if k < |s| && s[k] == ')' then Some(k + 1) else None
    else None
  }

  /** The engine's choice is a match, and it is the shortest one starting at `i`;
      when it reports none, nothing matches at `i`. */
  lemma GroupEndAtIsShortestMatch(s: string, sp: set<char>, i: nat)
    requires i <= |s| && '(' !in sp
    ensures GroupEndAt(s, sp, i).Some? ==> IsGroupMatch(s, sp, i, LeftCut(s, sp, i), GroupEndAt(s, sp, i).value)
    ensures forall w: nat, e: nat :: IsGroupMatch(s, sp, i, w, e) ==>
              GroupEndAt(s, sp, i).Some? && GroupEndAt(s, sp, i).value <= e
  {
    var w0 := LeftCut(s, sp, i);
    forall w: nat, e: nat | IsGroupMatch(s, sp, i, w, e)
      ensures GroupEndAt(s, sp, i).Some? && GroupEndAt(s, sp, i).value <= e
    {
      var k := CloseOrBreak(s, w + 1);
      assert k <= e - 1;
    }
  }

  /** `re.sub(r'\s*\(.*?\)', '', s[i..])`: scanning from `i`, every match is dropped
      and every other character is copied. */
  function RemoveGroupsFrom(s: string, sp: set<char>, i: nat): (r: string)
    requires i <= |s|
    ensures |r| <= |s| - i
    decreases |s| - i
  {
    if i == |s| then ""
    else match GroupEndAt(s, sp, i)
      case Some(e) => RemoveGroupsFrom(s, sp, e)
      case None => [s[i]] + RemoveGroupsFrom(s, sp, i + 1)
  }

  /** `re.sub(r'\s*\(.*?\)', '', s)`. */
  function RemoveGroups(s: string): (r: string)
    ensures |r| <= |s|
  {
    RemoveGroupsFrom(s, Whitespace, 0)
  }

  /** Text without '(' is copied unchanged, provided it does not end in a space
      that a following group would absorb. */
  lemma {:induction false} RemoveGroupsPlainRun(s: string, sp: set<char>, i: nat, j: nat)
    requires i <= j <= |s|
    requires forall m :: i <= m < j ==> s[m] != '('
    requires i == j || s[j - 1] !in sp
    ensures RemoveGroupsFrom(s, sp, i) == s[i..j] + RemoveGroupsFrom(s, sp, j)
    decreases j - i
  {
    if i < j {
      NoGroupInPlainRun(s, sp, i, j);
      CopyStep(s, sp, i);
      RemoveGroupsPlainRun(s, sp, i + 1, j);
      ConsSlice(s, i, j, RemoveGroupsFrom(s, sp, j));
    }
  }

  lemma CopyStep(s: string, sp: set<char>, i: nat)
    requires i < |s| && GroupEndAt(s, sp, i) == None
    ensures RemoveGroupsFrom(s, sp, i) == [s[i]] + RemoveGroupsFrom(s, sp, i + 1)
  {
  }

  lemma ConsSlice(s: string, i: nat, j: nat, t: string)
    requires i < j <= |s|
    ensures [s[i]] + (s[i + 1..j] + t) == s[i..j] + t
  {
    assert s[i..j] == [s[i]] + s[i + 1..j];
  }

  lemma NoGroupInPlainRun(s: string, sp: set<char>, i: nat, j: nat)
    requires i < j <= |s|
    requires forall m :: i <= m < j ==> s[m] != '('
    requires s[j - 1] !in sp
    ensures GroupEndAt(s, sp, i) == None
  {
    var w := LeftCut(s, sp, i);
    assert w < j;
  }

  lemma {:induction false} RemoveGroupsNoParenFrom(s: string, sp: set<char>, i: nat)
    requires i <= |s| && forall m :: i <= m < |s| ==> s[m] != '('
    ensures RemoveGroupsFrom(s, sp, i) == s[i..]
    decreases |s| - i
  {
    if i < |s| {
      var w := LeftCut(s, sp, i);
      assert GroupEndAt(s, sp, i) == None;
      RemoveGroupsNoParenFrom(s, sp, i + 1);
    }
  }

  /** A string without '(' has nothing to remove. */
  lemma RemoveGroupsNoParen(s: string)
    requires '(' !in s
    ensures RemoveGroups(s) == s
  {
    RemoveGroupsNoParenFrom(s, Whitespace, 0);
  }

  lemma {:induction false} RemoveGroupsAnnotatedWith(name: string, gap: string, q: string, sp: set<char>)
    requires '(' !in name && (name == [] || name[|name| - 1] !in sp)
    requires forall m :: 0 <= m < |gap| ==> gap[m] in sp
    requires '(' !in sp
    requires ')' !in q && '\n' !in q
    ensures RemoveGroupsFrom(name + gap + "(" + q + ")", sp, 0) == name
  {
    var s := name + gap + "(" + q + ")";
    var g, w := |name|, |name| + |gap|;
    AnnotatedLayout(name, gap, q);
    RemoveGroupsPlainRun(s, sp, 0, g);
    AnnotatedGroupEnd(s, sp, g, w);
  }

  /** Where the pieces of `name + gap + "(" + q + ")"` sit. */
  lemma AnnotatedLayout(name: string, gap: string, q: string)
    ensures var s, g, w := name + gap + "(" + q + ")", |name|, |name| + |gap|;
      |s| == w + |q| + 2 && s[0..g] == name
      && (forall m :: 0 <= m < g ==> s[m] == name[m])
      && (forall m :: g <= m < w ==> s[m] == gap[m - g])
      && (forall m :: w + 1 <= m < |s| - 1 ==> s[m] == q[m - w - 1])
      && s[w] == '(' && s[|s| - 1] == ')'
  {
  }

  /** A whitespace run from `g` to `w`, then `(`, no `)` or newline, and `)` at the end of `s`:
      the group starting at `g` ends at `|s|`. */
  lemma AnnotatedGroupEnd(s: string, sp: set<char>, g: nat, w: nat)
    requires g <= w < |s| - 1 && AllIn(s, g, w, sp) && s[w] == '(' && '(' !in sp
    requires s[|s| - 1] == ')' && forall m :: w + 1 <= m < |s| - 1 ==> s[m] != ')' && s[m] != '\n'
    ensures RemoveGroupsFrom(s, sp, g) == []
  {
    LeftCutUnique(s, sp, g, w);
    CloseOrBreakUnique(s, w + 1, |s| - 1);
    assert GroupEndAt(s, sp, g) == Some(|s|);
  }

  /** A trailing annotation `(q)` after a name, with optional whitespace before it, is removed. */
  lemma RemoveGroupsAnnotated(name: string, gap: string, q: string)
    requires '(' !in name && (name == [] || name[|name| - 1] !in Whitespace)
    requires forall m :: 0 <= m < |gap| ==> gap[m] in Whitespace
    requires ')' !in q && '\n' !in q
    ensures RemoveGroups(name + gap + "(" + q + ")") == name
  {
    RemoveGroupsAnnotatedWith(name, gap, q, Whitespace);
  }

  lemma {:induction false} CloseOrBreakUnique(s: string, i: nat, k: nat)
    requires i <= k < |s| && (s[k] == ')' || s[k] == '\n')
    requires forall m :: i <= m < k ==> s[m] != ')' && s[m] != '\n'
    ensures CloseOrBreak(s, i) == k
    decreases k - i
  {
    if i < k { CloseOrBreakUnique(s, i + 1, k); }
  }

  // ------------------------------------------------ re.search(r'\(([^)]+)\)', s)

  /** A match of `\(([^)]+)\)` at index `i` whose group is `q`. */
  predicate IsQtyMatch(s: string, i: nat, q: string) {
    i + |q| + 2 <= |s| && s[i] == '(' && q != [] && ')' !in q
    && s[i + 1..i + 1 + |q|] == q && s[i + 1 + |q|] == ')'
  }

  /** The first index at or after `i` holding ')' (or `|s|`). */
  function CloseFrom(s: string, i: nat): (k: nat)
    requires i <= |s|
    ensures i <= k <= |s|
    ensures forall m :: i <= m < k ==> s[m] != ')'
    ensures k < |s| ==> s[k] == ')'
    decreases |s| - i
  {
    if i == |s| || s[i] == ')' then i else CloseFrom(s, i + 1)
  }

  /** The group the engine captures when it tries `\(([^)]+)\)` at index `i`. */
  function QtyAt(s: string, i: nat): (r: Option<string>)
    requires i < |s|
    ensures r.Some? ==> IsQtyMatch(s, i, r.value)
  {
    if s[i] != '(' then None
    else
      var k := CloseFrom(s, i + 1);
      if i + 1 < k < |s| then Some(s[i + 1..k]) else None
  }

  /** At any index there is at most one match, and `QtyAt` returns its group. */
  lemma QtyAtExact(s: string, i: nat, q: string)
    requires i < |s|
    ensures QtyAt(s, i) == Some(q) <==> IsQtyMatch(s, i, q)
  {
    if IsQtyMatch(s, i, q) {
      var k := i + 1 + |q|;
      forall m | i + 1 <= m < k ensures s[m] != ')' {
        assert s[m] == q[m - i - 1];
      }
      assert CloseFrom(s, i + 1) == k by { CloseFromUnique(s, i + 1, k); }
    }
  }

  lemma {:induction false} CloseFromUnique(s: string, i: nat, k: nat)
    requires i <= k < |s| && s[k] == ')' && forall m :: i <= m < k ==> s[m] != ')'
    ensures CloseFrom(s, i) == k
    decreases k - i
  {
    if i < k { CloseFromUnique(s, i + 1, k); }
  }

  function FirstQtyFrom(s: string, i: nat): Option<string>
    requires i <= |s|
    decreases |s| - i
  {
    if i == |s| then None
    else if QtyAt(s, i).Some? then QtyAt(s, i)
    else FirstQtyFrom(s, i + 1)
  }

  /** `re.search(r'\(([^)]+)\)', s)` and its group 1. */
  function FirstQty(s: string): Option<string> {
    FirstQtyFrom(s, 0)
  }

  /** The search finds the leftmost match; it reports none only when nothing matches. */
  lemma {:induction false} FirstQtyFromIsLeftmost(s: string, i: nat)
    requires i <= |s|
    ensures FirstQtyFrom(s, i).Some? ==>
      exists j :: i <= j < |s| && IsQtyMatch(s, j, FirstQtyFrom(s, i).value)
                  && forall j', q' :: i <= j' < j ==> !IsQtyMatch(s, j', q')
    ensures FirstQtyFrom(s, i).None? ==> forall j, q :: i <= j < |s| ==> !IsQtyMatch(s, j, q)
    decreases |s| - i
  {
    if i < |s| {
      forall q' { QtyAtExact(s, i, q'); }
      if QtyAt(s, i).None? {
        FirstQtyFromIsLeftmost(s, i + 1);
      }
    }
  }

  lemma FirstQtyIsLeftmost(s: string)
    ensures FirstQty(s).Some? ==>
      exists j :: 0 <= j < |s| && IsQtyMatch(s, j, FirstQty(s).value)
                  && forall j', q' :: 0 <= j' < j ==> !IsQtyMatch(s, j', q')
    ensures FirstQty(s).None? ==> forall j, q :: 0 <= j < |s| ==> !IsQtyMatch(s, j, q)
  {
    FirstQtyFromIsLeftmost(s, 0);
  }

  /** `qty_match.group(1) if qty_match else ''`. */
  function QtyOrEmpty(s: string): (q: string)
    ensures q == "" <==> FirstQty(s).None?
    ensures ')' !in q
  {
    FirstQtyIsLeftmost(s);
    match FirstQty(s)
    case Some(q) => q
    case None => ""
  }

  // ------------------------------------------------ re.sub(r'[^\d]', '', s)

  predicate IsDigit(c: char) { '0' <= c <= '9' }

  /** The decimal digits of `s`, in order. */
  function KeepDigits(s: string): (r: string)
    ensures |r| <= |s|
    ensures forall k :: 0 <= k < |r| ==> IsDigit(r[k])
  {
    if s == [] then ""
    else (if IsDigit(s[0]) then [s[0]] else "") + KeepDigits(s[1..])
  }
}
