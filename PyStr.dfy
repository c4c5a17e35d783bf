/**
 * The parts of Python's `str` that the recipe code relies on: the whitespace
 * set, `lower()`, `strip()`, `split(sep)`, `sep.join(...)` and the substring
 * test `a in b`. Python strings are sequences of code points, as Dafny strings are.
 */
module PyStr {

  /** The characters for which Python's `str.isspace()` holds; `\s` in a str
      regular expression matches exactly these. */
  const Whitespace: set<char> := {
    '\t', '\n', '\U{0B}', '\U{0C}', '\r', '\U{1C}', '\U{1D}', '\U{1E}', '\U{1F}', ' ',
    '\U{85}', '\U{A0}', '\U{1680}',
    '\U{2000}', '\U{2001}', '\U{2002}', '\U{2003}', '\U{2004}', '\U{2005}',
    '\U{2006}', '\U{2007}', '\U{2008}', '\U{2009}', '\U{200A}',
    '\U{2028}', '\U{2029}', '\U{202F}', '\U{205F}', '\U{3000}'
  }

  predicate IsUpper(c: char) { 'A' <= c <= 'Z' }
  predicate IsLetter(c: char) { 'A' <= c <= 'Z' || 'a' <= c <= 'z' }

  /** A character set that `lower()` cannot move a character into or out of. */
  predicate NoLetters(cs: set<char>) {
    forall c :: c in cs ==> !IsLetter(c)
  }

  lemma WhitespaceHasNoLetters()
    ensures NoLetters(Whitespace)
  {
  }

  /** `c.lower()` for ASCII letters; every other character is left as it is. */
  function LowerChar(c: char): (d: char)
    ensures IsUpper(c) ==> 'a' <= d <= 'z' && d as int == c as int + 32
    ensures !IsUpper(c) ==> d == c
  {
    if IsUpper(c) then (c as int + 32) as char else c
  }

  /** `s.lower()`: lowers every character and keeps the length. */
  function Lower(s: string): string
  {
    seq(|s|, i requires 0 <= i < |s| => LowerChar(s[i]))
  }

  lemma LowerKeepsMembership(c: char, cs: set<char>)
    requires NoLetters(cs)
    ensures LowerChar(c) in cs <==> c in cs
  {
  }

  lemma {:induction false} LowerConcat(a: string, b: string)
    ensures Lower(a + b) == Lower(a) + Lower(b)
  {
    assert |Lower(a + b)| == |Lower(a) + Lower(b)|;
    forall i | 0 <= i < |a + b| ensures Lower(a + b)[i] == (Lower(a) + Lower(b))[i] {
      if i < |a| { assert (a + b)[i] == a[i]; } else { assert (a + b)[i] == b[i - |a|]; }
    }
  }

  // ---------------------------------------------------------------- strip

  /** Every character of `s` at an index in `[lo, hi)` is in `cs`. */
  predicate AllIn(s: string, lo: nat, hi: nat, cs: set<char>)
    requires lo <= hi <= |s|
  {
    forall k :: lo <= k < hi ==> s[k] in cs
  }

  /** `s` neither starts nor ends with a character of `cs`. */
  predicate Stripped(s: string, cs: set<char>) {
    s == [] || (s[0] !in cs && s[|s| - 1] !in cs)
  }

  /** The first index at or after `i` whose character is not in `cs` (or `|s|`). */
  function LeftCut(s: string, cs: set<char>, i: nat): (r: nat)
    requires i <= |s|
    ensures i <= r <= |s| && AllIn(s, i, r, cs)
    ensures r < |s| ==> s[r] !in cs
    decreases |s| - i
  {
    if i < |s| && s[i] in cs then LeftCut(s, cs, i + 1) else i
  }

  /** The last index `r` in `[lo, j]` with `s[r - 1]` not in `cs` (or `lo`). */
  function RightCut(s: string, cs: set<char>, lo: nat, j: nat): (r: nat)
    requires lo <= j <= |s|
    ensures lo <= r <= j && AllIn(s, r, j, cs)
    ensures r > lo ==> s[r - 1] !in cs
    decreases j
  {
    if j > lo && s[j - 1] in cs then RightCut(s, cs, lo, j - 1) else j
  }

  /** `s.strip(cs)`; `s.strip()` is `Strip(s, Whitespace)`: the slice of `s` left once the
      characters of `cs` are cut from the front and then from the back. */
  function Strip(s: string, cs: set<char>): (r: string)
    ensures Stripped(r, cs)
    ensures |r| <= |s|
  {
    var lo := LeftCut(s, cs, 0);
    s[lo..RightCut(s, cs, lo, |s|)]
  }

  /** The bounds of the slice `Strip(s, cs)` cut out of `s`. */
  lemma StripBounds(s: string, cs: set<char>) returns (lo: nat, hi: nat)
    ensures lo <= hi <= |s| && Strip(s, cs) == s[lo..hi]
    ensures AllIn(s, 0, lo, cs) && AllIn(s, hi, |s|, cs)
  {
    lo := LeftCut(s, cs, 0);
    hi := RightCut(s, cs, lo, |s|);
    if lo == hi {
      assert AllIn(s, lo, |s|, cs);
    }
  }

  lemma {:induction false} LeftCutUnique(s: string, cs: set<char>, i: nat, lo: nat)
    requires i <= lo <= |s| && AllIn(s, i, lo, cs) && (lo == |s| || s[lo] !in cs)
    ensures LeftCut(s, cs, i) == lo
    decreases lo - i
  {
    if i < lo {
      LeftCutUnique(s, cs, i + 1, lo);
    }
  }

  lemma {:induction false} RightCutUnique(s: string, cs: set<char>, lo: nat, j: nat, hi: nat)
    requires lo <= hi <= j <= |s| && AllIn(s, hi, j, cs) && (hi == lo || s[hi - 1] !in cs)
    ensures RightCut(s, cs, lo, j) == hi
    decreases j
  {
    if hi < j {
      RightCutUnique(s, cs, lo, j - 1, hi);
    }
  }

  /** The strip of `s` is determined by any split of `s` into a prefix and a
      suffix made of `cs` around a middle that is itself stripped. */
  lemma StripUnique(s: string, cs: set<char>, lo: nat, hi: nat)
    requires lo <= hi <= |s| && AllIn(s, 0, lo, cs) && AllIn(s, hi, |s|, cs) && Stripped(s[lo..hi], cs)
    ensures Strip(s, cs) == s[lo..hi]
  {
    if lo < hi {
      assert s[lo] == s[lo..hi][0] && s[hi - 1] == s[lo..hi][hi - lo - 1];
      LeftCutUnique(s, cs, 0, lo);
      RightCutUnique(s, cs, lo, |s|, hi);
    } else {
      LeftCutUnique(s, cs, 0, |s|);
      RightCutUnique(s, cs, |s|, |s|, |s|);
    }
  }

  lemma StrippedIsFixpoint(s: string, cs: set<char>)
    requires Stripped(s, cs)
    ensures Strip(s, cs) == s
  {
    StripUnique(s, cs, 0, |s|);
  }

  lemma StrippedSubset(s: string, small: set<char>, big: set<char>)
    requires small <= big && Stripped(s, big)
    ensures Stripped(s, small)
  {
  }

  /** Stripping again with the same or a smaller set changes nothing. */
  lemma StripAbsorbs(s: string, big: set<char>, small: set<char>)
    requires small <= big
    ensures Strip(Strip(s, big), small) == Strip(s, big)
  {
    StrippedSubset(Strip(s, big), small, big);
    StrippedIsFixpoint(Strip(s, big), small);
  }

  /** Strip ignores characters of `cs` already cut from either end. */
  lemma StripInner(s: string, cs: set<char>, i: nat, k: nat)
    requires i <= k <= |s| && AllIn(s, 0, i, cs) && AllIn(s, k, |s|, cs)
    ensures Strip(s[i..k], cs) == Strip(s, cs)
  {
    var a, b := StripBounds(s[i..k], cs);
    StripInnerAt(s, cs, i, k, a, b);
  }

  lemma StripInnerAt(s: string, cs: set<char>, i: nat, k: nat, a: nat, b: nat)
    requires i <= k <= |s| && AllIn(s, 0, i, cs) && AllIn(s, k, |s|, cs)
    requires a <= b <= k - i && AllIn(s[i..k], 0, a, cs) && AllIn(s[i..k], b, k - i, cs)
    requires Stripped(s[i..k][a..b], cs)
    ensures Strip(s, cs) == s[i..k][a..b]
  {
    SliceOfSlice(s, i, k, a, b);
    AllInPrefix(s, cs, i, k, a);
    AllInSuffix(s, cs, i, k, b);
    StripUnique(s, cs, i + a, i + b);
  }

  lemma SliceOfSlice(s: string, i: nat, k: nat, a: nat, b: nat)
    requires i <= k <= |s| && a <= b <= k - i
    ensures s[i..k][a..b] == s[i + a..i + b]
  {
    forall j | 0 <= j < b - a ensures s[i..k][a..b][j] == s[i + a..i + b][j] {
      assert s[i..k][a..b][j] == s[i..k][a + j] == s[i + a + j];
    }
  }

  lemma AllInPrefix(s: string, cs: set<char>, i: nat, k: nat, a: nat)
    requires i <= k <= |s| && a <= k - i && AllIn(s, 0, i, cs) && AllIn(s[i..k], 0, a, cs)
    ensures AllIn(s, 0, i + a, cs)
  {
    forall j | 0 <= j < i + a ensures s[j] in cs {
      if j >= i { assert s[j] == s[i..k][j - i]; }
    }
  }

  lemma AllInSuffix(s: string, cs: set<char>, i: nat, k: nat, b: nat)
    requires i <= k <= |s| && b <= k - i && AllIn(s, k, |s|, cs) && AllIn(s[i..k], b, k - i, cs)
    ensures AllIn(s, i + b, |s|, cs)
  {
    forall j | i + b <= j < |s| ensures s[j] in cs {
      if j < k { assert s[j] == s[i..k][j - i]; }
    }
  }

  /** Stripping first with a smaller set and then with a larger one is stripping with the larger one. */
  lemma {:induction false} StripThenWider(s: string, small: set<char>, big: set<char>)
    requires small <= big
    ensures Strip(Strip(s, small), big) == Strip(s, big)
  {
    var lo, hi := StripBounds(s, small);
    StripInner(s, big, lo, hi);
  }

  /** `lower()` and `strip(cs)` commute when `cs` holds no letters. */
  lemma StripLower(s: string, cs: set<char>)
    requires NoLetters(cs)
    ensures Strip(Lower(s), cs) == Lower(Strip(s, cs))
  {
    var lo, hi := StripBounds(s, cs);
    LowerSlice(s, lo, hi);
    LowerAllIn(s, cs, 0, lo);
    LowerAllIn(s, cs, hi, |s|);
    LowerStripped(s[lo..hi], cs);
    StripUnique(Lower(s), cs, lo, hi);
  }

  lemma LowerAllIn(s: string, cs: set<char>, i: nat, j: nat)
    requires NoLetters(cs) && i <= j <= |s| && AllIn(s, i, j, cs)
    ensures AllIn(Lower(s), i, j, cs)
  {
    forall k | i <= k < j ensures Lower(s)[k] in cs {
      LowerKeepsMembership(s[k], cs);
    }
  }

  lemma LowerStripped(t: string, cs: set<char>)
    requires NoLetters(cs) && Stripped(t, cs)
    ensures Stripped(Lower(t), cs)
  {
    if t != [] {
      LowerKeepsMembership(t[0], cs);
      LowerKeepsMembership(t[|t| - 1], cs);
    }
  }

  lemma LowerSlice(s: string, i: nat, j: nat)
    requires i <= j <= |s|
    ensures Lower(s)[i..j] == Lower(s[i..j])
  {
    assert |Lower(s)[i..j]| == |Lower(s[i..j])|;
    forall k | 0 <= k < j - i ensures Lower(s)[i..j][k] == Lower(s[i..j])[k] {
      assert s[i..j][k] == s[i + k];
    }
  }

  // ---------------------------------------------------------------- split and join

  /** `s.split(sep)` for a one-character separator: never empty, and no part holds `sep`. */
  function Split(s: string, sep: char): (parts: seq<string>)
    ensures |parts| >= 1
    ensures forall k :: 0 <= k < |parts| ==> sep !in parts[k]
    decreases |s|
  {
    if s == [] then [""]
    else
      var rest := Split(s[1..], sep);
      if s[0] == sep then [""] + rest
      else [[s[0]] + rest[0]] + rest[1..]
  }

  /** `sep.join(parts)`. */
  function Join(parts: seq<string>, sep: char): string
  {
    if |parts| == 0 then ""
    else if |parts| == 1 then parts[0]
    else parts[0] + [sep] + Join(parts[1..], sep)
  }

  /** Joining the parts of a split gives back the string. */
  lemma {:induction false} JoinSplit(s: string, sep: char)
    ensures Join(Split(s, sep), sep) == s
    decreases |s|
  {
    if s != [] {
      JoinSplit(s[1..], sep);
      var rest := Split(s[1..], sep);
      if s[0] != sep {
        if |rest| > 1 {
          assert Join(rest, sep) == rest[0] + [sep] + Join(rest[1..], sep);
          assert [[s[0]] + rest[0]] + rest[1..] == [[s[0]] + rest[0]] + rest[1..];
        }
      }
    }
  }

  lemma {:induction false} SplitPlain(a: string, sep: char)
    requires sep !in a
    ensures Split(a, sep) == [a]
    decreases |a|
  {
    if a != [] {
      SplitPlain(a[1..], sep);
      assert [a[0]] + a[1..] == a;
    }
  }

  lemma {:induction false} SplitAfterPlain(a: string, sep: char, b: string)
    requires sep !in a
    ensures Split(a + [sep] + b, sep) == [a] + Split(b, sep)
    decreases |a|
  {
    if a == [] {
      assert a + [sep] + b == [sep] + b;
      assert ([sep] + b)[1..] == b;
    } else {
      var s := a + [sep] + b;
      assert s[1..] == a[1..] + [sep] + b;
      SplitAfterPlain(a[1..], sep, b);
      assert [a[0]] + a[1..] == a;
    }
  }

  /** Splitting a join whose parts do not hold the separator gives back the parts. */
  lemma {:induction false} SplitJoin(parts: seq<string>, sep: char)
    requires |parts| >= 1
    requires forall k :: 0 <= k < |parts| ==> sep !in parts[k]
    ensures Split(Join(parts, sep), sep) == parts
  {
    if |parts| == 1 {
      SplitPlain(parts[0], sep);
    } else {
      SplitJoin(parts[1..], sep);
      SplitAfterPlain(parts[0], sep, Join(parts[1..], sep));
    }
  }

  // ---------------------------------------------------------------- substring

  /** Python's `sub in s`: `sub` occurs in `s` at some offset (the empty string occurs everywhere). */
  predicate Contains(s: string, sub: string)
    decreases |s|
  {
    sub <= s || (s != [] && Contains(s[1..], sub))
  }

  lemma {:induction false} ContainsAt(s: string, sub: string, i: nat)
    requires i + |sub| <= |s| && s[i..i + |sub|] == sub
    ensures Contains(s, sub)
    decreases i
  {
    if i > 0 {
      assert s[1..][i - 1..i - 1 + |sub|] == s[i..i + |sub|];
      ContainsAt(s[1..], sub, i - 1);
    }
  }

  lemma {:induction false} ContainsWitness(s: string, sub: string) returns (i: nat)
    requires Contains(s, sub)
    ensures i + |sub| <= |s| && s[i..i + |sub|] == sub
    decreases |s|
  {
    if sub <= s {
      i := 0;
    } else {
      var j := ContainsWitness(s[1..], sub);
      i := j + 1;
      assert s[i..i + |sub|] == s[1..][j..j + |sub|];
    }
  }

  /** `sub` is the slice of `s` that starts at offset `i`. */
  predicate OccursAt(s: string, sub: string, i: nat) {
    i + |sub| <= |s| && s[i..i + |sub|] == sub
  }

  /** `sub in s` holds exactly when `sub` is the slice of `s` at some offset. */
  lemma ContainsIffOccurs(s: string, sub: string)
    ensures Contains(s, sub) <==> exists i: nat :: OccursAt(s, sub, i)
  {
    if Contains(s, sub) {
      var i := ContainsWitness(s, sub);
      assert OccursAt(s, sub, i);
    }
    if exists i: nat :: OccursAt(s, sub, i) {
      var i: nat :| OccursAt(s, sub, i);
      ContainsAt(s, sub, i);
    }
  }

  lemma ContainsSelf(s: string)
    ensures Contains(s, s)
  {
    assert s <= s;
  }
}
