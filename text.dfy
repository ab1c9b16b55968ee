/**
  The few operations on Python `str` values that the monitor relies on:
  `strip()`, `split(sep)`, `lower()` and the substring test `needle in s`.
 */
module Text {

  import opened Wrappers

  /** Python's `str.isspace` for one character (the characters `strip()` removes). */
  predicate IsSpace(c: char)
  {
    || '\U{9}' <= c <= '\U{D}'
    || '\U{1C}' <= c <= '\U{20}'
    || c == '\U{85}' || c == '\U{A0}' || c == '\U{1680}'
    || '\U{2000}' <= c <= '\U{200A}'
    || c == '\U{2028}' || c == '\U{2029}' || c == '\U{202F}'
    || c == '\U{205F}' || c == '\U{3000}'
  }

  /** The number of whitespace characters that `s` starts with. */
  function LeadingSpaces(s: string): (k: nat)
    ensures k <= |s|
    ensures forall i | 0 <= i < k :: IsSpace(s[i])
    ensures k == |s| || !IsSpace(s[k])
  {
    if |s| > 0 && IsSpace(s[0]) then
      var k := LeadingSpaces(s[1..]);
      assert forall i | 1 <= i < k + 1 :: s[i] == s[1..][i - 1];
      k + 1
    else
      0
  }

  /** The index where the whitespace that `s` ends with begins. */
  function TrailingStart(s: string): (k: nat)
    ensures k <= |s|
    ensures forall i | k <= i < |s| :: IsSpace(s[i])
    ensures k == 0 || !IsSpace(s[k - 1])
  {
    if |s| > 0 && IsSpace(s[|s| - 1]) then
      var k := TrailingStart(s[..|s| - 1]);
      assert forall i | k <= i < |s| - 1 :: s[i] == s[..|s| - 1][i];
      k
    else
      |s|
  }

  /** Python's `s.strip()`: the part of `s` after its leading whitespace and before its
      trailing whitespace; it neither starts nor ends with whitespace. */
  function Strip(s: string): (r: string)
    ensures LeadingSpaces(s) + |r| <= |s| && r == s[LeadingSpaces(s)..LeadingSpaces(s) + |r|]
    ensures forall i | LeadingSpaces(s) + |r| <= i < |s| :: IsSpace(s[i])
    ensures r == [] || (!IsSpace(r[0]) && !IsSpace(r[|r| - 1]))
  {
    var a := LeadingSpaces(s);
    var b := TrailingStart(s);
    if a < b then s[a..b] else []
  }

  /** Python's `lower()` on one character, for the letters A to Z. */
  function LowerChar(c: char): char
  {
    if 'A' <= c <= 'Z' then (c as int - 'A' as int + 'a' as int) as char else c
  }

  /** Python's `s.lower()`, restricted to the letters A to Z: no capital letter is left,
      each one becomes the small letter at the same place in the alphabet, and every
      other character is kept. */
  function Lower(s: string): (r: string)
    ensures |r| == |s|
    ensures forall i | 0 <= i < |r| :: !('A' <= r[i] <= 'Z')
    ensures forall i | 0 <= i < |s| && 'A' <= s[i] <= 'Z' ::
      'a' <= r[i] <= 'z' && r[i] as int - 'a' as int == s[i] as int - 'A' as int
    ensures forall i | 0 <= i < |s| && !('A' <= s[i] <= 'Z') :: r[i] == s[i]
  {
    seq(|s|, i requires 0 <= i < |s| => LowerChar(s[i]))
  }

  /** Lower-casing twice is lower-casing once. */
  lemma LowerIdempotent(s: string)
    ensures Lower(Lower(s)) == Lower(s)
  {
  }

  /** `pat` occurs in `s` starting at index `i`. */
  predicate OccursAt(s: string, pat: string, i: int)
  {
    0 <= i && i + |pat| <= |s| && s[i..i + |pat|] == pat
  }

  /** Python's `pat in s`. */
  predicate Contains(s: string, pat: string)
  {
    exists i | 0 <= i <= |s| - |pat| :: OccursAt(s, pat, i)
  }

  /** The first index at or after `from` where `pat` occurs in `s`, if any. */
  function IndexFrom(s: string, pat: string, from: nat): (r: Option<nat>)
    decreases |s| - from
    ensures r.Some? ==> from <= r.value && OccursAt(s, pat, r.value)
    ensures r.Some? ==> forall j | from <= j < r.value :: !OccursAt(s, pat, j)
    ensures r.None? ==> forall j | from <= j :: !OccursAt(s, pat, j)
  {
    if from + |pat| > |s| then None
    else if s[from..from + |pat|] == pat then Some(from)
    else IndexFrom(s, pat, from + 1)
  }

  /** Python's `s.find(pat)`: the first occurrence of `pat` in `s`, or None when there is none. */
  function Find(s: string, pat: string): (r: Option<nat>)
    ensures r.Some? <==> Contains(s, pat)
    ensures r.Some? ==> OccursAt(s, pat, r.value)
    ensures r.Some? ==> forall j | 0 <= j < r.value :: !OccursAt(s, pat, j)
  {
    IndexFrom(s, pat, 0)
  }

  /** The inverse of `Split`: Python's `sep.join(fields)`. */
  function Join(fields: seq<string>, sep: string): string
    requires |fields| >= 1
  {
    if |fields| == 1 then fields[0] else fields[0] + sep + Join(fields[1..], sep)
  }

  /** Python's `s.split(sep)` with an explicit, non-empty separator: the pieces between the
      occurrences of `sep`, found left to right. */
  function Split(s: string, sep: string): (r: seq<string>)
    requires |sep| > 0
    decreases |s|
    ensures |r| >= 1
    ensures |r| == 1 <==> !Contains(s, sep)
    ensures forall i | 0 <= i < |r| :: !Contains(r[i], sep)
    ensures Join(r, sep) == s
    ensures forall i | 0 <= i < |r| - 1 :: CutAtFirst(r[i], sep)
  {
    match Find(s, sep)
    case None => [s]
    case Some(i) =>
      var rest := Split(s[i + |sep|..], sep);
      SplitStep(s, sep, i, rest);
      [s[..i]] + rest
  }

  /** No occurrence of `sep` starts inside `piece` when `sep` follows it: a cut made right
      after `piece` is at the leftmost occurrence of `sep`, even one that overlaps itself. */
  predicate CutAtFirst(piece: string, sep: string)
  {
    forall j | 0 <= j < |piece| :: !OccursAt(piece + sep, sep, j)
  }

  /** One step of `Split`: cutting `s` at its first separator keeps the contract of `Split`. */
  lemma SplitStep(s: string, sep: string, i: nat, rest: seq<string>)
    requires |sep| > 0 && OccursAt(s, sep, i)
    requires forall j | 0 <= j < i :: !OccursAt(s, sep, j)
    requires |rest| >= 1 && Join(rest, sep) == s[i + |sep|..]
    requires forall k | 0 <= k < |rest| :: !Contains(rest[k], sep)
    requires forall k | 0 <= k < |rest| - 1 :: CutAtFirst(rest[k], sep)
    ensures Contains(s, sep)
    ensures forall k | 0 <= k < |[s[..i]] + rest| :: !Contains(([s[..i]] + rest)[k], sep)
    ensures Join([s[..i]] + rest, sep) == s
    ensures forall k | 0 <= k < |[s[..i]] + rest| - 1 :: CutAtFirst(([s[..i]] + rest)[k], sep)
  {
    NoOccurrenceBefore(s, sep, i);
    JoinCons(s[..i], rest, sep);
    ThreeSlices(s, i, i + |sep|);
    PiecesCons(s[..i], rest, sep);
    FirstCutIsLeftmost(s, sep, i);
    CutsCons(s[..i], rest, sep);
  }

  /** Cutting `s` at the first occurrence of `sep` is a cut at the leftmost occurrence. */
  lemma FirstCutIsLeftmost(s: string, sep: string, i: nat)
    requires OccursAt(s, sep, i)
    requires forall j | 0 <= j < i :: !OccursAt(s, sep, j)
    ensures CutAtFirst(s[..i], sep)
  {
    var p := s[..i + |sep|];
    assert s[..i] + sep == p;
    forall j | 0 <= j < i
      ensures !OccursAt(s[..i] + sep, sep, j)
    {
      assert p[j..j + |sep|] == s[j..j + |sep|];
      assert !OccursAt(s, sep, j);
    }
  }

  lemma CutsCons(first: string, rest: seq<string>, sep: string)
    requires CutAtFirst(first, sep) && |rest| >= 1
    requires forall k | 0 <= k < |rest| - 1 :: CutAtFirst(rest[k], sep)
    ensures forall k | 0 <= k < |[first] + rest| - 1 :: CutAtFirst(([first] + rest)[k], sep)
  {
    forall k | 0 <= k < |[first] + rest| - 1
      ensures CutAtFirst(([first] + rest)[k], sep)
    {
      if k > 0 { assert ([first] + rest)[k] == rest[k - 1]; }
    }
  }

  lemma ThreeSlices(s: string, i: nat, j: nat)
    requires i <= j <= |s|
    ensures s == s[..i] + s[i..j] + s[j..]
  {
  }

  lemma JoinCons(first: string, rest: seq<string>, sep: string)
    requires |rest| >= 1
    ensures Join([first] + rest, sep) == first + sep + Join(rest, sep)
  {
    assert ([first] + rest)[1..] == rest;
  }

  lemma PiecesCons(first: string, rest: seq<string>, sep: string)
    requires !Contains(first, sep)
    requires forall k | 0 <= k < |rest| :: !Contains(rest[k], sep)
    ensures forall k | 0 <= k < |[first] + rest| :: !Contains(([first] + rest)[k], sep)
  {
    forall k | 0 <= k < |[first] + rest|
      ensures !Contains(([first] + rest)[k], sep)
    {
      if k > 0 { assert ([first] + rest)[k] == rest[k - 1]; }
    }
  }

  /** An occurrence inside a prefix of `s` is an occurrence in `s`. */
  lemma NoOccurrenceBefore(s: string, pat: string, i: nat)
    requires |pat| > 0 && i <= |s|
    requires forall j | 0 <= j < i :: !OccursAt(s, pat, j)
    ensures !Contains(s[..i], pat)
  {
    forall j | 0 <= j <= i - |pat|
      ensures !OccursAt(s[..i], pat, j)
    {
      if OccursAt(s[..i], pat, j) {
        assert s[..i][j..j + |pat|] == s[j..j + |pat|];
        assert OccursAt(s, pat, j);
      }
    }
  }

  /** Splitting a string with no separator in it yields the string itself. */
  lemma SplitWithout(s: string, sep: string)
    requires |sep| > 0 && !Contains(s, sep)
    ensures Split(s, sep) == [s]
  {
    var r := Split(s, sep);
    assert |r| == 1;
  }

  /** When the first occurrence of `sep` in `a + sep + b` is the one after `a`,
      splitting yields `a` followed by the pieces of `b`. */
  lemma {:induction false} SplitAfter(a: string, sep: string, b: string)
    requires |sep| > 0
    requires forall j | 0 <= j < |a| :: !OccursAt(a + sep + b, sep, j)
    ensures Split(a + sep + b, sep) == [a] + Split(b, sep)
  {
    var s := a + sep + b;
    assert s[|a|..|a| + |sep|] == sep;
    assert OccursAt(s, sep, |a|);
    var f := Find(s, sep);
    assert f == Some(|a|);
    assert s[..|a|] == a;
    assert s[|a| + |sep|..] == b;
  }

  /** `c` occurs in `s` as a one-character string exactly when `c` is an element of `s`. */
  lemma ContainsChar(s: string, c: char)
    ensures Contains(s, [c]) <==> c in s
  {
    if c in s {
      var i :| 0 <= i < |s| && s[i] == c;
      assert OccursAt(s, [c], i);
    }
    if Contains(s, [c]) {
      var i :| 0 <= i <= |s| - 1 && OccursAt(s, [c], i);
      assert s[i] == s[i..i + 1][0] == c;
    }
  }

  /** The first piece of `line + "\n" + rest` split on newlines is `line`, when `line` has no newline. */
  lemma SplitNewline(line: string, rest: string)
    requires !Contains(line, "\n")
    ensures Split(line + "\n" + rest, "\n") == [line] + Split(rest, "\n")
  {
    ContainsChar(line, '\n');
    var s := line + "\n" + rest;
    forall j | 0 <= j < |line|
      ensures !OccursAt(s, "\n", j)
    {
      assert s[j] == line[j];
    }
    SplitAfter(line, "\n", rest);
  }

  /** Splitting `a + ", " + b` on `", "` yields `a` first whenever `a` has no `", "` of its own:
      no occurrence can straddle the end of `a`, since `", "` does not begin with a space. */
  lemma SplitCommaSpace(a: string, b: string)
    requires !Contains(a, ", ")
    ensures Split(a + ", " + b, ", ") == [a] + Split(b, ", ")
  {
    var s := a + ", " + b;
    forall j | 0 <= j < |a|
      ensures !OccursAt(s, ", ", j)
    {
      if j + 2 <= |a| {
        assert s[j..j + 2] == a[j..j + 2];
        assert !OccursAt(a, ", ", j);
      } else {
        assert s[j + 1] == ',';
      }
    }
    SplitAfter(a, ", ", b);
  }

  /** Without leading whitespace, stripping only drops the trailing whitespace. */
  lemma StripNoLeadingSpace(s: string)
    requires s == [] || !IsSpace(s[0])
    ensures Strip(s) == s[..TrailingStart(s)]
  {
    assert LeadingSpaces(s) == 0;
  }

  /** Any prefix of `line + "\n" + rest` that covers `line` has `line` as its first line. */
  lemma FirstLineOfPrefix(line: string, rest: string, prefix: string)
    requires !Contains(line, "\n")
    requires |line| <= |prefix| <= |line| + 1 + |rest| && prefix == (line + "\n" + rest)[..|prefix|]
    ensures Split(prefix, "\n")[0] == line
  {
    PrefixShape(line, rest, prefix);
    if |prefix| == |line| {
      SplitWithout(line, "\n");
    } else {
      SplitNewline(line, prefix[|line| + 1..]);
    }
  }

  /** A prefix of `line + "\n" + rest` that covers `line` is `line` itself, or `line`, the
      newline and a prefix of `rest`. */
  lemma PrefixShape(line: string, rest: string, prefix: string)
    requires |line| <= |prefix| <= |line| + 1 + |rest| && prefix == (line + "\n" + rest)[..|prefix|]
    ensures |prefix| == |line| ==> prefix == line
    ensures |prefix| > |line| ==> prefix == line + "\n" + prefix[|line| + 1..]
  {
  }
}
