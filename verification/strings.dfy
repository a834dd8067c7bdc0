/**
 The string primitives the core relies on: `toLowerCase` (restricted to ASCII),
 `trim`, and `Array.prototype.join`, with `Split` as the inverse of `Join`.
 */
module Strings {

  /** ASCII lower-casing of one character; every other character is left alone. */
  function LowerChar(c: char): (r: char)
    ensures !('A' <= r <= 'Z')
    ensures !('A' <= c <= 'Z') ==> r == c
    ensures 'A' <= c <= 'Z' ==> r as int == c as int + 32
  {
    if 'A' <= c <= 'Z' then (c as int + 32) as char else c
  }

  /** `s.toLowerCase()`, restricted to ASCII letters. */
  function Lower(s: string): (r: string)
    ensures |r| == |s|
    ensures forall i :: 0 <= i < |s| ==> r[i] == LowerChar(s[i])
  {
    seq(|s|, i requires 0 <= i < |s| => LowerChar(s[i]))
  }

  /** Lower-casing is idempotent, so comparing lower-cased names is insensitive to the case of either side. */
  lemma LowerIdempotent(s: string)
    ensures Lower(Lower(s)) == Lower(s)
  {
  }

  /** The single whitespace characters of ECMA-262 (WhiteSpace and LineTerminator) outside the
      range U+2000..U+200A. */
  const WhitespaceChars: set<char> := {
    '\t', '\n', '\U{B}', '\U{C}', '\r', ' ', '\U{A0}', '\U{1680}',
    '\U{2028}', '\U{2029}', '\U{202F}', '\U{205F}', '\U{3000}', '\U{FEFF}'
  }

  /** The characters JavaScript's `trim` removes: WhiteSpace and LineTerminator of ECMA-262. */
  predicate IsWhitespace(c: char)
  {
    c in WhitespaceChars || '\U{2000}' <= c <= '\U{200A}'
  }

  /** Every character of `s` is whitespace (the empty string included). */
  predicate Blank(s: string)
  {
    forall i :: 0 <= i < |s| ==> IsWhitespace(s[i])
  }

  /** The first position at or after `i` that holds no whitespace, or `|s|` when there is none. */
  function SkipBlanks(s: string, i: nat): (j: nat)
    requires i <= |s|
    ensures i <= j <= |s|
    ensures forall k :: i <= k < j ==> IsWhitespace(s[k])
    ensures j < |s| ==> !IsWhitespace(s[j])
    decreases |s| - i
  {
    if i == |s| || !IsWhitespace(s[i]) then i else SkipBlanks(s, i + 1)
  }

  /** The end left when whitespace is dropped from before position `j`, not going below `lo`. */
  function BackBlanks(s: string, lo: nat, j: nat): (e: nat)
    requires lo <= j <= |s|
    ensures lo <= e <= j
    ensures forall k :: e <= k < j ==> IsWhitespace(s[k])
    ensures e > lo ==> !IsWhitespace(s[e - 1])
    decreases j
  {
    if j == lo || !IsWhitespace(s[j - 1]) then j else BackBlanks(s, lo, j - 1)
  }

  /** `r` is the slice of `s` starting at `i`, with only whitespace before and after it. */
  predicate StrippedAt(s: string, r: string, i: int)
  {
    0 <= i <= |s| - |r| && r == s[i..i + |r|] && Blank(s[..i]) && Blank(s[i + |r|..])
  }

  /** `s.trim()`: a contiguous piece of `s` that starts and ends with a non-whitespace character,
      obtained by removing only whitespace, and empty exactly when `s` is blank. */
  function Trim(s: string): (r: string)
    ensures |r| <= |s|
    ensures r == [] <==> Blank(s)
    ensures r != [] ==> !IsWhitespace(r[0]) && !IsWhitespace(r[|r| - 1])
    ensures exists i :: StrippedAt(s, r, i)
  {
    var a := SkipBlanks(s, 0);
    var b := BackBlanks(s, a, |s|);
    var head, r, tail := s[..a], s[a..b], s[b..];
    assert Blank(head) by {
      forall k | 0 <= k < |head|
        ensures IsWhitespace(head[k])
      {
        assert head[k] == s[k];
      }
    }
    assert Blank(tail) by {
      forall k | 0 <= k < |tail|
        ensures IsWhitespace(tail[k])
      {
        assert tail[k] == s[b + k];
      }
    }
    assert StrippedAt(s, r, a);
    r
  }

  /** Trimming twice removes nothing more. */
  lemma {:induction false} TrimIdempotent(s: string)
    ensures Trim(Trim(s)) == Trim(s)
  {
    var r := Trim(s);
    if r != [] {
      assert SkipBlanks(r, 0) == 0;
      assert BackBlanks(r, 0, |r|) == |r|;
      assert r[0..|r|] == r;
    }
  }

  /** `parts.join(sep)`: the parts separated by one `sep` each; the empty list joins to "". */
  function Join(parts: seq<string>, sep: char): (r: string)
    ensures parts == [] ==> r == ""
    ensures |parts| == 1 ==> r == parts[0]
  {
    if |parts| == 0 then ""
    else if |parts| == 1 then parts[0]
    else parts[0] + [sep] + Join(parts[1..], sep)
  }

  /** The position of the first `c` in `s`, or `|s|` when there is none. */
  function IndexOf(s: string, c: char): (r: nat)
    ensures r <= |s|
    ensures r < |s| ==> s[r] == c
    ensures c !in s[..r]
  {
    if s == [] then 0
    else if s[0] == c then 0
    else
      assert s[..1 + IndexOf(s[1..], c)] == [s[0]] + s[1..][..IndexOf(s[1..], c)];
      1 + IndexOf(s[1..], c)
  }

  /** `s.split(sep)` for a single-character separator: the pieces between the separators, never empty. */
  function Split(s: string, sep: char): (r: seq<string>)
    ensures |r| >= 1
    ensures forall i :: 0 <= i < |r| ==> sep !in r[i]
    decreases |s|
  {
    var i := IndexOf(s, sep);
    if i == |s| then
      assert s[..i] == s;
      [s]
    else [s[..i]] + Split(s[i + 1..], sep)
  }

  /** Splitting a joined list gives the list back, provided no part contains the separator. */
  lemma {:induction false} SplitJoin(parts: seq<string>, sep: char)
    requires |parts| >= 1
    requires forall i :: 0 <= i < |parts| ==> sep !in parts[i]
    ensures Split(Join(parts, sep), sep) == parts
  {
    if |parts| == 1 {
      assert parts[0][..|parts[0]|] == parts[0];
    } else {
      var p0 := parts[0];
      var rest := Join(parts[1..], sep);
      var s := p0 + [sep] + rest;
      JoinCons(parts, sep);
      IndexOfPrefix(p0, sep, rest);
      SliceAround(p0, sep, rest);
      SplitAtFirst(s, sep, |p0|);
      SplitJoin(parts[1..], sep);
      assert [p0] + parts[1..] == parts;
    }
  }

  /** Joining two or more parts: the first, a separator, then the rest joined. */
  lemma JoinCons(parts: seq<string>, sep: char)
    requires |parts| >= 2
    ensures Join(parts, sep) == parts[0] + [sep] + Join(parts[1..], sep)
  {
  }

  /** Splitting cuts at the first separator and splits the rest. */
  lemma SplitAtFirst(s: string, sep: char, i: nat)
    requires i == IndexOf(s, sep) && i < |s|
    ensures Split(s, sep) == [s[..i]] + Split(s[i + 1..], sep)
  {
  }

  /** Cutting `a + [c] + b` around the `c` just past `a` gives back `a` and `b`. */
  lemma SliceAround(a: string, c: char, b: string)
    ensures (a + [c] + b)[..|a|] == a
    ensures (a + [c] + b)[|a| + 1..] == b
  {
  }

  /** The first `c` of `a + [c] + b` is just past `a`, when `a` holds none. */
  lemma {:induction false} IndexOfPrefix(a: string, c: char, b: string)
    requires c !in a
    ensures IndexOf(a + [c] + b, c) == |a|
  {
    if a != [] {
      assert (a + [c] + b)[1..] == a[1..] + [c] + b;
      IndexOfPrefix(a[1..], c, b);
    }
  }
}
