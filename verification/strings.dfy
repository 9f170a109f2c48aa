/**
 The JavaScript string operations the core relies on, over `string` = `seq<char>`:
 `indexOf`, `replace` with a string pattern (first occurrence only), `trim`,
 `split` on a one-character separator and its inverse `join`, and the
 lower-casing behind case-insensitive `contains` matching.
 */
module Strings {
  import opened Common

  /** `pat` occurs in `s` starting at position `i`. */
  predicate OccursAt(s: string, pat: string, i: int)
  {
    0 <= i && i + |pat| <= |s| && s[i..i + |pat|] == pat
  }

  predicate StartsWith(s: string, prefix: string)
  {
    |prefix| <= |s| && s[..|prefix|] == prefix
  }

  /** The first position at or after `from` where `pat` occurs in `s`. */
  function IndexOfFrom(s: string, pat: string, from: nat): (r: Option<nat>)
    ensures r.Some? ==> from <= r.value && OccursAt(s, pat, r.value)
    ensures r.Some? ==> forall j :: from <= j < r.value ==> !OccursAt(s, pat, j)
    ensures r.None? ==> forall j :: from <= j ==> !OccursAt(s, pat, j)
    decreases |s| - from
  {
    if from + |pat| > |s| then None
    else if OccursAt(s, pat, from) then Some(from)
    else IndexOfFrom(s, pat, from + 1)
  }

  /** JavaScript `s.indexOf(pat)`, with `None` for -1. */
  function IndexOf(s: string, pat: string): (r: Option<nat>)
    ensures r.Some? ==> OccursAt(s, pat, r.value)
    ensures r.Some? ==> forall j :: 0 <= j < r.value ==> !OccursAt(s, pat, j)
    ensures r.None? <==> forall j :: !OccursAt(s, pat, j)
  {
    IndexOfFrom(s, pat, 0)
  }

  /** `pat` is a substring of `s`. */
  predicate Contains(s: string, pat: string)
  {
    IndexOf(s, pat).Some?
  }

  /**
   JavaScript `s.replace(pat, rep)` with a string pattern: only the first
   occurrence is replaced, and `s` is returned unchanged when `pat` is absent.
   (`rep` is taken literally; the callers pass replacements without `$`.)
   */
  function ReplaceFirst(s: string, pat: string, rep: string): (r: string)
    ensures !Contains(s, pat) ==> r == s
    ensures Contains(s, pat) ==>
      exists i :: OccursAt(s, pat, i)
        && (forall j :: 0 <= j < i ==> !OccursAt(s, pat, j))
        && r == s[..i] + rep + s[i + |pat|..]
    ensures StartsWith(s, pat) ==> r == rep + s[|pat|..]
  {
    match IndexOf(s, pat)
    case None => s
    case Some(i) =>
      assert OccursAt(s, pat, i);
      s[..i] + rep + s[i + |pat|..]
  }

  /** The characters JavaScript's `trim` removes: WhiteSpace and LineTerminator of ECMA-262. */
  predicate IsWs(c: char)
  {
    || c == '\t' || c == '\n' || c == '\U{000B}' || c == '\U{000C}' || c == '\r' || c == ' '
    || c == '\U{00A0}' || c == '\U{1680}' || ('\U{2000}' <= c <= '\U{200A}')
    || c == '\U{2028}' || c == '\U{2029}' || c == '\U{202F}' || c == '\U{205F}'
    || c == '\U{3000}' || c == '\U{FEFF}'
  }

  predicate AllWs(s: string)
  {
    forall k :: 0 <= k < |s| ==> IsWs(s[k])
  }

  /** `s` neither starts nor ends with whitespace. */
  predicate Trimmed(s: string)
  {
    |s| == 0 || (!IsWs(s[0]) && !IsWs(s[|s| - 1]))
  }

  /** JavaScript `trimStart`: the suffix left after dropping the leading whitespace. */
  function TrimStart(s: string): (r: string)
    ensures |r| <= |s| && r == s[|s| - |r|..]
    ensures AllWs(s[..|s| - |r|])
    ensures |r| > 0 ==> !IsWs(r[0])
  {
    if |s| > 0 && IsWs(s[0]) then TrimStart(s[1..]) else s
  }

  /** JavaScript `trimEnd`: the prefix left after dropping the trailing whitespace. */
  function TrimEnd(s: string): (r: string)
    ensures |r| <= |s| && r == s[..|r|]
    ensures AllWs(s[|r|..])
    ensures |r| > 0 ==> !IsWs(r[|r| - 1])
  {
    if |s| > 0 && IsWs(s[|s| - 1]) then TrimEnd(s[..|s| - 1]) else s
  }

  /**
   JavaScript `trim`: the one infix of `s` that has no whitespace at either
   end and is surrounded by whitespace only.
   */
  function Trim(s: string): (r: string)
    ensures Trimmed(r)
    ensures exists i :: OccursAt(s, r, i) && AllWs(s[..i]) && AllWs(s[i + |r|..])
    ensures Trimmed(s) ==> r == s
  {
    TrimSpan(s);
    TrimEnd(TrimStart(s))
  }

  lemma TrimSpan(s: string)
    ensures Trimmed(TrimEnd(TrimStart(s)))
    ensures OccursAt(s, TrimEnd(TrimStart(s)), |s| - |TrimStart(s)|)
    ensures AllWs(s[..|s| - |TrimStart(s)|])
    ensures AllWs(s[|s| - |TrimStart(s)| + |TrimEnd(TrimStart(s))|..])
  {
    var a := TrimStart(s);
    TrimmedEnds(a);
    TrimPieces(s, a, TrimEnd(a));
  }

  lemma TrimmedEnds(a: string)
    requires |a| > 0 ==> !IsWs(a[0])
    ensures Trimmed(TrimEnd(a))
  {
    var r := TrimEnd(a);
    if |r| > 0 {
      assert r[0] == a[0];
    }
  }

  lemma TrimPieces(s: string, a: string, r: string)
    requires |a| <= |s| && a == s[|s| - |a|..]
    requires |r| <= |a| && r == a[..|r|] && AllWs(a[|r|..])
    ensures OccursAt(s, r, |s| - |a|)
    ensures AllWs(s[|s| - |a| + |r|..])
  {
    var i := |s| - |a|;
    assert s[i..i + |r|] == a[..|r|];
    assert s[i + |r|..] == a[|r|..];
  }

  /** The position of the first `c` in `s`. */
  function FirstIndex(s: string, c: char): (i: nat)
    requires c in s
    ensures i < |s| && s[i] == c && c !in s[..i]
  {
    if s[0] == c then 0 else 1 + FirstIndex(s[1..], c)
  }

  /**
   JavaScript `s.split(sep)` for a one-character separator: the pieces between
   separators, one more than there are separators, none containing one.
   The empty string splits into `[""]`.
   */
  function Split(s: string, sep: char): (r: seq<string>)
    ensures |r| == multiset(s)[sep] + 1
    ensures forall k :: 0 <= k < |r| ==> sep !in r[k]
    decreases |s|
  {
    if sep in s then
      var i := FirstIndex(s, sep);
      SeparatorCount(s, sep, i);
      [s[..i]] + Split(s[i + 1..], sep)
    else
      [s]
  }

  /** Cutting at the first separator leaves one separator fewer behind it. */
  lemma SeparatorCount(s: string, sep: char, i: nat)
    requires i < |s| && s[i] == sep && sep !in s[..i]
    ensures multiset(s)[sep] == multiset(s[i + 1..])[sep] + 1
  {
    assert s == s[..i] + [sep] + s[i + 1..];
    assert multiset(s[..i])[sep] == 0;
  }

  /** JavaScript `parts.join(sep)`. */
  function Join(parts: seq<string>, sep: char): string
  {
    if |parts| == 0 then ""
    else if |parts| == 1 then parts[0]
    else parts[0] + [sep] + Join(parts[1..], sep)
  }

  /** Joining the pieces of a split restores the input. */
  lemma {:induction false} JoinSplit(s: string, sep: char)
    ensures Join(Split(s, sep), sep) == s
    decreases |s|
  {
    if sep in s {
      var i := FirstIndex(s, sep);
      var rest := s[i + 1..];
      JoinSplit(rest, sep);
      var tail := Split(rest, sep);
      assert Split(s, sep) == [s[..i]] + tail;
      assert ([s[..i]] + tail)[1..] == tail;
      assert s == s[..i] + [sep] + rest;
    }
  }

  /** Splitting a join of separator-free pieces gives the pieces back. */
  lemma {:induction false} SplitJoin(parts: seq<string>, sep: char)
    requires |parts| >= 1
    requires forall k :: 0 <= k < |parts| ==> sep !in parts[k]
    ensures Split(Join(parts, sep), sep) == parts
  {
    if |parts| > 1 {
      var rest := Join(parts[1..], sep);
      var s := parts[0] + [sep] + rest;
      assert sep in s by { assert s[|parts[0]|] == sep; }
      var i := FirstIndex(s, sep);
      assert s[..|parts[0]|] == parts[0];
      assert s[..i] == parts[0];
      assert s[i + 1..] == rest;
      SplitJoin(parts[1..], sep);
    }
  }

  /** A pattern holding a character that `s` lacks does not occur in `s`. */
  lemma MissingCharNotContained(s: string, pat: string, k: nat)
    requires k < |pat| && pat[k] !in s
    ensures !Contains(s, pat)
  {
    forall j | OccursAt(s, pat, j)
      ensures false
    {
    }
  }

  /** ASCII lower-casing of one character; other characters are left as they are. */
  function LowerChar(c: char): char
  {
    if 'A' <= c <= 'Z' then (c as int + 32) as char else c
  }

  function Lower(s: string): string
  {
    seq(|s|, i requires 0 <= i < |s| => LowerChar(s[i]))
  }

  /** Lower-casing leaves a string without capitals as it is. */
  lemma LowerWithoutCapitals(s: string)
    requires forall i :: 0 <= i < |s| ==> !('A' <= s[i] <= 'Z')
    ensures Lower(s) == s
  {
  }

  /** `pat` is a substring of `s` once both are lower-cased (a case-insensitive `contains` filter). */
  predicate ContainsInsensitive(s: string, pat: string)
  {
    Contains(Lower(s), Lower(pat))
  }
}
