/** The few string operations of the .NET base library that the core relies on. */
module Strings {

  /** `s.IndexOf(c, from)`: the first index at or after `from` that holds `c`, or -1. */
  function IndexOf(s: string, c: char, from: nat): (r: int)
    requires from <= |s|
    ensures r == -1 || (from <= r < |s| && s[r] == c)
    decreases |s| - from
  {
    if from == |s| then -1
    else if s[from] == c then from
    else IndexOf(s, c, from + 1)
  }

  /** No index before the one IndexOf returns holds `c`; with -1, none at all does. */
  lemma {:induction false} IndexOfIsFirst(s: string, c: char, from: nat)
    requires from <= |s|
    ensures var r := IndexOf(s, c, from);
      forall i :: from <= i < (if r == -1 then |s| else r) ==> s[i] != c
    decreases |s| - from
  {
    if from < |s| && s[from] != c {
      IndexOfIsFirst(s, c, from + 1);
    }
  }

  /** IndexOf is determined by the first occurrence. */
  lemma IndexOfAt(s: string, c: char, from: nat, k: nat)
    requires from <= k < |s| && s[k] == c
    requires forall i :: from <= i < k ==> s[i] != c
    ensures IndexOf(s, c, from) == k
  {
    IndexOfIsFirst(s, c, from);
  }

  lemma IndexOfAbsent(s: string, c: char, from: nat)
    requires from <= |s|
    requires forall i :: from <= i < |s| ==> s[i] != c
    ensures IndexOf(s, c, from) == -1
  {
  }

  /** A character does not occur in a slice exactly when no index of the slice holds it. */
  lemma NotInSlice(s: string, c: char, lo: nat, hi: nat)
    requires lo <= hi <= |s|
    ensures c !in s[lo..hi] <==> forall i :: lo <= i < hi ==> s[i] != c
  {
    if c in s[lo..hi] {
      var j :| 0 <= j < hi - lo && s[lo..hi][j] == c;
      assert s[lo + j] == c;
    }
  }

  lemma SliceSplit(s: string, a: nat, b: nat, c: nat)
    requires a <= b <= c <= |s|
    ensures s[a..c] == s[a..b] + s[b..c]
  {
  }

  /** Ordinal case folding of one character, restricted to ASCII letters. */
  function FoldChar(c: char): (r: char)
    ensures 'A' <= c <= 'Z' ==> r as int == c as int + 32
    ensures !('A' <= c <= 'Z') ==> r == c
  {
    if 'A' <= c <= 'Z' then (c as int + 32) as char else c
  }

  function FoldCase(s: string): (r: string)
    ensures |r| == |s|
    ensures forall i :: 0 <= i < |s| ==> r[i] == FoldChar(s[i])
  {
    if s == [] then [] else [FoldChar(s[0])] + FoldCase(s[1..])
  }

  /** Inverse of `Split`: the pieces glued back together with the separator. */
  function Join(pieces: seq<string>, sep: char): string
  {
    if pieces == [] then []
    else if |pieces| == 1 then pieces[0]
    else pieces[0] + [sep] + Join(pieces[1..], sep)
  }

  /** `s.Split(sep)`: the maximal separator-free pieces of `s`, empty pieces included. */
  function Split(s: string, sep: char): (r: seq<string>)
    ensures |r| >= 1
    ensures forall i :: 0 <= i < |r| ==> sep !in r[i]
    ensures Join(r, sep) == s
    decreases |s|
  {
    var k := IndexOf(s, sep, 0);
    IndexOfIsFirst(s, sep, 0);
    if k == -1 then
      NotInSlice(s, sep, 0, |s|);
      assert s[0..|s|] == s;
      [s]
    else
      NotInSlice(s, sep, 0, k);
      var rest := Split(s[k + 1..], sep);
      assert s == s[..k] + [sep] + s[k + 1..];
      [s[..k]] + rest
  }

  /** A separator-free string is one piece. */
  lemma {:induction false} SplitWithoutSeparator(s: string, sep: char)
    requires sep !in s
    ensures Split(s, sep) == [s]
  {
    assert s[0..|s|] == s;
    NotInSlice(s, sep, 0, |s|);
    IndexOfAbsent(s, sep, 0);
  }
}
