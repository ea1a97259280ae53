/** Ordering of scored entries and the display limits of printTopWords and
    printLetterFrequency. An entry is a (key, score) pair: a word with its
    score, or a letter with its count. */
module Ranking {

  datatype Option<T> = None | Some(value: T)

  /** Largest score first. */
  predicate Descending<T>(s: seq<(T, nat)>)
  {
    forall i, j | 0 <= i < j < |s| :: s[i].1 >= s[j].1
  }

  /** Puts `x` before the first entry it is not smaller than, so that it stays
      ahead of the entries with an equal score. */
  function Insert<T>(x: (T, nat), s: seq<(T, nat)>): (r: seq<(T, nat)>)
    ensures multiset(r) == multiset(s) + multiset{x}
  {
    if s == [] || x.1 >= s[0].1 then [x] + s
    else
      assert s == [s[0]] + s[1..];
      [s[0]] + Insert(x, s[1..])
  }

  lemma {:induction false} InsertDescending<T>(x: (T, nat), s: seq<(T, nat)>)
    requires Descending(s)
    ensures Descending(Insert(x, s))
    ensures Insert(x, s)[0].1 >= (if s == [] then x.1 else Min(x.1, s[0].1))
  {
    if s != [] && x.1 < s[0].1 {
      var tail := s[1..];
      var rest := Insert(x, tail);
      InsertDescending(x, tail);
      var r := [s[0]] + rest;
      assert r == Insert(x, s);
      assert rest[0].1 <= s[0].1 by {
        if tail != [] {
          assert s[0].1 >= s[1].1;
        }
      }
      forall i, j | 0 <= i < j < |r| ensures r[i].1 >= r[j].1 {
        if i == 0 {
          assert r[j] == rest[j - 1];
          assert rest[0].1 >= rest[j - 1].1 || j == 1;
        } else {
          assert r[i] == rest[i - 1] && r[j] == rest[j - 1];
        }
      }
    }
  }

  /** The List.sort calls with a largest-first comparator. */
  function SortDescending<T>(s: seq<(T, nat)>): (r: seq<(T, nat)>)
    ensures multiset(r) == multiset(s)
    ensures |r| == |s|
    ensures Descending(r)
  {
    if s == [] then []
    else
      assert s == [s[0]] + s[1..];
      InsertDescending(s[0], SortDescending(s[1..]));
      Insert(s[0], SortDescending(s[1..]))
  }

  /** In a largest-first list, every copy of an entry scoring above the k-th
      entry lies among the first k. */
  lemma PrefixDominates<T>(s: seq<(T, nat)>, k: nat, p: (T, nat))
    requires Descending(s)
    requires 0 < k <= |s|
    requires p.1 > s[k - 1].1
    ensures multiset(s[..k])[p] == multiset(s)[p]
  {
    assert s == s[..k] + s[k..];
    assert p !in s[k..] by {
      forall i | 0 <= i < |s[k..]| ensures s[k..][i] != p {
        assert s[k..][i] == s[k + i];
      }
    }
  }

  function Min(a: int, b: int): int
  {
    if a < b then a else b
  }

  /** printTopWords' limit: maxWords defaults to 10 when null and is capped by the
      list size, but a list of fewer than 50 words is shown whole. */
  function TopWordsLimit(maxWords: Option<int>, size: nat): (limit: int)
    ensures limit <= size
    ensures size < 50 ==> limit == size
    ensures size >= 50 && maxWords.None? ==> limit == 10
    ensures size >= 50 && maxWords.Some? ==> limit == maxWords.value || limit == size
    ensures size >= 50 && maxWords.Some? ==> limit <= maxWords.value
  {
    var requested := if maxWords.None? then 10 else maxWords.value;
    var limit := Min(requested, size);
    if size < 50 then size else limit
  }

  /** printLetterFrequency's limit: at most maxLetters entries and at most all of them. */
  function LetterLimit(maxLetters: int, size: nat): (limit: int)
    ensures limit <= size && limit <= maxLetters
    ensures limit == size || limit == maxLetters
  {
    Min(maxLetters, size)
  }

  /** The number of lines a `for (i = 0; i < limit; i++)` loop prints. */
  function Printed(limit: int): nat
  {
    if limit < 0 then 0 else limit
  }

  /** The print loop `for (int i = 0; i < limit; i++)` of both print methods:
      the first `limit` entries, none when the limit is negative. */
  method PrintedLines<T>(ranked: seq<(T, nat)>, limit: int) returns (lines: seq<(T, nat)>)
    requires limit <= |ranked|
    ensures lines == ranked[..Printed(limit)]
  {
    lines := [];
    var i := 0;
    while i < limit
      invariant 0 <= i <= Printed(limit)
      invariant lines == ranked[..i]
    {
      lines := lines + [ranked[i]];
      i := i + 1;
    }
  }
}
