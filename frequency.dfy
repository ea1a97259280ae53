/** Letter frequencies of a word list (determineLetterFrequency) and the score of
    a word against them (scoreForWord), with frequencies kept as integer counts
    over a total: a letter's frequency is its count divided by the total. */
module Frequency {
  import opened Words

  /** The letterFrequency field: per-letter occurrence counts and the total
      number of letter positions they were counted over. */
  datatype FrequencyTable = FrequencyTable(counts: map<char, nat>, total: nat)

  /** Number of positions of `s` holding `c`. */
  function Count(s: seq<char>, c: char): nat
  {
    if s == [] then 0
    else Count(s[..|s| - 1], c) + (if s[|s| - 1] == c then 1 else 0)
  }

  /** All letter positions of all words, word after word. */
  function Flatten(ws: seq<Word>): seq<char>
  {
    if ws == [] then [] else Flatten(ws[..|ws| - 1]) + ws[|ws| - 1]
  }

  /** Occurrences of `c` summed word by word, repeats inside a word included. */
  function Occurrences(ws: seq<Word>, c: char): nat
  {
    if ws == [] then 0 else Occurrences(ws[..|ws| - 1], c) + Count(ws[|ws| - 1], c)
  }

  /** The sum of the word lengths. */
  function TotalLength(ws: seq<Word>): nat
  {
    if ws == [] then 0 else TotalLength(ws[..|ws| - 1]) + |ws[|ws| - 1]|
  }

  /** Each letter that occurs in `s`, to its number of occurrences. */
  function CountsOf(s: seq<char>): map<char, nat>
  {
    map c | c in s :: Count(s, c)
  }

  /** The table determineLetterFrequency computes for a word list. */
  function Tally(ws: seq<Word>): FrequencyTable
  {
    var s := Flatten(ws);
    FrequencyTable(CountsOf(s), |s|)
  }

  /** freqMap.getOrDefault(letter, 0). */
  function Lookup(counts: map<char, nat>, c: char): nat
  {
    if c in counts then counts[c] else 0
  }

  /** The frequency the source stores as a float: count / total. */
  function Frequency(t: FrequencyTable, c: char): real
  {
    if t.total == 0 then 0.0 else Lookup(t.counts, c) as real / t.total as real
  }

  ghost function Pick(m: map<char, nat>): (k: char)
    requires m != map[]
    ensures k in m
  {
    var k :| k in m; k
  }

  /** The sum of a map's values, in no particular order. */
  ghost function Sum(m: map<char, nat>): nat
    decreases |m|
  {
    if m == map[] then 0
    else
      var k := Pick(m);
      assert |(m - {k}).Keys| < |m.Keys| by {
        assert (m - {k}).Keys == m.Keys - {k};
      }
      m[k] + Sum(m - {k})
  }

  /** The sum does not depend on which key is taken first. */
  lemma {:induction false} SumRemove(m: map<char, nat>, k: char)
    requires k in m
    ensures Sum(m) == m[k] + Sum(m - {k})
    decreases |m|
  {
    var p := Pick(m);
    if p != k {
      assert (m - {p}).Keys == m.Keys - {p};
      assert (m - {k}).Keys == m.Keys - {k};
      SumRemove(m - {p}, k);
      SumRemove(m - {k}, p);
      assert m - {p} - {k} == m - {k} - {p};
    }
  }

  /** Number of positions of `s` whose letter belongs to `letters`. */
  function CountMembers(s: seq<char>, letters: set<char>): nat
  {
    if s == [] then 0
    else CountMembers(s[..|s| - 1], letters) + (if s[|s| - 1] in letters then 1 else 0)
  }

  lemma {:induction false} CountPositive(s: seq<char>, c: char)
    ensures Count(s, c) > 0 <==> c in s
    ensures Count(s, c) <= |s|
  {
    if s != [] {
      CountPositive(s[..|s| - 1], c);
      assert s == s[..|s| - 1] + [s[|s| - 1]];
    }
  }

  lemma {:induction false} CountAppend(a: seq<char>, b: seq<char>, c: char)
    ensures Count(a + b, c) == Count(a, c) + Count(b, c)
    decreases |b|
  {
    if b == [] {
      assert a + b == a;
    } else {
      assert (a + b)[..|a + b| - 1] == a + b[..|b| - 1];
      CountAppend(a, b[..|b| - 1], c);
    }
  }

  lemma {:induction false} CountMembersSplit(s: seq<char>, letters: set<char>, k: char)
    requires k in letters
    ensures CountMembers(s, letters) == Count(s, k) + CountMembers(s, letters - {k})
  {
    if s != [] {
      CountMembersSplit(s[..|s| - 1], letters, k);
    }
  }

  lemma {:induction false} CountMembersBound(s: seq<char>, letters: set<char>)
    ensures CountMembers(s, letters) <= |s|
    ensures (forall i | 0 <= i < |s| :: s[i] in letters) ==> CountMembers(s, letters) == |s|
  {
    if s != [] {
      CountMembersBound(s[..|s| - 1], letters);
    }
  }

  /** Summing per-letter counts over a set of letters counts the positions
      holding one of those letters, each exactly once. */
  lemma {:induction false} SumOfCounts(s: seq<char>, m: map<char, nat>)
    requires forall c | c in m :: m[c] == Count(s, c)
    ensures Sum(m) == CountMembers(s, m.Keys)
    decreases |m|
  {
    if m == map[] {
      CountMembersEmpty(s, m.Keys);
    } else {
      var k := Pick(m);
      assert (m - {k}).Keys == m.Keys - {k};
      SumOfCounts(s, m - {k});
      CountMembersSplit(s, m.Keys, k);
    }
  }

  lemma {:induction false} CountMembersEmpty(s: seq<char>, letters: set<char>)
    requires letters == {}
    ensures CountMembers(s, letters) == 0
  {
    if s != [] {
      CountMembersEmpty(s[..|s| - 1], letters);
    }
  }

  /** Counting over the flattened list is counting word by word. */
  lemma {:induction false} FlattenCounts(ws: seq<Word>, c: char)
    ensures Count(Flatten(ws), c) == Occurrences(ws, c)
    ensures |Flatten(ws)| == TotalLength(ws)
  {
    if ws != [] {
      FlattenCounts(ws[..|ws| - 1], c);
      CountAppend(Flatten(ws[..|ws| - 1]), ws[|ws| - 1], c);
    }
  }

  /** Appending one letter bumps its count by one, creating the entry at zero
      first when the letter is new. */
  lemma CountsOfSnoc(s: seq<char>, x: char)
    ensures CountsOf(s + [x]) == CountsOf(s)[x := Lookup(CountsOf(s), x) + 1]
  {
    var m := CountsOf(s);
    forall c
      ensures c in CountsOf(s + [x]) <==> c in m[x := Lookup(m, x) + 1]
      ensures c in CountsOf(s + [x]) ==> CountsOf(s + [x])[c] == m[x := Lookup(m, x) + 1][c]
    {
      assert (s + [x])[..|s|] == s;
      CountPositive(s, c);
    }
  }

  /** Each letter's count is its number of occurrences over all positions of all
      words, repeats inside a word counted each time; letters that never occur
      have no entry; the total is the sum of the word lengths. */
  lemma TallyCounts(ws: seq<Word>, c: char)
    ensures Lookup(Tally(ws).counts, c) == Occurrences(ws, c)
    ensures c in Tally(ws).counts <==> Occurrences(ws, c) > 0
    ensures Tally(ws).total == TotalLength(ws)
  {
    FlattenCounts(ws, c);
    CountPositive(Flatten(ws), c);
  }

  /** The counts add up to the total, so the frequencies add up to one
      whenever the list has a letter. */
  lemma TallySumsToTotal(ws: seq<Word>)
    ensures Sum(Tally(ws).counts) == Tally(ws).total
  {
    var s := Flatten(ws);
    SumOfCounts(s, CountsOf(s));
    CountMembersBound(s, CountsOf(s).Keys);
  }

  /** Every frequency lies between zero and one. */
  lemma FrequencyInUnitRange(ws: seq<Word>, c: char)
    ensures 0.0 <= Frequency(Tally(ws), c) <= 1.0
  {
    var t := Tally(ws);
    CountPositive(Flatten(ws), c);
    if t.total > 0 {
      RatioAtMostOne(Lookup(t.counts, c) as real, t.total as real);
    }
  }

  /** A quotient of non-negative reals with the numerator at most the
      denominator. Dafny proves it unaided; it is stated apart so that
      FrequencyInUnitRange stays within the solver's budget. */
  lemma RatioAtMostOne(n: real, d: real)
    requires 0.0 <= n <= d && d > 0.0
    ensures 0.0 <= n / d <= 1.0
  {
  }

  /** The scratch map of scoreForWord: each distinct letter of `s` to its looked-up count. */
  function LetterScores(counts: map<char, nat>, s: seq<char>): map<char, nat>
  {
    map c | c in s :: Lookup(counts, c)
  }

  /** The score of a word: the counts of the distinct letters among its first
      five, summed (the float score times the total). */
  ghost function ScoreOf(t: FrequencyTable, w: Word): nat
    requires |w| >= 5
  {
    Sum(LetterScores(t.counts, w[..5]))
  }

  /** Reference reading of the scoring rule: walk the letters and add a letter's
      count only where it occurs for the first time. */
  function FirstOccurrenceScore(counts: map<char, nat>, s: seq<char>): nat
  {
    if s == [] then 0
    else
      var prefix, last := s[..|s| - 1], s[|s| - 1];
      FirstOccurrenceScore(counts, prefix) + (if last in prefix then 0 else Lookup(counts, last))
  }

  /** Repeated letters are counted once: summing the scratch map equals adding
      each letter at its first occurrence. */
  lemma {:induction false} LetterScoresCountOnce(counts: map<char, nat>, s: seq<char>)
    ensures Sum(LetterScores(counts, s)) == FirstOccurrenceScore(counts, s)
  {
    if s == [] {
      assert LetterScores(counts, s) == map[];
    } else {
      var prefix, last := s[..|s| - 1], s[|s| - 1];
      LetterScoresCountOnce(counts, prefix);
      assert s == prefix + [last];
      var m := LetterScores(counts, s);
      forall c ensures c in s <==> c in prefix || c == last {
      }
      if last in prefix {
        assert m == LetterScores(counts, prefix);
      } else {
        SumRemove(m, last);
        assert m - {last} == LetterScores(counts, prefix);
      }
    }
  }

  /** "speed" is scored from s, p, e and d, each once. */
  lemma SpeedScoresEachLetterOnce(t: FrequencyTable)
    ensures ScoreOf(t, "speed") ==
      Lookup(t.counts, 's') + Lookup(t.counts, 'p') + Lookup(t.counts, 'e') + Lookup(t.counts, 'd')
  {
    var w: Word := "speed";
    assert w[..5] == w;
    LetterScoresCountOnce(t.counts, w);
    var c := t.counts;
    assert FirstOccurrenceScore(c, "s") == Lookup(c, 's') by {
      assert "s"[..0] == [];
    }
    assert FirstOccurrenceScore(c, "sp") == Lookup(c, 's') + Lookup(c, 'p') by {
      assert "sp"[..1] == "s";
    }
    assert FirstOccurrenceScore(c, "spe") == Lookup(c, 's') + Lookup(c, 'p') + Lookup(c, 'e') by {
      assert "spe"[..2] == "sp";
    }
    assert FirstOccurrenceScore(c, "spee") == FirstOccurrenceScore(c, "spe") by {
      assert "spee"[..3] == "spe";
    }
    assert "speed"[..4] == "spee";
  }

  /** Against the table of a word list, a word's score counts the positions of
      the list holding one of the word's distinct letters, so it never exceeds
      the total (the float score never exceeds 1). */
  lemma ScoreAgainstTally(ws: seq<Word>, w: Word)
    requires |w| >= 5
    ensures ScoreOf(Tally(ws), w) == CountMembers(Flatten(ws), set c | c in w[..5])
    ensures ScoreOf(Tally(ws), w) <= Tally(ws).total
  {
    var s := Flatten(ws);
    var m := LetterScores(Tally(ws).counts, w[..5]);
    forall c | c in m ensures m[c] == Count(s, c) {
      CountPositive(s, c);
    }
    SumOfCounts(s, m);
    assert m.Keys == set c | c in w[..5];
    CountMembersBound(s, m.Keys);
  }
}
