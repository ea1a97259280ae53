/** The Dictionary class: the full word list, the candidate list that filter
    prunes in place, and the letter frequencies recomputed after every prune. */
module Dictionary {
  import opened Words
  import opened Feedback
  import opened Frequency
  import opened Ranking

  /** The nested loop of determineLetterFrequency: count every letter position
      of every word, bumping a letter's entry (created at zero when new) and the
      total for each. */
  method DetermineLetterFrequency(wordList: seq<Word>) returns (t: FrequencyTable)
    ensures t == Tally(wordList)
  {
    var totalLetters := 0;
    var letterCounts: map<char, nat> := map[];
    for j := 0 to |wordList|
      invariant totalLetters == |Flatten(wordList[..j])|
      invariant letterCounts == CountsOf(Flatten(wordList[..j]))
    {
      var word := wordList[j];
      ghost var seen := Flatten(wordList[..j]);
      for i := 0 to |word|
        invariant seen == Flatten(wordList[..j]) + word[..i]
        invariant totalLetters == |seen|
        invariant letterCounts == CountsOf(seen)
      {
        var letter := word[i];
        totalLetters := totalLetters + 1;
        ghost var before := letterCounts;
        if letter !in letterCounts {
          letterCounts := letterCounts[letter := 0];
        }
        letterCounts := letterCounts[letter := letterCounts[letter] + 1];
        assert letterCounts == before[letter := Lookup(before, letter) + 1];
        CountsOfSnoc(seen, letter);
        assert word[..i + 1] == word[..i] + [letter];
        seen := seen + [letter];
      }
      assert word[..|word|] == word;
      FlattenSnoc(wordList, j);
    }
    assert wordList[..|wordList|] == wordList;
    t := FrequencyTable(letterCounts, totalLetters);
  }

  lemma FlattenSnoc(ws: seq<Word>, j: nat)
    requires j < |ws|
    ensures Flatten(ws[..j + 1]) == Flatten(ws[..j]) + ws[j]
  {
    assert ws[..j + 1][..j] == ws[..j];
  }

  /** The forEach over letterCounts that builds the list of frequency entries:
      one entry per letter, in the map's unspecified iteration order. */
  method FrequencyEntries(counts: map<char, nat>) returns (entries: seq<(char, nat)>)
    ensures |entries| == |counts|
    ensures forall e | e in entries :: e.0 in counts && e.1 == counts[e.0]
    ensures forall c | c in counts :: (c, counts[c]) in entries
    ensures forall i, j | 0 <= i < j < |entries| :: entries[i].0 != entries[j].0
  {
    entries := [];
    var rest := counts;
    while rest != map[]
      invariant forall c | c in rest :: c in counts && rest[c] == counts[c]
      invariant |entries| + |rest| == |counts|
      invariant forall e | e in entries :: e.0 in counts && e.1 == counts[e.0] && e.0 !in rest
      invariant forall c | c in counts :: c in rest || (c, counts[c]) in entries
      invariant forall i, j | 0 <= i < j < |entries| :: entries[i].0 != entries[j].0
      decreases |rest|
    {
      var letter :| letter in rest;
      assert (rest - {letter}).Keys == rest.Keys - {letter};
      entries := entries + [(letter, rest[letter])];
      rest := rest - {letter};
    }
  }

  /** Each candidate paired with its score, in candidate order. */
  ghost function Scored(t: FrequencyTable, ws: seq<Word>): (r: seq<(Word, nat)>)
    requires forall w | w in ws :: |w| >= 5
  {
    seq(|ws|, i requires 0 <= i < |ws| => (ws[i], ScoreOf(t, ws[i])))
  }

  class Dictionary {
    var fullWordList: seq<Word>
    var filteredList: seq<Word>
    var letterFrequency: FrequencyTable

    /** The candidates are what is left of the full list after deletions, and the
        frequencies always describe the current candidates. */
    ghost predicate Valid()
      reads this
    {
      IsSubsequence(filteredList, fullWordList) && letterFrequency == Tally(filteredList)
    }

    /** Dictionary(filePath) once loadFrom has read `lines`: both lists hold the
        lines, and the frequencies are computed from them. */
    constructor (lines: seq<Word>)
      ensures Valid()
      ensures fullWordList == lines && filteredList == lines
      ensures letterFrequency == Tally(lines)
    {
      var frequency := DetermineLetterFrequency(lines);
      fullWordList := lines;
      filteredList := lines;
      letterFrequency := frequency;
      new;
      SubsequenceReflexive(lines);
    }

    /** Membership in the full word list, which filter never changes. */
    function Contains(word: Word): (b: bool)
      reads this
      ensures b <==> word in fullWordList
    {
      word in fullWordList
    }

    function GetWord(index: int): (w: Word)
      reads this
      requires 0 <= index < |filteredList|
      ensures w == filteredList[index]
    {
      filteredList[index]
    }

    function GetCurrentSize(): (n: nat)
      reads this
      ensures n == |filteredList|
    {
      |filteredList|
    }

    /** Prunes the candidates for one letter of feedback and recomputes the
        frequencies; an unknown status throws before anything changes. */
    method Filter(letter: char, status: char, index: int) returns (r: Result<nat>)
      requires Valid()
      requires IndexInRange(filteredList, letter, status, index)
      modifies this`filteredList, this`letterFrequency
      ensures Valid()
      ensures fullWordList == old(fullWordList)
      ensures |filteredList| <= |old(filteredList)|
      ensures Apply(old(filteredList), letter, status, index).Ok? ==>
        filteredList == Apply(old(filteredList), letter, status, index).value && r == Ok(|filteredList|)
      ensures Apply(old(filteredList), letter, status, index).Err? ==>
        r == Err(InvalidStatus(status)) &&
        filteredList == old(filteredList) && letterFrequency == old(letterFrequency)
    {
      var before := filteredList;
      if status == 'b' {
        filteredList := RemoveIf(filteredList, HasLetter(letter));
      } else if status == 'y' {
        filteredList := RemoveIf(filteredList, LacksLetter(letter));
        filteredList := RemoveIf(filteredList, LetterAt(letter, index));
      } else if status == 'g' {
        filteredList := RemoveIf(filteredList, NotLetterAt(letter, index));
      } else {
        return Err(InvalidStatus(status));
      }
      assert filteredList == Apply(before, letter, status, index).value;
      SubsequenceTransitive(filteredList, before, fullWordList);
      letterFrequency := DetermineLetterFrequency(filteredList);
      r := Ok(|filteredList|);
    }

    /** scoreForWord: look up each of the first five letters (0 when absent from
        the table), keep one entry per distinct letter, and add up the entries. */
    method ScoreForWord(word: Word) returns (score: nat)
      requires |word| >= 5
      ensures score == ScoreOf(letterFrequency, word)
    {
      var freqMap := letterFrequency.counts;
      var letterScore: map<char, nat> := map[];
      for i := 0 to 5
        invariant letterScore == LetterScores(freqMap, word[..i])
      {
        var letter := word[i];
        letterScore := letterScore[letter := Lookup(freqMap, letter)];
        assert word[..i + 1] == word[..i] + [letter];
      }
      score := 0;
      var rest := letterScore;
      while rest != map[]
        invariant score + Sum(rest) == Sum(letterScore)
        decreases |rest|
      {
        var letter :| letter in rest;
        SumRemove(rest, letter);
        assert (rest - {letter}).Keys == rest.Keys - {letter};
        score := score + rest[letter];
        rest := rest - {letter};
      }
    }

    /** printTopWords without the printing: the (word, score) lines it would
        print, largest score first. */
    method PrintTopWords(maxWords: Option<int>) returns (lines: seq<(Word, nat)>)
      requires forall w | w in filteredList :: |w| >= 5
      ensures |lines| == Printed(TopWordsLimit(maxWords, |filteredList|))
      ensures Descending(lines)
      ensures multiset(lines) <= multiset(Scored(letterFrequency, filteredList))
      ensures |filteredList| < 50 ==> multiset(lines) == multiset(Scored(letterFrequency, filteredList))
      ensures lines != [] ==>
        forall e | e in Scored(letterFrequency, filteredList) && e.1 > lines[|lines| - 1].1 ::
          multiset(lines)[e] == multiset(Scored(letterFrequency, filteredList))[e]
    {
      var topWords := ScoreCandidates();
      var ranked := SortDescending(topWords);
      var limit := TopWordsLimit(maxWords, |ranked|);
      lines := PrintedLines(ranked, limit);
      ShownPrefix(ranked, topWords, lines);
    }

    /** The scores the sort's comparator asks scoreForWord for, one per candidate. */
    method ScoreCandidates() returns (scored: seq<(Word, nat)>)
      requires forall w | w in filteredList :: |w| >= 5
      ensures scored == Scored(letterFrequency, filteredList)
    {
      scored := [];
      for i := 0 to |filteredList|
        invariant |scored| == i
        invariant forall k | 0 <= k < i :: scored[k] == (filteredList[k], ScoreOf(letterFrequency, filteredList[k]))
      {
        var s := ScoreForWord(filteredList[i]);
        scored := scored + [(filteredList[i], s)];
      }
    }

    /** printLetterFrequency without the printing: the (letter, count) lines it
        would print, largest count first. */
    method PrintLetterFrequency(maxLetters: int) returns (lines: seq<(char, nat)>)
      ensures |lines| == Printed(LetterLimit(maxLetters, |letterFrequency.counts|))
      ensures Descending(lines)
      ensures forall e | e in lines :: e.0 in letterFrequency.counts && e.1 == letterFrequency.counts[e.0]
    ensures forall i, j | 0 <= i < j < |lines| :: lines[i].0 != lines[j].0
      ensures lines != [] ==>
        forall c | c in letterFrequency.counts && letterFrequency.counts[c] > lines[|lines| - 1].1 ::
          (c, letterFrequency.counts[c]) in lines
    {
      var entries := FrequencyEntries(letterFrequency.counts);
      var sorted := SortDescending(entries);
      var limit := LetterLimit(maxLetters, |sorted|);
      lines := PrintedLines(sorted, limit);
      ShownPrefix(sorted, entries, lines);
      ShownEntries(letterFrequency.counts, entries, lines);
    }
  }

  /** Lines drawn from the entry list of a table are entries of the table, and
      a letter missing from them cannot count more than the last line. */
  lemma ShownEntries(counts: map<char, nat>, entries: seq<(char, nat)>, lines: seq<(char, nat)>)
    requires forall e | e in entries :: e.0 in counts && e.1 == counts[e.0]
    requires forall c | c in counts :: (c, counts[c]) in entries
    requires forall i, j | 0 <= i < j < |entries| :: entries[i].0 != entries[j].0
    requires multiset(lines) <= multiset(entries)
    requires lines != [] ==>
      forall e | e in entries && e.1 > lines[|lines| - 1].1 :: multiset(lines)[e] == multiset(entries)[e]
    ensures forall e | e in lines :: e.0 in counts && e.1 == counts[e.0]
    ensures forall i, j | 0 <= i < j < |lines| :: lines[i].0 != lines[j].0
    ensures lines != [] ==> forall c | c in counts && counts[c] > lines[|lines| - 1].1 :: (c, counts[c]) in lines
  {
    forall e | e in lines ensures e.0 in counts && e.1 == counts[e.0] {
      assert e in multiset(entries);
    }
    if lines != [] {
      forall c | c in counts && counts[c] > lines[|lines| - 1].1 ensures (c, counts[c]) in lines {
        assert (c, counts[c]) in multiset(entries);
      }
    }
    forall i, j | 0 <= i < j < |lines| ensures lines[i].0 != lines[j].0 {
      if lines[i].0 == lines[j].0 {
        assert lines[i] in multiset(entries) && lines[j] in multiset(entries);
        TwoCopies(lines, i, j);
        DistinctKeysOnce(entries, lines[i]);
        assert false;
      }
    }
  }

  /** An entry found at two positions occurs at least twice. */
  lemma TwoCopies<T>(s: seq<T>, i: nat, j: nat)
    requires i < j < |s| && s[i] == s[j]
    ensures multiset(s)[s[i]] >= 2
  {
    assert s == s[..j] + s[j..];
    assert s[..j][i] == s[i] && s[j..][0] == s[j];
  }

  /** A list whose keys are pairwise distinct holds each entry at most once. */
  lemma {:induction false} DistinctKeysOnce<K, V>(s: seq<(K, V)>, e: (K, V))
    requires forall i, j | 0 <= i < j < |s| :: s[i].0 != s[j].0
    ensures multiset(s)[e] <= 1
    decreases |s|
  {
    if s != [] {
      var tail := s[1..];
      assert s == [s[0]] + tail;
      DistinctKeysOnce(tail, e);
      if s[0] == e {
        forall k | 0 <= k < |tail| ensures tail[k] != e {
          assert tail[k] == s[k + 1];
        }
      }
    }
  }

  /** A prefix of a largest-first ordering of `all` is largest-first, holds
      entries of `all`, and holds every copy of each entry of `all` scoring
      above its last line. */
  lemma ShownPrefix<T>(ranked: seq<(T, nat)>, all: seq<(T, nat)>, lines: seq<(T, nat)>)
    requires Descending(ranked) && multiset(ranked) == multiset(all)
    requires |lines| <= |ranked| && lines == ranked[..|lines|]
    ensures Descending(lines)
    ensures multiset(lines) <= multiset(all)
    ensures |lines| == |ranked| ==> multiset(lines) == multiset(all)
    ensures lines != [] ==>
      forall e | e in all && e.1 > lines[|lines| - 1].1 :: multiset(lines)[e] == multiset(all)[e]
  {
    assert ranked == lines + ranked[|lines|..];
    if lines != [] {
      forall e | e in all && e.1 > lines[|lines| - 1].1 ensures multiset(lines)[e] == multiset(all)[e] {
        PrefixDominates(ranked, |lines|, e);
      }
    }
  }
}
