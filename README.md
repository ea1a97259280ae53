# Wordle solver dictionary — a Dafny model

This project models the filtering and scoring engine of a Wordle solver, the
`Dictionary` class. The class keeps an immutable full word list and a mutable
candidate list. `filter(letter, status, index)` prunes the candidate list in
place for one letter of Wordle feedback:

- `'b'` (black) removes the words containing the letter;
- `'y'` (yellow) removes the words lacking it, then the words having it at `index`;
- `'g'` (green) removes the words not having it at `index`;
- any other status throws.

After every prune the class recomputes its letter frequencies. Words are scored
by the frequencies of their distinct letters. The two print methods show the
best-scoring words and the most frequent letters, up to a limit.

Layout, one module per component:

- `words.dfy` (`Words`): words, the four removal rules that `filter` hands to
  `removeIf`, `RemoveIf` itself, and subsequences.
- `feedback.dfy` (`Feedback`): `Apply`, the candidate list after one `filter`
  call or the error it throws. `Round` chains the five calls the solver makes
  for one guess.
- `frequency.dfy` (`Frequency`): letter counts (`Tally`), their sum, and the
  score of a word (`ScoreOf`).
- `ranking.dfy` (`Ranking`): the largest-first sort of (key, score) entries and
  the display limits.
- `dictionary.dfy` (`Dictionary`): the `Dictionary` class. Its fields are
  `fullWordList`, `filteredList` and `letterFrequency`. `Filter` reassigns the
  candidate list and the frequencies and nothing else. The invariant `Valid()`
  says two things. The candidates are a subsequence of the full list. The
  frequencies are the tally of the current candidates.

Frequencies are integer counts over a total. A letter's float frequency in the
source is `count / total`, and `Frequency.Frequency` gives it as a `real`. A
word's score is the sum of the counts of its distinct letters, which is the
source's float score times the total. Since the total is the same for every
word, the exact scores rank the words as the float scores would without
rounding; the float sums can differ by rounding (see "## Left out").

Points of the code that the model keeps as written:

- `scoreForWord` reads only the first five characters (`i < 5`, hard-coded) and
  throws on a shorter word (Dictionary.java:179-180).
- `charAt(index)` is not range-checked (Dictionary.java:89-98), so `Filter`
  requires `IndexInRange`.
- Letters of equal count print in the order in which the hash map yields them,
  because `List.sort` is stable (Dictionary.java:119-121, 249-252).

## Model

| member | source | states |
|---|---|---|
| `Words.RemoveIf` | Dictionary.java:76-98 | `removeIf` keeps exactly the words the rule does not remove (membership in both directions) and never grows the list |
| `Words.RemoveIfSubsequence` | Dictionary.java:76-98 | the words `removeIf` keeps are a subsequence of the list, so their relative order is unchanged |
| `Words.RemoveIfAppend` | Dictionary.java:76-78 | `removeIf` decides word by word: on a concatenation it filters each part and keeps the parts in order |
| `Words.RemoveIfNothing` | Dictionary.java:73-78 | when the rule removes no word, the list is left as it was |
| `Words.SubsequenceReflexive` | Dictionary.java:216 | the candidate list starts as a copy of the full list, which is a subsequence of itself |
| `Words.SubsequenceTransitive` | Dictionary.java:72-107 | pruning a subsequence of the full list yields a subsequence of the full list |
| `Words.SubsequenceMultiset` | Dictionary.java:210-216 | a subsequence of the full list holds each word at most as often as the full list does |
| `Feedback.Apply` | Dictionary.java:72-101 | the error happens exactly for a status other than `b`, `y` and `g`. After `b` the survivors are exactly the prior words without the letter. After `y` they are exactly the words with the letter somewhere but not at `index`. After `g` they are exactly the words with the letter at `index`. In every case the survivors are a subsequence of the prior list |
| `Feedback.BlackAbsentLetterKeepsAll` | Dictionary.java:73-78 | a black letter that no candidate contains leaves the candidate list unchanged |
| `Feedback.ApplyAppend` | Dictionary.java:72-101 | every status filters a concatenation part by part, in order |
| `Feedback.Round` | Solver.java:61-67 | the five `filter` calls of one guess never add a word: the result lies within the prior candidates and is no longer |
| `Feedback.GreenPrefixRound` | Dictionary.java:92-98 | after `k` green calls, the survivors are exactly the prior candidates that agree with the guess on its first `k` letters |
| `Feedback.AllGreenLeavesOnlyGuess` | Solver.java:61-67 | feedback `ggggg` over words of the guess's length leaves exactly the copies of the guess |
| `Feedback.CraneAllGreen` | Solver.java:61-67 | guessing `crane` with `ggggg` against `crane` and `crate` leaves only `crane` |
| `Feedback.CraneFirstThreeGreen` | Solver.java:61-67 | the first three green calls for `crane` keep both `crane` and `crate`, which agree on their first three letters |
| `Frequency.CountsOfSnoc` | Dictionary.java:236-242 | one more letter adds one to that letter's count, and a new letter first gets an entry of zero |
| `Frequency.FlattenCounts` | Dictionary.java:231-234 | counting over all positions of all words equals summing the per-word counts, and the number of positions is the sum of the word lengths |
| `Frequency.TallyCounts` | Dictionary.java:229-244 | each letter's count is its number of occurrences over all words, repeats inside a word included. A letter has an entry exactly when it occurs. The total is the sum of the word lengths |
| `Frequency.TallySumsToTotal` | Dictionary.java:229-250 | the counts add up to the total, so the frequencies add up to 1 whenever a candidate has a letter |
| `Frequency.FrequencyInUnitRange` | Dictionary.java:250 | every frequency `count / total` lies in [0, 1] |
| `Frequency.SumRemove` | Dictionary.java:186-189 | the sum of the score map's values is the same whichever value is added first |
| `Frequency.LetterScoresCountOnce` | Dictionary.java:176-183 | summing the per-letter score map equals adding each letter only at its first occurrence, so repeated letters count once |
| `Frequency.SpeedScoresEachLetterOnce` | Dictionary.java:176-189 | `speed` is scored from `s`, `p`, `e` and `d`, each counted once |
| `Frequency.ScoreAgainstTally` | Dictionary.java:168-189 | against the table of a word list, a word's score counts the letter positions of the list that hold one of its distinct letters. Letters absent from the table add 0, and the score never exceeds the total (a float score of at most 1) |
| `Ranking.Insert` | Dictionary.java:142-146 | inserting an entry into a list adds exactly that entry |
| `Ranking.InsertDescending` | Dictionary.java:142-146 | inserting into a largest-first list keeps it largest-first |
| `Ranking.SortDescending` | Dictionary.java:119-121 | the sort returns a permutation of its input, largest score first |
| `Ranking.PrefixDominates` | Dictionary.java:150-156 | in a largest-first list, every copy of an entry scoring above the last printed line is among the printed lines |
| `Ranking.PrintedLines` | Dictionary.java:154-157 | the print loop emits exactly the first `limit` entries of the ranking, and none when the limit is negative |
| `Ranking.TopWordsLimit` | Dictionary.java:149-153 | the limit is at most the list size. A list of fewer than 50 words is shown whole. Otherwise the limit is 10 when `maxWords` is null, and else `maxWords` or the size, whichever is smaller |
| `Ranking.LetterLimit` | Dictionary.java:124 | the limit is the smaller of `maxLetters` and the number of entries |
| `Dictionary.DetermineLetterFrequency` | Dictionary.java:225-244 | the nested counting loop returns the tally of the list: occurrence counts over every position, and the total number of positions |
| `Dictionary.FrequencyEntries` | Dictionary.java:247-252 | the entry list holds one entry per letter of the table, with its count, and no letter twice |
| `Dictionary.ShownPrefix` | Dictionary.java:150-156 | the printed prefix of the ranking is largest-first and drawn from the ranked entries. It holds every copy of each entry scoring above its last line, and all entries when nothing is cut |
| `Dictionary.ShownEntries` | Dictionary.java:123-129 | every printed letter line is a table entry, no letter is printed twice, and a letter counting more than the last printed line is printed |
| `Dictionary.Dictionary.constructor` | Dictionary.java:33-36 | after loading, the full list and the candidate list both hold the loaded lines, and the frequencies are their tally |
| `Dictionary.Dictionary.Contains` | Dictionary.java:43-45 | exact membership in the full word list, which `Filter` never modifies |
| `Dictionary.Dictionary.GetWord` | Dictionary.java:52-54 | read accessor: the candidate at `index` |
| `Dictionary.Dictionary.GetCurrentSize` | Dictionary.java:60-62 | read accessor: the number of candidates |
| `Dictionary.Dictionary.Filter` | Dictionary.java:72-107 | the candidates become `Apply` of the old candidates and the result is their new count. An invalid status returns the error and changes nothing. The full list is untouched, the count never grows, and the candidates stay a subsequence of the full list with frequencies that describe them |
| `Dictionary.Dictionary.ScoreForWord` | Dictionary.java:168-192 | the two loops compute the sum, over the distinct letters among the first five, of each letter's count, with 0 for letters the table lacks |
| `Dictionary.Dictionary.ScoreCandidates` | Dictionary.java:142-146 | the scores the sort's comparator obtains: each candidate, in order, paired with its score |
| `Dictionary.Dictionary.PrintTopWords` | Dictionary.java:136-158 | the printed (word, score) lines number exactly as many as the limit allows and run largest score first. They are drawn from the scored candidates, and a list of fewer than 50 words is printed in full. Every candidate scoring above the last printed line is printed as many times as it occurs in the list |
| `Dictionary.Dictionary.PrintLetterFrequency` | Dictionary.java:114-130 | the printed (letter, count) lines number exactly as many as the limit allows and run largest count first. Each line is an entry of the current table, no letter is printed twice, and every letter counting more than the last printed line is printed |

## Left out

- Reading the word list (`loadFrom`, `Files.lines`) is file I/O. The constructor takes the lines already read, so a load failure is not modelled.
- All console output is left out. The print methods return the lines they would print, without formatting.
- Float arithmetic is replaced by integer counts over a total. This covers `count / total`, the float score sums and `Float.compare`. Rounding could make two nearly equal float frequencies compare equal, and equal count sums such as 3+1 and 2+2 can give different float score sums, which the source then orders by rounding. The model orders by exact counts.
- Hash map iteration order is unspecified. The model picks keys with a nondeterministic choice, both when building the entry list and when summing the score map.
- Java `int` overflow of the counters is not modelled; integers are unbounded.
- `Solver.java` is the interactive loop around the class. Only its five `filter` calls per guess appear, as `Feedback.Round`.
- `FrequencyEntry.java` becomes a (letter, count) pair.
- The repeated-letter ambiguity is kept as written. A black letter removes every word containing it, even when another copy of that letter is yellow or green in the same guess.
- `printLetterFrequency` sorts the `letterFrequency` list in place. The model keeps the table as a map, which has no order to change.
- Dictionary.Dictionary.Filter: requires `charAt(index)` to be defined on every word it is applied to. The exception Java throws partway through `removeIf` is not modelled.
- Dictionary.Dictionary.PrintTopWords: requires every candidate to have at least five letters. Java throws a `StringIndexOutOfBoundsException` exactly then, because the sort's comparator or the print loop scores every candidate; the model does not return that exception as an error value.
- Dictionary.Dictionary.PrintTopWords: does not state how ties are ordered. `Ranking.SortDescending` is a stable insertion sort, like `List.sort`, but stability is not proved.
- Dictionary.Dictionary.GetWord: requires `0 <= index < |filteredList|`. The `IndexOutOfBoundsException` that `List.get` throws outside that range is not modelled.
- A Java `char` is a UTF-16 code unit; a Dafny `char` is a Unicode scalar value. A letter outside the Basic Multilingual Plane counts as two positions in `totalLetters` and shifts `charAt` indices in Java, but as one in the model. The model is exact for word lists within that plane.
- Dictionary.Dictionary.PrintLetterFrequency: takes `maxLetters` as an `int`. In Java a null `Integer` would throw when unboxed; no caller passes null.
