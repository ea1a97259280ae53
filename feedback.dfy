/** The meaning of one filter(letter, status, index) call on a candidate list,
    and of the five calls a guess triggers. */
module Feedback {
  import opened Words

  /** filter throws on a status other than 'b', 'y' and 'g'. */
  datatype FilterError = InvalidStatus(status: char)

  datatype Result<T> = Ok(value: T) | Err(error: FilterError)

  /** What filter demands of the candidates: charAt(index) is evaluated on every
      word that reaches a positional pass ('y' only runs it on the words that
      survived the first pass; 'b' never reads the index). */
  predicate IndexInRange(ws: seq<Word>, letter: char, status: char, index: int)
  {
    if status == 'y' then forall w | w in ws && letter in w :: 0 <= index < |w|
    else if status == 'g' then forall w | w in ws :: 0 <= index < |w|
    else true
  }

  /** The candidate list after one filter call, or the error it throws. */
  function Apply(ws: seq<Word>, letter: char, status: char, index: int): (r: Result<seq<Word>>)
    requires IndexInRange(ws, letter, status, index)
    ensures r.Err? <==> status != 'b' && status != 'y' && status != 'g'
    ensures r.Err? ==> r.error == InvalidStatus(status)
    ensures r.Ok? ==> IsSubsequence(r.value, ws) && |r.value| <= |ws|
    ensures status == 'b' ==> forall w :: w in r.value <==> w in ws && letter !in w
    ensures status == 'y' ==> forall w :: w in r.value <==> w in ws && letter in w && w[index] != letter
    ensures status == 'g' ==> forall w :: w in r.value <==> w in ws && w[index] == letter
  {
    if status == 'b' then
      RemoveIfSubsequence(ws, HasLetter(letter));
      Ok(RemoveIf(ws, HasLetter(letter)))
    else if status == 'y' then
      var present := RemoveIf(ws, LacksLetter(letter));
      RemoveIfSubsequence(ws, LacksLetter(letter));
      RemoveIfSubsequence(present, LetterAt(letter, index));
      SubsequenceTransitive(RemoveIf(present, LetterAt(letter, index)), present, ws);
      Ok(RemoveIf(present, LetterAt(letter, index)))
    else if status == 'g' then
      RemoveIfSubsequence(ws, NotLetterAt(letter, index));
      Ok(RemoveIf(ws, NotLetterAt(letter, index)))
    else
      Err(InvalidStatus(status))
  }

  /** A black letter that no candidate contains leaves the candidates untouched. */
  lemma BlackAbsentLetterKeepsAll(ws: seq<Word>, letter: char, index: int)
    requires forall w | w in ws :: letter !in w
    ensures Apply(ws, letter, 'b', index) == Ok(ws)
  {
    RemoveIfNothing(ws, HasLetter(letter));
  }

  /** Filtering works word by word: filtering a concatenation filters each part
      and keeps the parts in order. */
  lemma ApplyAppend(a: seq<Word>, b: seq<Word>, letter: char, status: char, index: int)
    requires IndexInRange(a, letter, status, index) && IndexInRange(b, letter, status, index)
    ensures IndexInRange(a + b, letter, status, index)
    ensures Apply(a + b, letter, status, index).Ok? ==>
      Apply(a + b, letter, status, index).value ==
        Apply(a, letter, status, index).value + Apply(b, letter, status, index).value
  {
    if status == 'b' {
      RemoveIfAppend(a, b, HasLetter(letter));
    } else if status == 'y' {
      RemoveIfAppend(a, b, LacksLetter(letter));
      RemoveIfAppend(RemoveIf(a, LacksLetter(letter)), RemoveIf(b, LacksLetter(letter)), LetterAt(letter, index));
    } else if status == 'g' {
      RemoveIfAppend(a, b, NotLetterAt(letter, index));
    }
  }

  /** The candidates after the first k filter calls of a guess: the solver's loop
      calls filter(guess[i], result[i], i) for i = 0, 1, ..., stopping at the first throw. */
  function Round(ws: seq<Word>, guess: Word, result: seq<char>, k: nat): (r: Result<seq<Word>>)
    requires k <= |guess| && k <= |result|
    requires forall w | w in ws :: |w| == |guess|
    ensures r.Ok? ==> |r.value| <= |ws| && forall w | w in r.value :: w in ws
  {
    if k == 0 then Ok(ws)
    else
      match Round(ws, guess, result, k - 1)
      case Err(e) => Err(e)
      case Ok(cs) => Apply(cs, guess[k - 1], result[k - 1], k - 1)
  }

  /** After k green calls only the words agreeing with the guess on its first k
      letters remain, and every such word remains. */
  lemma {:induction false} GreenPrefixRound(ws: seq<Word>, guess: Word, result: seq<char>, k: nat)
    requires k <= |guess| && k <= |result|
    requires forall w | w in ws :: |w| == |guess|
    requires forall j | 0 <= j < k :: result[j] == 'g'
    ensures Round(ws, guess, result, k).Ok?
    ensures forall w :: w in Round(ws, guess, result, k).value <==> w in ws && w[..k] == guess[..k]
  {
    if k > 0 {
      GreenPrefixRound(ws, guess, result, k - 1);
      var cs := Round(ws, guess, result, k - 1).value;
      var r := Apply(cs, guess[k - 1], 'g', k - 1);
      assert Round(ws, guess, result, k) == r;
      forall w
        ensures w in r.value <==> w in ws && w[..k] == guess[..k]
      {
        if w in ws {
          PrefixExtend(w, guess, k);
        }
      }
    }
  }

  /** Two words agree on their first k letters exactly when they agree on the
      first k - 1 and on the k-th. Dafny proves it unaided; it is stated apart
      so that GreenPrefixRound stays within the solver's budget. */
  lemma PrefixExtend(a: Word, b: Word, k: nat)
    requires 0 < k <= |a| && k <= |b|
    ensures a[..k] == b[..k] <==> a[..k - 1] == b[..k - 1] && a[k - 1] == b[k - 1]
  {
  }

  /** A guess answered with green at every position, over a list of words of the
      guess's length, leaves exactly the copies of the guess itself. */
  lemma AllGreenLeavesOnlyGuess(ws: seq<Word>, guess: Word, result: seq<char>)
    requires |result| == |guess|
    requires forall w | w in ws :: |w| == |guess|
    requires forall j | 0 <= j < |result| :: result[j] == 'g'
    ensures Round(ws, guess, result, |guess|).Ok?
    ensures forall w :: w in Round(ws, guess, result, |guess|).value <==> w in ws && w == guess
  {
    GreenPrefixRound(ws, guess, result, |guess|);
    forall w | w in ws ensures w[..|guess|] == w && guess[..|guess|] == guess {}
  }

  /** The first three letters of "crane" and "crate" agree, so three green
      calls keep both. */
  lemma CraneFirstThreeGreen()
    ensures Round(["crane", "crate"], "crane", "ggggg", 3) == Ok(["crane", "crate"])
  {
    var ws: seq<Word> := ["crane", "crate"];
    var g: Word := "crane";
    var res := "ggggg";
    assert ws == [ws[0]] + ws[1..] && ws[1..][1..] == [];
    assert g[0] == 'c' && g[1] == 'r' && g[2] == 'a';
    assert res[0] == res[1] == res[2] == 'g';
    assert RemoveIf(ws, NotLetterAt('c', 0)) == ws;
    assert Round(ws, g, res, 1) == Ok(ws);
    assert RemoveIf(ws, NotLetterAt('r', 1)) == ws;
    assert Round(ws, g, res, 2) == Ok(ws);
    assert RemoveIf(ws, NotLetterAt('a', 2)) == ws;
  }

  /** A guess of "crane" answered ggggg against the candidates "crane" and
      "crate" leaves "crane" alone. */
  lemma CraneAllGreen()
    ensures Round(["crane", "crate"], "crane", "ggggg", 5) == Ok(["crane"])
  {
    var ws: seq<Word> := ["crane", "crate"];
    var g: Word := "crane";
    var res := "ggggg";
    CraneFirstThreeGreen();
    assert ws == [ws[0]] + ws[1..] && ws[1..][1..] == [];
    assert g[3] == 'n' && g[4] == 'e' && res[3] == res[4] == 'g';
    assert RemoveIf(ws[1..], NotLetterAt('n', 3)) == [];
    assert RemoveIf(ws, NotLetterAt('n', 3)) == ["crane"];
    assert Round(ws, g, res, 4) == Ok(["crane"]);
    var one: seq<Word> := ["crane"];
    assert one[1..] == [];
    assert RemoveIf(one, NotLetterAt('e', 4)) == one;
  }
}
