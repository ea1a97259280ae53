/** Words, candidate lists, and the removal rules that Dictionary.filter hands to
    removeIf for each kind of Wordle feedback. */
module Words {

  /** A dictionary word. The word list is loaded verbatim, so nothing here
      fixes its length; the operations that index into a word say what they need. */
  type Word = seq<char>

  /** The predicates that filter passes to removeIf: a word is removed when its rule holds. */
  datatype Rule =
    | HasLetter(letter: char)                // 'b': the word contains the letter
    | LacksLetter(letter: char)              // 'y', first pass: the word does not contain it
    | LetterAt(letter: char, index: int)     // 'y', second pass: the letter sits at index
    | NotLetterAt(letter: char, index: int)  // 'g': the letter does not sit at index

  /** The positional rules read charAt(index), which throws outside the word. */
  predicate Applicable(rule: Rule, w: Word)
  {
    (rule.LetterAt? || rule.NotLetterAt?) ==> 0 <= rule.index < |w|
  }

  predicate ApplicableToAll(rule: Rule, ws: seq<Word>)
  {
    forall w | w in ws :: Applicable(rule, w)
  }

  /** Whether removeIf drops the word under this rule. */
  predicate Removes(rule: Rule, w: Word)
    requires Applicable(rule, w)
  {
    match rule
    case HasLetter(l) => l in w
    case LacksLetter(l) => l !in w
    case LetterAt(l, i) => w[i] == l
    case NotLetterAt(l, i) => w[i] != l
  }

  /** List.removeIf: the words the rule does not remove, in their original order. */
  function RemoveIf(ws: seq<Word>, rule: Rule): (r: seq<Word>)
    requires ApplicableToAll(rule, ws)
    ensures |r| <= |ws|
    ensures forall w :: w in r <==> w in ws && !Removes(rule, w)
  {
    if ws == [] then []
    else if Removes(rule, ws[0]) then RemoveIf(ws[1..], rule)
    else [ws[0]] + RemoveIf(ws[1..], rule)
  }

  /** `a` is obtained from `b` by deleting elements, keeping the order of the rest. */
  predicate IsSubsequence(a: seq<Word>, b: seq<Word>)
    decreases |b|
  {
    if a == [] then true
    else if b == [] then false
    else (a[0] == b[0] && IsSubsequence(a[1..], b[1..])) || IsSubsequence(a, b[1..])
  }

  lemma {:induction false} SubsequenceReflexive(a: seq<Word>)
    ensures IsSubsequence(a, a)
    decreases |a|
  {
    if a != [] {
      SubsequenceReflexive(a[1..]);
    }
  }

  lemma {:induction false} SubsequenceTransitive(a: seq<Word>, b: seq<Word>, c: seq<Word>)
    requires IsSubsequence(a, b) && IsSubsequence(b, c)
    ensures IsSubsequence(a, c)
    decreases |c|
  {
    if a == [] {
    } else if b[0] == c[0] && IsSubsequence(b[1..], c[1..]) {
      if a[0] == b[0] && IsSubsequence(a[1..], b[1..]) {
        SubsequenceTransitive(a[1..], b[1..], c[1..]);
      } else {
        SubsequenceTransitive(a, b[1..], c[1..]);
      }
    } else {
      SubsequenceTransitive(a, b, c[1..]);
    }
  }

  /** A subsequence holds each word at most as often as the sequence it came from. */
  lemma {:induction false} SubsequenceMultiset(a: seq<Word>, b: seq<Word>)
    requires IsSubsequence(a, b)
    ensures multiset(a) <= multiset(b)
    decreases |b|
  {
    if a == [] {
    } else if a[0] == b[0] && IsSubsequence(a[1..], b[1..]) {
      SubsequenceMultiset(a[1..], b[1..]);
      assert a == [a[0]] + a[1..];
      assert b == [b[0]] + b[1..];
    } else {
      SubsequenceMultiset(a, b[1..]);
      assert b == [b[0]] + b[1..];
    }
  }

  /** removeIf only deletes: the survivors keep their original relative order. */
  lemma {:induction false} RemoveIfSubsequence(ws: seq<Word>, rule: Rule)
    requires ApplicableToAll(rule, ws)
    ensures IsSubsequence(RemoveIf(ws, rule), ws)
    decreases |ws|
  {
    if ws != [] {
      RemoveIfSubsequence(ws[1..], rule);
      var r := RemoveIf(ws, rule);
      if !Removes(rule, ws[0]) {
        assert r[0] == ws[0] && r[1..] == RemoveIf(ws[1..], rule);
      }
    }
  }

  /** Dafny proves this unaided; it is stated apart so that RemoveIfAppend
      stays within the solver's budget. */
  lemma ApplicableToAllAppend(a: seq<Word>, b: seq<Word>, rule: Rule)
    requires ApplicableToAll(rule, a) && ApplicableToAll(rule, b)
    ensures ApplicableToAll(rule, a + b)
  {
  }

  /** removeIf works element by element, so it distributes over concatenation. */
  lemma {:induction false} RemoveIfAppend(a: seq<Word>, b: seq<Word>, rule: Rule)
    requires ApplicableToAll(rule, a) && ApplicableToAll(rule, b)
    ensures ApplicableToAll(rule, a + b)
    ensures RemoveIf(a + b, rule) == RemoveIf(a, rule) + RemoveIf(b, rule)
    decreases |a|
  {
    ApplicableToAllAppend(a, b, rule);
    if a == [] {
      assert a + b == b;
    } else {
      var ab, tail := a + b, a[1..];
      assert ab[0] == a[0] && ab[1..] == tail + b;
      assert ApplicableToAll(rule, tail) by {
        forall w | w in tail ensures w in a {}
      }
      RemoveIfAppend(tail, b, rule);
      assert RemoveIf(ab, rule) == (if Removes(rule, a[0]) then [] else [a[0]]) + RemoveIf(tail + b, rule);
      assert RemoveIf(a, rule) == (if Removes(rule, a[0]) then [] else [a[0]]) + RemoveIf(tail, rule);
    }
  }

  /** When the rule removes no word, removeIf leaves the list as it was. */
  lemma {:induction false} RemoveIfNothing(ws: seq<Word>, rule: Rule)
    requires ApplicableToAll(rule, ws)
    requires forall w | w in ws :: !Removes(rule, w)
    ensures RemoveIf(ws, rule) == ws
    decreases |ws|
  {
    if ws != [] {
      RemoveIfNothing(ws[1..], rule);
      assert ws == [ws[0]] + ws[1..];
    }
  }
}
