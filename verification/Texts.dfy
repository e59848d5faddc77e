/** Splitting a text at separators. */
module Texts {

  /** The pieces of a text that starts with the character, given those of its rest. */
  function Grow(c: char, rest: seq<string>, separators: set<char>): (pieces: seq<string>)
    requires rest != []
    ensures pieces != []
  {
    if c in separators then [""] + rest else [[c] + rest[0]] + rest[1..]
  }

  function Split(s: string, separators: set<char>): (pieces: seq<string>)
    ensures pieces != []
    ensures (exists c :: c in separators && c in s) ==> |pieces| > 1
  {
    if s == "" then [""] else Grow(s[0], Split(s[1..], separators), separators)
  }

  predicate FreeOf(s: string, separators: set<char>) {
    forall i | 0 <= i < |s| :: s[i] !in separators
  }

  lemma {:induction false} SplitOne(s: string, separators: set<char>)
    requires FreeOf(s, separators)
    ensures Split(s, separators) == [s]
  {
    if s != "" {
      SplitOne(s[1..], separators);
      assert [s[0]] + s[1..] == s;
      assert [s[1..]][1..] == [];
    }
  }

  lemma {:induction false} GrowAppends(c: char, first: seq<string>, second: seq<string>, separators: set<char>)
    requires first != []
    ensures Grow(c, first + second, separators) == Grow(c, first, separators) + second
  {
    assert (first + second)[1..] == first[1..] + second;
  }

  lemma {:induction false} SplitTwo(a: string, c: char, b: string, separators: set<char>)
    requires c in separators
    ensures Split(a + [c] + b, separators) == Split(a, separators) + Split(b, separators)
  {
    var s := a + [c] + b;
    if a == "" {
      assert s[0] == c && s[1..] == b;
    } else {
      SplitTwo(a[1..], c, b, separators);
      assert s[0] == a[0] && s[1..] == a[1..] + [c] + b;
      GrowAppends(a[0], Split(a[1..], separators), Split(b, separators), separators);
    }
  }

  lemma {:induction false} SplitFirst(a: string, c: char, b: string, separators: set<char>)
    requires c in separators && FreeOf(a, separators)
    ensures Split(a + [c] + b, separators) == [a] + Split(b, separators)
  {
    SplitTwo(a, c, b, separators);
    SplitOne(a, separators);
  }

  /** No piece holds a separator. */
  lemma {:induction false} PiecesAreFree(s: string, separators: set<char>)
    ensures forall i | 0 <= i < |Split(s, separators)| :: FreeOf(Split(s, separators)[i], separators)
  {
    if s != "" {
      PiecesAreFree(s[1..], separators);
      var rest := Split(s[1..], separators);
      assert FreeOf(rest[0], separators);
    }
  }
}
