/** Small facts about sequences, proved once and used where the solver would otherwise search for them. */
module Seqs {
  /** A non-empty sequence is its prefix followed by its last element. */
  lemma LastSplit<T>(s: seq<T>)
    requires |s| > 0
    ensures s[..|s| - 1] + [s[|s| - 1]] == s
  {
  }

  /** A non-empty sequence is its first element followed by the rest. */
  lemma FirstSplit<T>(s: seq<T>)
    requires |s| > 0
    ensures [s[0]] + s[1..] == s
  {
  }

  lemma Snoc1<T>(a: T)
    ensures [] + [a] == [a]
  {
  }

  lemma Snoc2<T>(a: T, b: T)
    ensures [a] + [b] == [a, b]
  {
  }

  lemma Snoc3<T>(a: T, b: T, c: T)
    ensures [a, b] + [c] == [a, b, c]
  {
  }

  lemma Snoc4<T>(a: T, b: T, c: T, d: T)
    ensures [a, b, c] + [d] == [a, b, c, d]
  {
  }

  lemma Cons1<T>(a: T)
    ensures [a] + [] == [a]
  {
  }

  lemma Cons3<T>(a: T, b: T, c: T)
    ensures [a] + [b, c] == [a, b, c]
  {
  }
}
