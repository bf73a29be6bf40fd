/** Small facts about sequences, stated once for every element type so
    that the solver never has to reason about the elements themselves. */
module Seqs {
  /** Splitting off the last element of the right operand of `+`. */
  lemma AppendSnoc<T>(a: seq<T>, b: seq<T>)
    requires |b| > 0
    ensures a + b == (a + b[..|b| - 1]) + [b[|b| - 1]]
  {
    assert b == b[..|b| - 1] + [b[|b| - 1]];
  }

  /** The prefix of `s + [y]` without its last element is `s`. */
  lemma DropSnoc<T>(s: seq<T>, y: T)
    ensures (s + [y])[..|s|] == s
    ensures (s + [y])[|s|] == y
  {
  }

  /** A sequence is its part before `i`, its element at `i` and the rest. */
  lemma SplitAt<T>(s: seq<T>, i: int)
    requires 0 <= i < |s|
    ensures s == s[..i] + [s[i]] + s[i + 1..]
  {
  }

  /** Removing the element at `i` removes one occurrence of it. */
  lemma MultisetRemoveAt<T>(s: seq<T>, i: int)
    requires 0 <= i < |s|
    ensures multiset(s) == multiset(s[..i] + s[i + 1..]) + multiset{s[i]}
  {
    SplitAt(s, i);
    assert multiset(s) == multiset(s[..i]) + multiset{s[i]} + multiset(s[i + 1..]);
  }

  /** One occurrence can be cancelled from both sides. */
  lemma MultisetCancel<T>(m1: multiset<T>, m2: multiset<T>, x: T)
    requires m1 + multiset{x} == m2 + multiset{x}
    ensures m1 == m2
  {
    forall y ensures m1[y] == m2[y] {
      assert (m1 + multiset{x})[y] == (m2 + multiset{x})[y];
    }
  }

  /** Dropping the last element removes one occurrence of it. */
  lemma MultisetDropLast<T>(s: seq<T>)
    requires |s| > 0
    ensures multiset(s) == multiset(s[..|s| - 1]) + multiset{s[|s| - 1]}
  {
    assert s == s[..|s| - 1] + [s[|s| - 1]];
  }

  /** Two pieces, one of them empty, can be swapped in front of a third. */
  lemma SwapWithEmpty<T>(p: seq<T>, q: seq<T>, s: seq<T>)
    requires p == [] || q == []
    ensures p + (q + s) == q + (p + s)
  {
  }

  /** The head and tail of `[x] + s`. */
  lemma ConsParts<T>(x: T, s: seq<T>)
    ensures ([x] + s)[0] == x && ([x] + s)[1..] == s
  {
  }

  /** The head and tail of a concatenation whose left part is not empty. */
  lemma AppendParts<T>(a: seq<T>, b: seq<T>)
    requires |a| > 0
    ensures (a + b)[0] == a[0] && (a + b)[1..] == a[1..] + b
  {
  }

  /** Dropping a front part that lies inside the left operand. */
  lemma DropFromAppend<T>(a: seq<T>, b: seq<T>, n: nat)
    requires n <= |a|
    ensures (a + b)[n..] == a[n..] + b
  {
  }

  /** A prefix that lies inside the left operand. */
  lemma TakeFromAppend<T>(a: seq<T>, b: seq<T>, n: nat)
    requires n <= |a|
    ensures (a + b)[..n] == a[..n]
  {
  }

  /** Regrouping four concatenated parts around the middle two. */
  lemma RegroupMiddle<T>(p: seq<T>, a: seq<T>, b: seq<T>, s: seq<T>)
    ensures p + a + b + s == p + ((a + b) + s)
  {
  }

  /** The members of a three-element sequence built one element at a time. */
  lemma ThreeMembers<T>(a: T, b: T, c: T)
    ensures forall x :: x in [a] + [b] + [c] <==> x == a || x == b || x == c
  {
    assert [a] + [b] + [c] == [a, b, c];
  }
}
