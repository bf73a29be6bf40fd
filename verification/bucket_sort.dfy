/** `Array.prototype.sort` on the grouped buckets. The analytics page sorts
    months by key with `(a < b ? -1 : 1)` and categories by total with
    `b.total - a.total`; `sort` is stable, so buckets the comparator calls
    equal keep their insertion order. The model is a stable insertion sort
    with the same notion of "must come first". */
module BucketSort {
  import opened Text
  import opened Grouping
  import opened Seqs

  /** The two orders the page uses. */
  datatype Order = ByKeyAscending | ByTotalDescending

  /** `a` must be placed before `b`: the comparator returns a negative
      number for `(a, b)`. */
  predicate Before(o: Order, a: Bucket, b: Bucket) {
    match o
    case ByKeyAscending => Less(a.key, b.key)
    case ByTotalDescending => a.sums.total > b.sums.total
  }

  lemma BeforeAsymmetric(o: Order, a: Bucket, b: Bucket)
    requires Before(o, a, b)
    ensures !Before(o, b, a)
  {
    if o == ByKeyAscending && Less(b.key, a.key) {
      LessTransitive(a.key, b.key, a.key);
      LessIrreflexive(a.key);
    }
  }

  /** "Not before" is transitive: `Before` is a strict weak order. */
  lemma NotBeforeTransitive(o: Order, a: Bucket, b: Bucket, c: Bucket)
    requires !Before(o, a, b) && !Before(o, b, c)
    ensures !Before(o, a, c)
  {
    if o == ByKeyAscending && Less(a.key, c.key) {
      if a.key == b.key {
      } else if b.key == c.key {
      } else {
        LessTotal(a.key, b.key);
        LessTotal(b.key, c.key);
        LessTransitive(b.key, a.key, c.key);
      }
    }
  }

  /** No bucket is placed after one it must precede. */
  predicate Sorted(o: Order, s: seq<Bucket>) {
    forall i, j :: 0 <= i < j < |s| ==> !Before(o, s[j], s[i])
  }

  /** No bucket of `s` must come before `a`. */
  predicate NoneBefore(o: Order, s: seq<Bucket>, a: Bucket) {
    forall y :: y in s ==> !Before(o, y, a)
  }

  lemma SortedCons(o: Order, a: Bucket, s: seq<Bucket>)
    requires Sorted(o, s) && NoneBefore(o, s, a)
    ensures Sorted(o, [a] + s)
  {
    var r := [a] + s;
    forall i, j | 0 <= i < j < |r| ensures !Before(o, r[j], r[i]) {
      assert r[j] == s[j - 1];
      if i > 0 {
        assert r[i] == s[i - 1];
      }
    }
  }

  /** Places `x` before the first bucket it need not follow. */
  function Insert(o: Order, x: Bucket, t: seq<Bucket>): (r: seq<Bucket>)
    ensures multiset(r) == multiset(t) + multiset{x}
  {
    if |t| == 0 then [x]
    else if Before(o, t[0], x) then
      assert t == [t[0]] + t[1..];
      [t[0]] + Insert(o, x, t[1..])
    else [x] + t
  }

  lemma {:induction false} InsertSorted(o: Order, x: Bucket, t: seq<Bucket>)
    requires Sorted(o, t)
    ensures Sorted(o, Insert(o, x, t))
  {
    if |t| > 0 {
      if Before(o, t[0], x) {
        var rest := Insert(o, x, t[1..]);
        assert Sorted(o, t[1..]) by {
          forall i, j | 0 <= i < j < |t[1..]| ensures !Before(o, t[1..][j], t[1..][i]) {
            assert t[1..][i] == t[i + 1] && t[1..][j] == t[j + 1];
          }
        }
        InsertSorted(o, x, t[1..]);
        forall y | y in rest ensures !Before(o, y, t[0]) {
          assert y in multiset(rest);
          if y == x {
            BeforeAsymmetric(o, t[0], x);
          } else {
            assert y in t[1..];
            var j :| 0 <= j < |t[1..]| && t[1..][j] == y;
            assert t[j + 1] == y;
          }
        }
        SortedCons(o, t[0], rest);
      } else {
        forall y | y in t ensures !Before(o, y, x) {
          var j :| 0 <= j < |t| && t[j] == y;
          if j > 0 {
            NotBeforeTransitive(o, y, t[0], x);
          }
        }
        SortedCons(o, x, t);
      }
    }
  }

  /** The sorted arrangement of `s`: a permutation of it, in order. */
  function Sort(o: Order, s: seq<Bucket>): (r: seq<Bucket>)
    ensures multiset(r) == multiset(s)
    ensures Sorted(o, r)
  {
    if |s| == 0 then []
    else
      assert s == [s[0]] + s[1..];
      var t := Sort(o, s[1..]);
      InsertSorted(o, s[0], t);
      Insert(o, s[0], t)
  }

  lemma {:induction false} InsertKeys(o: Order, x: Bucket, t: seq<Bucket>)
    ensures Keys(Insert(o, x, t)) == {x.key} + Keys(t)
  {
    var r := Insert(o, x, t);
    if |t| > 0 && Before(o, t[0], x) {
      var rest := Insert(o, x, t[1..]);
      assert r[0] == t[0] && r[1..] == rest;
      calc {
        Keys(r);
        ({r[0].key} + Keys(r[1..]));
        { InsertKeys(o, x, t[1..]); }
        ({t[0].key} + ({x.key} + Keys(t[1..])));
        ({x.key} + ({t[0].key} + Keys(t[1..])));
        ({x.key} + Keys(t));
      }
    } else if |t| > 0 {
      assert r[0] == x && r[1..] == t;
    }
  }

  lemma {:induction false} InsertDistinct(o: Order, x: Bucket, t: seq<Bucket>)
    requires DistinctKeys(t) && x.key !in Keys(t)
    ensures DistinctKeys(Insert(o, x, t))
  {
    if |t| > 0 && Before(o, t[0], x) {
      InsertDistinct(o, x, t[1..]);
      InsertKeys(o, x, t[1..]);
      assert Insert(o, x, t)[1..] == Insert(o, x, t[1..]);
    } else if |t| > 0 {
      assert Insert(o, x, t)[1..] == t;
    }
  }

  lemma {:induction false} InsertLookup(o: Order, x: Bucket, t: seq<Bucket>, k: string)
    requires x.key !in Keys(t)
    ensures Lookup(Insert(o, x, t), k) == if k == x.key then x.sums else Lookup(t, k)
  {
    if |t| > 0 && Before(o, t[0], x) {
      InsertLookup(o, x, t[1..], k);
      assert Insert(o, x, t)[1..] == Insert(o, x, t[1..]);
    } else if |t| > 0 {
      assert Insert(o, x, t)[1..] == t;
    }
  }

  lemma {:induction false} InsertSum(o: Order, x: Bucket, t: seq<Bucket>)
    ensures SumBuckets(Insert(o, x, t)) == x.sums.Plus(SumBuckets(t))
  {
    if |t| > 0 && Before(o, t[0], x) {
      InsertSum(o, x, t[1..]);
      assert Insert(o, x, t)[1..] == Insert(o, x, t[1..]);
      PlusCommutesLeft(t[0].sums, x.sums, SumBuckets(t[1..]));
    } else if |t| > 0 {
      assert Insert(o, x, t)[1..] == t;
    }
  }

  /** Sorting keeps the same keys, each once, with the same totals. */
  lemma {:induction false} SortKeepsMap(o: Order, s: seq<Bucket>)
    requires DistinctKeys(s)
    ensures Keys(Sort(o, s)) == Keys(s)
    ensures DistinctKeys(Sort(o, s))
    ensures forall k :: Lookup(Sort(o, s), k) == Lookup(s, k)
  {
    if |s| > 0 {
      var t := Sort(o, s[1..]);
      SortKeepsMap(o, s[1..]);
      InsertKeys(o, s[0], t);
      InsertDistinct(o, s[0], t);
      forall k ensures Lookup(Sort(o, s), k) == Lookup(s, k) {
        InsertLookup(o, s[0], t, k);
      }
    }
  }

  /** Sorting does not change the sum of all buckets. */
  lemma {:induction false} SortKeepsTotal(o: Order, s: seq<Bucket>)
    ensures SumBuckets(Sort(o, s)) == SumBuckets(s)
  {
    if |s| > 0 {
      SortKeepsTotal(o, s[1..]);
      InsertSum(o, s[0], Sort(o, s[1..]));
    }
  }

  /** Sorting keeps every bucket balanced. */
  lemma SortKeepsBalanced(o: Order, s: seq<Bucket>)
    requires AllBalanced(s)
    ensures AllBalanced(Sort(o, s))
  {
    forall b | b in Sort(o, s) ensures b.sums.Balanced() {
      assert b in multiset(Sort(o, s));
    }
  }

  /** The buckets of `s` whose total is `v`, in their order in `s`. */
  function WithTotal(s: seq<Bucket>, v: int): (r: seq<Bucket>)
    ensures |r| <= |s|
    ensures forall b :: b in r ==> b in s && b.sums.total == v
  {
    if |s| == 0 then []
    else (if s[0].sums.total == v then [s[0]] else []) + WithTotal(s[1..], v)
  }

  lemma {:induction false} InsertStable(x: Bucket, t: seq<Bucket>, v: int)
    ensures WithTotal(Insert(ByTotalDescending, x, t), v)
            == (if x.sums.total == v then [x] else []) + WithTotal(t, v)
  {
    var r := Insert(ByTotalDescending, x, t);
    var px := if x.sums.total == v then [x] else [];
    if |t| > 0 && Before(ByTotalDescending, t[0], x) {
      var p0 := if t[0].sums.total == v then [t[0]] else [];
      assert r[0] == t[0] && r[1..] == Insert(ByTotalDescending, x, t[1..]);
      calc {
        WithTotal(r, v);
        p0 + WithTotal(r[1..], v);
        { InsertStable(x, t[1..], v); }
        p0 + (px + WithTotal(t[1..], v));
        { SwapWithEmpty(p0, px, WithTotal(t[1..], v)); }
        px + (p0 + WithTotal(t[1..], v));
        px + WithTotal(t, v);
      }
    } else if |t| > 0 {
      assert r[0] == x && r[1..] == t;
    } else {
      assert r[1..] == [];
    }
  }

  /** Stability: buckets with equal totals keep their relative order. */
  lemma {:induction false} SortStable(s: seq<Bucket>, v: int)
    ensures WithTotal(Sort(ByTotalDescending, s), v) == WithTotal(s, v)
  {
    if |s| > 0 {
      SortStable(s[1..], v);
      InsertStable(s[0], Sort(ByTotalDescending, s[1..]), v);
    }
  }

  /** Keys strictly increasing from first to last. */
  predicate StrictlyAscending(s: seq<Bucket>) {
    forall i, j :: 0 <= i < j < |s| ==> Less(s[i].key, s[j].key)
  }

  /** Sorted by key with distinct keys means strictly ascending. */
  lemma SortedByKeyAscending(s: seq<Bucket>)
    requires Sorted(ByKeyAscending, s) && DistinctKeys(s)
    ensures StrictlyAscending(s)
  {
    DistinctKeysApart(s);
    forall i, j | 0 <= i < j < |s| ensures Less(s[i].key, s[j].key) {
      LessTotal(s[i].key, s[j].key);
    }
  }

  /** The first key of a strictly ascending list is not repeated after it. */
  lemma AscendingTail(s: seq<Bucket>)
    requires StrictlyAscending(s) && |s| > 0
    ensures StrictlyAscending(s[1..])
    ensures s[0].key !in Keys(s[1..])
  {
    assert StrictlyAscending(s[1..]) by {
      forall i, j | 0 <= i < j < |s[1..]| ensures Less(s[1..][i].key, s[1..][j].key) {
        assert s[1..][i] == s[i + 1] && s[1..][j] == s[j + 1];
      }
    }
    KeysIndex(s[1..], s[0].key);
    if s[0].key in Keys(s[1..]) {
      var j :| 0 <= j < |s[1..]| && s[1..][j].key == s[0].key;
      assert s[j + 1] == s[1..][j];
      LessIrreflexive(s[0].key);
      assert false;
    }
  }

  /** The smallest key: a strictly ascending list starts with it. */
  lemma AscendingHead(a: seq<Bucket>, b: seq<Bucket>)
    requires StrictlyAscending(a) && StrictlyAscending(b)
    requires |a| > 0 && |b| > 0 && Keys(a) == Keys(b)
    ensures a[0].key == b[0].key
  {
    var ka, kb := a[0].key, b[0].key;
    if ka != kb {
      assert ka in Keys(a) && kb in Keys(b);
      KeysIndex(b, ka);
      KeysIndex(a, kb);
      var j :| 0 <= j < |b| && b[j].key == ka;
      var i :| 0 <= i < |a| && a[i].key == kb;
      assert Less(kb, ka) && Less(ka, kb);
      LessTransitive(ka, kb, ka);
      LessIrreflexive(ka);
      assert false;
    }
  }

  /** A strictly ascending list is determined by its keys and their totals:
      any sort that orders distinct keys correctly gives this very list. */
  lemma {:induction false} AscendingUnique(a: seq<Bucket>, b: seq<Bucket>)
    requires StrictlyAscending(a) && StrictlyAscending(b)
    requires Keys(a) == Keys(b)
    requires forall k :: Lookup(a, k) == Lookup(b, k)
    ensures a == b
  {
    if |a| > 0 && |b| > 0 {
      AscendingHead(a, b);
      var k := a[0].key;
      assert Lookup(a, k) == a[0].sums && Lookup(b, k) == b[0].sums;
      AscendingTail(a);
      AscendingTail(b);
      assert Keys(a[1..]) == Keys(a) - {k};
      assert Keys(b[1..]) == Keys(b) - {k};
      forall x ensures Lookup(a[1..], x) == Lookup(b[1..], x) {
        if x == k {
          LookupAbsent(a[1..], x);
          LookupAbsent(b[1..], x);
        } else {
          assert Lookup(a, x) == Lookup(b, x);
        }
      }
      AscendingUnique(a[1..], b[1..]);
      assert a == [a[0]] + a[1..] && b == [b[0]] + b[1..];
    }
  }
}
