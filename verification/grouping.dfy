/** The group-by both charts of the analytics page are built from: rows are
    folded into a JavaScript `Map` from key to running totals, split by
    whose spending it is. The map is modelled as a list of buckets in
    insertion order, as `Map` iterates. */
module Grouping {
  import opened Wrappers
  import opened Ledger
  import opened MonthKeys
  import opened Seqs

  /** Running totals of one bucket: the overall total and the parts
      attributed to each tag. */
  datatype Totals = Totals(total: int, papa: int, mama: int, shared: int) {

    function Plus(o: Totals): Totals {
      Totals(total + o.total, papa + o.papa, mama + o.mama, shared + o.shared)
    }

    /** The total is exactly the sum of the three tag parts. */
    predicate Balanced() {
      total == papa + mama + shared
    }
  }

  const Zero := Totals(0, 0, 0, 0)

  lemma PlusAssociative(a: Totals, b: Totals, c: Totals)
    ensures a.Plus(b).Plus(c) == a.Plus(b.Plus(c))
  {
  }

  lemma PlusCommutesLeft(a: Totals, b: Totals, c: Totals)
    ensures a.Plus(b.Plus(c)) == b.Plus(a.Plus(c))
  {
  }

  lemma PlusCommutesRight(a: Totals, b: Totals, c: Totals)
    ensures a.Plus(b).Plus(c) == a.Plus(c).Plus(b)
  {
  }

  /** The joined `statements(year, month)` record. */
  datatype StatementRef = StatementRef(year: int, month: int)

  /** The joined `categories(name)` record. */
  datatype CategoryRef = CategoryRef(name: Option<string>)

  /** One row of the aggregation query; joins come back as possibly null
      arrays. */
  datatype AggRow = AggRow(
    amount: Option<int>,
    userTag: Option<Tag>,
    statement: Option<seq<StatementRef>>,
    category: Option<seq<CategoryRef>>)

  /** `Number(row.amount || 0)`: a null amount counts as zero. */
  function AmountOf(row: AggRow): int {
    row.amount.GetOr(0)
  }

  /** What one row adds to its bucket: its amount to the total and to
      exactly one tag part; any tag but papa or mama, null included, counts
      as shared. */
  function Contribution(row: AggRow): (t: Totals)
    ensures t.Balanced()
    ensures t.total == AmountOf(row)
    ensures row.userTag != Some(Papa) ==> t.papa == 0
    ensures row.userTag != Some(Mama) ==> t.mama == 0
    ensures row.userTag == Some(Papa) || row.userTag == Some(Mama) ==> t.shared == 0
  {
    var amt := AmountOf(row);
    if row.userTag == Some(Papa) then Totals(amt, amt, 0, 0)
    else if row.userTag == Some(Mama) then Totals(amt, 0, amt, 0)
    else Totals(amt, 0, 0, amt)
  }

  /** `row.statement?.[0]` turned into its month key; rows without a
      statement have none. */
  function StatementKey(row: AggRow): Option<string> {
    match row.statement
    case None => None
    case Some(stmts) => if |stmts| == 0 then None else Some(MonthKey(stmts[0].year, stmts[0].month))
  }

  /** A row is keyed exactly when it has a first statement. */
  lemma StatementKeyPresent(row: AggRow)
    ensures StatementKey(row).None? <==> row.statement.None? || |row.statement.value| == 0
  {
  }

  /** Rows whose first statements have four-digit years and months below
      100 share a key exactly when those statements share year and month. */
  lemma SameStatementKey(r1: AggRow, r2: AggRow)
    requires r1.statement.Some? && |r1.statement.value| > 0
    requires r2.statement.Some? && |r2.statement.value| > 0
    requires var s1 := r1.statement.value[0]; 1000 <= s1.year <= 9999 && 0 <= s1.month <= 99
    requires var s2 := r2.statement.value[0]; 1000 <= s2.year <= 9999 && 0 <= s2.month <= 99
    ensures StatementKey(r1) == StatementKey(r2) <==>
              && r1.statement.value[0].year == r2.statement.value[0].year
              && r1.statement.value[0].month == r2.statement.value[0].month
  {
    var s1, s2 := r1.statement.value[0], r2.statement.value[0];
    KeyDeterminesMonth(s1.year, s1.month, s2.year, s2.month);
  }

  /** The label of rows without a category ("uncategorised"). */
  const Uncategorised: string := "未分類"

  /** `row.category?.[0]?.name || "未分類"`. */
  function CategoryName(row: AggRow): (r: string)
    ensures r != []
    ensures r != Uncategorised ==>
              row.category.Some? && |row.category.value| > 0 && row.category.value[0].name == Some(r)
    ensures (&& row.category.Some? && |row.category.value| > 0
             && row.category.value[0].name.Some? && row.category.value[0].name.value != [])
            ==> r == row.category.value[0].name.value
  {
    match row.category
    case Some(cats) =>
      if |cats| > 0 && cats[0].name.Some? && cats[0].name.value != [] then cats[0].name.value
      else Uncategorised
    case None => Uncategorised
  }

  /** The two groupings: by statement month, and by category within one
      selected month. */
  datatype Grouping = ByMonth | ByCategoryIn(ym: string)

  /** The key a row is grouped under, or `None` when the row is skipped. */
  function KeyOf(g: Grouping, row: AggRow): Option<string> {
    match g
    case ByMonth => StatementKey(row)
    case ByCategoryIn(ym) => if StatementKey(row) == Some(ym) then Some(CategoryName(row)) else None
  }

  /** One entry of the map: a key and its totals. */
  datatype Bucket = Bucket(key: string, sums: Totals)

  /** The keys present in the map. */
  function Keys(bs: seq<Bucket>): set<string> {
    if |bs| == 0 then {} else {bs[0].key} + Keys(bs[1..])
  }

  /** No key has two buckets. */
  predicate DistinctKeys(bs: seq<Bucket>) {
    |bs| == 0 || (bs[0].key !in Keys(bs[1..]) && DistinctKeys(bs[1..]))
  }

  predicate AllBalanced(bs: seq<Bucket>) {
    forall b :: b in bs ==> b.sums.Balanced()
  }

  /** The totals filed under `x` (`map.get(x)`), zero when absent. */
  function Lookup(bs: seq<Bucket>, x: string): Totals {
    if |bs| == 0 then Zero else if bs[0].key == x then bs[0].sums else Lookup(bs[1..], x)
  }

  /** The totals of all buckets added up. */
  function SumBuckets(bs: seq<Bucket>): Totals {
    if |bs| == 0 then Zero else bs[0].sums.Plus(SumBuckets(bs[1..]))
  }

  lemma {:induction false} LookupAbsent(bs: seq<Bucket>, x: string)
    requires x !in Keys(bs)
    ensures Lookup(bs, x) == Zero
  {
    if |bs| > 0 {
      LookupAbsent(bs[1..], x);
    }
  }

  /** A key is present exactly when some bucket carries it. */
  lemma {:induction false} KeysIndex(bs: seq<Bucket>, x: string)
    ensures x in Keys(bs) <==> exists i :: 0 <= i < |bs| && bs[i].key == x
  {
    if |bs| > 0 {
      KeysIndex(bs[1..], x);
      if x in Keys(bs[1..]) {
        var i :| 0 <= i < |bs[1..]| && bs[1..][i].key == x;
        assert bs[i + 1].key == x;
      }
      if exists i :: 0 <= i < |bs| && bs[i].key == x {
        var i :| 0 <= i < |bs| && bs[i].key == x;
        if i > 0 {
          assert bs[1..][i - 1].key == x;
        }
      }
    }
  }

  /** Distinct keys, stated position by position. */
  lemma {:induction false} DistinctKeysApart(bs: seq<Bucket>)
    requires DistinctKeys(bs)
    ensures forall i, j :: 0 <= i < j < |bs| ==> bs[i].key != bs[j].key
  {
    if |bs| > 0 {
      DistinctKeysApart(bs[1..]);
      forall j | 0 < j < |bs| ensures bs[0].key != bs[j].key {
        KeysIndex(bs[1..], bs[0].key);
        assert bs[1..][j - 1] == bs[j];
      }
      forall i, j | 0 < i < j < |bs| ensures bs[i].key != bs[j].key {
        assert bs[1..][i - 1] == bs[i] && bs[1..][j - 1] == bs[j];
      }
    }
  }

  /** `if (!map.has(k)) map.set(k, zero); map.get(k)! += c`: adds `c` to the
      bucket of `k`, appending a new bucket at the end when `k` is new. */
  function Accumulate(bs: seq<Bucket>, k: string, c: Totals): (r: seq<Bucket>)
    ensures k !in Keys(bs) ==> r == bs + [Bucket(k, c)]
    ensures k in Keys(bs) ==> |r| == |bs|
    ensures k in Keys(bs) ==> forall i :: 0 <= i < |bs| ==> r[i].key == bs[i].key
    ensures k in Keys(bs) ==> forall i :: 0 <= i < |bs| && bs[i].key != k ==> r[i] == bs[i]
  {
    if |bs| == 0 then [Bucket(k, c)]
    else if bs[0].key == k then [Bucket(k, bs[0].sums.Plus(c))] + bs[1..]
    else
      assert bs == [bs[0]] + bs[1..];
      [bs[0]] + Accumulate(bs[1..], k, c)
  }

  /** Accumulating adds `k` to the keys. */
  lemma {:induction false} AccumulateKeys(bs: seq<Bucket>, k: string, c: Totals)
    ensures Keys(Accumulate(bs, k, c)) == Keys(bs) + {k}
  {
    if |bs| > 0 && bs[0].key != k {
      var r := Accumulate(bs, k, c);
      AccumulateKeys(bs[1..], k, c);
      assert r[1..] == Accumulate(bs[1..], k, c);
    } else if |bs| > 0 {
      var r := Accumulate(bs, k, c);
      assert r[1..] == bs[1..];
    }
  }

  /** Accumulating keeps the keys distinct. */
  lemma {:induction false} AccumulateDistinct(bs: seq<Bucket>, k: string, c: Totals)
    requires DistinctKeys(bs)
    ensures DistinctKeys(Accumulate(bs, k, c))
  {
    var r := Accumulate(bs, k, c);
    if |bs| == 0 {
      assert r[1..] == [];
    } else if bs[0].key == k {
      assert r[1..] == bs[1..];
    } else {
      AccumulateDistinct(bs[1..], k, c);
      AccumulateKeys(bs[1..], k, c);
      assert r[1..] == Accumulate(bs[1..], k, c);
    }
  }

  /** Accumulating changes the totals under `k` by `c` and no others. */
  lemma {:induction false} AccumulateLookup(bs: seq<Bucket>, k: string, c: Totals, x: string)
    ensures Lookup(Accumulate(bs, k, c), x) == if x == k then Lookup(bs, x).Plus(c) else Lookup(bs, x)
  {
    if |bs| > 0 && bs[0].key != k {
      AccumulateLookup(bs[1..], k, c, x);
    }
  }

  /** Accumulating adds `c` to the sum of all buckets. */
  lemma {:induction false} AccumulateSum(bs: seq<Bucket>, k: string, c: Totals)
    ensures SumBuckets(Accumulate(bs, k, c)) == SumBuckets(bs).Plus(c)
  {
    if |bs| > 0 && bs[0].key != k {
      AccumulateSum(bs[1..], k, c);
    }
  }

  /** Accumulating balanced totals keeps every bucket balanced. */
  lemma {:induction false} AccumulateBalanced(bs: seq<Bucket>, k: string, c: Totals)
    requires AllBalanced(bs) && c.Balanced()
    ensures AllBalanced(Accumulate(bs, k, c))
  {
    if |bs| > 0 {
      assert bs[0] in bs;
      if bs[0].key != k {
        assert forall b :: b in bs[1..] ==> b in bs;
        AccumulateBalanced(bs[1..], k, c);
      } else {
        assert forall b :: b in bs[1..] ==> b in bs;
      }
    }
  }

  /** The keys the rows are grouped under. */
  function RowKeys(rows: seq<AggRow>, g: Grouping): set<string> {
    set row | row in rows && KeyOf(g, row).Some? :: KeyOf(g, row).value
  }

  /** What `row` adds under key `x`. */
  function FiledUnder(g: Grouping, row: AggRow, x: string): Totals {
    if KeyOf(g, row) == Some(x) then Contribution(row) else Zero
  }

  /** Reference definition: the sum of the contributions of the rows filed
      under `x`. */
  function SumWhere(rows: seq<AggRow>, g: Grouping, x: string): Totals {
    if |rows| == 0 then Zero
    else SumWhere(rows[..|rows| - 1], g, x).Plus(FiledUnder(g, rows[|rows| - 1], x))
  }

  /** Reference definition: the sum of the contributions of every row filed
      under some key. */
  function SumKeyed(rows: seq<AggRow>, g: Grouping): Totals {
    if |rows| == 0 then Zero
    else
      var last := rows[|rows| - 1];
      SumKeyed(rows[..|rows| - 1], g).Plus(if KeyOf(g, last).Some? then Contribution(last) else Zero)
  }

  lemma RowKeysSnoc(rows: seq<AggRow>, g: Grouping)
    requires |rows| > 0
    ensures var last := rows[|rows| - 1];
            RowKeys(rows, g) == RowKeys(rows[..|rows| - 1], g)
                                + (if KeyOf(g, last).Some? then {KeyOf(g, last).value} else {})
  {
    assert rows == rows[..|rows| - 1] + [rows[|rows| - 1]];
    assert forall row :: row in rows <==> row in rows[..|rows| - 1] || row == rows[|rows| - 1];
  }

  /** `rows.forEach(...)`: the buckets the rows are folded into, first-seen
      key first. Each key appears once and every bucket is balanced; the
      lemmas below say which keys there are and what each one holds. */
  function GroupRows(rows: seq<AggRow>, g: Grouping): (r: seq<Bucket>)
    ensures DistinctKeys(r)
    ensures AllBalanced(r)
  {
    if |rows| == 0 then []
    else
      var last := rows[|rows| - 1];
      var prev := GroupRows(rows[..|rows| - 1], g);
      match KeyOf(g, last)
      case None => prev
      case Some(k) =>
        AccumulateDistinct(prev, k, Contribution(last));
        AccumulateBalanced(prev, k, Contribution(last));
        Accumulate(prev, k, Contribution(last))
  }

  /** One bucket per key some row is filed under, and no other. */
  lemma {:induction false} GroupRowsKeys(rows: seq<AggRow>, g: Grouping)
    ensures Keys(GroupRows(rows, g)) == RowKeys(rows, g)
  {
    if |rows| > 0 {
      var last := rows[|rows| - 1];
      var prev := GroupRows(rows[..|rows| - 1], g);
      GroupRowsKeys(rows[..|rows| - 1], g);
      RowKeysSnoc(rows, g);
      if KeyOf(g, last).Some? {
        AccumulateKeys(prev, KeyOf(g, last).value, Contribution(last));
      }
    }
  }

  /** The bucket of `x` holds the sum over exactly the rows filed under `x`;
      an absent key reads as zero, which is that sum too. */
  lemma {:induction false} GroupRowsLookup(rows: seq<AggRow>, g: Grouping, x: string)
    ensures Lookup(GroupRows(rows, g), x) == SumWhere(rows, g, x)
  {
    if |rows| > 0 {
      var last := rows[|rows| - 1];
      var prev := GroupRows(rows[..|rows| - 1], g);
      GroupRowsLookup(rows[..|rows| - 1], g, x);
      if KeyOf(g, last).Some? {
        AccumulateLookup(prev, KeyOf(g, last).value, Contribution(last), x);
      }
    }
  }

  /** All buckets together hold the contributions of every keyed row. */
  lemma {:induction false} GroupRowsTotal(rows: seq<AggRow>, g: Grouping)
    ensures SumBuckets(GroupRows(rows, g)) == SumKeyed(rows, g)
  {
    if |rows| > 0 {
      var last := rows[|rows| - 1];
      var prev := GroupRows(rows[..|rows| - 1], g);
      GroupRowsTotal(rows[..|rows| - 1], g);
      if KeyOf(g, last).Some? {
        AccumulateSum(prev, KeyOf(g, last).value, Contribution(last));
      }
    }
  }

  /** Appending one row adds what it files under `x`. */
  lemma SumWhereSnoc(s: seq<AggRow>, y: AggRow, g: Grouping, x: string)
    ensures SumWhere(s + [y], g, x) == SumWhere(s, g, x).Plus(FiledUnder(g, y, x))
  {
    DropSnoc(s, y);
  }

  /** The totals of a concatenation are the sum of the parts' totals. */
  lemma {:induction false} SumWhereAppend(a: seq<AggRow>, b: seq<AggRow>, g: Grouping, x: string)
    ensures SumWhere(a + b, g, x) == SumWhere(a, g, x).Plus(SumWhere(b, g, x))
    decreases |b|
  {
    if |b| == 0 {
      assert a + b == a;
    } else {
      var init, last := b[..|b| - 1], b[|b| - 1];
      var c := FiledUnder(g, last, x);
      calc {
        SumWhere(a + b, g, x);
        { AppendSnoc(a, b); SumWhereSnoc(a + init, last, g, x); }
        SumWhere(a + init, g, x).Plus(c);
        { SumWhereAppend(a, init, g, x); }
        SumWhere(a, g, x).Plus(SumWhere(init, g, x)).Plus(c);
        { PlusAssociative(SumWhere(a, g, x), SumWhere(init, g, x), c); }
        SumWhere(a, g, x).Plus(SumWhere(init, g, x).Plus(c));
      }
    }
  }

  /** The totals under a key depend only on which rows there are, not on
      their order. */
  lemma {:induction false} SumWherePermutation(a: seq<AggRow>, b: seq<AggRow>, g: Grouping, x: string)
    requires multiset(a) == multiset(b)
    ensures SumWhere(a, g, x) == SumWhere(b, g, x)
    decreases |a|
  {
    if |a| > 0 {
      var n := |a| - 1;
      var last := a[n];
      assert last in multiset(b) by {
        MultisetDropLast(a);
      }
      var i :| 0 <= i < |b| && b[i] == last;
      var front, back := b[..i], b[i + 1..];
      assert multiset(a[..n]) == multiset(front + back) by {
        MultisetDropLast(a);
        MultisetRemoveAt(b, i);
        MultisetCancel(multiset(a[..n]), multiset(front + back), last);
      }
      var c := FiledUnder(g, last, x);
      calc {
        SumWhere(b, g, x);
        { SplitAt(b, i); }
        SumWhere(front + [last] + back, g, x);
        { SumWhereAppend(front + [last], back, g, x); SumWhereSnoc(front, last, g, x); }
        SumWhere(front, g, x).Plus(c).Plus(SumWhere(back, g, x));
        { PlusCommutesRight(SumWhere(front, g, x), c, SumWhere(back, g, x)); }
        SumWhere(front, g, x).Plus(SumWhere(back, g, x)).Plus(c);
        { SumWhereAppend(front, back, g, x); }
        SumWhere(front + back, g, x).Plus(c);
        { SumWherePermutation(a[..n], front + back, g, x); }
        SumWhere(a[..n], g, x).Plus(c);
        SumWhere(a, g, x);
      }
    }
  }

  /** The keys that occur depend only on which rows there are. */
  lemma RowKeysPermutation(a: seq<AggRow>, b: seq<AggRow>, g: Grouping)
    requires multiset(a) == multiset(b)
    ensures RowKeys(a, g) == RowKeys(b, g)
  {
    assert forall row :: row in a <==> row in b by {
      forall row ensures row in a <==> row in b {
        assert row in a <==> row in multiset(a);
        assert row in b <==> row in multiset(b);
      }
    }
  }
}
