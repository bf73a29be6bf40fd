/** The analytics page: the monthly series (one entry per statement month,
    ascending), the month selected by default, the entry shown for the
    selected month, and the per-category breakdown of that month. */
module Analytics {
  import opened Wrappers
  import opened Text
  import opened Ledger
  import opened MonthKeys
  import opened Seqs
  import opened Grouping
  import opened BucketSort

  /** `monthlyData`: the rows grouped by statement month and sorted by
      month key. Each month with a dated row appears exactly once, in
      strictly ascending key order, holding the sum over exactly that
      month's rows. */
  function MonthlyData(rows: seq<AggRow>): (r: seq<Bucket>)
    ensures StrictlyAscending(r)
    ensures AllBalanced(r)
    ensures Keys(r) == RowKeys(rows, ByMonth)
    ensures forall x :: Lookup(r, x) == SumWhere(rows, ByMonth, x)
  {
    var grouped := GroupRows(rows, ByMonth);
    SortKeepsMap(ByKeyAscending, grouped);
    SortKeepsBalanced(ByKeyAscending, grouped);
    SortedByKeyAscending(Sort(ByKeyAscending, grouped));
    GroupRowsKeys(rows, ByMonth);
    assert forall x :: Lookup(grouped, x) == SumWhere(rows, ByMonth, x) by {
      forall x ensures Lookup(grouped, x) == SumWhere(rows, ByMonth, x) {
        GroupRowsLookup(rows, ByMonth, x);
      }
    }
    Sort(ByKeyAscending, grouped)
  }

  /** The series depends only on which rows the query returned, not on the
      order it returned them in. */
  lemma MonthlyOrderIndependent(a: seq<AggRow>, b: seq<AggRow>)
    requires multiset(a) == multiset(b)
    ensures MonthlyData(a) == MonthlyData(b)
  {
    RowKeysPermutation(a, b, ByMonth);
    forall x ensures Lookup(MonthlyData(a), x) == Lookup(MonthlyData(b), x) {
      SumWherePermutation(a, b, ByMonth, x);
    }
    AscendingUnique(MonthlyData(a), MonthlyData(b));
  }

  /** Whether a row's tag is one of `who`. */
  predicate TaggedAs(row: AggRow, who: set<Option<Tag>>) {
    row.userTag in who
  }

  /** Reference definition: the amounts of the rows that have a statement
      and whose tag is one of `who`, added up. */
  function DatedAmount(rows: seq<AggRow>, who: set<Option<Tag>>): int {
    if |rows| == 0 then 0
    else
      var last := rows[|rows| - 1];
      DatedAmount(rows[..|rows| - 1], who)
        + (if StatementKey(last).Some? && TaggedAs(last, who) then AmountOf(last) else 0)
  }

  /** Every tag value a row can carry, null included. */
  const AnyTag: set<Option<Tag>> := {None, Some(Papa), Some(Mama), Some(Shared)}

  /** Rows tagged neither papa nor mama count as shared. */
  const SharedTags: set<Option<Tag>> := {None, Some(Shared)}

  /** The four parts of the dated amounts, as one `Totals`. */
  function DatedTotals(rows: seq<AggRow>): Totals {
    Totals(DatedAmount(rows, AnyTag), DatedAmount(rows, {Some(Papa)}),
           DatedAmount(rows, {Some(Mama)}), DatedAmount(rows, SharedTags))
  }

  lemma {:induction false} KeyedByMonthAmounts(rows: seq<AggRow>)
    ensures SumKeyed(rows, ByMonth) == DatedTotals(rows)
  {
    if |rows| > 0 {
      var last := rows[|rows| - 1];
      KeyedByMonthAmounts(rows[..|rows| - 1]);
      assert SumKeyed(rows, ByMonth)
             == SumKeyed(rows[..|rows| - 1], ByMonth).Plus(if StatementKey(last).Some? then Contribution(last) else Zero);
      DatedTotalsSnoc(rows);
    }
  }

  /** Adding one row to the dated amounts adds its contribution when it has
      a statement. */
  lemma DatedTotalsSnoc(rows: seq<AggRow>)
    requires |rows| > 0
    ensures var last := rows[|rows| - 1];
            DatedTotals(rows)
            == DatedTotals(rows[..|rows| - 1]).Plus(if StatementKey(last).Some? then Contribution(last) else Zero)
  {
    var last := rows[|rows| - 1];
    match last.userTag {
      case None =>
      case Some(t) => assert t == Papa || t == Mama || t == Shared;
    }
  }

  /** Across all months the series adds up to the amounts of the rows
      that have a statement, split by tag. */
  lemma MonthlyGrandTotal(rows: seq<AggRow>)
    ensures SumBuckets(MonthlyData(rows)).total == DatedAmount(rows, AnyTag)
    ensures SumBuckets(MonthlyData(rows)).papa == DatedAmount(rows, {Some(Papa)})
    ensures SumBuckets(MonthlyData(rows)).mama == DatedAmount(rows, {Some(Mama)})
    ensures SumBuckets(MonthlyData(rows)).shared == DatedAmount(rows, SharedTags)
  {
    SortKeepsTotal(ByKeyAscending, GroupRows(rows, ByMonth));
    GroupRowsTotal(rows, ByMonth);
    KeyedByMonthAmounts(rows);
  }

  /** After loading, the newest month is selected when there is one;
      otherwise the selection is left as it was. */
  function DefaultSelectedMonth(monthly: seq<Bucket>, current: Option<string>): (r: Option<string>)
    ensures |monthly| == 0 ==> r == current
    ensures |monthly| > 0 ==> r.Some? && r.value in Keys(monthly)
    ensures |monthly| > 0 ==> r == Some(monthly[|monthly| - 1].key)
  {
    if |monthly| > 0 then
      KeysIndex(monthly, monthly[|monthly| - 1].key);
      Some(monthly[|monthly| - 1].key)
    else current
  }

  /** On the monthly series the default selection is the latest month. */
  lemma DefaultIsLatestMonth(rows: seq<AggRow>, current: Option<string>)
    requires RowKeys(rows, ByMonth) != {}
    ensures DefaultSelectedMonth(MonthlyData(rows), current).Some?
    ensures forall k :: k in RowKeys(rows, ByMonth) ==>
              k == DefaultSelectedMonth(MonthlyData(rows), current).value
              || Less(k, DefaultSelectedMonth(MonthlyData(rows), current).value)
  {
    var monthly := MonthlyData(rows);
    assert |monthly| > 0;
    var n := |monthly| - 1;
    forall k | k in RowKeys(rows, ByMonth) ensures k == monthly[n].key || Less(k, monthly[n].key) {
      KeysIndex(monthly, k);
    }
  }

  /** `monthlyData.find((m) => m.ym === selectedYm) ?? null`. */
  function SelectedMonthData(monthly: seq<Bucket>, selected: Option<string>): (r: Option<Bucket>)
    ensures r.Some? ==> selected.Some? && r.value in monthly && r.value.key == selected.value
    ensures r.None? <==> selected.None? || selected.value !in Keys(monthly)
  {
    if selected.None? || |monthly| == 0 then None
    else if monthly[0].key == selected.value then Some(monthly[0])
    else SelectedMonthData(monthly[1..], selected)
  }

  /** The entry found for a month holds what the map holds under it. */
  lemma {:induction false} SelectedAgreesWithLookup(monthly: seq<Bucket>, ym: string)
    ensures SelectedMonthData(monthly, Some(ym)).Some? ==>
              SelectedMonthData(monthly, Some(ym)).value.sums == Lookup(monthly, ym)
  {
    if |monthly| > 0 && monthly[0].key != ym {
      SelectedAgreesWithLookup(monthly[1..], ym);
    }
  }

  /** The summary line of a selected month shows the sum over exactly that
      month's rows; a month without rows shows nothing. */
  lemma SelectedMonthSummary(rows: seq<AggRow>, ym: string)
    ensures SelectedMonthData(MonthlyData(rows), Some(ym)).Some? <==> ym in RowKeys(rows, ByMonth)
    ensures SelectedMonthData(MonthlyData(rows), Some(ym)).Some? ==>
              SelectedMonthData(MonthlyData(rows), Some(ym)).value.sums == SumWhere(rows, ByMonth, ym)
  {
    SelectedAgreesWithLookup(MonthlyData(rows), ym);
  }

  /** `categoryData`: nothing while no month is selected (null or the empty
      string); otherwise the selected month's rows grouped by category
      name, largest total first, each category once with the sum over
      exactly its rows. */
  function CategoryData(rows: seq<AggRow>, selected: Option<string>): (r: seq<Bucket>)
    ensures selected.None? || selected.value == [] ==> r == []
    ensures Sorted(ByTotalDescending, r)
    ensures DistinctKeys(r)
    ensures AllBalanced(r)
    ensures selected.Some? && selected.value != [] ==>
              Keys(r) == RowKeys(rows, ByCategoryIn(selected.value))
              && forall x :: Lookup(r, x) == SumWhere(rows, ByCategoryIn(selected.value), x)
  {
    if selected.None? || selected.value == [] then []
    else
      var g := ByCategoryIn(selected.value);
      var grouped := GroupRows(rows, g);
      SortKeepsMap(ByTotalDescending, grouped);
      SortKeepsBalanced(ByTotalDescending, grouped);
      GroupRowsKeys(rows, g);
      assert forall x :: Lookup(grouped, x) == SumWhere(rows, g, x) by {
        forall x ensures Lookup(grouped, x) == SumWhere(rows, g, x) {
          GroupRowsLookup(rows, g, x);
        }
      }
      Sort(ByTotalDescending, grouped)
  }

  /** Categories with equal totals stay in the order they were first seen. */
  lemma CategoryTiesKeepFirstSeenOrder(rows: seq<AggRow>, ym: string, v: int)
    requires ym != []
    ensures WithTotal(CategoryData(rows, Some(ym)), v) == WithTotal(GroupRows(rows, ByCategoryIn(ym)), v)
  {
    SortStable(GroupRows(rows, ByCategoryIn(ym)), v);
  }

  /** A row is filed under some category of `ym` exactly when it belongs
      to month `ym`, so the categories of a month add up to the month. */
  lemma {:induction false} CategoriesCoverMonth(rows: seq<AggRow>, ym: string)
    ensures forall row :: KeyOf(ByCategoryIn(ym), row).Some? <==> KeyOf(ByMonth, row) == Some(ym)
    ensures SumKeyed(rows, ByCategoryIn(ym)) == SumWhere(rows, ByMonth, ym)
  {
    if |rows| > 0 {
      var init, last := rows[..|rows| - 1], rows[|rows| - 1];
      CategoriesCoverMonth(init, ym);
      assert (if KeyOf(ByCategoryIn(ym), last).Some? then Contribution(last) else Zero)
             == FiledUnder(ByMonth, last, ym);
    }
  }

  /** The category breakdown of a month adds up to that month's entry in
      the monthly series. */
  lemma CategoryTotalsMatchMonth(rows: seq<AggRow>, ym: string)
    requires ym != []
    ensures SumBuckets(CategoryData(rows, Some(ym))) == Lookup(MonthlyData(rows), ym)
  {
    SortKeepsTotal(ByTotalDescending, GroupRows(rows, ByCategoryIn(ym)));
    GroupRowsTotal(rows, ByCategoryIn(ym));
    CategoriesCoverMonth(rows, ym);
  }

  /** Rows of other months, and rows without a statement, do not change
      the breakdown of the selected month. */
  lemma OtherMonthsIgnored(rows: seq<AggRow>, row: AggRow, ym: string)
    requires StatementKey(row) != Some(ym)
    ensures CategoryData(rows + [row], Some(ym)) == CategoryData(rows, Some(ym))
  {
    DropSnoc(rows, row);
  }

  /** What a row of month `k` files under `x`. */
  lemma FiledInMonth(row: AggRow, k: string, x: string)
    requires StatementKey(row) == Some(k)
    ensures FiledUnder(ByMonth, row, x) == if x == k then Contribution(row) else Zero
  {
  }

  /** The totals under `x` of three rows, one row at a time. */
  lemma SumOfThree(r0: AggRow, r1: AggRow, r2: AggRow, g: Grouping, x: string)
    ensures SumWhere([r0] + [r1] + [r2], g, x)
            == Zero.Plus(FiledUnder(g, r0, x)).Plus(FiledUnder(g, r1, x)).Plus(FiledUnder(g, r2, x))
  {
    SumWhereSnoc([], r0, g, x);
    assert [] + [r0] == [r0];
    SumWhereSnoc([r0], r1, g, x);
    SumWhereSnoc([r0] + [r1], r2, g, x);
  }

  /** The three example rows' contributions under `x`, added up. */
  lemma ExampleContributions(r0: AggRow, r1: AggRow, r2: AggRow, k: string, x: string)
    requires StatementKey(r0) == Some(k) && StatementKey(r1) == Some(k) && StatementKey(r2) == Some(k)
    requires r0.amount == Some(1000) && r0.userTag == Some(Papa)
    requires r1.amount == Some(2000) && r1.userTag == Some(Mama)
    requires r2.amount == Some(500) && r2.userTag == Some(Shared)
    ensures Zero.Plus(FiledUnder(ByMonth, r0, x)).Plus(FiledUnder(ByMonth, r1, x)).Plus(FiledUnder(ByMonth, r2, x))
            == if x == k then Totals(3500, 1000, 2000, 500) else Zero
  {
    var c0, c1, c2 := Totals(1000, 1000, 0, 0), Totals(2000, 0, 2000, 0), Totals(500, 0, 0, 500);
    assert FiledUnder(ByMonth, r0, x) == if x == k then c0 else Zero by {
      FiledInMonth(r0, k, x);
    }
    assert FiledUnder(ByMonth, r1, x) == if x == k then c1 else Zero by {
      FiledInMonth(r1, k, x);
    }
    assert FiledUnder(ByMonth, r2, x) == if x == k then c2 else Zero by {
      FiledInMonth(r2, k, x);
    }
    if x == k {
      AddThree();
    } else {
      assert Zero.Plus(Zero).Plus(Zero).Plus(Zero) == Zero;
    }
  }

  /** The example's arithmetic: papa 1000, mama 2000 and shared 500. */
  lemma AddThree()
    ensures Zero.Plus(Totals(1000, 1000, 0, 0)).Plus(Totals(2000, 0, 2000, 0)).Plus(Totals(500, 0, 0, 500))
            == Totals(3500, 1000, 2000, 500)
  {
  }

  lemma ExampleSums(r0: AggRow, r1: AggRow, r2: AggRow, k: string, x: string)
    requires StatementKey(r0) == Some(k) && StatementKey(r1) == Some(k) && StatementKey(r2) == Some(k)
    requires r0.amount == Some(1000) && r0.userTag == Some(Papa)
    requires r1.amount == Some(2000) && r1.userTag == Some(Mama)
    requires r2.amount == Some(500) && r2.userTag == Some(Shared)
    ensures SumWhere([r0] + [r1] + [r2], ByMonth, x) == if x == k then Totals(3500, 1000, 2000, 500) else Zero
  {
    SumOfThree(r0, r1, r2, ByMonth, x);
    ExampleContributions(r0, r1, r2, k, x);
  }

  lemma ExampleKeys(r0: AggRow, r1: AggRow, r2: AggRow, k: string)
    requires StatementKey(r0) == Some(k) && StatementKey(r1) == Some(k) && StatementKey(r2) == Some(k)
    ensures RowKeys([r0] + [r1] + [r2], ByMonth) == {k}
  {
    var rows := [r0] + [r1] + [r2];
    ThreeMembers(r0, r1, r2);
    assert RowKeys(rows, ByMonth) <= {k};
    assert k in RowKeys(rows, ByMonth) by {
      assert r0 in rows && KeyOf(ByMonth, r0) == Some(k);
    }
  }

  /** The per-month totals of the three example rows, for every key. */
  lemma ExampleLookups(r0: AggRow, r1: AggRow, r2: AggRow, k: string)
    requires StatementKey(r0) == Some(k) && StatementKey(r1) == Some(k) && StatementKey(r2) == Some(k)
    requires r0.amount == Some(1000) && r0.userTag == Some(Papa)
    requires r1.amount == Some(2000) && r1.userTag == Some(Mama)
    requires r2.amount == Some(500) && r2.userTag == Some(Shared)
    ensures forall x :: Lookup(MonthlyData([r0] + [r1] + [r2]), x)
                        == Lookup([Bucket(k, Totals(3500, 1000, 2000, 500))], x)
  {
    forall x ensures Lookup(MonthlyData([r0] + [r1] + [r2]), x)
                     == Lookup([Bucket(k, Totals(3500, 1000, 2000, 500))], x) {
      ExampleSums(r0, r1, r2, k, x);
    }
  }

  /** Three rows of one statement month, tagged papa, mama and shared with
      1000, 2000 and 500 yen, give a single month of 3500 yen split 1000 /
      2000 / 500. */
  lemma ThreeTagsOneMonth(r0: AggRow, r1: AggRow, r2: AggRow, k: string)
    requires StatementKey(r0) == Some(k) && StatementKey(r1) == Some(k) && StatementKey(r2) == Some(k)
    requires r0.amount == Some(1000) && r0.userTag == Some(Papa)
    requires r1.amount == Some(2000) && r1.userTag == Some(Mama)
    requires r2.amount == Some(500) && r2.userTag == Some(Shared)
    ensures MonthlyData([r0] + [r1] + [r2]) == [Bucket(k, Totals(3500, 1000, 2000, 500))]
  {
    var expected := [Bucket(k, Totals(3500, 1000, 2000, 500))];
    ExampleKeys(r0, r1, r2, k);
    ExampleLookups(r0, r1, r2, k);
    assert Keys(expected) == {k} by {
      assert expected[1..] == [];
    }
    AscendingUnique(MonthlyData([r0] + [r1] + [r2]), expected);
  }
}
