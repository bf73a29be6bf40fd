/** The transactions page: re-tagging one transaction optimistically and
    rolling the list back when the update is refused, the tag filter, and
    the total over the filtered list. */
module Transactions {
  import opened Wrappers
  import opened Ledger
  import opened Seqs

  /** One listed transaction. The amount is declared a number but read
      through `Number(t.amount || 0)`, so a missing amount is kept
      representable. */
  datatype Transaction = Transaction(
    id: string,
    postingDate: string,
    amount: Option<int>,
    description: Option<string>,
    userTag: Tag)

  /** Everything but the tag agrees, position by position. */
  predicate SameRowsButTags(a: seq<Transaction>, b: seq<Transaction>) {
    |a| == |b|
    && forall i :: 0 <= i < |a| ==> a[i].(userTag := b[i].userTag) == b[i]
  }

  /** `current.map((t) => (t.id === id ? { ...t, user_tag: tag } : t))`. */
  function Retag(ts: seq<Transaction>, id: string, tag: Tag): (r: seq<Transaction>)
    ensures SameRowsButTags(ts, r)
    ensures forall i :: 0 <= i < |r| && ts[i].id == id ==> r[i].userTag == tag
    ensures forall i :: 0 <= i < |r| && ts[i].id != id ==> r[i] == ts[i]
  {
    if |ts| == 0 then []
    else [if ts[0].id == id then ts[0].(userTag := tag) else ts[0]] + Retag(ts[1..], id, tag)
  }

  /** Re-tagging to the same tag again changes nothing more. */
  lemma RetagIdempotent(ts: seq<Transaction>, id: string, tag: Tag)
    ensures Retag(Retag(ts, id, tag), id, tag) == Retag(ts, id, tag)
  {
    var once := Retag(ts, id, tag);
    var twice := Retag(once, id, tag);
    assert forall i :: 0 <= i < |twice| ==> twice[i] == once[i];
  }

  /** Of two tag changes to the same transaction, the later one wins. */
  lemma RetagLastWins(ts: seq<Transaction>, id: string, first: Tag, second: Tag)
    ensures Retag(Retag(ts, id, first), id, second) == Retag(ts, id, second)
  {
    var a := Retag(Retag(ts, id, first), id, second);
    var b := Retag(ts, id, second);
    assert forall i :: 0 <= i < |a| ==> a[i] == b[i];
  }

  /** Tag changes to different transactions commute. */
  lemma RetagCommutes(ts: seq<Transaction>, id1: string, tag1: Tag, id2: string, tag2: Tag)
    requires id1 != id2
    ensures Retag(Retag(ts, id1, tag1), id2, tag2) == Retag(Retag(ts, id2, tag2), id1, tag1)
  {
    var a := Retag(Retag(ts, id1, tag1), id2, tag2);
    var b := Retag(Retag(ts, id2, tag2), id1, tag1);
    assert forall i :: 0 <= i < |a| ==> a[i] == b[i];
  }

  /** A tag change whose id matches no transaction changes nothing. */
  lemma RetagAbsent(ts: seq<Transaction>, id: string, tag: Tag)
    requires forall i :: 0 <= i < |ts| ==> ts[i].id != id
    ensures Retag(ts, id, tag) == ts
  {
  }

  /** What the page holds: the listed transactions and the error shown. */
  datatype PageState = PageState(transactions: seq<Transaction>, error: Option<string>)

  /** A tag change awaiting the remote update: what it sets, and the list
      as it was when it started (`previous`). */
  datatype PendingTagChange = PendingTagChange(id: string, tag: Tag, previous: seq<Transaction>)

  /** The first half of `handleTagChange`: remember the list, then show the
      new tag at once. */
  function BeginTagChange(s: PageState, id: string, tag: Tag): (r: (PageState, PendingTagChange))
    ensures r.0.transactions == Retag(s.transactions, id, tag)
    ensures r.0.error == s.error
    ensures r.1.previous == s.transactions && r.1.id == id && r.1.tag == tag
  {
    (s.(transactions := Retag(s.transactions, id, tag)), PendingTagChange(id, tag, s.transactions))
  }

  /** The second half: on a refused update (`outcome` holds its message)
      show the error and put the remembered list back; on success keep
      the state as it is. */
  function CompleteTagChange(s: PageState, p: PendingTagChange, outcome: Option<string>): (r: PageState)
    ensures outcome.None? ==> r == s
    ensures outcome.Some? ==> r.transactions == p.previous && r.error == outcome
  {
    match outcome
    case None => s
    case Some(message) => PageState(p.previous, Some(message))
  }

  /** `handleTagChange` when nothing else happens while the update is in
      flight; `outcome` is the remote result, `None` for success. */
  function HandleTagChange(s: PageState, id: string, tag: Tag, outcome: Option<string>): (r: PageState)
    ensures outcome.None? ==> r.transactions == Retag(s.transactions, id, tag) && r.error == s.error
    ensures outcome.Some? ==> r.transactions == s.transactions && r.error == outcome
  {
    var (shown, pending) := BeginTagChange(s, id, tag);
    CompleteTagChange(shown, pending, outcome)
  }

  /** A refused change leaves the page exactly as before apart from the
      error it shows. */
  lemma RefusedChangeRestores(s: PageState, id: string, tag: Tag, message: string)
    ensures HandleTagChange(s, id, tag, Some(message)) == s.(error := Some(message))
  {
  }

  /** The filter above the list. */
  datatype TagFilter = All | Only(tag: Tag)

  /** `tagFilter === "all" ? transactions : transactions.filter(...)`. */
  function Filtered(ts: seq<Transaction>, f: TagFilter): (r: seq<Transaction>)
    ensures f.All? ==> r == ts
    ensures |r| <= |ts|
    ensures f.Only? ==> forall t :: t in r <==> t in ts && t.userTag == f.tag
  {
    match f
    case All => ts
    case Only(tag) =>
      if |ts| == 0 then []
      else if ts[0].userTag == tag then [ts[0]] + Filtered(ts[1..], f)
      else Filtered(ts[1..], f)
  }

  /** The filter keeps the list order: filtering a concatenation filters
      each part. */
  lemma {:induction false} FilteredAppend(a: seq<Transaction>, b: seq<Transaction>, f: TagFilter)
    ensures Filtered(a + b, f) == Filtered(a, f) + Filtered(b, f)
  {
    if f.Only? && |a| > 0 {
      AppendParts(a, b);
      FilteredAppend(a[1..], b, f);
      if a[0].userTag == f.tag {
        assert Filtered(a + b, f) == [a[0]] + (Filtered(a[1..], f) + Filtered(b, f));
      } else {
        assert Filtered(a + b, f) == Filtered(a[1..], f) + Filtered(b, f);
      }
    } else if f.Only? {
      assert a + b == b;
    }
  }

  /** `Number(t.amount || 0)`. */
  function AmountValue(t: Transaction): int {
    t.amount.GetOr(0)
  }

  /** Reference definition: the amounts of a list added up. */
  function AmountSum(ts: seq<Transaction>): int {
    if |ts| == 0 then 0 else AmountValue(ts[0]) + AmountSum(ts[1..])
  }

  lemma {:induction false} AmountSumSnoc(ts: seq<Transaction>, t: Transaction)
    ensures AmountSum(ts + [t]) == AmountSum(ts) + AmountValue(t)
  {
    if |ts| > 0 {
      assert (ts + [t])[1..] == ts[1..] + [t];
      AmountSumSnoc(ts[1..], t);
    }
  }

  /** `filteredTransactions.reduce((sum, t) => sum + Number(t.amount || 0), 0)`. */
  method FilteredTotal(ts: seq<Transaction>, f: TagFilter) returns (total: int)
    ensures total == AmountSum(Filtered(ts, f))
  {
    var shown := Filtered(ts, f);
    total := 0;
    var i := 0;
    while i < |shown|
      invariant 0 <= i <= |shown|
      invariant total == AmountSum(shown[..i])
    {
      AmountSumSnoc(shown[..i], shown[i]);
      assert shown[..i + 1] == shown[..i] + [shown[i]];
      total := total + AmountValue(shown[i]);
      i := i + 1;
    }
    assert shown[..i] == shown;
  }

  /** The three tag filters split the list: their counts and totals add up
      to those of the unfiltered list. */
  lemma {:induction false} FiltersPartition(ts: seq<Transaction>)
    ensures |Filtered(ts, Only(Papa))| + |Filtered(ts, Only(Mama))| + |Filtered(ts, Only(Shared))|
            == |Filtered(ts, All)|
    ensures AmountSum(Filtered(ts, Only(Papa))) + AmountSum(Filtered(ts, Only(Mama)))
            + AmountSum(Filtered(ts, Only(Shared))) == AmountSum(Filtered(ts, All))
  {
    if |ts| > 0 {
      FiltersPartition(ts[1..]);
      var tag := ts[0].userTag;
      var kept := Filtered(ts[1..], Only(tag));
      ConsParts(ts[0], kept);
    }
  }

  /** Re-tagging moves a transaction between filters but never changes the
      unfiltered total. */
  lemma {:induction false} RetagKeepsTotal(ts: seq<Transaction>, id: string, tag: Tag)
    ensures AmountSum(Retag(ts, id, tag)) == AmountSum(ts)
  {
    if |ts| > 0 {
      RetagKeepsTotal(ts[1..], id, tag);
      assert Retag(ts, id, tag)[1..] == Retag(ts[1..], id, tag);
    }
  }
}
