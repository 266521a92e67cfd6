/** The totals view: for every friend, what they paid minus an equal share of every expense
    they take part in, whatever the expense's split type, listed from the largest amount
    down. */
module Totals {
  import opened Lists
  import opened Types
  import Ledger

  /** The map after `friends.forEach(f => { balancesMap[f.id] = 0; })`. */
  function Zeroes(friends: seq<Friend>): (m: map<string, real>)
  {
    if friends == [] then map[] else Zeroes(friends[..|friends| - 1])[friends[|friends| - 1].id := 0.0]
  }

  /** `e.amount / e.splitBetween.length`, the equal share; it is only ever taken while
      walking the participants, so an expense without any is charged nothing. */
  function PerPerson(e: Expense): real
  {
    if |e.splitBetween| == 0 then 0.0 else e.amount / |e.splitBetween| as real
  }

  /** The map after the payer of `e` is credited and its first `n` participants are debited
      an equal share of it. */
  function Tallied(m: map<string, real>, e: Expense, n: nat): map<string, real>
    requires n <= |e.splitBetween|
  {
    if n == 0 then m[e.paidById := Get(m, e.paidById) + e.amount]
    else
      var before := Tallied(m, e, n - 1);
      var id := e.splitBetween[n - 1].friendId;
      before[id := Get(before, id) - PerPerson(e)]
  }

  /** The map after the expenses, taken in order. */
  function TallyAll(m: map<string, real>, es: seq<Expense>): map<string, real>
  {
    if es == [] then m
    else
      var e := es[|es| - 1];
      Tallied(TallyAll(m, es[..|es| - 1]), e, |e.splitBetween|)
  }

  /** The rows of the view, in friend order, before sorting. */
  function Rows(friends: seq<Friend>, m: map<string, real>): (r: seq<Balance>)
    ensures |r| == |friends|
    ensures forall i | 0 <= i < |r| ::
      r[i] == Balance(friends[i].id, friends[i].name, Get(m, friends[i].id))
  {
    seq(|friends|, i requires 0 <= i < |friends| =>
      Balance(friends[i].id, friends[i].name, Get(m, friends[i].id)))
  }

  // ---------------------------------------------------------------------------
  // Sorting: `.sort((a, b) => b.amount - a.amount)`, largest amount first

  ghost predicate Descending(s: seq<Balance>)
  {
    forall i, j | 0 <= i < j < |s| :: s[i].amount >= s[j].amount
  }

  /** `x` placed after the last row of the sorted `s` whose amount is at least its own. */
  function Insert(s: seq<Balance>, x: Balance): (r: seq<Balance>)
    requires Descending(s)
    ensures Descending(r)
    ensures forall y | y in r :: y in s || y == x
  {
    if s == [] then [x]
    else if s[|s| - 1].amount >= x.amount then s + [x]
    else
      var front := s[..|s| - 1];
      var r := Insert(front, x);
      assert forall y | y in front :: y.amount >= s[|s| - 1].amount;
      r + [s[|s| - 1]]
  }

  /** Inserting adds exactly the one row. */
  lemma {:induction false} InsertPermutes(s: seq<Balance>, x: Balance)
    requires Descending(s)
    ensures multiset(Insert(s, x)) == multiset(s) + multiset{x}
  {
    if s != [] && s[|s| - 1].amount < x.amount {
      InsertPermutes(s[..|s| - 1], x);
      MultisetSnoc(s);
    }
  }

  /** The rows sorted by amount, largest first; rows with equal amounts keep their order. */
  function SortByAmount(s: seq<Balance>): (r: seq<Balance>)
    ensures Descending(r)
  {
    if s == [] then [] else Insert(SortByAmount(s[..|s| - 1]), s[|s| - 1])
  }

  /** Sorting rearranges the rows: nothing is lost, duplicated or invented. */
  lemma {:induction false} SortPermutes(s: seq<Balance>)
    ensures multiset(SortByAmount(s)) == multiset(s)
  {
    if s != [] {
      var front, last := s[..|s| - 1], s[|s| - 1];
      SortPermutes(front);
      SortStep(s);
      InsertPermutes(SortByAmount(front), last);
      MultisetSnoc(s);
    }
  }

  lemma SortStep(s: seq<Balance>)
    requires s != []
    ensures SortByAmount(s) == Insert(SortByAmount(s[..|s| - 1]), s[|s| - 1])
  {
  }

  lemma MultisetSnoc(s: seq<Balance>)
    requires s != []
    ensures multiset(s) == multiset(s[..|s| - 1]) + multiset{s[|s| - 1]}
  {
    assert s == s[..|s| - 1] + [s[|s| - 1]];
  }

  // ---------------------------------------------------------------------------
  // The view

  /** `totalBalance`. */
  method TotalBalance(friends: seq<Friend>, expenses: seq<Expense>) returns (r: seq<Balance>)
    ensures r == SortByAmount(Rows(friends, TallyAll(Zeroes(friends), expenses)))
  {
    var balancesMap: map<string, real> := map[];
    for i := 0 to |friends|
      invariant balancesMap == Zeroes(friends[..i])
    {
      assert friends[..i + 1][..i] == friends[..i];
      balancesMap := balancesMap[friends[i].id := 0.0];
    }
    assert friends[..|friends|] == friends;
    for i := 0 to |expenses|
      invariant balancesMap == TallyAll(Zeroes(friends), expenses[..i])
    {
      var e := expenses[i];
      assert expenses[..i + 1][..i] == expenses[..i];
      balancesMap := balancesMap[e.paidById := Get(balancesMap, e.paidById) + e.amount];
      ghost var start := TallyAll(Zeroes(friends), expenses[..i]);
      for j := 0 to |e.splitBetween|
        invariant balancesMap == Tallied(start, e, j)
      {
        var s := e.splitBetween[j];
        balancesMap := balancesMap[s.friendId := Get(balancesMap, s.friendId) - e.amount / |e.splitBetween| as real];
      }
    }
    assert expenses[..|expenses|] == expenses;
    r := SortByAmount(Rows(friends, balancesMap));
  }

  // ---------------------------------------------------------------------------
  // What each amount means

  /** What the split charges `id`: `share` for each time `id` takes part. */
  function Charged(splits: seq<SplitDetail>, id: string, share: real): real
  {
    if splits == [] then 0.0
    else Charged(splits[..|splits| - 1], id, share) + if splits[|splits| - 1].friendId == id then share else 0.0
  }

  /** What one expense adds to `id`: the amount if `id` paid it, minus an equal share for
      each time `id` takes part. */
  function EqualNet(e: Expense, id: string): real
  {
    (if e.paidById == id then e.amount else 0.0)
      - if |e.splitBetween| == 0 then 0.0
        else Charged(e.splitBetween, id, PerPerson(e))
  }

  /** What the expenses add to `id` altogether. */
  function Net(es: seq<Expense>, id: string): real
  {
    if es == [] then 0.0 else Net(es[..|es| - 1], id) + EqualNet(es[|es| - 1], id)
  }

  lemma {:induction false} ZeroesAreZero(friends: seq<Friend>, id: string)
    ensures Get(Zeroes(friends), id) == 0.0
  {
    if friends != [] {
      ZeroesAreZero(friends[..|friends| - 1], id);
    }
  }

  lemma {:induction false} TalliedMeaning(m: map<string, real>, e: Expense, n: nat, id: string)
    requires n <= |e.splitBetween|
    ensures Get(Tallied(m, e, n), id) == Get(m, id) + (if e.paidById == id then e.amount else 0.0)
      - Charged(e.splitBetween[..n], id, PerPerson(e))
  {
    if n > 0 {
      assert e.splitBetween[..n][..n - 1] == e.splitBetween[..n - 1];
      TalliedMeaning(m, e, n - 1, id);
    } else {
      assert e.splitBetween[..0] == [];
    }
  }

  lemma {:induction false} TallyAllMeaning(m: map<string, real>, es: seq<Expense>, id: string)
    ensures Get(TallyAll(m, es), id) == Get(m, id) + Net(es, id)
  {
    if es != [] {
      var e := es[|es| - 1];
      TallyAllMeaning(m, es[..|es| - 1], id);
      TalliedMeaning(TallyAll(m, es[..|es| - 1]), e, |e.splitBetween|, id);
      assert e.splitBetween[..|e.splitBetween|] == e.splitBetween;
    }
  }

  /** The totals view reads neither the split type nor any per-participant amount,
      percentage or share: changing them changes nothing in it. */
  lemma {:induction false} TotalsIgnoreSplitDetails(m: map<string, real>, es: seq<Expense>, es': seq<Expense>)
    requires |es| == |es'|
    requires forall i | 0 <= i < |es| ::
      && es'[i] == es[i].(splitType := es'[i].splitType, splitBetween := es'[i].splitBetween)
      && |es'[i].splitBetween| == |es[i].splitBetween|
      && forall j | 0 <= j < |es[i].splitBetween| ::
           es'[i].splitBetween[j].friendId == es[i].splitBetween[j].friendId
    ensures TallyAll(m, es) == TallyAll(m, es')
  {
    if es != [] {
      var k := |es| - 1;
      TotalsIgnoreSplitDetails(m, es[..k], es'[..k]);
      var before := TallyAll(m, es[..k]);
      SameParticipants(before, es[k], es'[k], |es[k].splitBetween|);
    }
  }

  lemma {:induction false} SameParticipants(m: map<string, real>, e: Expense, e': Expense, n: nat)
    requires e' == e.(splitType := e'.splitType, splitBetween := e'.splitBetween)
    requires |e'.splitBetween| == |e.splitBetween| && n <= |e.splitBetween|
    requires forall j | 0 <= j < |e.splitBetween| :: e'.splitBetween[j].friendId == e.splitBetween[j].friendId
    ensures Tallied(m, e, n) == Tallied(m, e', n)
  {
    if n > 0 {
      SameParticipants(m, e, e', n - 1);
    }
  }

  /** Each row shows what its friend paid minus an equal share of every expense they take
      part in; the rows are those of the friends, sorted from the largest amount down. */
  lemma TotalsMeaning(friends: seq<Friend>, expenses: seq<Expense>)
    ensures var r := SortByAmount(Rows(friends, TallyAll(Zeroes(friends), expenses)));
      multiset(r) == multiset(seq(|friends|, i requires 0 <= i < |friends| =>
           Balance(friends[i].id, friends[i].name, Net(expenses, friends[i].id))))
  {
    var m := TallyAll(Zeroes(friends), expenses);
    forall i | 0 <= i < |friends|
      ensures Get(m, friends[i].id) == Net(expenses, friends[i].id)
    {
      TallyAllMeaning(Zeroes(friends), expenses, friends[i].id);
      ZeroesAreZero(friends, friends[i].id);
    }
    assert Rows(friends, m) == seq(|friends|, i requires 0 <= i < |friends| =>
      Balance(friends[i].id, friends[i].name, Net(expenses, friends[i].id)));
    SortPermutes(Rows(friends, m));
  }

  // ---------------------------------------------------------------------------
  // Agreement with the settlement ledger

  /** An expense the ledger divides equally. */
  predicate EqualAmongSome(e: Expense)
  {
    e.splitType == Equally && |e.splitBetween| > 0
  }

  lemma AdjustValue(b: Ledger.Book, ids: set<string>, k: string, delta: real, id: string)
    requires Ledger.Clean(b, ids) && k in ids
    ensures Ledger.ValueOf(Ledger.Adjust(b, k, delta), id) == Ledger.ValueOf(b, id) + if k == id then delta else 0.0
  {
    Ledger.AdjustFacts(b, k, delta);
  }

  lemma {:induction false} DebitsMatch(b: Ledger.Book, ids: set<string>, splits: seq<SplitDetail>, ks: seq<string>,
                                       amounts: seq<real>, share: real, n: nat, id: string)
    requires n <= |splits| == |ks| == |amounts|
    requires forall j | 0 <= j < |splits| :: ks[j] == splits[j].friendId && amounts[j] == share
    requires Ledger.Clean(b, ids) && Ledger.AllIn(ids, ks)
    ensures Ledger.ValueOf(Ledger.Debit(b, ks, amounts, n), id) == Ledger.ValueOf(b, id) - Charged(splits[..n], id, share)
  {
    if n > 0 {
      DebitsMatch(b, ids, splits, ks, amounts, share, n - 1, id);
      Ledger.DebitClean(b, ids, ks, amounts, n - 1);
      DebitValueStep(b, ids, ks, amounts, n, id);
      ChargedStep(splits, n, id, share);
    } else {
      assert splits[..0] == [];
    }
  }

  lemma DebitValueStep(b: Ledger.Book, ids: set<string>, ks: seq<string>, amounts: seq<real>, n: nat, id: string)
    requires 0 < n <= |ks| && n <= |amounts|
    requires Ledger.Clean(Ledger.Debit(b, ks, amounts, n - 1), ids) && ks[n - 1] in ids
    ensures Ledger.ValueOf(Ledger.Debit(b, ks, amounts, n), id)
      == Ledger.ValueOf(Ledger.Debit(b, ks, amounts, n - 1), id) - if ks[n - 1] == id then amounts[n - 1] else 0.0
  {
    assert Ledger.Debit(b, ks, amounts, n) == Ledger.Adjust(Ledger.Debit(b, ks, amounts, n - 1), ks[n - 1], -amounts[n - 1]);
    AdjustValue(Ledger.Debit(b, ks, amounts, n - 1), ids, ks[n - 1], -amounts[n - 1], id);
  }

  lemma ChargedStep(splits: seq<SplitDetail>, n: nat, id: string, share: real)
    requires 0 < n <= |splits|
    ensures Charged(splits[..n], id, share) == Charged(splits[..n - 1], id, share)
      + if splits[n - 1].friendId == id then share else 0.0
  {
    assert splits[..n][..n - 1] == splits[..n - 1];
  }

  lemma {:induction false} LedgerMatches(b: Ledger.Book, ids: set<string>, es: seq<Expense>, id: string)
    requires Ledger.Clean(b, ids)
    requires forall i | 0 <= i < |es| :: EqualAmongSome(es[i]) && Ledger.Known(ids, es[i])
    ensures Ledger.ValueOf(Ledger.ApplyAll(b, es), id) == Ledger.ValueOf(b, id) + Net(es, id)
  {
    if es != [] {
      var e := es[|es| - 1];
      var front := es[..|es| - 1];
      LedgerMatches(b, ids, front, id);
      Ledger.ApplyAllClean(b, ids, front);
      var before := Ledger.ApplyAll(b, front);
      Ledger.AdjustTotal(before, ids, e.paidById, e.amount);
      AdjustValue(before, ids, e.paidById, e.amount, id);
      var ks, amounts := Participants(e.splitBetween), Ledger.Resolve(e);
      Ledger.EqualSplitTotal(e);
      assert Ledger.AllIn(ids, ks);
      DebitsMatch(Ledger.Adjust(before, e.paidById, e.amount), ids, e.splitBetween, ks, amounts, PerPerson(e), |e.splitBetween|, id);
      assert e.splitBetween[..|e.splitBetween|] == e.splitBetween;
    }
  }

  /** When every expense splits equally among at least one participant and references only
      friends, the totals view and the settlement ledger agree on every friend's balance:
      the view's simplification is exact for equal splits. */
  lemma TotalsAgreeWithLedger(friends: seq<Friend>, expenses: seq<Expense>, id: string)
    requires id in Ledger.FriendIds(friends)
    requires forall i | 0 <= i < |expenses| ::
      EqualAmongSome(expenses[i]) && Ledger.Known(Ledger.FriendIds(friends), expenses[i])
    ensures Get(TallyAll(Zeroes(friends), expenses), id) == Ledger.ValueOf(Ledger.Balances(friends, expenses), id)
  {
    var b := Ledger.Start(friends);
    LedgerMatches(b, Ledger.FriendIds(friends), expenses, id);
    TallyAllMeaning(Zeroes(friends), expenses, id);
    ZeroesAreZero(friends, id);
  }
}
