/** The net-balance half of the balance summary (components/BalanceSummary.tsx, lines 13-48):
    every friend starts at 0; each expense credits its payer the full amount and debits its
    participants under the expense's split rule.

    The balances dictionary is a `Book`: its keys in insertion order (the order in which
    `Object.entries` lists them) and the value of each key. A key that no friend has is
    created by `+=` or `-=` on `undefined`, which gives NaN in the source; here that value is
    `Poisoned`, and it stays poisoned whatever is added to it later. */
module Ledger {
  import opened Wrappers
  import opened Lists
  import opened Types

  /** A value in the balances dictionary. */
  datatype Entry = Num(value: real) | Poisoned

  /** The balances dictionary. */
  datatype Book = Book(order: seq<string>, bal: map<string, Entry>)

  ghost predicate Distinct(s: seq<string>)
  {
    forall i, j | 0 <= i < j < |s| :: s[i] != s[j]
  }

  /** The key order lists every key of the dictionary exactly once. */
  ghost predicate Valid(b: Book)
  {
    Distinct(b.order) && forall k :: k in b.bal <==> k in b.order
  }

  /** The ids of the friends. */
  function FriendIds(friends: seq<Friend>): set<string>
  {
    if friends == [] then {} else FriendIds(friends[..|friends| - 1]) + {friends[|friends| - 1].id}
  }

  /** The ids of the friends are exactly the `id` fields of the list's elements. */
  lemma {:induction false} FriendIdsMeaning(friends: seq<Friend>)
    ensures forall k :: k in FriendIds(friends) <==> exists i | 0 <= i < |friends| :: friends[i].id == k
  {
    if friends != [] {
      var front := friends[..|friends| - 1];
      FriendIdsMeaning(front);
      assert forall i | 0 <= i < |front| :: front[i] == friends[i];
    }
  }

  /** `balances[id] = 0`: an existing key keeps its place in the order. */
  function SetZero(b: Book, id: string): (r: Book)
    ensures b.order <= r.order && r.bal.Keys == b.bal.Keys + {id}
    ensures r.bal[id] == Num(0.0) && forall k | k in b.bal && k != id :: r.bal[k] == b.bal[k]
    ensures Valid(b) ==> Valid(r)
  {
    if id in b.bal then Book(b.order, b.bal[id := Num(0.0)])
    else Book(b.order + [id], b.bal[id := Num(0.0)])
  }

  /** `balances[id] += delta`: a number grows by `delta`; a key not yet in the dictionary is
      appended to the key order and poisoned; a poisoned value stays poisoned. */
  function Adjust(b: Book, id: string, delta: real): (r: Book)
  {
    if id !in b.bal then Book(b.order + [id], b.bal[id := Poisoned])
    else match b.bal[id]
      case Num(v) => Book(b.order, b.bal[id := Num(v + delta)])
      case Poisoned => b
  }

  /** What `Adjust` does to the dictionary: only `id` changes, a number by exactly `delta`,
      a missing key is appended to the key order poisoned, and nothing is ever removed. */
  lemma AdjustFacts(b: Book, id: string, delta: real)
    ensures var r := Adjust(b, id, delta);
      && b.order <= r.order && r.bal.Keys == b.bal.Keys + {id}
      && (forall k | k in b.bal && k != id :: r.bal[k] == b.bal[k])
      && (id in b.bal && b.bal[id].Num? ==> r.bal[id] == Num(b.bal[id].value + delta))
      && (id !in b.bal || b.bal[id].Poisoned? ==> r.bal[id] == Poisoned)
      && (Valid(b) ==> Valid(r))
  {
  }

  /** The dictionary after `friends.forEach(f => { balances[f.id] = 0; })`. */
  function Start(friends: seq<Friend>): (r: Book)
    ensures Valid(r)
    ensures r.bal.Keys == FriendIds(friends)
    ensures forall k | k in r.bal :: r.bal[k] == Num(0.0)
  {
    if friends == [] then Book([], map[])
    else SetZero(Start(friends[..|friends| - 1]), friends[|friends| - 1].id)
  }

  /** The `shares` of each participant, a missing value counting as 0. */
  function SharesOf(splits: seq<SplitDetail>): (r: seq<real>)
    ensures |r| == |splits|
    ensures forall i | 0 <= i < |splits| :: r[i] == splits[i].shares.GetOr(0.0)
  {
    seq(|splits|, i requires 0 <= i < |splits| => splits[i].shares.GetOr(0.0))
  }

  /** `splitBetween.reduce((sum, s) => sum + (s.shares || 0), 0)`. */
  function TotalShares(splits: seq<SplitDetail>): real
  {
    Sum(SharesOf(splits))
  }

  /** Whether the expense debits anyone: the source returns before the split rule when
      there are no participants, and a shares split whose total is not positive skips its
      loop. */
  predicate DebitsAnyone(e: Expense)
  {
    |e.splitBetween| > 0 && (e.splitType == ByShares ==> TotalShares(e.splitBetween) > 0.0)
  }

  /** What one participant owes for the expense under its split rule. */
  function Share(e: Expense, d: SplitDetail): real
    requires DebitsAnyone(e)
  {
    match e.splitType
    case Equally => e.amount / (|e.splitBetween| as real)
    case ByAmount => d.amount.GetOr(0.0)
    case ByPercentage => e.amount * (d.percentage.GetOr(0.0) / 100.0)
    case ByShares => e.amount * (d.shares.GetOr(0.0) / TotalShares(e.splitBetween))
  }

  /** The amounts debited for the expense, one per entry of `splitBetween` in order, or
      none at all when the expense debits nobody. */
  function Resolve(e: Expense): (r: seq<real>)
    ensures |r| == if DebitsAnyone(e) then |e.splitBetween| else 0
  {
    if DebitsAnyone(e) then
      seq(|e.splitBetween|, i requires 0 <= i < |e.splitBetween| => Share(e, e.splitBetween[i]))
    else []
  }

  /** The dictionary after debiting `ids[j]` by `amounts[j]` for each of the first `n`
      positions, in order. */
  function Debit(b: Book, ids: seq<string>, amounts: seq<real>, n: nat): Book
    requires n <= |ids| && n <= |amounts|
  {
    if n == 0 then b
    else Adjust(Debit(b, ids, amounts, n - 1), ids[n - 1], -amounts[n - 1])
  }

  /** The dictionary after one expense: the payer is credited even when nobody is debited. */
  function ApplyExpense(b: Book, e: Expense): Book
  {
    var credited := Adjust(b, e.paidById, e.amount);
    if DebitsAnyone(e) then Debit(credited, Participants(e.splitBetween), Resolve(e), |e.splitBetween|) else credited
  }

  /** The dictionary after the expenses, taken in order. */
  function ApplyAll(b: Book, es: seq<Expense>): Book
  {
    if es == [] then b else ApplyExpense(ApplyAll(b, es[..|es| - 1]), es[|es| - 1])
  }

  /** The balances of the friends after all the expenses. */
  function Balances(friends: seq<Friend>, expenses: seq<Expense>): Book
  {
    ApplyAll(Start(friends), expenses)
  }

  /** Debiting only appends to the key order and adds keys: one for every id debited so
      far. */
  lemma {:induction false} DebitFacts(b: Book, ids: seq<string>, amounts: seq<real>, n: nat)
    requires n <= |ids| && n <= |amounts|
    ensures b.order <= Debit(b, ids, amounts, n).order
    ensures b.bal.Keys <= Debit(b, ids, amounts, n).bal.Keys
    ensures Valid(b) ==> Valid(Debit(b, ids, amounts, n))
    ensures forall j | 0 <= j < n :: ids[j] in Debit(b, ids, amounts, n).bal
  {
    if n > 0 {
      DebitFacts(b, ids, amounts, n - 1);
      AdjustFacts(Debit(b, ids, amounts, n - 1), ids[n - 1], -amounts[n - 1]);
    }
  }

  /** Recording an expense only appends to the key order; afterwards the payer, and every
      participant of an expense that debits anyone, has a key. */
  lemma ApplyExpenseFacts(b: Book, e: Expense)
    ensures b.order <= ApplyExpense(b, e).order
    ensures b.bal.Keys + {e.paidById} <= ApplyExpense(b, e).bal.Keys
    ensures Valid(b) ==> Valid(ApplyExpense(b, e))
    ensures DebitsAnyone(e) ==> forall j | 0 <= j < |e.splitBetween| :: e.splitBetween[j].friendId in ApplyExpense(b, e).bal
  {
    AdjustFacts(b, e.paidById, e.amount);
    if DebitsAnyone(e) {
      DebitFacts(Adjust(b, e.paidById, e.amount), Participants(e.splitBetween), Resolve(e), |e.splitBetween|);
    }
  }

  /** Recording expenses only appends to the key order and only adds keys. */
  lemma {:induction false} ApplyAllFacts(b: Book, es: seq<Expense>)
    ensures b.order <= ApplyAll(b, es).order
    ensures b.bal.Keys <= ApplyAll(b, es).bal.Keys
    ensures Valid(b) ==> Valid(ApplyAll(b, es))
  {
    if es != [] {
      ApplyAllFacts(b, es[..|es| - 1]);
      ApplyExpenseFacts(ApplyAll(b, es[..|es| - 1]), es[|es| - 1]);
    }
  }

  /** After the expenses, every payer has a key, and so does every participant of an
      expense that debits anyone. */
  lemma {:induction false} ApplyAllKeys(b: Book, es: seq<Expense>)
    ensures forall i | 0 <= i < |es| :: es[i].paidById in ApplyAll(b, es).bal
    ensures forall i, j | 0 <= i < |es| && DebitsAnyone(es[i]) && 0 <= j < |es[i].splitBetween| ::
      es[i].splitBetween[j].friendId in ApplyAll(b, es).bal
  {
    if es != [] {
      var front, e := es[..|es| - 1], es[|es| - 1];
      var before, r := ApplyAll(b, front), ApplyAll(b, es);
      assert r == ApplyExpense(before, e);
      ApplyAllKeys(b, front);
      ApplyExpenseFacts(before, e);
      forall i | 0 <= i < |es|
        ensures es[i].paidById in r.bal
      {
        if i < |front| {
          assert es[i] == front[i];
        }
      }
      forall i, j | 0 <= i < |es| && DebitsAnyone(es[i]) && 0 <= j < |es[i].splitBetween|
        ensures es[i].splitBetween[j].friendId in r.bal
      {
        if i < |front| {
          assert es[i] == front[i];
        }
      }
    }
  }

  /** Line 14: every friend's balance set to 0, in friend order. */
  method StartBalances(friends: seq<Friend>) returns (b: Book)
    ensures b == Start(friends)
  {
    b := Book([], map[]);
    for i := 0 to |friends|
      invariant b == Start(friends[..i])
    {
      assert friends[..i + 1][..i] == friends[..i];
      b := SetZero(b, friends[i].id);
    }
    assert friends[..|friends|] == friends;
  }

  /** Lines 17-47, the body of the loop over expenses: credit the payer, then debit the
      participants under the split rule. */
  method RecordExpense(b0: Book, expense: Expense) returns (b: Book)
    ensures b == ApplyExpense(b0, expense)
  {
    b := Adjust(b0, expense.paidById, expense.amount);
    ghost var credited := b;
    var totalParticipants := |expense.splitBetween|;
    if totalParticipants == 0 {
      assert !DebitsAnyone(expense);
      return;
    }
    var totalShares := TotalShares(expense.splitBetween);
    if expense.splitType != ByShares || totalShares > 0.0 {
      for j := 0 to totalParticipants
        invariant b == Debit(credited, Participants(expense.splitBetween), Resolve(expense), j)
      {
        var split := expense.splitBetween[j];
        var owed := Resolve(expense)[j];
        b := Adjust(b, split.friendId, -owed);
      }
    }
  }

  /** Lines 13-48: builds the balances dictionary step by step. */
  method ComputeBalances(friends: seq<Friend>, expenses: seq<Expense>) returns (b: Book)
    ensures b == Balances(friends, expenses)
    ensures Valid(b)
  {
    b := StartBalances(friends);
    for k := 0 to |expenses|
      invariant b == ApplyAll(Start(friends), expenses[..k])
    {
      assert expenses[..k + 1][..k] == expenses[..k];
      b := RecordExpense(b, expenses[k]);
    }
    assert expenses[..|expenses|] == expenses;
    ApplyAllFacts(Start(friends), expenses);
  }

  // ---------------------------------------------------------------------------
  // The split rules

  /** An equal split debits each listed participant `amount / n`, so the debits add up to
      the expense amount; a participant listed twice is debited twice. */
  lemma EqualSplitTotal(e: Expense)
    requires e.splitType == Equally && |e.splitBetween| > 0
    ensures forall i | 0 <= i < |e.splitBetween| :: Resolve(e)[i] == e.amount / (|e.splitBetween| as real)
    ensures Sum(Resolve(e)) == e.amount
  {
    var n := |e.splitBetween| as real;
    SumConstant(Resolve(e), e.amount / n);
    assert n * (e.amount / n) == e.amount;
  }

  /** A split by amounts debits each participant its own amount, a missing one as 0. */
  lemma AmountSplitTotal(e: Expense)
    requires e.splitType == ByAmount && |e.splitBetween| > 0
    ensures forall i | 0 <= i < |e.splitBetween| :: Resolve(e)[i] == e.splitBetween[i].amount.GetOr(0.0)
    ensures Sum(Resolve(e)) == Sum(seq(|e.splitBetween|, i requires 0 <= i < |e.splitBetween| =>
                                         e.splitBetween[i].amount.GetOr(0.0)))
  {
    var amounts := seq(|e.splitBetween|, i requires 0 <= i < |e.splitBetween| => e.splitBetween[i].amount.GetOr(0.0));
    assert Resolve(e) == amounts;
  }

  /** A split by percentages debits `amount * percentage / 100` each (a missing percentage
      as 0), so the debits add up to the amount exactly when the percentages add up to 100. */
  lemma PercentageSplitTotal(e: Expense)
    requires e.splitType == ByPercentage && |e.splitBetween| > 0
    ensures Sum(Resolve(e)) == e.amount * Sum(seq(|e.splitBetween|, i requires 0 <= i < |e.splitBetween| =>
                                                    e.splitBetween[i].percentage.GetOr(0.0))) / 100.0
  {
    var ps := seq(|e.splitBetween|, i requires 0 <= i < |e.splitBetween| => e.splitBetween[i].percentage.GetOr(0.0));
    forall i | 0 <= i < |ps| ensures Resolve(e)[i] == (e.amount / 100.0) * ps[i] {
      assert Resolve(e)[i] == e.amount * (ps[i] / 100.0);
    }
    SumScaled(ps, Resolve(e), e.amount / 100.0);
  }

  /** A split by shares with a positive total debits `amount * shares / total` each, so the
      debits add up to the expense amount exactly. */
  lemma SharesSplitTotal(e: Expense)
    requires e.splitType == ByShares && TotalShares(e.splitBetween) > 0.0
    ensures |Resolve(e)| == |e.splitBetween|
    ensures Sum(Resolve(e)) == e.amount
  {
    var t := TotalShares(e.splitBetween);
    var ss := SharesOf(e.splitBetween);
    forall i | 0 <= i < |ss| ensures Resolve(e)[i] == (e.amount / t) * ss[i] {
      assert Resolve(e)[i] == e.amount * (ss[i] / t);
    }
    SumScaled(ss, Resolve(e), e.amount / t);
    assert (e.amount / t) * t == e.amount;
  }

  /** An expense with no participants, or split by shares with no positive total, debits
      nobody, while its payer is still credited the whole amount; so it leaves the balances
      unbalanced by its amount. */
  lemma UndividedExpenseOnlyCredits(b: Book, e: Expense)
    requires |e.splitBetween| == 0 || (e.splitType == ByShares && TotalShares(e.splitBetween) <= 0.0)
    ensures Resolve(e) == []
    ensures Imbalance([e]) == e.amount
    ensures ApplyExpense(b, e) == Adjust(b, e.paidById, e.amount)
  {
  }

  // ---------------------------------------------------------------------------
  // Friends, key order and orphaned ids

  /** The friends' ids, in roster order. */
  function IdsOf(friends: seq<Friend>): (r: seq<string>)
    ensures |r| == |friends|
    ensures forall i | 0 <= i < |friends| :: r[i] == friends[i].id
  {
    seq(|friends|, i requires 0 <= i < |friends| => friends[i].id)
  }

  /** With distinct friend ids, the key order is the friend order. */
  lemma {:induction false} StartOrder(friends: seq<Friend>)
    requires forall i, j | 0 <= i < j < |friends| :: friends[i].id != friends[j].id
    ensures Start(friends).order == IdsOf(friends)
  {
    if friends != [] {
      var front := DistinctFront(friends);
      StartOrder(front);
      StartAppends(friends);
      IdsOfAppend(friends);
    }
  }

  /** A friend whose id is new appends that id to the key order. */
  lemma StartAppends(friends: seq<Friend>)
    requires friends != []
    requires forall i, j | 0 <= i < j < |friends| :: friends[i].id != friends[j].id
    ensures Start(friends).order == Start(friends[..|friends| - 1]).order + [friends[|friends| - 1].id]
  {
    LastIdIsNew(friends);
  }

  lemma IdsOfAppend(friends: seq<Friend>)
    requires friends != []
    ensures IdsOf(friends) == IdsOf(friends[..|friends| - 1]) + [friends[|friends| - 1].id]
  {
    assert IdsOf(friends) == IdsOf(friends[..|friends| - 1]) + [friends[|friends| - 1].id];
  }

  lemma DistinctFront(friends: seq<Friend>) returns (front: seq<Friend>)
    requires friends != []
    requires forall i, j | 0 <= i < j < |friends| :: friends[i].id != friends[j].id
    ensures front == friends[..|friends| - 1]
    ensures forall i, j | 0 <= i < j < |front| :: front[i].id != front[j].id
  {
    front := friends[..|friends| - 1];
  }

  lemma LastIdIsNew(friends: seq<Friend>)
    requires friends != []
    requires forall i, j | 0 <= i < j < |friends| :: friends[i].id != friends[j].id
    ensures friends[|friends| - 1].id !in Start(friends[..|friends| - 1]).bal
  {
    FriendIdsMeaning(friends[..|friends| - 1]);
  }

  /** The friends' keys come first in the key order, before any orphaned id. */
  lemma FriendsComeFirst(friends: seq<Friend>, expenses: seq<Expense>)
    ensures Start(friends).order <= Balances(friends, expenses).order
  {
    ApplyAllFacts(Start(friends), expenses);
  }

  /** Every friend has a numeric balance, and every other key is poisoned. */
  ghost predicate Tracks(b: Book, friends: seq<Friend>)
  {
    && FriendIds(friends) <= b.bal.Keys
    && forall k | k in b.bal :: b.bal[k].Num? <==> k in FriendIds(friends)
  }

  /** Debiting keeps every friend numeric and every other key poisoned. */
  lemma {:induction false} DebitTracks(b: Book, friends: seq<Friend>, ids: seq<string>, amounts: seq<real>, n: nat)
    requires n <= |ids| && n <= |amounts|
    requires Tracks(b, friends)
    ensures Tracks(Debit(b, ids, amounts, n), friends)
  {
    if n > 0 {
      DebitTracks(b, friends, ids, amounts, n - 1);
      AdjustFacts(Debit(b, ids, amounts, n - 1), ids[n - 1], -amounts[n - 1]);
    }
  }

  lemma {:induction false} ApplyAllTracks(b: Book, friends: seq<Friend>, es: seq<Expense>)
    requires Tracks(b, friends)
    ensures Tracks(ApplyAll(b, es), friends)
  {
    if es != [] {
      var e := es[|es| - 1];
      var before := ApplyAll(b, es[..|es| - 1]);
      ApplyAllTracks(b, friends, es[..|es| - 1]);
      AdjustFacts(before, e.paidById, e.amount);
      if DebitsAnyone(e) {
        DebitTracks(Adjust(before, e.paidById, e.amount), friends, Participants(e.splitBetween), Resolve(e), |e.splitBetween|);
      }
    }
  }

  /** Every friend keeps a numeric balance, whatever the expenses reference. */
  lemma FriendsStayNumeric(friends: seq<Friend>, expenses: seq<Expense>, id: string)
    requires id in FriendIds(friends)
    ensures id in Balances(friends, expenses).bal && Balances(friends, expenses).bal[id].Num?
  {
    ApplyAllTracks(Start(friends), friends, expenses);
  }

  /** A payer that is not a friend gets a poisoned entry (NaN in the source). */
  lemma OrphanPayerPoisoned(friends: seq<Friend>, expenses: seq<Expense>, i: nat)
    requires i < |expenses| && expenses[i].paidById !in FriendIds(friends)
    ensures expenses[i].paidById in Balances(friends, expenses).bal
    ensures Balances(friends, expenses).bal[expenses[i].paidById] == Poisoned
  {
    ApplyAllTracks(Start(friends), friends, expenses);
    ApplyAllKeys(Start(friends), expenses);
  }

  /** A participant that is not a friend, in an expense that debits anyone, gets a poisoned
      entry too. */
  lemma OrphanParticipantPoisoned(friends: seq<Friend>, expenses: seq<Expense>, i: nat, j: nat)
    requires i < |expenses| && DebitsAnyone(expenses[i]) && j < |expenses[i].splitBetween|
    requires expenses[i].splitBetween[j].friendId !in FriendIds(friends)
    ensures expenses[i].splitBetween[j].friendId in Balances(friends, expenses).bal
    ensures Balances(friends, expenses).bal[expenses[i].splitBetween[j].friendId] == Poisoned
  {
    ApplyAllTracks(Start(friends), friends, expenses);
    ApplyAllKeys(Start(friends), expenses);
  }

  // ---------------------------------------------------------------------------
  // Conservation of money

  /** The numeric value of a key, 0 for a missing or poisoned one. */
  function ValueOf(b: Book, k: string): real
  {
    if k in b.bal && b.bal[k].Num? then b.bal[k].value else 0.0
  }

  /** The sum of the values of the given keys. */
  function SumOver(b: Book, keys: seq<string>): real
  {
    if keys == [] then 0.0 else SumOver(b, keys[..|keys| - 1]) + ValueOf(b, keys[|keys| - 1])
  }

  /** The sum of all balances. */
  function Total(b: Book): real
  {
    SumOver(b, b.order)
  }

  lemma {:induction false} SumOverChanged(b: Book, b': Book, keys: seq<string>, id: string, delta: real)
    requires Distinct(keys)
    requires forall k | k != id :: ValueOf(b', k) == ValueOf(b, k)
    requires ValueOf(b', id) == ValueOf(b, id) + delta
    ensures SumOver(b', keys) == SumOver(b, keys) + if id in keys then delta else 0.0
  {
    if keys != [] {
      var front := keys[..|keys| - 1];
      SumOverChanged(b, b', front, id, delta);
      assert id in keys <==> id in front || id == keys[|keys| - 1];
      assert id == keys[|keys| - 1] ==> id !in front;
    }
  }

  /** The dictionary holds exactly the keys `ids`, all with numeric values. */
  ghost predicate Clean(b: Book, ids: set<string>)
  {
    Valid(b) && b.bal.Keys == ids && forall k | k in b.bal :: b.bal[k].Num?
  }

  /** Adjusting a key that is already there keeps the dictionary clean. */
  lemma AdjustClean(b: Book, ids: set<string>, id: string, delta: real)
    requires Clean(b, ids) && id in ids
    ensures Clean(Adjust(b, id, delta), ids)
  {
    AdjustFacts(b, id, delta);
  }

  /** Adjusting a key that is already there keeps the dictionary clean and moves the
      total by exactly the adjustment. */
  lemma AdjustTotal(b: Book, ids: set<string>, id: string, delta: real)
    requires Clean(b, ids) && id in ids
    ensures Clean(Adjust(b, id, delta), ids)
    ensures Total(Adjust(b, id, delta)) == Total(b) + delta
  {
    AdjustFacts(b, id, delta);
    var r := Adjust(b, id, delta);
    assert r.order == b.order;
    SumOverChanged(b, r, b.order, id, delta);
  }

  /** Every id the expense references is in `ids`. */
  ghost predicate Known(ids: set<string>, e: Expense)
  {
    && e.paidById in ids
    && forall j | 0 <= j < |e.splitBetween| :: e.splitBetween[j].friendId in ids
  }

  /** Every id in the list is in `ids`. */
  ghost predicate AllIn(ids: set<string>, ks: seq<string>)
  {
    forall j | 0 <= j < |ks| :: ks[j] in ids
  }

  /** Debiting ids that all have numeric entries keeps the keys and keeps them numeric. */
  lemma {:induction false} DebitClean(b: Book, ids: set<string>, ks: seq<string>, amounts: seq<real>, n: nat)
    requires n <= |ks| && n <= |amounts|
    requires Clean(b, ids) && AllIn(ids, ks)
    ensures Clean(Debit(b, ks, amounts, n), ids)
  {
    if n > 0 {
      DebitClean(b, ids, ks, amounts, n - 1);
      AdjustClean(Debit(b, ks, amounts, n - 1), ids, ks[n - 1], -amounts[n - 1]);
    }
  }

  /** Debiting the first `n` ids takes exactly their amounts out of the total. */
  lemma {:induction false} DebitTotal(b: Book, ids: set<string>, ks: seq<string>, amounts: seq<real>, n: nat)
    requires n <= |ks| && n <= |amounts|
    requires Clean(b, ids) && AllIn(ids, ks)
    ensures Total(Debit(b, ks, amounts, n)) == Total(b) - Sum(amounts[..n])
  {
    if n > 0 {
      DebitTotal(b, ids, ks, amounts, n - 1);
      DebitClean(b, ids, ks, amounts, n - 1);
      DebitStep(b, ids, ks, amounts, n);
      SumPrefixStep(amounts, n);
    } else {
      assert amounts[..n] == [];
    }
  }

  lemma DebitStep(b: Book, ids: set<string>, ks: seq<string>, amounts: seq<real>, n: nat)
    requires 0 < n <= |ks| && n <= |amounts|
    requires Clean(Debit(b, ks, amounts, n - 1), ids) && ks[n - 1] in ids
    ensures Total(Debit(b, ks, amounts, n)) == Total(Debit(b, ks, amounts, n - 1)) - amounts[n - 1]
  {
    assert Debit(b, ks, amounts, n) == Adjust(Debit(b, ks, amounts, n - 1), ks[n - 1], -amounts[n - 1]);
    AdjustTotal(Debit(b, ks, amounts, n - 1), ids, ks[n - 1], -amounts[n - 1]);
  }

  lemma SumPrefixStep(xs: seq<real>, n: nat)
    requires 0 < n <= |xs|
    ensures Sum(xs[..n]) == Sum(xs[..n - 1]) + xs[n - 1]
  {
    assert xs[..n][..n - 1] == xs[..n - 1];
  }

  /** What the expenses leave unbalanced: for each, its amount minus what it debits. */
  function Imbalance(es: seq<Expense>): real
  {
    if es == [] then 0.0
    else Imbalance(es[..|es| - 1]) + (es[|es| - 1].amount - Sum(Resolve(es[|es| - 1])))
  }

  /** One expense credits its amount to its payer and takes what its split resolves to
      from its participants. */
  lemma ApplyExpenseTotal(b: Book, ids: set<string>, e: Expense)
    requires Clean(b, ids) && Known(ids, e)
    ensures Clean(ApplyExpense(b, e), ids)
    ensures Total(ApplyExpense(b, e)) == Total(b) + (e.amount - Sum(Resolve(e)))
  {
    var credited := Adjust(b, e.paidById, e.amount);
    AdjustTotal(b, ids, e.paidById, e.amount);
    if DebitsAnyone(e) {
      var ks, amounts := Participants(e.splitBetween), Resolve(e);
      assert AllIn(ids, ks);
      DebitClean(credited, ids, ks, amounts, |e.splitBetween|);
      DebitTotal(credited, ids, ks, amounts, |e.splitBetween|);
      assert amounts[..|e.splitBetween|] == amounts;
    }
  }

  lemma {:induction false} ApplyAllClean(b: Book, ids: set<string>, es: seq<Expense>)
    requires Clean(b, ids) && forall i | 0 <= i < |es| :: Known(ids, es[i])
    ensures Clean(ApplyAll(b, es), ids)
  {
    if es != [] {
      ApplyAllClean(b, ids, es[..|es| - 1]);
      ApplyExpenseTotal(ApplyAll(b, es[..|es| - 1]), ids, es[|es| - 1]);
    }
  }

  lemma {:induction false} ApplyAllTotal(b: Book, ids: set<string>, es: seq<Expense>)
    requires Clean(b, ids) && forall i | 0 <= i < |es| :: Known(ids, es[i])
    ensures Total(ApplyAll(b, es)) == Total(b) + Imbalance(es)
  {
    if es != [] {
      var front := es[..|es| - 1];
      ApplyAllTotal(b, ids, front);
      ApplyAllClean(b, ids, front);
      ApplyExpenseTotal(ApplyAll(b, front), ids, es[|es| - 1]);
    }
  }

  /** When every id the expenses reference is a friend, the balances hold exactly the
      friends, all numeric, and add up to what the expenses leave unbalanced. */
  lemma BalancesTotal(friends: seq<Friend>, expenses: seq<Expense>)
    requires forall i | 0 <= i < |expenses| :: Known(FriendIds(friends), expenses[i])
    ensures Clean(Balances(friends, expenses), FriendIds(friends))
    ensures Total(Balances(friends, expenses)) == Imbalance(expenses)
  {
    var b := Start(friends);
    ZeroSum(b, b.order);
    ApplyAllClean(b, FriendIds(friends), expenses);
    ApplyAllTotal(b, FriendIds(friends), expenses);
  }

  lemma {:induction false} ZeroSum(b: Book, keys: seq<string>)
    requires forall k | k in b.bal :: b.bal[k] == Num(0.0)
    ensures SumOver(b, keys) == 0.0
  {
    if keys != [] {
      ZeroSum(b, keys[..|keys| - 1]);
    }
  }

  /** Money is conserved: when every expense references only friends and splits equally
      among at least one participant or by shares with a positive total, the balances add
      up to 0. */
  lemma {:induction false} MoneyIsConserved(friends: seq<Friend>, expenses: seq<Expense>)
    requires forall i | 0 <= i < |expenses| :: Known(FriendIds(friends), expenses[i])
    requires forall i | 0 <= i < |expenses| ::
      || (expenses[i].splitType == Equally && |expenses[i].splitBetween| > 0)
      || (expenses[i].splitType == ByShares && TotalShares(expenses[i].splitBetween) > 0.0)
    ensures Total(Balances(friends, expenses)) == 0.0
  {
    BalancesTotal(friends, expenses);
    NoImbalance(expenses);
  }

  lemma {:induction false} NoImbalance(es: seq<Expense>)
    requires forall i | 0 <= i < |es| ::
      || (es[i].splitType == Equally && |es[i].splitBetween| > 0)
      || (es[i].splitType == ByShares && TotalShares(es[i].splitBetween) > 0.0)
    ensures Imbalance(es) == 0.0
  {
    if es != [] {
      var e := es[|es| - 1];
      NoImbalance(es[..|es| - 1]);
      if e.splitType == Equally {
        EqualSplitTotal(e);
      } else {
        SharesSplitTotal(e);
      }
    }
  }
}
