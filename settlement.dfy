/** The settlement view: who owes whom. The balances are split into debtors and creditors,
    and the first debtor repeatedly pays the first creditor as much as both allow. */
module Settlement {
  import opened Lists
  import opened Types
  import opened Money
  import opened Ledger

  /** A debtor or a creditor: a dictionary key and its (signed) balance. */
  datatype Item = Item(id: string, amount: real)

  /** One payment of the settlement, between ids; the view turns the ids into names. */
  datatype Transfer = Transfer(from: string, to: string, amount: real)

  predicate InDebt(v: real) { v < -Eps }

  predicate InCredit(v: real) { v > Eps }

  /** The numeric entries of the given keys that `keep` selects, in key order
      (`Object.entries(balances).filter(...).map(...)`). A poisoned entry (NaN in the
      source) fails every comparison, so it is never selected. */
  function Entries(b: Book, keys: seq<string>, keep: real -> bool): (r: seq<Item>)
    ensures |r| <= |keys|
  {
    if keys == [] then []
    else
      var front := Entries(b, keys[..|keys| - 1], keep);
      var k := keys[|keys| - 1];
      if k in b.bal && b.bal[k].Num? && keep(b.bal[k].value) then front + [Item(k, b.bal[k].value)]
      else front
  }

  /** An item is selected exactly when its key is listed, holds that number, and `keep`
      accepts the number. */
  lemma {:induction false} EntriesMeaning(b: Book, keys: seq<string>, keep: real -> bool)
    ensures forall it :: it in Entries(b, keys, keep) <==>
      it.id in keys && it.id in b.bal && b.bal[it.id] == Num(it.amount) && keep(it.amount)
  {
    if keys != [] {
      EntriesMeaning(b, keys[..|keys| - 1], keep);
      assert forall x :: x in keys <==> x in keys[..|keys| - 1] || x == keys[|keys| - 1];
    }
  }

  /** Selection follows the key order: the entries of a concatenation are the entries of
      its parts, one after the other. */
  lemma {:induction false} EntriesAppend(b: Book, keys1: seq<string>, keys2: seq<string>, keep: real -> bool)
    ensures Entries(b, keys1 + keys2, keep) == Entries(b, keys1, keep) + Entries(b, keys2, keep)
  {
    if keys2 == [] {
      assert keys1 + keys2 == keys1;
    } else {
      var front2 := keys2[..|keys2| - 1];
      EntriesAppend(b, keys1, front2, keep);
      assert (keys1 + keys2)[..|keys1 + keys2| - 1] == keys1 + front2;
    }
  }

  /** The friends (and orphans) who owe more than a cent, in key order. */
  function Debtors(b: Book): seq<Item>
  {
    Entries(b, b.order, InDebt)
  }

  /** The friends who are owed more than a cent, in key order. */
  function Creditors(b: Book): seq<Item>
  {
    Entries(b, b.order, InCredit)
  }

  /** The list after its head's amount became `v`: the head is dropped once it is within a
      cent of 0 (`if (Math.abs(x.amount) < 0.01) xs.shift()`). */
  function Next(xs: seq<Item>, v: real): (r: seq<Item>)
    requires xs != []
  {
    if Abs(v) < Eps then xs[1..] else xs[0 := Item(xs[0].id, v)]
  }

  /** The greedy settlement of the debtors `ds` against the creditors `cs`: the first debtor
      pays the first creditor the smaller of what it owes and what it is owed, then both
      lists move on. Each step settles the debtor or the creditor exactly, so one of the two
      heads is dropped every time. */
  function Settle(ds: seq<Item>, cs: seq<Item>): seq<Transfer>
    decreases |ds| + |cs|
  {
    if ds == [] || cs == [] then []
    else
      var amount := Min(-ds[0].amount, cs[0].amount);
      [Transfer(ds[0].id, cs[0].id, amount)]
        + Settle(Next(ds, ds[0].amount + amount), Next(cs, cs[0].amount - amount))
  }

  /** One step of the settlement: the first payment, then the settlement of what is left. */
  lemma SettleStep(ds: seq<Item>, cs: seq<Item>, amount: real, ds': seq<Item>, cs': seq<Item>)
    requires ds != [] && cs != [] && amount == Min(-ds[0].amount, cs[0].amount)
    requires ds' == Next(ds, ds[0].amount + amount) && cs' == Next(cs, cs[0].amount - amount)
    ensures |ds'| + |cs'| < |ds| + |cs|
    ensures Settle(ds, cs) == [Transfer(ds[0].id, cs[0].id, amount)] + Settle(ds', cs')
  {
  }

  /** The sum of the transfer amounts. */
  function Paid(ts: seq<Transfer>): real
  {
    if ts == [] then 0.0 else ts[0].amount + Paid(ts[1..])
  }

  /** What the debtors owe altogether. */
  function Owed(xs: seq<Item>): real
  {
    if xs == [] then 0.0 else -xs[0].amount + Owed(xs[1..])
  }

  /** What the creditors are owed altogether. */
  function Due(xs: seq<Item>): real
  {
    if xs == [] then 0.0 else xs[0].amount + Due(xs[1..])
  }

  /** The settlement stops once either side is exhausted, and before that every step
      removes at least one head: there are fewer payments than debtors and creditors. */
  lemma {:induction false} SettleLength(ds: seq<Item>, cs: seq<Item>)
    ensures ds == [] || cs == [] ==> Settle(ds, cs) == []
    ensures ds != [] && cs != [] ==> |Settle(ds, cs)| < |ds| + |cs|
    decreases |ds| + |cs|
  {
    if ds != [] && cs != [] {
      var amount := Min(-ds[0].amount, cs[0].amount);
      var ds', cs' := Next(ds, ds[0].amount + amount), Next(cs, cs[0].amount - amount);
      SettleStep(ds, cs, amount, ds', cs');
      SettleLength(ds', cs');
    }
  }

  /** One round of the loop: the payment is at least a cent, and afterwards every debtor
      still owes at least a cent and every creditor is still owed at least one; the head
      that was settled to within a cent has left its list. */
  lemma StepKeepsSigns(ds: seq<Item>, cs: seq<Item>)
    requires ds != [] && cs != []
    requires forall i | 0 <= i < |ds| :: ds[i].amount <= -Eps
    requires forall i | 0 <= i < |cs| :: cs[i].amount >= Eps
    ensures var amount := Min(-ds[0].amount, cs[0].amount);
      var ds', cs' := Next(ds, ds[0].amount + amount), Next(cs, cs[0].amount - amount);
      && amount >= Eps
      && ds[0].amount + amount <= 0.0 && cs[0].amount - amount >= 0.0
      && (forall i | 0 <= i < |ds'| :: ds'[i].amount <= -Eps)
      && (forall i | 0 <= i < |cs'| :: cs'[i].amount >= Eps)
  {
  }

  /** While every debtor owes at least a cent and every creditor is owed at least one, no
      payment is below a cent. */
  lemma {:induction false} SettleAmounts(ds: seq<Item>, cs: seq<Item>)
    requires forall i | 0 <= i < |ds| :: ds[i].amount <= -Eps
    requires forall i | 0 <= i < |cs| :: cs[i].amount >= Eps
    ensures forall i | 0 <= i < |Settle(ds, cs)| :: Settle(ds, cs)[i].amount >= Eps
    decreases |ds| + |cs|
  {
    if ds != [] && cs != [] {
      var amount := Min(-ds[0].amount, cs[0].amount);
      var ds' := Next(ds, ds[0].amount + amount);
      var cs' := Next(cs, cs[0].amount - amount);
      SettleStep(ds, cs, amount, ds', cs');
      assert forall i | 0 <= i < |ds'| :: ds'[i].amount <= -Eps;
      assert forall i | 0 <= i < |cs'| :: cs'[i].amount >= Eps;
      SettleAmounts(ds', cs');
      var r := Settle(ds, cs);
      assert forall i | 1 <= i < |r| :: r[i] == Settle(ds', cs')[i - 1];
    }
  }

  predicate HasId(xs: seq<Item>, id: string)
  {
    exists i | 0 <= i < |xs| :: xs[i].id == id
  }

  lemma NextIds(xs: seq<Item>, v: real)
    requires xs != []
    ensures forall id | HasId(Next(xs, v), id) :: HasId(xs, id)
  {
    forall id | HasId(Next(xs, v), id)
      ensures HasId(xs, id)
    {
      var i :| 0 <= i < |Next(xs, v)| && Next(xs, v)[i].id == id;
      if Abs(v) < Eps {
        assert xs[i + 1].id == id;
      } else {
        assert xs[i].id == id;
      }
    }
  }

  /** Every payment goes from one of the debtors to one of the creditors. */
  lemma {:induction false} SettleParties(ds: seq<Item>, cs: seq<Item>)
    ensures forall i | 0 <= i < |Settle(ds, cs)| ::
      HasId(ds, Settle(ds, cs)[i].from) && HasId(cs, Settle(ds, cs)[i].to)
    decreases |ds| + |cs|
  {
    if ds != [] && cs != [] {
      var amount := Min(-ds[0].amount, cs[0].amount);
      var ds' := Next(ds, ds[0].amount + amount);
      var cs' := Next(cs, cs[0].amount - amount);
      SettleStep(ds, cs, amount, ds', cs');
      SettleParties(ds', cs');
      NextIds(ds, ds[0].amount + amount);
      NextIds(cs, cs[0].amount - amount);
      var rest := Settle(ds', cs');
      forall i | 0 <= i < |rest|
        ensures HasId(ds, rest[i].from) && HasId(cs, rest[i].to)
      {
        assert HasId(ds', rest[i].from) && HasId(cs', rest[i].to);
      }
      ConsParties(ds, cs, Transfer(ds[0].id, cs[0].id, amount), rest, Settle(ds, cs));
    }
  }

  lemma ConsParties(ds: seq<Item>, cs: seq<Item>, t: Transfer, rest: seq<Transfer>, r: seq<Transfer>)
    requires ds != [] && cs != [] && t.from == ds[0].id && t.to == cs[0].id && r == [t] + rest
    requires forall i | 0 <= i < |rest| :: HasId(ds, rest[i].from) && HasId(cs, rest[i].to)
    ensures forall i | 0 <= i < |r| :: HasId(ds, r[i].from) && HasId(cs, r[i].to)
  {
    forall i | 0 <= i < |r|
      ensures HasId(ds, r[i].from) && HasId(cs, r[i].to)
    {
      if i > 0 {
        assert r[i] == rest[i - 1];
      }
    }
  }

  /** No more is paid than the debtors owe and than the creditors are owed, and the
      settlement stops only once one side is settled up to less than a cent per entry. */
  lemma {:induction false} SettleAccounts(ds: seq<Item>, cs: seq<Item>)
    requires forall i | 0 <= i < |ds| :: ds[i].amount <= -Eps
    requires forall i | 0 <= i < |cs| :: cs[i].amount >= Eps
    ensures Paid(Settle(ds, cs)) <= Owed(ds)
    ensures Paid(Settle(ds, cs)) <= Due(cs)
    ensures || Owed(ds) - Paid(Settle(ds, cs)) <= Eps * |ds| as real
            || Due(cs) - Paid(Settle(ds, cs)) <= Eps * |cs| as real
    decreases |ds| + |cs|
  {
    if ds != [] && cs != [] {
      var amount := Min(-ds[0].amount, cs[0].amount);
      var ds' := Next(ds, ds[0].amount + amount);
      var cs' := Next(cs, cs[0].amount - amount);
      SettleStep(ds, cs, amount, ds', cs');
      assert forall i | 0 <= i < |ds'| :: ds'[i].amount <= -Eps;
      assert forall i | 0 <= i < |cs'| :: cs'[i].amount >= Eps;
      SettleAccounts(ds', cs');
      var rest := Settle(ds', cs');
      assert Paid(Settle(ds, cs)) == amount + Paid(rest);
      assert Owed(ds) == -ds[0].amount + Owed(ds[1..]);
      assert Due(cs) == cs[0].amount + Due(cs[1..]);
      if Abs(ds[0].amount + amount) >= Eps {
        assert ds'[1..] == ds[1..];
        assert Owed(ds') == -(ds[0].amount + amount) + Owed(ds[1..]);
      } else {
        assert ds' == ds[1..];
      }
      assert Owed(ds') <= Owed(ds) - amount;
      if Abs(cs[0].amount - amount) >= Eps {
        assert cs'[1..] == cs[1..];
        assert Due(cs') == cs[0].amount - amount + Due(cs[1..]);
      } else {
        assert cs' == cs[1..];
      }
      assert Due(cs') <= Due(cs) - amount;
    } else {
      OwedAndDueNonnegative(ds, cs);
    }
  }

  lemma {:induction false} OwedAndDueNonnegative(ds: seq<Item>, cs: seq<Item>)
    requires forall i | 0 <= i < |ds| :: ds[i].amount <= 0.0
    requires forall i | 0 <= i < |cs| :: cs[i].amount >= 0.0
    ensures Owed(ds) >= 0.0 && Due(cs) >= 0.0
    decreases |ds| + |cs|
  {
    if ds != [] {
      OwedAndDueNonnegative(ds[1..], []);
    }
    if cs != [] {
      OwedAndDueNonnegative([], cs[1..]);
    }
  }

  /** No key is both a debtor and a creditor. */
  lemma DebtorsAreNotCreditors(b: Book)
    ensures forall i, j | 0 <= i < |Debtors(b)| && 0 <= j < |Creditors(b)| ::
      Debtors(b)[i].id != Creditors(b)[j].id
  {
    EntriesMeaning(b, b.order, InDebt);
    EntriesMeaning(b, b.order, InCredit);
    forall i, j | 0 <= i < |Debtors(b)| && 0 <= j < |Creditors(b)|
      ensures Debtors(b)[i].id != Creditors(b)[j].id
    {
      assert Debtors(b)[i] in Debtors(b);
      assert Creditors(b)[j] in Creditors(b);
    }
  }

  /** The payment list of the view, with every id shown as its friend's name, or as
      'Unknown' when the id is no friend or the friend's name is empty. */
  function Named(friends: seq<Friend>, ts: seq<Transfer>): (r: seq<SimplifiedDebt>)
    ensures |r| == |ts|
  {
    if ts == [] then []
    else
      var t := ts[|ts| - 1];
      Named(friends, ts[..|ts| - 1]) + [Debt(friends, t)]
  }

  /** One pushed debt: the payment between the two friends' names, 'Unknown' standing for
      an id that is no friend or a friend with an empty name. */
  function Debt(friends: seq<Friend>, t: Transfer): SimplifiedDebt
  {
    SimplifiedDebt(DisplayName(friends, t.from, "Unknown"), DisplayName(friends, t.to, "Unknown"), t.amount)
  }

  /** Appending a payment appends its named line. */
  lemma NamedAppend(friends: seq<Friend>, ts: seq<Transfer>, t: Transfer)
    ensures Named(friends, ts + [t]) == Named(friends, ts) + [Debt(friends, t)]
  {
    assert (ts + [t])[..|ts|] == ts;
  }

  /** One round keeps the loop's invariants: the payments so far and the settlement of
      what is left make up the whole settlement, and the debts pushed so far name the
      payments so far. */
  lemma Maintain(friends: seq<Friend>, plan: seq<Transfer>, done: seq<Transfer>, debts: seq<SimplifiedDebt>,
                 ds: seq<Item>, cs: seq<Item>, t: Transfer, ds': seq<Item>, cs': seq<Item>)
    requires ds != [] && cs != []
    requires done + Settle(ds, cs) == plan && debts == Named(friends, done)
    requires t == Transfer(ds[0].id, cs[0].id, Min(-ds[0].amount, cs[0].amount))
    requires ds' == Next(ds, ds[0].amount + t.amount) && cs' == Next(cs, cs[0].amount - t.amount)
    ensures (done + [t]) + Settle(ds', cs') == plan
    ensures debts + [Debt(friends, t)] == Named(friends, done + [t])
  {
    SettleStep(ds, cs, t.amount, ds', cs');
    ShiftFront(done, t, Settle(ds, cs), Settle(ds', cs'), plan);
    NamedAppend(friends, done, t);
  }

  /** `simplifiedDebts`: the settlement of the party's balances, as the view lists it. */
  method SimplifiedDebts(friends: seq<Friend>, expenses: seq<Expense>) returns (debts: seq<SimplifiedDebt>)
    ensures debts == Named(friends, Settle(Debtors(Balances(friends, expenses)), Creditors(Balances(friends, expenses))))
  {
    if |friends| == 0 {
      NoFriendsNoDebts(expenses);
      return [];
    }
    var balances := ComputeBalances(friends, expenses);
    debts := PayOff(friends, Debtors(balances), Creditors(balances));
  }

  /** The `while` loop of `simplifiedDebts`: the first debtor pays the first creditor until
      either list is empty. */
  method PayOff(friends: seq<Friend>, ds: seq<Item>, cs: seq<Item>) returns (debts: seq<SimplifiedDebt>)
    ensures debts == Named(friends, Settle(ds, cs))
  {
    var debtors, creditors := ds, cs;
    ghost var done: seq<Transfer> := [];
    debts := [];
    while |debtors| > 0 && |creditors| > 0
      invariant done + Settle(debtors, creditors) == Settle(ds, cs)
      invariant debts == Named(friends, done)
      decreases |debtors| + |creditors|
    {
      ghost var (done0, debts0, debtors0, creditors0) := (done, debts, debtors, creditors);
      var t;
      t, debtors, creditors := Round(debtors, creditors);
      debts := debts + [Debt(friends, t)];
      done := done + [t];
      Maintain(friends, Settle(ds, cs), done0, debts0, debtors0, creditors0, t, debtors, creditors);
    }
    assert done + Settle(debtors, creditors) == done;
  }

  /** One round of the loop before the push: the first debtor pays the first creditor the
      smaller of what it owes and what it is owed, and each head that is settled to within
      a cent is shifted off its list. */
  method Round(ds: seq<Item>, cs: seq<Item>) returns (t: Transfer, ds': seq<Item>, cs': seq<Item>)
    requires ds != [] && cs != []
    ensures t == Transfer(ds[0].id, cs[0].id, Min(-ds[0].amount, cs[0].amount))
    ensures ds' == Next(ds, ds[0].amount + t.amount)
    ensures cs' == Next(cs, cs[0].amount - t.amount)
    ensures |ds'| + |cs'| < |ds| + |cs|
  {
    var debtor := ds[0];
    var creditor := cs[0];
    var amount := Min(-debtor.amount, creditor.amount);
    t := Transfer(debtor.id, creditor.id, amount);
    // `debtor.amount += amount; creditor.amount -= amount;`, then drop a settled head
    ds' := Update(ds, debtor.amount + amount);
    cs' := Update(cs, creditor.amount - amount);
  }

  /** One worklist after its head's amount became `v`: the head is shifted off once it is
      within a cent of 0, and otherwise carries the new amount. */
  method Update(xs: seq<Item>, v: real) returns (r: seq<Item>)
    requires xs != []
    ensures r == Next(xs, v)
  {
    if Abs(v) < Eps {
      r := xs[1..];
    } else {
      r := xs[0 := Item(xs[0].id, v)];
    }
  }

  /** Debtors owe at least a cent and creditors are owed at least one. */
  lemma SidesAreSigned(b: Book)
    ensures forall i | 0 <= i < |Debtors(b)| :: Debtors(b)[i].amount <= -Eps
    ensures forall i | 0 <= i < |Creditors(b)| :: Creditors(b)[i].amount >= Eps
  {
    EntriesMeaning(b, b.order, InDebt);
    EntriesMeaning(b, b.order, InCredit);
    assert forall i | 0 <= i < |Debtors(b)| :: Debtors(b)[i] in Debtors(b);
    assert forall i | 0 <= i < |Creditors(b)| :: Creditors(b)[i] in Creditors(b);
  }

  /** Every item on either side is a friend: orphans are poisoned and never selected. */
  lemma SidesAreFriends(friends: seq<Friend>, expenses: seq<Expense>, id: string)
    requires HasId(Debtors(Balances(friends, expenses)), id) || HasId(Creditors(Balances(friends, expenses)), id)
    ensures id in FriendIds(friends)
  {
    var b := Balances(friends, expenses);
    ApplyAllTracks(Start(friends), friends, expenses);
    EntriesMeaning(b, b.order, InDebt);
    EntriesMeaning(b, b.order, InCredit);
    if HasId(Debtors(b), id) {
      var i :| 0 <= i < |Debtors(b)| && Debtors(b)[i].id == id;
      assert Debtors(b)[i] in Debtors(b);
    } else {
      var i :| 0 <= i < |Creditors(b)| && Creditors(b)[i].id == id;
      assert Creditors(b)[i] in Creditors(b);
    }
  }

  /** The settlement of a party: every payment is of at least a cent, goes from a friend
      to a different friend, there are fewer payments than debtors and creditors together,
      and no more is paid than is owed or due. */
  lemma PartySettlement(friends: seq<Friend>, expenses: seq<Expense>)
    ensures var b := Balances(friends, expenses);
      var r := Settle(Debtors(b), Creditors(b));
      && (forall i | 0 <= i < |r| ::
            && r[i].amount >= Eps
            && r[i].from in FriendIds(friends) && r[i].to in FriendIds(friends)
            && r[i].from != r[i].to)
      && (r == [] || |r| < |Debtors(b)| + |Creditors(b)|)
      && Paid(r) <= Owed(Debtors(b)) && Paid(r) <= Due(Creditors(b))
  {
    var b := Balances(friends, expenses);
    var ds, cs := Debtors(b), Creditors(b);
    var r := Settle(ds, cs);
    SidesAreSigned(b);
    SettleAmounts(ds, cs);
    SettleLength(ds, cs);
    SettleAccounts(ds, cs);
    SettleParties(ds, cs);
    DebtorsAreNotCreditors(b);
    forall i | 0 <= i < |r|
      ensures r[i].from in FriendIds(friends) && r[i].to in FriendIds(friends) && r[i].from != r[i].to
    {
      SidesAreFriends(friends, expenses, r[i].from);
      SidesAreFriends(friends, expenses, r[i].to);
    }
  }

  /** A dictionary whose entries are all poisoned selects nothing. */
  lemma {:induction false} EntriesOfPoisoned(b: Book, keys: seq<string>, keep: real -> bool)
    requires forall k | k in b.bal :: b.bal[k].Poisoned?
    ensures Entries(b, keys, keep) == []
  {
    if keys != [] {
      EntriesOfPoisoned(b, keys[..|keys| - 1], keep);
    }
  }

  /** Without friends every key is an orphan and poisoned, so there is nobody to settle:
      the early return of the source gives the same result as the general path. */
  lemma NoFriendsNoDebts(expenses: seq<Expense>)
    ensures Debtors(Balances([], expenses)) == []
    ensures Creditors(Balances([], expenses)) == []
  {
    var b := Balances([], expenses);
    ApplyAllTracks(Start([]), [], expenses);
    assert FriendIds([]) == {};
    EntriesOfPoisoned(b, b.order, InDebt);
    EntriesOfPoisoned(b, b.order, InCredit);
  }
}
