/** The party's expense list: saving what the expense form hands over, the payer's name
    shown beside an expense, and the newest-first ordering of the list, which sorts the
    party's own array in place. */
module Expenses {
  import opened Wrappers
  import opened Lists
  import opened Types

  /** `handleSaveExpense`: fields that carry an id replace every expense with that id;
      fields without one become a new expense under `newId`, appended at the end. */
  function SaveExpense(expenses: seq<Expense>, input: ExpenseInput, newId: string): seq<Expense>
  {
    match input.id
    case Some(id) => UpdateWhere(expenses, (e: Expense) => e.id == id, (e: Expense) => input.WithId(id))
    case None => expenses + [input.WithId(newId)]
  }

  /** Saving an edited expense replaces each expense with its id by the edited one, which
      keeps that id, and leaves the length and every other expense as they were. */
  lemma SaveEditedMeaning(expenses: seq<Expense>, input: ExpenseInput, newId: string)
    requires input.id.Some?
    ensures var r := SaveExpense(expenses, input, newId);
      && |r| == |expenses|
      && forall i | 0 <= i < |expenses| ::
           if expenses[i].id == input.id.value then
             && r[i].id == expenses[i].id
             && r[i].amount == input.amount && r[i].paidById == input.paidById
             && r[i].splitType == input.splitType && r[i].splitBetween == input.splitBetween
             && r[i].description == input.description && r[i].date == input.date
           else r[i] == expenses[i]
  {
  }

  /** Saving under an id no expense has leaves the list as it was. */
  lemma SaveUnknownId(expenses: seq<Expense>, input: ExpenseInput, newId: string)
    requires input.id.Some?
    requires forall i | 0 <= i < |expenses| :: expenses[i].id != input.id.value
    ensures SaveExpense(expenses, input, newId) == expenses
  {
    var r := SaveExpense(expenses, input, newId);
    assert forall i | 0 <= i < |expenses| :: r[i] == expenses[i];
  }

  /** Saving a new expense appends exactly one expense, under the new id and with the
      form's fields, and keeps the earlier expenses as they were. */
  lemma SaveNewMeaning(expenses: seq<Expense>, input: ExpenseInput, newId: string)
    requires input.id.None?
    ensures var r := SaveExpense(expenses, input, newId);
      && |r| == |expenses| + 1 && r[..|expenses|] == expenses
      && r[|expenses|].id == newId
      && r[|expenses|].amount == input.amount && r[|expenses|].paidById == input.paidById
      && r[|expenses|].splitType == input.splitType && r[|expenses|].splitBetween == input.splitBetween
      && r[|expenses|].description == input.description && r[|expenses|].date == input.date
  {
    assert SaveExpense(expenses, input, newId)[..|expenses|] == expenses;
  }

  /** `getFriendName`: the payer's name, or 'Unknown' when no friend has the id or the
      friend's name is empty. */
  function PayerName(friends: seq<Friend>, id: string): (r: string)
    ensures r != "Unknown" ==> r != "" && exists i | 0 <= i < |friends| :: friends[i].id == id && friends[i].name == r
    ensures (forall i | 0 <= i < |friends| :: friends[i].id != id) ==> r == "Unknown"
  {
    DisplayName(friends, id, "Unknown")
  }

  /** Newest first: no expense is dated before one that follows it, `time` giving the
      moment a date string denotes. */
  ghost predicate NewestFirst(s: seq<Expense>, time: string -> int)
  {
    forall p, q | 0 <= p < q < |s| :: time(s[p].date) >= time(s[q].date)
  }

  /** Exchanges two entries of the array. */
  method Swap(a: array<Expense>, i: nat, j: nat)
    requires i < a.Length && j < a.Length
    modifies a
    ensures a[i] == old(a[j]) && a[j] == old(a[i])
    ensures forall k | 0 <= k < a.Length && k != i && k != j :: a[k] == old(a[k])
    ensures multiset(a[..]) == multiset(old(a[..]))
  {
    a[i], a[j] := a[j], a[i];
  }

  /** The in-place `sort` of the expense list by date, newest first. The result is a
      reordering of the same expenses. */
  method SortByDate(a: array<Expense>, time: string -> int)
    modifies a
    ensures NewestFirst(a[..], time)
    ensures multiset(a[..]) == multiset(old(a[..]))
  {
    var i := 0;
    while i < a.Length
      invariant 0 <= i <= a.Length
      invariant forall p, q | 0 <= p < q < i :: time(a[p].date) >= time(a[q].date)
      invariant multiset(a[..]) == multiset(old(a[..]))
    {
      var j := i;
      while j > 0 && time(a[j - 1].date) < time(a[j].date)
        invariant 0 <= j <= i
        invariant forall p, q | 0 <= p < q <= i && q != j :: time(a[p].date) >= time(a[q].date)
        invariant forall p, q | 0 <= p < j < q <= i :: time(a[p].date) >= time(a[q].date)
        invariant multiset(a[..]) == multiset(old(a[..]))
      {
        Swap(a, j - 1, j);
        j := j - 1;
      }
      i := i + 1;
    }
  }
}
