/** The party's member list: adding a friend by name and deleting one by id. Each
    operation yields the new list, which the party page saves as the party's `friends`
    and nothing else. */
module Friends {
  import opened Wrappers
  import opened Lists
  import opened Text
  import opened Types
  import Ledger

  /** `handleAddFriend`: nothing happens for a blank name or while an add is in progress;
      otherwise one friend with the trimmed name is appended under `newId`. */
  function AddFriend(friends: seq<Friend>, name: string, isAdding: bool, newId: string): Option<seq<Friend>>
  {
    if Trim(name) == "" || isAdding then None
    else Some(friends + [Friend(newId, Trim(name))])
  }

  /** Adding succeeds exactly when the name holds a non-space character and no add is in
      progress; it then appends one friend, under the new id and with the trimmed name, which
      is neither empty nor padded, and keeps the earlier friends as they were. */
  lemma AddFriendMeaning(friends: seq<Friend>, name: string, isAdding: bool, newId: string)
    ensures var r := AddFriend(friends, name, isAdding, newId);
      && (r.Some? <==> !isAdding && exists k | 0 <= k < |name| :: !IsSpace(name[k]))
      && (r.Some? ==>
            && |r.value| == |friends| + 1 && r.value[..|friends|] == friends
            && r.value[|friends|] == Friend(newId, Trim(name))
            && r.value[|friends|].name != ""
            && !IsSpace(r.value[|friends|].name[0])
            && !IsSpace(r.value[|friends|].name[|r.value[|friends|].name| - 1]))
  {
    TrimEmptyIffBlank(name);
    if !isAdding && Trim(name) != "" {
      assert (friends + [Friend(newId, Trim(name))])[..|friends|] == friends;
    }
  }

  /** `handleDeleteFriend`. */
  function DeleteFriend(friends: seq<Friend>, id: string): seq<Friend>
  {
    Without(friends, (f: Friend) => f.id == id)
  }

  /** Deleting removes every friend with the id and nothing else, and keeps the order of
      the rest; afterwards no friend has the id. */
  lemma DeleteFriendMeaning(friends: seq<Friend>, id: string, before: seq<Friend>, after: seq<Friend>)
    requires friends == before + after
    ensures forall f: Friend :: f in DeleteFriend(friends, id) <==> f in friends && f.id != id
    ensures DeleteFriend(friends, id) == DeleteFriend(before, id) + DeleteFriend(after, id)
    ensures id !in Ledger.FriendIds(DeleteFriend(friends, id))
  {
    WithoutAppend(before, after, (f: Friend) => f.id == id);
    WithoutMeaning(friends, (f: Friend) => f.id == id);
    var r := DeleteFriend(friends, id);
    Ledger.FriendIdsMeaning(r);
    assert forall i | 0 <= i < |r| :: r[i] in r;
  }

  /** `{ ...party, friends }`: the party with its member list replaced. */
  function WithFriends(p: Party, friends: seq<Friend>): (r: Party)
    ensures r.friends == friends
    ensures r.id == p.id && r.name == p.name && r.date == p.date
    ensures r.tasks == p.tasks && r.expenses == p.expenses
  {
    p.(friends := friends)
  }

  /** Deleting a friend keeps the party's tasks and expenses as they were, including those
      that still name the deleted friend: an expense the friend paid then leaves a poisoned
      ledger entry for that id, the expense list shows its payer as 'Unknown', and a task
      assigned to the friend shows 'Unassigned'. */
  lemma DeletedFriendLingers(p: Party, id: string, i: nat)
    requires i < |p.expenses| && p.expenses[i].paidById == id
    ensures var q := WithFriends(p, DeleteFriend(p.friends, id));
      && q.tasks == p.tasks && q.expenses == p.expenses
      && id in Ledger.Balances(q.friends, q.expenses).bal
      && Ledger.Balances(q.friends, q.expenses).bal[id] == Ledger.Poisoned
      && DisplayName(q.friends, id, "Unknown") == "Unknown"
      && DisplayName(q.friends, id, "Unassigned") == "Unassigned"
  {
    var q := WithFriends(p, DeleteFriend(p.friends, id));
    DeleteFriendMeaning(p.friends, id, p.friends, []);
    Ledger.OrphanPayerPoisoned(q.friends, q.expenses, i);
  }
}
