/** The list of parties the application holds. Each change goes through the back end
    first; the list is updated with what the back end returns, and only once it has
    answered. The back end's answer is a parameter here: `None` stands for a call that
    failed, which leaves the list as it was. */
module Parties {
  import opened Wrappers
  import opened Lists
  import opened Types

  /** The first party with the id, if any (`parties.find(p => p.id === id) || null`). */
  function Find(parties: seq<Party>, id: string): (r: Option<Party>)
    ensures r.None? <==> forall i | 0 <= i < |parties| :: parties[i].id != id
    ensures r.Some? ==> exists i | 0 <= i < |parties| ::
      parties[i] == r.value && r.value.id == id && forall j | 0 <= j < i :: parties[j].id != id
  {
    FindFirst(parties, (p: Party) => p.id == id)
  }

  /** The list after an update: every party with the returned party's id is replaced by it. */
  function Replaced(parties: seq<Party>, party: Party): seq<Party>
  {
    UpdateWhere(parties, (p: Party) => p.id == party.id, (p: Party) => party)
  }

  /** The list after a deletion: every party with the id is gone. */
  function Removed(parties: seq<Party>, id: string): seq<Party>
  {
    Without(parties, (p: Party) => p.id == id)
  }

  /** A party appended under an id no earlier party has is the one found under that id. */
  lemma FindAppended(parties: seq<Party>, party: Party)
    requires forall i | 0 <= i < |parties| :: parties[i].id != party.id
    ensures Find(parties + [party], party.id) == Some(party)
  {
    var r := Find(parties + [party], party.id);
    assert (parties + [party])[|parties|].id == party.id;
    var i :| 0 <= i < |parties| + 1 && (parties + [party])[i] == r.value && r.value.id == party.id;
    assert i == |parties|;
  }

  /** Appending keeps what every other id finds. */
  lemma FindAppendedOther(parties: seq<Party>, party: Party, id: string)
    requires id != party.id
    ensures Find(parties + [party], id) == Find(parties, id)
  {
    var s := parties + [party];
    match Find(s, id)
    case None =>
      assert forall i | 0 <= i < |parties| :: parties[i] == s[i];
    case Some(q) =>
      var i :| 0 <= i < |s| && s[i] == q && q.id == id && forall j | 0 <= j < i :: s[j].id != id;
      assert i < |parties|;
      var f := Find(parties, id);
      assert f.Some?;
      var k :| 0 <= k < |parties| && parties[k] == f.value && f.value.id == id && forall j | 0 <= j < k :: parties[j].id != id;
      assert s[k] == parties[k];
      assert s[i] == parties[i];
  }

  /** An update replaces each party with the returned party's id by the returned party,
      keeps the length and every other party, and afterwards that id finds the returned
      party whenever some party had it. */
  lemma ReplacedMeaning(parties: seq<Party>, party: Party)
    ensures |Replaced(parties, party)| == |parties|
    ensures forall i | 0 <= i < |parties| ::
      Replaced(parties, party)[i] == if parties[i].id == party.id then party else parties[i]
    ensures Find(parties, party.id).Some? ==> Find(Replaced(parties, party), party.id) == Some(party)
    ensures Find(parties, party.id).None? ==> Replaced(parties, party) == parties
  {
    if Find(parties, party.id).None? {
      ReplacedNothing(parties, party);
    } else {
      var k :| 0 <= k < |parties| && parties[k].id == party.id;
      ReplacedFound(parties, party, k);
    }
  }

  /** With no party under the id, an update changes nothing. */
  lemma ReplacedNothing(parties: seq<Party>, party: Party)
    requires forall i | 0 <= i < |parties| :: parties[i].id != party.id
    ensures Replaced(parties, party) == parties
  {
    var r := Replaced(parties, party);
    assert forall i | 0 <= i < |parties| :: r[i] == parties[i];
  }

  /** With some party under the id, the id finds the returned party after the update. */
  lemma ReplacedFound(parties: seq<Party>, party: Party, k: nat)
    requires k < |parties| && parties[k].id == party.id
    ensures Find(Replaced(parties, party), party.id) == Some(party)
  {
    var r := Replaced(parties, party);
    assert r[k].id == party.id;
    var f := Find(r, party.id);
    var i :| 0 <= i < |r| && r[i] == f.value && f.value.id == party.id;
    assert parties[i].id == party.id;
  }

  /** A deletion removes exactly the parties with the id, keeps the order of the rest, and
      afterwards the id finds nothing. */
  lemma RemovedMeaning(parties: seq<Party>, id: string, before: seq<Party>, after: seq<Party>)
    requires parties == before + after
    ensures forall p: Party :: p in Removed(parties, id) <==> p in parties && p.id != id
    ensures Removed(parties, id) == Removed(before, id) + Removed(after, id)
    ensures Find(Removed(parties, id), id).None?
  {
    WithoutAppend(before, after, (p: Party) => p.id == id);
    WithoutMeaning(parties, (p: Party) => p.id == id);
    var r := Removed(parties, id);
    assert forall i | 0 <= i < |r| :: r[i] in r;
  }

  /** The hook's state: the parties, and whether the first load is still pending. */
  class PartyStore {
    var parties: seq<Party>
    var loading: bool

    constructor()
      ensures parties == [] && loading
    {
      parties := [];
      loading := true;
    }

    /** `fetchParties`: the list becomes what the back end returned; a failed call leaves the
        list and the loading flag as they were set before the call. */
    method FetchParties(fetched: Option<seq<Party>>)
      modifies this
      ensures parties == if fetched.Some? then fetched.value else old(parties)
      ensures loading == fetched.None?
    {
      loading := true;
      if fetched.Some? {
        parties := fetched.value;
        loading := false;
      }
    }

    /** `addParty`: the party the back end created is appended and handed back. */
    method AddParty(created: Option<Party>) returns (r: Option<Party>)
      modifies this
      ensures r == created
      ensures parties == if created.Some? then old(parties) + [created.value] else old(parties)
      ensures loading == old(loading)
      ensures created.Some? && Find(old(parties), created.value.id).None? ==>
        GetPartyById(created.value.id) == created
    {
      if created.Some? {
        if Find(parties, created.value.id).None? {
          FindAppended(parties, created.value);
        }
        parties := parties + [created.value];
      }
      r := created;
    }

    /** `getPartyById`. */
    function GetPartyById(id: string): (r: Option<Party>)
      reads this
      ensures r.None? <==> forall i | 0 <= i < |parties| :: parties[i].id != id
      ensures r.Some? ==> r.value.id == id && r.value in parties
      ensures r.Some? ==> exists k | 0 <= k < |parties| ::
        parties[k] == r.value && forall j | 0 <= j < k :: parties[j].id != id
    {
      Find(parties, id)
    }

    /** `updateParty`: the parties with the returned party's id are replaced by it, and it is
        handed back. */
    method UpdateParty(returned: Option<Party>) returns (r: Option<Party>)
      modifies this
      ensures r == returned
      ensures parties == if returned.Some? then Replaced(old(parties), returned.value) else old(parties)
      ensures loading == old(loading)
      ensures |parties| == |old(parties)|
      ensures returned.Some? && Find(old(parties), returned.value.id).Some? ==>
        GetPartyById(returned.value.id) == returned
    {
      if returned.Some? {
        ReplacedMeaning(parties, returned.value);
        parties := Replaced(parties, returned.value);
      }
      r := returned;
    }

    /** `deleteParty`: once the back end confirms, every party with the id is dropped. */
    method DeleteParty(id: string, succeeded: bool)
      modifies this
      ensures parties == if succeeded then Removed(old(parties), id) else old(parties)
      ensures loading == old(loading)
      ensures succeeded ==> GetPartyById(id).None?
    {
      if succeeded {
        RemovedMeaning(parties, id, parties, []);
        parties := Removed(parties, id);
      }
    }
  }
}
