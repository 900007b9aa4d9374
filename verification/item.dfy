/**
  An auction item (Item.java): a name, a description, a reserve amount and the
  ranked collection of bids made on it. Ranked entries are bid ids resolved in
  the tracker's bid store, which every operation here receives as `store`.
*/
module Items {
  import opened Wrappers
  import opened Collections
  import opened Identity
  import opened Bids
  import opened Ranking

  datatype Item = Item(id: Uuid, name: string, description: string, reserve: int, ranking: seq<Uuid>) {
    function AsEntity(): Entity {
      Entity(ItemKind, id)
    }
  }

  /** `Item(name)`: empty description, reserve zero, no bids. */
  function NewItem(id: Uuid, name: string): (it: Item)
    ensures it.id == id && it.name == name
    ensures it.description == "" && it.reserve == 0 && it.ranking == []
  {
    Item(id, name, "", 0, [])
  }

  /** `Item(name, description)`: reserve still zero, no bids. */
  function NewItemWithDescription(id: Uuid, name: string, description: string): (it: Item)
    ensures it.id == id && it.name == name && it.description == description
    ensures it.reserve == 0 && it.ranking == []
  {
    NewItem(id, name).(description := description)
  }

  /** `Item(name, description, reserveAmount)`: the given reserve, no bids. */
  function NewItemWithReserve(id: Uuid, name: string, description: string, reserve: int): (it: Item)
    ensures it.id == id && it.name == name && it.description == description
    ensures it.reserve == reserve && it.ranking == []
  {
    NewItemWithDescription(id, name, description).(reserve := reserve)
  }

  /** Position of the first ranked bid made by user `u`, scanning in ranked order. */
  function FirstBidIndex(r: seq<Uuid>, store: Store, u: Uuid): (o: Option<nat>)
    requires InStore(r, store)
    ensures o.Some? ==> o.value < |r| && store[r[o.value]].user == u
    ensures o.Some? ==> forall j :: 0 <= j < o.value ==> store[r[j]].user != u
    ensures o.None? ==> forall j :: 0 <= j < |r| ==> store[r[j]].user != u
    decreases |r|
  {
    if r == [] then None
    else if store[r[0]].user == u then Some(0)
    else
      match FirstBidIndex(r[1..], store, u)
      case None => None
      case Some(k) => Some(k + 1)
  }

  /** Any position holding a bid of `u` with none of `u`'s before it is the first index. */
  lemma FirstBidIndexIsUnique(r: seq<Uuid>, store: Store, u: Uuid, k: nat)
    requires InStore(r, store) && k < |r| && store[r[k]].user == u
    requires forall j :: 0 <= j < k ==> store[r[j]].user != u
    ensures FirstBidIndex(r, store, u) == Some(k)
  {
  }

  /** `getBidFromUser`: the first bid in ranked order made by `u`, or `None`. */
  function GetBidFromUser(it: Item, store: Store, u: Uuid): (o: Option<Uuid>)
    requires InStore(it.ranking, store)
    ensures o.None? <==> forall k :: 0 <= k < |it.ranking| ==> store[it.ranking[k]].user != u
    ensures o.Some? ==> o.value in it.ranking && store[o.value].user == u
    ensures o.Some? ==>
      exists k :: 0 <= k < |it.ranking| && it.ranking[k] == o.value &&
        forall j :: 0 <= j < k ==> store[it.ranking[j]].user != u
  {
    match FirstBidIndex(it.ranking, store, u)
    case None => None
    case Some(k) => Some(it.ranking[k])
  }

  /** The owners of the first `k` ranked bids. */
  ghost function UsersBefore(r: seq<Uuid>, store: Store, k: nat): set<Uuid>
    requires InStore(r, store) && k <= |r|
  {
    if k == 0 then {} else UsersBefore(r, store, k - 1) + {store[r[k - 1]].user}
  }

  lemma {:induction false} UsersBeforeMeansOwner(r: seq<Uuid>, store: Store, k: nat, u: Uuid)
    requires InStore(r, store) && k <= |r|
    ensures u in UsersBefore(r, store, k) <==> exists j :: 0 <= j < k && store[r[j]].user == u
  {
    if k > 0 {
      UsersBeforeMeansOwner(r, store, k - 1, u);
    }
  }

  /**
    `users` lists the owners of the first `k` ranked bids, each once, in the
    order of their first bids.
  */
  ghost predicate ListsFirstOwners(r: seq<Uuid>, store: Store, users: seq<Uuid>, k: nat)
    requires InStore(r, store) && k <= |r|
  {
    && (forall u :: u in users <==> u in UsersBefore(r, store, k))
    && Distinct(users)
    && (forall i :: 0 <= i < |users| ==>
      FirstBidIndex(r, store, users[i]).Some? && FirstBidIndex(r, store, users[i]).value < k)
    && (forall i, j :: 0 <= i < j < |users| ==>
      FirstBidIndex(r, store, users[i]).value < FirstBidIndex(r, store, users[j]).value)
  }

  /** A bid whose owner is already listed leaves the list as it is. */
  lemma SeenOwnerStep(r: seq<Uuid>, store: Store, users: seq<Uuid>, k: nat)
    requires InStore(r, store) && k < |r| && ListsFirstOwners(r, store, users, k)
    requires store[r[k]].user in users
    ensures ListsFirstOwners(r, store, users, k + 1)
  {
  }

  /** A bid whose owner is not yet listed appends that owner. */
  lemma NewOwnerStep(r: seq<Uuid>, store: Store, users: seq<Uuid>, k: nat)
    requires InStore(r, store) && k < |r| && ListsFirstOwners(r, store, users, k)
    requires store[r[k]].user !in users
    ensures ListsFirstOwners(r, store, users + [store[r[k]].user], k + 1)
  {
    var u := store[r[k]].user;
    UsersBeforeMeansOwner(r, store, k, u);
    FirstBidIndexIsUnique(r, store, u, k);
  }

  /**
    `getUsers`: the users owning a ranked bid, each once, in the order of their
    first appearance in the ranking.
  */
  method GetUsers(it: Item, store: Store) returns (users: seq<Uuid>)
    requires InStore(it.ranking, store)
    ensures forall u :: u in users <==> exists k :: 0 <= k < |it.ranking| && store[it.ranking[k]].user == u
    ensures Distinct(users)
    ensures forall i :: 0 <= i < |users| ==> FirstBidIndex(it.ranking, store, users[i]).Some?
    ensures forall i, j :: 0 <= i < j < |users| ==>
      FirstBidIndex(it.ranking, store, users[i]).value < FirstBidIndex(it.ranking, store, users[j]).value
  {
    users := CollectOwners(it.ranking, store);
    AllOwnersListed(it, store, users);
  }

  method CollectOwners(r: seq<Uuid>, store: Store) returns (users: seq<Uuid>)
    requires InStore(r, store)
    ensures ListsFirstOwners(r, store, users, |r|)
  {
    users := [];
    var k := 0;
    while k < |r|
      invariant 0 <= k <= |r|
      invariant ListsFirstOwners(r, store, users, k)
    {
      var u := store[r[k]].user;
      if u !in users {
        NewOwnerStep(r, store, users, k);
        users := users + [u];
      } else {
        SeenOwnerStep(r, store, users, k);
      }
      k := k + 1;
    }
  }

  lemma AllOwnersListed(it: Item, store: Store, users: seq<Uuid>)
    requires InStore(it.ranking, store) && ListsFirstOwners(it.ranking, store, users, |it.ranking|)
    ensures forall u :: u in users <==> exists k :: 0 <= k < |it.ranking| && store[it.ranking[k]].user == u
    ensures Distinct(users)
    ensures forall i :: 0 <= i < |users| ==> FirstBidIndex(it.ranking, store, users[i]).Some?
    ensures forall i, j :: 0 <= i < j < |users| ==>
      FirstBidIndex(it.ranking, store, users[i]).value < FirstBidIndex(it.ranking, store, users[j]).value
  {
    var r := it.ranking;
    forall u ensures u in users <==> exists j :: 0 <= j < |r| && store[r[j]].user == u {
      UsersBeforeMeansOwner(r, store, |r|, u);
    }
  }

  /**
    `addBid`: the bid enters the ranking unless some ranked bid compares equal
    to it (same amount and timestamp), in which case nothing changes.
  */
  function AddBid(it: Item, store: Store, id: Uuid): (it': Item)
    requires InStore(it.ranking, store) && id in store
    ensures it'.id == it.id && it'.name == it.name
    ensures it'.description == it.description && it'.reserve == it.reserve
    ensures InStore(it'.ranking, store)
    ensures (exists k :: 0 <= k < |it.ranking| && CompareTo(store[it.ranking[k]], store[id]) == 0) ==>
      it'.ranking == it.ranking
    ensures !(exists k :: 0 <= k < |it.ranking| && CompareTo(store[it.ranking[k]], store[id]) == 0) ==>
      multiset(it'.ranking) == multiset(it.ranking) + multiset{id}
    ensures forall y :: y in it'.ranking ==> y in it.ranking || y == id
  {
    if ContainsKey(it.ranking, store, store[id]) then it
    else it.(ranking := Insert(it.ranking, store, id))
  }

  /** A sorted ranking stays sorted through `addBid`, whichever branch it takes. */
  lemma AddBidKeepsSorted(it: Item, store: Store, id: Uuid)
    requires Sorted(it.ranking, store) && id in store
    ensures Sorted(AddBid(it, store, id).ranking, store)
  {
    if !ContainsKey(it.ranking, store, store[id]) {
      InsertKeepsSorted(it.ranking, store, id);
    }
  }

  /**
    Re-ranks bid `id` after its amount and timestamp changed in `store`: the id
    is taken out of the ranking wherever it sits, then added again under its
    new key through `addBid`.
  */
  function BidModified(it: Item, store: Store, id: Uuid): (it': Item)
    requires InStore(it.ranking, store) && id in store
    ensures it'.id == it.id && it'.name == it.name
    ensures it'.description == it.description && it'.reserve == it.reserve
    ensures InStore(it'.ranking, store)
    ensures forall y :: y != id ==> (y in it'.ranking <==> y in it.ranking)
    ensures id in it'.ranking <==>
      forall y :: y in it.ranking && y != id ==> CompareTo(store[y], store[id]) != 0
  {
    var removed := it.(ranking := Remove(it.ranking, id));
    assert InStore(removed.ranking, store) by {
      forall k | 0 <= k < |removed.ranking| ensures removed.ranking[k] in store {
        assert removed.ranking[k] in it.ranking;
      }
    }
    var it' := AddBid(removed, store, id);
    assert forall y :: y in it'.ranking <==> y in multiset(it'.ranking);
    assert id in it'.ranking <==> !ContainsKey(removed.ranking, store, store[id]);
    assert forall y :: y != id ==> (y in it'.ranking <==> y in removed.ranking);
    it'
  }

  /**
    Changing a ranked bid's key and then re-ranking it leaves the ranking sorted
    under the new key, whatever the old position was.
  */
  lemma BidModifiedRestoresOrder(it: Item, store: Store, id: Uuid, b: Bid)
    requires Sorted(it.ranking, store)
    ensures Sorted(BidModified(it, store[id := b], id).ranking, store[id := b])
  {
    var store' := store[id := b];
    var removed := Remove(it.ranking, id);
    RemoveKeepsSorted(it.ranking, store, id);
    StoreUpdateKeepsSorted(removed, store, id, b);
    AddBidKeepsSorted(it.(ranking := removed), store', id);
  }

  /**
    A bid re-ranked after being raised above every other ranked bid becomes
    the winner: it lands in front of the ranking.
  */
  lemma OutrankingBidLeads(it: Item, store: Store, id: Uuid)
    requires InStore(it.ranking, store) && id in store
    requires forall y :: y in it.ranking && y != id ==> Outranks(store[id], store[y])
    ensures |BidModified(it, store, id).ranking| > 0
    ensures BidModified(it, store, id).ranking[0] == id
  {
    var removed := Remove(it.ranking, id);
    assert InStore(removed, store) by {
      forall k | 0 <= k < |removed| ensures removed[k] in store {
        assert removed[k] in it.ranking;
      }
    }
    forall k | 0 <= k < |removed| ensures CompareTo(store[id], store[removed[k]]) < 0 {
      assert removed[k] in it.ranking;
    }
    assert !ContainsKey(removed, store, store[id]) by {
      forall k | 0 <= k < |removed| ensures CompareTo(store[removed[k]], store[id]) != 0 {
        CompareToAntisymmetric(store[id], store[removed[k]]);
      }
    }
  }

  /** `getWinningBid`: the first entry of a non-empty ranking. */
  function GetWinningBid(it: Item): (w: Uuid)
    requires |it.ranking| > 0
    ensures w in it.ranking
  {
    it.ranking[0]
  }

  /** In a sorted ranking the winner outranks every other bid and has the highest amount. */
  lemma WinnerOutranksAll(it: Item, store: Store)
    requires Sorted(it.ranking, store) && |it.ranking| > 0
    ensures forall k :: 0 <= k < |it.ranking| && it.ranking[k] != GetWinningBid(it) ==>
      Outranks(store[GetWinningBid(it)], store[it.ranking[k]])
    ensures forall k :: 0 <= k < |it.ranking| ==>
      store[it.ranking[k]].amount <= store[GetWinningBid(it)].amount
  {
    FirstOutranksRest(it.ranking, store);
  }
}
