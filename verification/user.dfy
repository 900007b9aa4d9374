/**
  A bidder (User.java): a fixed display name, the bids the user has made in
  the order made, and the items the user has bid on, each listed once.
  Bids and items are referred to by id.
*/
module Users {
  import opened Collections
  import opened Identity
  import opened Bids

  datatype User = User(id: Uuid, name: string, bids: seq<Uuid>, items: seq<Uuid>) {
    function AsEntity(): Entity {
      Entity(UserKind, id)
    }
  }

  /** The constructor: a name and no bids or items yet. */
  function NewUser(id: Uuid, name: string): (u: User)
    ensures u.id == id && u.name == name
    ensures u.bids == [] && u.items == []
  {
    User(id, name, [], [])
  }

  /**
    `makeBid`: creates a bid on `item` for `amount` stamped `now`, appends it to
    the user's bids, and records the item unless it is already recorded.
  */
  function MakeBid(u: User, item: Uuid, amount: int, bidId: Uuid, now: int): (res: (User, Bid))
    ensures res.1.id == bidId && res.1.item == item && res.1.user == u.id
    ensures res.1.amount == amount && res.1.timestamp == now
    ensures res.0.id == u.id && res.0.name == u.name
    ensures |res.0.bids| == |u.bids| + 1
    ensures res.0.bids[..|u.bids|] == u.bids && res.0.bids[|u.bids|] == bidId
    ensures item in u.items ==> res.0.items == u.items
    ensures item !in u.items ==> res.0.items == u.items + [item]
    ensures Distinct(u.items) ==> Distinct(res.0.items)
  {
    var b := NewBid(bidId, item, u.id, amount, now);
    var items := if item in u.items then u.items else u.items + [item];
    (u.(bids := u.bids + [bidId], items := items), b)
  }

  /** The user's lists only grow: every earlier entry stays where it was. */
  lemma MakeBidOnlyGrows(u: User, item: Uuid, amount: int, bidId: Uuid, now: int)
    ensures var u' := MakeBid(u, item, amount, bidId, now).0;
      && u'.bids[..|u.bids|] == u.bids
      && |u.items| <= |u'.items| && u'.items[..|u.items|] == u.items
      && item in u'.items
  {
  }
}
