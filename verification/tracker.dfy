/**
  The bid tracker (BidTrackerImpl.java): three registries keyed by id, and the
  registration, bidding and winning-bid operations over them. Every operation
  is a function from the tracker state to a new state and a result; the fresh
  id of a new bid and the current time are parameters.
*/
module Tracker {
  import opened Wrappers
  import opened Collections
  import opened Identity
  import opened Bids
  import opened Ranking
  import opened Items
  import opened Users
  import opened ObjectCache

  datatype State = State(items: Cache<Item>, users: Cache<User>, bids: Cache<Bid>)

  function ItemIdOf(it: Item): Uuid { it.id }
  function UserIdOf(u: User): Uuid { u.id }
  function BidIdOf(b: Bid): Uuid { b.id }

  /** A tracker with nothing registered. */
  const Empty: State := State(map[], map[], map[])

  /** Every ranked bid id resolves in the bid registry. */
  predicate Wired(t: State) {
    forall i :: i in t.items ==> InStore(t.items[i].ranking, t.bids)
  }

  /** The ranking of item `i`: sorted by the comparator, and holding only bids on `i`. */
  ghost predicate RankedFor(r: seq<Uuid>, store: Store, i: Uuid) {
    && Sorted(r, store)
    && forall k :: 0 <= k < |r| ==> store[r[k]].item == i
  }

  /** Every item's ranking is sorted and holds only bids on that item. */
  ghost predicate RankingsOk(items: Cache<Item>, bids: Cache<Bid>) {
    forall i :: i in items ==> RankedFor(items[i].ranking, bids, i)
  }

  /** Every bid refers to a registered item and a registered user. */
  ghost predicate BidRefsOk(t: State) {
    forall b :: b in t.bids ==> t.bids[b].item in t.items && t.bids[b].user in t.users
  }

  /** Every bid is listed among the bids of the user who made it. */
  ghost predicate BidsListed(t: State) {
    forall b :: b in t.bids && t.bids[b].user in t.users ==> b in t.users[t.bids[b].user].bids
  }

  /** Every bid amount is positive and reaches the reserve of its item; no bid is ever lowered below either. */
  ghost predicate AmountsOk(t: State) {
    forall b :: b in t.bids ==>
      && t.bids[b].amount > 0
      && (t.bids[b].item in t.items ==> t.bids[b].amount >= t.items[t.bids[b].item].reserve)
  }

  /** The items of the stored bids among `ids`. */
  ghost function BidItems(ids: seq<Uuid>, bids: Cache<Bid>): set<Uuid> {
    set k | 0 <= k < |ids| && ids[k] in bids :: bids[ids[k]].item
  }

  /**
    A user's lists point at registered bids of that user and at registered
    items, each item once, and the items are exactly the items of the bids.
  */
  ghost predicate UserConsistent(u: User, items: Cache<Item>, bids: Cache<Bid>) {
    && (forall k :: 0 <= k < |u.bids| ==> u.bids[k] in bids && bids[u.bids[k]].user == u.id)
    && (forall k :: 0 <= k < |u.items| ==> u.items[k] in items)
    && Distinct(u.items)
    && (forall i :: i in u.items <==> i in BidItems(u.bids, bids))
  }

  ghost predicate UsersOk(t: State) {
    forall u :: u in t.users ==> UserConsistent(t.users[u], t.items, t.bids)
  }

  /** The tracker invariant. */
  ghost predicate Valid(t: State) {
    && KeyedById(t.items, ItemIdOf)
    && KeyedById(t.users, UserIdOf)
    && KeyedById(t.bids, BidIdOf)
    && RankingsOk(t.items, t.bids)
    && BidRefsOk(t)
    && UsersOk(t)
    && BidsListed(t)
    && AmountsOk(t)
  }

  /** In a valid tracker every bid is above zero and at or above its item's reserve. */
  lemma BidAmountsAboveReserve(t: State)
    requires Valid(t)
    ensures forall b :: b in t.bids ==>
      && t.bids[b].item in t.items
      && t.bids[b].amount > 0
      && t.bids[b].amount >= t.items[t.bids[b].item].reserve
  {
  }

  /** Re-storing a listed bid on the same item, or storing an unlisted one, changes no listed item. */
  lemma BidItemsUnchanged(ids: seq<Uuid>, bids: Cache<Bid>, x: Uuid, b: Bid)
    requires forall k :: 0 <= k < |ids| ==> ids[k] in bids
    requires x in bids ==> bids[x].item == b.item
    ensures BidItems(ids, bids[x := b]) == BidItems(ids, bids)
  {
    var bids' := bids[x := b];
    forall i | i in BidItems(ids, bids') ensures i in BidItems(ids, bids) {
      var k :| 0 <= k < |ids| && ids[k] in bids' && bids'[ids[k]].item == i;
    }
    forall i | i in BidItems(ids, bids) ensures i in BidItems(ids, bids') {
      var k :| 0 <= k < |ids| && ids[k] in bids && bids[ids[k]].item == i;
      assert bids'[ids[k]].item == i;
    }
  }

  /** Appending a freshly stored bid adds exactly its item. */
  lemma BidItemsAppend(ids: seq<Uuid>, bids: Cache<Bid>, x: Uuid, b: Bid)
    requires forall k :: 0 <= k < |ids| ==> ids[k] in bids
    requires x !in bids
    ensures BidItems(ids + [x], bids[x := b]) == BidItems(ids, bids) + {b.item}
  {
    var bids' := bids[x := b];
    var ids' := ids + [x];
    BidItemsUnchanged(ids, bids, x, b);
    forall i | i in BidItems(ids', bids') ensures i in BidItems(ids, bids') + {b.item} {
      var k :| 0 <= k < |ids'| && ids'[k] in bids' && bids'[ids'[k]].item == i;
      if k < |ids| {
        assert ids'[k] == ids[k];
      }
    }
    forall i | i in BidItems(ids, bids') + {b.item} ensures i in BidItems(ids', bids') {
      if i == b.item {
        assert ids'[|ids|] == x;
      } else {
        var k :| 0 <= k < |ids| && ids[k] in bids' && bids'[ids[k]].item == i;
        assert ids'[k] == ids[k];
      }
    }
  }

  lemma ValidIsWired(t: State)
    requires Valid(t)
    ensures Wired(t)
  {
  }

  lemma EmptyIsValid()
    ensures Valid(Empty)
  {
  }

  /**
    Base equality never confuses entities of different classes, even under the
    same id, and within one class it is equality of ids.
  */
  lemma EqualityByClassAndId(u: User, it: Item, b: Bid, v: User)
    ensures !Equals(u.AsEntity(), Some(it.AsEntity())) && !Equals(u.AsEntity(), Some(b.AsEntity()))
    ensures !Equals(it.AsEntity(), Some(b.AsEntity()))
    ensures Equals(u.AsEntity(), Some(v.AsEntity())) <==> u.id == v.id
  {
  }

  /** `registerUser`: refused when the id is already registered, otherwise recorded. */
  function RegisterUser(t: State, user: User): (res: (State, bool))
    ensures res.1 <==> user.id !in t.users
    ensures !res.1 ==> res.0 == t
    ensures res.1 ==> res.0.users == t.users[user.id := user]
    ensures res.0.items == t.items && res.0.bids == t.bids
  {
    if ContainsItem(t.users, UserIdOf, user) then (t, false)
    else (t.(users := AddItem(t.users, UserIdOf, user)), true)
  }

  /** `registerItem`: refused when the id is already registered, otherwise recorded. */
  function RegisterItem(t: State, item: Item): (res: (State, bool))
    ensures res.1 <==> item.id !in t.items
    ensures !res.1 ==> res.0 == t
    ensures res.1 ==> res.0.items == t.items[item.id := item]
    ensures res.0.users == t.users && res.0.bids == t.bids
  {
    if ContainsItem(t.items, ItemIdOf, item) then (t, false)
    else (t.(items := AddItem(t.items, ItemIdOf, item)), true)
  }

  /** Registering the same user twice: the second call fails and changes nothing. */
  lemma RegisterUserTwice(t: State, user: User)
    ensures var (t1, _) := RegisterUser(t, user);
      RegisterUser(t1, user) == (t1, false)
      && user.id in t1.users
  {
  }

  /** Registering the same item twice: the second call fails and changes nothing. */
  lemma RegisterItemTwice(t: State, item: Item)
    ensures var (t1, _) := RegisterItem(t, item);
      RegisterItem(t1, item) == (t1, false)
      && item.id in t1.items
  {
  }

  /** Registering a freshly constructed user keeps the invariant. */
  lemma RegisterUserKeepsValid(t: State, user: User)
    requires Valid(t)
    requires user.bids == [] && user.items == []
    ensures Valid(RegisterUser(t, user).0)
  {
    if user.id !in t.users {
      NewUserKeepsUsers(t, user);
    }
  }

  /** A new user with empty lists is consistent, every other user is untouched, and every bid stays listed. */
  lemma NewUserKeepsUsers(t: State, user: User)
    requires UsersOk(t) && BidsListed(t) && BidRefsOk(t)
    requires user.id !in t.users && user.bids == [] && user.items == []
    ensures var t' := t.(users := t.users[user.id := user]);
      UsersOk(t') && BidsListed(t') && BidRefsOk(t')
  {
    var t' := t.(users := t.users[user.id := user]);
    forall u | u in t'.users ensures UserConsistent(t'.users[u], t'.items, t'.bids) {
      if u != user.id {
        assert t'.users[u] == t.users[u];
      }
    }
  }

  /** Registering a freshly constructed item, with an empty ranking, keeps the invariant. */
  lemma RegisterItemKeepsValid(t: State, item: Item)
    requires Valid(t)
    requires item.ranking == []
    ensures Valid(RegisterItem(t, item).0)
  {
    if item.id !in t.items {
      NewItemKeepsLinks(t, item);
    }
  }

  /** A new item with no bids is ranked trivially, and no bid, user or amount bound is disturbed. */
  lemma NewItemKeepsLinks(t: State, item: Item)
    requires RankingsOk(t.items, t.bids) && UsersOk(t) && AmountsOk(t) && BidRefsOk(t)
    requires item.id !in t.items && item.ranking == []
    ensures var t' := t.(items := t.items[item.id := item]);
      RankingsOk(t'.items, t'.bids) && UsersOk(t') && AmountsOk(t')
  {
    var t' := t.(items := t.items[item.id := item]);
    forall i | i in t'.items ensures RankedFor(t'.items[i].ranking, t'.bids, i) {
      if i != item.id {
        assert t'.items[i] == t.items[i];
      }
    }
    forall u | u in t'.users ensures UserConsistent(t'.users[u], t'.items, t'.bids) {
      assert UserConsistent(t.users[u], t.items, t.bids);
    }
  }

  /**
    The three checks of `registerBid`: the item is registered, the user is
    registered, and the amount is positive and at least the item's reserve.
  */
  predicate Accepts(t: State, itemId: Uuid, userId: Uuid, amount: int)
    ensures Accepts(t, itemId, userId, amount) <==>
      itemId in t.items && userId in t.users && amount > 0 && amount >= t.items[itemId].reserve
  {
    && GetItem(t.items, itemId).Some?
    && GetItem(t.users, userId).Some?
    && amount > 0
    && amount >= t.items[itemId].reserve
  }

  /** The amend branch: new amount and timestamp on the existing bid, then a re-rank. */
  function AmendBid(t: State, itemId: Uuid, existing: Uuid, amount: int, now: int): (res: (State, Option<Bid>))
    requires Wired(t) && itemId in t.items && existing in t.bids
    ensures Wired(res.0) && res.1.Some?
    ensures res.1.value.id == t.bids[existing].id && res.1.value.item == t.bids[existing].item
    ensures res.1.value.user == t.bids[existing].user
    ensures res.1.value.amount == amount && res.1.value.timestamp == now
    ensures res.0.bids.Keys == t.bids.Keys && res.0.bids[existing] == res.1.value
    ensures res.0.users == t.users && res.0.items.Keys == t.items.Keys
    ensures forall b :: b in t.bids && b != existing ==> res.0.bids[b] == t.bids[b]
    ensures forall i :: i in t.items && i != itemId ==> res.0.items[i] == t.items[i]
    ensures forall y :: y != existing ==> (y in res.0.items[itemId].ranking <==> y in t.items[itemId].ranking)
    ensures existing in res.0.items[itemId].ranking <==>
      forall y :: y in t.items[itemId].ranking && y != existing ==> !SameKey(t.bids[y], res.1.value)
  {
    var amended := SetBidAmount(t.bids[existing], amount, now);
    var bids := t.bids[existing := amended];
    var item := BidModified(t.items[itemId], bids, existing);
    (t.(bids := bids, items := t.items[itemId := item]), Some(amended))
  }

  /** The new-bid branch: the user makes the bid, the item ranks it, the registry records it. */
  function PlaceNewBid(t: State, itemId: Uuid, userId: Uuid, amount: int, newId: Uuid, now: int): (res: (State, Option<Bid>))
    requires Wired(t) && itemId in t.items && userId in t.users
    ensures Wired(res.0) && res.1.Some?
    ensures res.1.value.id == newId && res.1.value.item == itemId && res.1.value.user == t.users[userId].id
    ensures res.1.value.amount == amount && res.1.value.timestamp == now
    ensures res.0.bids.Keys == t.bids.Keys + {newId} && res.0.bids[newId] == res.1.value
    ensures res.0.items.Keys == t.items.Keys && res.0.users.Keys == t.users.Keys
    ensures res.0.users[userId].bids == t.users[userId].bids + [newId]
    ensures forall b :: b in t.bids && b != newId ==> res.0.bids[b] == t.bids[b]
    ensures forall i :: i in t.items && i != itemId ==> res.0.items[i] == t.items[i]
    ensures forall u :: u in t.users && u != userId ==> res.0.users[u] == t.users[u]
    ensures forall y :: y in t.items[itemId].ranking ==> y in res.0.items[itemId].ranking
    ensures forall y :: y in res.0.items[itemId].ranking ==> y in t.items[itemId].ranking || y == newId
  {
    var made := MakeBid(t.users[userId], itemId, amount, newId, now);
    var bids := AddItem(t.bids, BidIdOf, made.1);
    var item := AddBid(t.items[itemId], bids, newId);
    (State(t.items[itemId := item], t.users[userId := made.0], bids), Some(made.1))
  }

  /**
    `registerBid`. A rejected request changes nothing and yields `None`. An
    accepted one amends the user's ranked bid on the item when its amount
    differs, and otherwise (no such bid, or the same amount) creates a new bid
    with id `newId`.
  */
  function RegisterBid(t: State, itemId: Uuid, userId: Uuid, amount: int, newId: Uuid, now: int): (res: (State, Option<Bid>))
    requires Wired(t) && newId !in t.bids
    ensures res.1.None? <==> !Accepts(t, itemId, userId, amount)
    ensures res.1.None? ==> res.0 == t
    ensures res.1.Some? ==> res.1.value.amount == amount && res.1.value.timestamp == now
    ensures res.1.Some? ==> res.1.value.amount > 0 && res.1.value.amount >= t.items[itemId].reserve
    ensures Wired(res.0)
    ensures t.bids.Keys <= res.0.bids.Keys <= t.bids.Keys + {newId}
    ensures forall b :: b in t.bids && res.0.bids[b] != t.bids[b] ==> res.1.Some? && res.0.bids[b] == res.1.value
    ensures res.0.items.Keys == t.items.Keys && res.0.users.Keys == t.users.Keys
    ensures forall i :: i in t.items && i != itemId ==> res.0.items[i] == t.items[i]
    ensures forall u :: u in t.users && u != userId ==> res.0.users[u] == t.users[u]
    ensures itemId in t.items ==> forall y :: y in t.items[itemId].ranking && res.0.bids[y] == t.bids[y] ==>
      y in res.0.items[itemId].ranking
    ensures itemId in t.items ==> forall y :: y in res.0.items[itemId].ranking ==>
      y in t.items[itemId].ranking || (res.1.Some? && res.0.bids[y] == res.1.value)
  {
    if !Accepts(t, itemId, userId, amount) then (t, None)
    else
      var existing := GetBidFromUser(t.items[itemId], t.bids, userId);
      if existing.Some? && t.bids[existing.value].amount != amount then
        AmendBid(t, itemId, existing.value, amount, now)
      else
        PlaceNewBid(t, itemId, userId, amount, newId, now)
  }

  /** The reserve bound is inclusive: the reserve itself is accepted, anything below it is not. */
  lemma ReserveIsInclusive(t: State, itemId: Uuid, userId: Uuid, newId: Uuid, now: int)
    requires Wired(t) && newId !in t.bids
    requires itemId in t.items && userId in t.users && t.items[itemId].reserve > 0
    ensures var reserve := t.items[itemId].reserve;
      && RegisterBid(t, itemId, userId, reserve, newId, now).1.Some?
      && RegisterBid(t, itemId, userId, reserve - 1, newId, now).1.None?
  {
  }

  /** With a ranked bid `e` of the user at a different amount, `registerBid` amends `e`. */
  lemma TakesAmendPath(t: State, itemId: Uuid, userId: Uuid, amount: int, newId: Uuid, now: int, e: Uuid)
    requires Wired(t) && newId !in t.bids && Accepts(t, itemId, userId, amount)
    requires GetBidFromUser(t.items[itemId], t.bids, userId) == Some(e)
    requires t.bids[e].amount != amount
    ensures RegisterBid(t, itemId, userId, amount, newId, now) == AmendBid(t, itemId, e, amount, now)
  {
  }

  /** Without a ranked bid of the user, or with one at the same amount, `registerBid` creates a bid. */
  lemma TakesNewPath(t: State, itemId: Uuid, userId: Uuid, amount: int, newId: Uuid, now: int)
    requires Wired(t) && newId !in t.bids && Accepts(t, itemId, userId, amount)
    requires var existing := GetBidFromUser(t.items[itemId], t.bids, userId);
      existing.None? || t.bids[existing.value].amount == amount
    ensures RegisterBid(t, itemId, userId, amount, newId, now) == PlaceNewBid(t, itemId, userId, amount, newId, now)
  {
  }

  /**
    A second bid from a user whose ranked bid on the item has a different
    amount amends that bid: same id, item and user, the new amount and time,
    and no bid is added to any registry or list.
  */
  lemma AmendKeepsIdentity(t: State, itemId: Uuid, userId: Uuid, amount: int, newId: Uuid, now: int, e: Uuid)
    requires Valid(t) && newId !in t.bids && Accepts(t, itemId, userId, amount)
    requires GetBidFromUser(t.items[itemId], t.bids, userId) == Some(e)
    requires t.bids[e].amount != amount
    ensures var (t', r) := RegisterBid(t, itemId, userId, amount, newId, now);
      && r.Some? && r.value.id == e && r.value.item == itemId && r.value.user == userId
      && r.value.amount == amount && r.value.timestamp == now
      && t'.bids.Keys == t.bids.Keys && t'.bids[e] == r.value
      && (forall b :: b in t.bids && b != e ==> t'.bids[b] == t.bids[b])
      && t'.users == t.users
  {
    ValidIsWired(t);
    RankedOnOneItem(t.items, t.bids, itemId, e);
    assert t.bids[e].id == e;
    AmendOutcome(t, itemId, userId, amount, newId, now, e);
  }

  /**
    `AmendKeepsIdentity` under `Wired` alone, given the two facts about the
    amended bid that the full invariant supplies.
  */
  lemma AmendOutcome(t: State, itemId: Uuid, userId: Uuid, amount: int, newId: Uuid, now: int, e: Uuid)
    requires Wired(t) && newId !in t.bids && Accepts(t, itemId, userId, amount)
    requires GetBidFromUser(t.items[itemId], t.bids, userId) == Some(e)
    requires t.bids[e].amount != amount
    requires t.bids[e].id == e && t.bids[e].item == itemId
    ensures var (t', r) := RegisterBid(t, itemId, userId, amount, newId, now);
      && r.Some? && r.value.id == e && r.value.item == itemId && r.value.user == userId
      && r.value.amount == amount && r.value.timestamp == now
      && t'.bids.Keys == t.bids.Keys && t'.bids[e] == r.value
      && (forall b :: b in t.bids && b != e ==> t'.bids[b] == t.bids[b])
      && t'.users == t.users
  {
    TakesAmendPath(t, itemId, userId, amount, newId, now, e);
    AmendBidUpdatesOneBid(t, itemId, e, amount, now);
  }

  /** The amend path rewrites the one stored bid and touches no user. */
  lemma AmendBidUpdatesOneBid(t: State, itemId: Uuid, e: Uuid, amount: int, now: int)
    requires Wired(t) && itemId in t.items && e in t.bids
    ensures var (t', r) := AmendBid(t, itemId, e, amount, now);
      && r == Some(SetBidAmount(t.bids[e], amount, now))
      && t'.bids == t.bids[e := r.value] && t'.users == t.users
      && t'.items == t.items[itemId := BidModified(t.items[itemId], t'.bids, e)]
      && t'.items.Keys == t.items.Keys
  {
  }

  /**
    Resubmitting the amount the user's ranked bid already has leaves that bid
    untouched and goes on to create a new bid under `newId`.
  */
  lemma SameAmountCreatesNewBid(t: State, itemId: Uuid, userId: Uuid, amount: int, newId: Uuid, now: int, e: Uuid)
    requires Wired(t) && newId !in t.bids && Accepts(t, itemId, userId, amount)
    requires GetBidFromUser(t.items[itemId], t.bids, userId) == Some(e)
    requires t.bids[e].amount == amount
    ensures var (t', r) := RegisterBid(t, itemId, userId, amount, newId, now);
      && r.Some? && r.value.id == newId && newId != e
      && e in t'.bids && t'.bids[e] == t.bids[e]
      && |t'.users[userId].bids| == |t.users[userId].bids| + 1
  {
    TakesNewPath(t, itemId, userId, amount, newId, now);
  }

  /**
    A new bid carries the given item, user, amount and time, is recorded in the
    bid registry, appended to the user's bids and noted in the user's items.
  */
  lemma NewBidIsRecorded(t: State, itemId: Uuid, userId: Uuid, amount: int, newId: Uuid, now: int)
    requires Wired(t) && KeyedById(t.users, UserIdOf) && newId !in t.bids && Accepts(t, itemId, userId, amount)
    requires var existing := GetBidFromUser(t.items[itemId], t.bids, userId);
      existing.None? || t.bids[existing.value].amount == amount
    ensures var (t', r) := RegisterBid(t, itemId, userId, amount, newId, now);
      && r == Some(NewBid(newId, itemId, userId, amount, now))
      && newId in t'.bids && t'.bids[newId] == r.value
      && t'.users[userId].bids == t.users[userId].bids + [newId]
      && itemId in t'.users[userId].items
  {
    TakesNewPath(t, itemId, userId, amount, newId, now);
    assert t.users[userId].id == userId;
  }

  /**
    A new bid enters the item's ranking exactly when no ranked bid has the same
    amount and timestamp as it.
  */
  lemma NewBidRankedUnlessKeyTaken(t: State, itemId: Uuid, userId: Uuid, amount: int, newId: Uuid, now: int)
    requires Wired(t) && newId !in t.bids && Accepts(t, itemId, userId, amount)
    requires var existing := GetBidFromUser(t.items[itemId], t.bids, userId);
      existing.None? || t.bids[existing.value].amount == amount
    ensures var t' := RegisterBid(t, itemId, userId, amount, newId, now).0;
      newId in t'.items[itemId].ranking <==>
        forall y :: y in t.items[itemId].ranking ==> t.bids[y].amount != amount || t.bids[y].timestamp != now
  {
    TakesNewPath(t, itemId, userId, amount, newId, now);
    var item := t.items[itemId];
    var nb := MakeBid(t.users[userId], itemId, amount, newId, now).1;
    var bids := t.bids[newId := nb];
    var item' := AddBid(item, bids, newId);
    assert forall y :: y in item'.ranking <==> y in multiset(item'.ranking);
    forall y | y in item.ranking ensures CompareTo(bids[y], nb) == 0 <==> SameKey(t.bids[y], nb) {
      assert y != newId;
    }
    if newId !in item'.ranking {
      var k :| 0 <= k < |item.ranking| && CompareTo(bids[item.ranking[k]], bids[newId]) == 0;
      assert item.ranking[k] in item.ranking;
    }
  }

  /** A store update at `x` leaves sorted every ranking other than `itemId`'s, if none holds `x`. */
  lemma OtherRankingsSurvive(items: Cache<Item>, bids: Cache<Bid>, itemId: Uuid, x: Uuid, b: Bid)
    requires RankingsOk(items, bids)
    requires forall i :: i in items && i != itemId ==> x !in items[i].ranking
    ensures forall i :: i in items && i != itemId ==> RankedFor(items[i].ranking, bids[x := b], i)
  {
    forall i | i in items && i != itemId ensures RankedFor(items[i].ranking, bids[x := b], i) {
      var r := items[i].ranking;
      StoreUpdateKeepsSorted(r, bids, x, b);
      forall k | 0 <= k < |r| ensures bids[x := b][r[k]].item == i {
        assert r[k] != x by { assert r[k] in r; }
      }
    }
  }

  /** A bid ranked on one item is ranked on no other. */
  lemma RankedOnOneItem(items: Cache<Item>, bids: Cache<Bid>, itemId: Uuid, x: Uuid)
    requires RankingsOk(items, bids) && itemId in items && x in items[itemId].ranking
    ensures x in bids && bids[x].item == itemId
    ensures forall i :: i in items && i != itemId ==> x !in items[i].ranking
  {
    var r := items[itemId].ranking;
    var k :| 0 <= k < |r| && r[k] == x;
    forall i | i in items && i != itemId ensures x !in items[i].ranking {
    }
  }

  /** The amended bid's own item stays sorted and only holds bids on that item. */
  lemma AmendedRankingFor(item: Item, bids: Cache<Bid>, itemId: Uuid, e: Uuid, b: Bid)
    requires RankedFor(item.ranking, bids, itemId) && e in item.ranking
    requires b.item == itemId
    ensures RankedFor(BidModified(item, bids[e := b], e).ranking, bids[e := b], itemId)
  {
    var bids' := bids[e := b];
    var r := item.ranking;
    BidModifiedRestoresOrder(item, bids, e, b);
    var r' := BidModified(item, bids', e).ranking;
    forall k | 0 <= k < |r'| ensures bids'[r'[k]].item == itemId {
      assert r'[k] in r';
      if r'[k] != e {
        assert r'[k] in r;
        var j :| 0 <= j < |r| && r[j] == r'[k];
      }
    }
  }

  /** Amending bid `e` of item `itemId` and re-ranking it keeps every ranking sorted and on its item. */
  lemma AmendKeepsRankings(items: Cache<Item>, bids: Cache<Bid>, itemId: Uuid, e: Uuid, b: Bid)
    requires RankingsOk(items, bids) && itemId in items && e in items[itemId].ranking
    requires b.item == itemId
    ensures e in bids
    ensures RankingsOk(items[itemId := BidModified(items[itemId], bids[e := b], e)], bids[e := b])
  {
    RankedOnOneItem(items, bids, itemId, e);
    OtherRankingsSurvive(items, bids, itemId, e, b);
    AmendedRankingFor(items[itemId], bids, itemId, e, b);
  }

  /** A fresh bid joins its item's ranking without breaking order or item membership. */
  lemma NewRankingFor(item: Item, bids: Cache<Bid>, itemId: Uuid, x: Uuid, b: Bid)
    requires RankedFor(item.ranking, bids, itemId) && x !in bids
    requires b.item == itemId
    ensures RankedFor(AddBid(item, bids[x := b], x).ranking, bids[x := b], itemId)
  {
    var bids' := bids[x := b];
    var r := item.ranking;
    StoreUpdateKeepsSorted(r, bids, x, b);
    AddBidKeepsSorted(item, bids', x);
    var r' := AddBid(item, bids', x).ranking;
    forall k | 0 <= k < |r'| ensures bids'[r'[k]].item == itemId {
      assert r'[k] in r';
      if r'[k] != x {
        assert r'[k] in r;
        var j :| 0 <= j < |r| && r[j] == r'[k];
      }
    }
  }

  lemma NewBidKeepsRankings(items: Cache<Item>, bids: Cache<Bid>, itemId: Uuid, x: Uuid, b: Bid)
    requires RankingsOk(items, bids) && itemId in items && x !in bids
    requires b.item == itemId
    ensures RankingsOk(items[itemId := AddBid(items[itemId], bids[x := b], x)], bids[x := b])
  {
    forall i | i in items ensures x !in items[i].ranking {
    }
    OtherRankingsSurvive(items, bids, itemId, x, b);
    NewRankingFor(items[itemId], bids, itemId, x, b);
  }

  /** After an accepted amendment the invariant still holds. */
  lemma AmendKeepsValid(t: State, itemId: Uuid, e: Uuid, amount: int, now: int)
    requires Valid(t) && itemId in t.items && e in t.items[itemId].ranking
    requires amount > 0 && amount >= t.items[itemId].reserve
    ensures Valid(AmendBid(t, itemId, e, amount, now).0)
  {
    AmendKeepsKeys(t, itemId, e, amount, now);
    AmendKeepsLinks(t, itemId, e, amount, now);
    AmendKeepsAmounts(t, itemId, e, amount, now);
  }

  /** An accepted amendment keeps every bid listed with its user and every amount within bounds. */
  lemma AmendKeepsAmounts(t: State, itemId: Uuid, e: Uuid, amount: int, now: int)
    requires Valid(t) && itemId in t.items && e in t.items[itemId].ranking
    requires amount > 0 && amount >= t.items[itemId].reserve
    ensures var t' := AmendBid(t, itemId, e, amount, now).0;
      BidsListed(t') && AmountsOk(t')
  {
    ValidIsWired(t);
    AmendBidUpdatesOneBid(t, itemId, e, amount, now);
    var t' := AmendBid(t, itemId, e, amount, now).0;
    var r := t.items[itemId].ranking;
    var k :| 0 <= k < |r| && r[k] == e;
    assert t.bids[e].item == itemId;
    ReservesSurvive(t.items, itemId, t'.items[itemId]);
    AmountsSurvive(t, t', e, t'.bids[e]);
    ListedSurviveAmend(t, t', e, t'.bids[e]);
  }

  /** Re-storing an item with its reserve unchanged keeps every reserve. */
  lemma ReservesSurvive(items: Cache<Item>, itemId: Uuid, it: Item)
    requires itemId in items && it.reserve == items[itemId].reserve
    ensures items[itemId := it].Keys == items.Keys
    ensures forall i :: i in items ==> items[itemId := it][i].reserve == items[i].reserve
  {
  }

  /** Amounts stay within bounds when one bid is stored with an admissible amount and no reserve changes. */
  lemma AmountsSurvive(t: State, t': State, x: Uuid, b: Bid)
    requires AmountsOk(t)
    requires t'.items.Keys == t.items.Keys
    requires forall i :: i in t.items ==> t'.items[i].reserve == t.items[i].reserve
    requires t'.bids == t.bids[x := b]
    requires b.amount > 0 && (b.item in t'.items ==> b.amount >= t'.items[b.item].reserve)
    ensures AmountsOk(t')
  {
  }

  /** Re-storing a bid for the same user, with the users untouched, keeps every bid listed. */
  lemma ListedSurviveAmend(t: State, t': State, x: Uuid, b: Bid)
    requires BidsListed(t) && t'.users == t.users
    requires x in t.bids && t'.bids == t.bids[x := b] && b.user == t.bids[x].user
    ensures BidsListed(t')
  {
  }

  /** A new bid appended to its bidder's list, with older entries kept, keeps every bid listed. */
  lemma ListedSurviveNewBid(t: State, t': State, x: Uuid, b: Bid, u': User)
    requires BidsListed(t) && x !in t.bids && t'.bids == t.bids[x := b]
    requires b.user in t.users && t'.users == t.users[b.user := u']
    requires |t.users[b.user].bids| <= |u'.bids| && u'.bids[..|t.users[b.user].bids|] == t.users[b.user].bids
    requires x in u'.bids
    ensures BidsListed(t')
  {
    var old_ := t.users[b.user].bids;
    forall y | y in t'.bids && t'.bids[y].user in t'.users ensures y in t'.users[t'.bids[y].user].bids {
      if y != x && t.bids[y].user == b.user {
        var k :| 0 <= k < |old_| && old_[k] == y;
        assert u'.bids[k] == u'.bids[..|old_|][k];
      }
    }
  }

  lemma AmendKeepsKeys(t: State, itemId: Uuid, e: Uuid, amount: int, now: int)
    requires Valid(t) && itemId in t.items && e in t.items[itemId].ranking
    ensures var t' := AmendBid(t, itemId, e, amount, now).0;
      && KeyedById(t'.items, ItemIdOf) && KeyedById(t'.users, UserIdOf) && KeyedById(t'.bids, BidIdOf)
  {
    RankedOnOneItem(t.items, t.bids, itemId, e);
    ValidIsWired(t);
    AmendBidUpdatesOneBid(t, itemId, e, amount, now);
    var t' := AmendBid(t, itemId, e, amount, now).0;
    UpdateKeepsKeyed(t.bids, BidIdOf, e, t'.bids[e]);
    UpdateKeepsKeyed(t.items, ItemIdOf, itemId, t'.items[itemId]);
  }

  lemma AmendKeepsLinks(t: State, itemId: Uuid, e: Uuid, amount: int, now: int)
    requires Valid(t) && itemId in t.items && e in t.items[itemId].ranking
    ensures var t' := AmendBid(t, itemId, e, amount, now).0;
      && RankingsOk(t'.items, t'.bids) && BidRefsOk(t') && UsersOk(t')
  {
    ValidIsWired(t);
    AmendBidUpdatesOneBid(t, itemId, e, amount, now);
    var t' := AmendBid(t, itemId, e, amount, now).0;
    AmendKeepsRankings(t.items, t.bids, itemId, e, t'.bids[e]);
    AmendKeepsRefs(t, itemId, e, amount, now);
  }

  lemma AmendKeepsRefs(t: State, itemId: Uuid, e: Uuid, amount: int, now: int)
    requires Valid(t) && itemId in t.items && e in t.items[itemId].ranking
    ensures var t' := AmendBid(t, itemId, e, amount, now).0;
      BidRefsOk(t') && UsersOk(t')
  {
    ValidIsWired(t);
    AmendBidUpdatesOneBid(t, itemId, e, amount, now);
    var t' := AmendBid(t, itemId, e, amount, now).0;
    BidRefsSurvive(t, t', e, t'.bids[e]);
    UsersSurviveAmend(t, t', e, t'.bids[e]);
  }

  lemma UsersSurviveAmend(t: State, t': State, x: Uuid, b: Bid)
    requires UsersOk(t) && t'.users == t.users && t'.items.Keys == t.items.Keys
    requires x in t.bids && t'.bids == t.bids[x := b] && b.user == t.bids[x].user && b.item == t.bids[x].item
    ensures UsersOk(t')
  {
    forall u | u in t'.users ensures UserConsistent(t'.users[u], t'.items, t'.bids) {
      assert UserConsistent(t.users[u], t.items, t.bids);
      BidItemsUnchanged(t.users[u].bids, t.bids, x, b);
    }
  }

  /** Bid references stay resolved when the registries grow and the changed bid refers to known entities. */
  lemma BidRefsSurvive(t: State, t': State, x: Uuid, b: Bid)
    requires BidRefsOk(t)
    requires t.items.Keys <= t'.items.Keys && t.users.Keys <= t'.users.Keys
    requires t'.bids == t.bids[x := b] && b.item in t.items && b.user in t.users
    ensures BidRefsOk(t')
  {
  }

  /** A user's lists stay consistent when registries only gain entries. */
  lemma UserConsistentGrow(u: User, items: Cache<Item>, bids: Cache<Bid>, items': Cache<Item>, x: Uuid, b: Bid)
    requires UserConsistent(u, items, bids) && items.Keys <= items'.Keys && x !in bids
    ensures UserConsistent(u, items', bids[x := b])
  {
    var bids' := bids[x := b];
    forall k | 0 <= k < |u.bids| ensures u.bids[k] in bids' && bids'[u.bids[k]].user == u.id {
      assert u.bids[k] in bids;
    }
    BidItemsUnchanged(u.bids, bids, x, b);
  }

  /** `makeBid` keeps the bidder's lists consistent once the new bid is registered. */
  lemma MakeBidKeepsUserConsistent(u: User, items: Cache<Item>, bids: Cache<Bid>, items': Cache<Item>,
                                    itemId: Uuid, amount: int, x: Uuid, now: int)
    requires UserConsistent(u, items, bids) && items.Keys <= items'.Keys && itemId in items && x !in bids
    ensures var made := MakeBid(u, itemId, amount, x, now);
      UserConsistent(made.0, items', bids[x := made.1])
  {
    var made := MakeBid(u, itemId, amount, x, now);
    var nu := made.0;
    var bids' := bids[x := made.1];
    forall k | 0 <= k < |nu.bids| ensures nu.bids[k] in bids' && bids'[nu.bids[k]].user == nu.id {
      if k < |u.bids| {
        assert nu.bids[k] == nu.bids[..|u.bids|][k] == u.bids[k];
      }
    }
    forall k | 0 <= k < |nu.items| ensures nu.items[k] in items' {
      if k < |u.items| {
        assert nu.items[k] == u.items[k];
      }
    }
    assert nu.bids == u.bids + [x];
    BidItemsAppend(u.bids, bids, x, made.1);
  }

  /** Placing a new bid keeps every user's lists consistent. */
  lemma NewBidKeepsUsers(t: State, itemId: Uuid, userId: Uuid, amount: int, newId: Uuid, now: int, items': Cache<Item>)
    requires UsersOk(t) && itemId in t.items && userId in t.users && newId !in t.bids
    requires t.items.Keys <= items'.Keys
    ensures var made := MakeBid(t.users[userId], itemId, amount, newId, now);
      UsersOk(State(items', t.users[userId := made.0], t.bids[newId := made.1]))
  {
    var made := MakeBid(t.users[userId], itemId, amount, newId, now);
    var users := t.users[userId := made.0];
    var bids := t.bids[newId := made.1];
    forall u | u in users ensures UserConsistent(users[u], items', bids) {
      if u == userId {
        MakeBidKeepsUserConsistent(t.users[u], t.items, t.bids, items', itemId, amount, newId, now);
      } else {
        UserConsistentGrow(t.users[u], t.items, t.bids, items', newId, made.1);
      }
    }
  }

  /** The new-bid path stores the made bid, updates the bidder and ranks the bid on its item. */
  lemma PlaceNewBidUpdates(t: State, itemId: Uuid, userId: Uuid, amount: int, newId: Uuid, now: int)
    requires Wired(t) && itemId in t.items && userId in t.users
    ensures var (t', r) := PlaceNewBid(t, itemId, userId, amount, newId, now);
      var made := MakeBid(t.users[userId], itemId, amount, newId, now);
      && r == Some(made.1)
      && t'.bids == t.bids[newId := made.1] && t'.users == t.users[userId := made.0]
      && t'.items == t.items[itemId := AddBid(t.items[itemId], t'.bids, newId)]
  {
  }

  /** After a new bid is placed the invariant still holds. */
  lemma PlaceNewBidKeepsValid(t: State, itemId: Uuid, userId: Uuid, amount: int, newId: Uuid, now: int)
    requires Valid(t) && itemId in t.items && userId in t.users && newId !in t.bids
    requires amount > 0 && amount >= t.items[itemId].reserve
    ensures Valid(PlaceNewBid(t, itemId, userId, amount, newId, now).0)
  {
    PlaceNewBidKeepsKeys(t, itemId, userId, amount, newId, now);
    PlaceNewBidKeepsLinks(t, itemId, userId, amount, newId, now);
    PlaceNewBidKeepsAmounts(t, itemId, userId, amount, newId, now);
    PlaceNewBidKeepsListed(t, itemId, userId, amount, newId, now);
  }

  /** After an accepted new bid every amount stays within bounds. */
  lemma PlaceNewBidKeepsAmounts(t: State, itemId: Uuid, userId: Uuid, amount: int, newId: Uuid, now: int)
    requires Valid(t) && itemId in t.items && userId in t.users && newId !in t.bids
    requires amount > 0 && amount >= t.items[itemId].reserve
    ensures AmountsOk(PlaceNewBid(t, itemId, userId, amount, newId, now).0)
  {
    ValidIsWired(t);
    PlaceNewBidUpdates(t, itemId, userId, amount, newId, now);
    var t' := PlaceNewBid(t, itemId, userId, amount, newId, now).0;
    ReservesSurvive(t.items, itemId, t'.items[itemId]);
    AmountsSurvive(t, t', newId, t'.bids[newId]);
  }

  /** An accepted new bid is listed with its bidder, and every older bid stays listed. */
  lemma PlaceNewBidKeepsListed(t: State, itemId: Uuid, userId: Uuid, amount: int, newId: Uuid, now: int)
    requires Valid(t) && itemId in t.items && userId in t.users && newId !in t.bids
    ensures BidsListed(PlaceNewBid(t, itemId, userId, amount, newId, now).0)
  {
    ValidIsWired(t);
    PlaceNewBidUpdates(t, itemId, userId, amount, newId, now);
    var t' := PlaceNewBid(t, itemId, userId, amount, newId, now).0;
    var made := MakeBid(t.users[userId], itemId, amount, newId, now);
    assert t.users[userId].id == userId;
    MakeBidOnlyGrows(t.users[userId], itemId, amount, newId, now);
    assert newId == made.0.bids[|t.users[userId].bids|];
    ListedSurviveNewBid(t, t', newId, made.1, made.0);
  }

  lemma PlaceNewBidKeepsKeys(t: State, itemId: Uuid, userId: Uuid, amount: int, newId: Uuid, now: int)
    requires Valid(t) && itemId in t.items && userId in t.users && newId !in t.bids
    ensures var t' := PlaceNewBid(t, itemId, userId, amount, newId, now).0;
      && KeyedById(t'.items, ItemIdOf) && KeyedById(t'.users, UserIdOf) && KeyedById(t'.bids, BidIdOf)
  {
    ValidIsWired(t);
    PlaceNewBidUpdates(t, itemId, userId, amount, newId, now);
    var t' := PlaceNewBid(t, itemId, userId, amount, newId, now).0;
    UpdateKeepsKeyed(t.bids, BidIdOf, newId, t'.bids[newId]);
    UpdateKeepsKeyed(t.items, ItemIdOf, itemId, t'.items[itemId]);
    UpdateKeepsKeyed(t.users, UserIdOf, userId, t'.users[userId]);
  }

  lemma PlaceNewBidKeepsLinks(t: State, itemId: Uuid, userId: Uuid, amount: int, newId: Uuid, now: int)
    requires Valid(t) && itemId in t.items && userId in t.users && newId !in t.bids
    ensures var t' := PlaceNewBid(t, itemId, userId, amount, newId, now).0;
      && RankingsOk(t'.items, t'.bids) && BidRefsOk(t') && UsersOk(t')
  {
    ValidIsWired(t);
    PlaceNewBidUpdates(t, itemId, userId, amount, newId, now);
    var t' := PlaceNewBid(t, itemId, userId, amount, newId, now).0;
    var b := t'.bids[newId];
    NewBidKeepsRankings(t.items, t.bids, itemId, newId, b);
    NewBidKeepsUsers(t, itemId, userId, amount, newId, now, t'.items);
    BidRefsSurvive(t, t', newId, b);
  }

  /** Every path of `registerBid` keeps the invariant, so every ranking stays sorted. */
  lemma RegisterBidKeepsValid(t: State, itemId: Uuid, userId: Uuid, amount: int, newId: Uuid, now: int)
    requires Valid(t) && newId !in t.bids
    ensures Valid(RegisterBid(t, itemId, userId, amount, newId, now).0)
  {
    if Accepts(t, itemId, userId, amount) {
      var existing := GetBidFromUser(t.items[itemId], t.bids, userId);
      if existing.Some? && t.bids[existing.value].amount != amount {
        AmendKeepsValid(t, itemId, existing.value, amount, now);
      } else {
        PlaceNewBidKeepsValid(t, itemId, userId, amount, newId, now);
      }
    }
  }

  /**
    Nothing a user holds is lost from `before` to `after`: every user stays
    registered under the same name, and its bid and item lists keep their old
    entries as a prefix.
  */
  ghost predicate UsersOnlyGrow(before: Cache<User>, after: Cache<User>) {
    forall u :: u in before ==>
      && u in after && after[u].name == before[u].name
      && |before[u].bids| <= |after[u].bids| && after[u].bids[..|before[u].bids|] == before[u].bids
      && |before[u].items| <= |after[u].items| && after[u].items[..|before[u].items|] == before[u].items
  }

  lemma MakeBidGrowsUsers(users: Cache<User>, userId: Uuid, itemId: Uuid, amount: int, newId: Uuid, now: int)
    requires userId in users
    ensures UsersOnlyGrow(users, users[userId := MakeBid(users[userId], itemId, amount, newId, now).0])
  {
    MakeBidOnlyGrows(users[userId], itemId, amount, newId, now);
  }

  /** No bid registration removes a user, renames one, or drops an entry from its lists. */
  lemma RegisterBidOnlyGrowsUsers(t: State, itemId: Uuid, userId: Uuid, amount: int, newId: Uuid, now: int)
    requires Wired(t) && newId !in t.bids
    ensures UsersOnlyGrow(t.users, RegisterBid(t, itemId, userId, amount, newId, now).0.users)
  {
    if Accepts(t, itemId, userId, amount) {
      var existing := GetBidFromUser(t.items[itemId], t.bids, userId);
      if existing.Some? && t.bids[existing.value].amount != amount {
        AmendBidUpdatesOneBid(t, itemId, existing.value, amount, now);
      } else {
        PlaceNewBidUpdates(t, itemId, userId, amount, newId, now);
        MakeBidGrowsUsers(t.users, userId, itemId, amount, newId, now);
      }
    }
  }

  /** `getWinningBid`: the first-ranked bid of the item, or `None` when it has no bids. */
  function GetWinningBid(t: State, itemId: Uuid): (w: Option<Bid>)
    requires Wired(t)
    ensures w.None? <==> itemId !in t.items || |t.items[itemId].ranking| == 0
    ensures w.Some? ==> exists k :: 0 <= k < |t.items[itemId].ranking| && t.bids[t.items[itemId].ranking[k]] == w.value
  {
    if itemId in t.items && |t.items[itemId].ranking| > 0 then
      Some(t.bids[Items.GetWinningBid(t.items[itemId])])
    else
      None
  }

  /** The winning bid is a bid on the item that outranks every other bid on it. */
  lemma WinningBidOutranksAll(t: State, itemId: Uuid)
    requires Valid(t)
    ensures var w := GetWinningBid(t, itemId);
      w.Some? ==>
        && w.value.item == itemId
        && forall k :: 0 <= k < |t.items[itemId].ranking| && t.items[itemId].ranking[k] != w.value.id ==>
             Outranks(w.value, t.bids[t.items[itemId].ranking[k]])
  {
    if itemId in t.items && |t.items[itemId].ranking| > 0 {
      WinnerOutranksAll(t.items[itemId], t.bids);
    }
  }

  /** `getAllBidsForItem`: the item's bids in ranked order (none for an unregistered item). */
  function GetAllBidsForItem(t: State, itemId: Uuid): (bs: seq<Bid>)
    requires Wired(t)
    ensures itemId in t.items ==> |bs| == |t.items[itemId].ranking|
    ensures itemId in t.items ==> forall k :: 0 <= k < |bs| ==> bs[k] == t.bids[t.items[itemId].ranking[k]]
    ensures itemId !in t.items ==> bs == []
  {
    if itemId in t.items then
      var r := t.items[itemId].ranking;
      seq(|r|, k requires 0 <= k < |r| => t.bids[r[k]])
    else
      []
  }

  /** The listed bids are bids on the item, each outranking the ones after it. */
  lemma AllBidsForItemAreRanked(t: State, itemId: Uuid)
    requires Valid(t)
    ensures var bs := GetAllBidsForItem(t, itemId);
      && (forall k :: 0 <= k < |bs| ==> bs[k].item == itemId)
      && (forall i, j :: 0 <= i < j < |bs| ==> Outranks(bs[i], bs[j]))
  {
    var bs := GetAllBidsForItem(t, itemId);
    forall i, j | 0 <= i < j < |bs| ensures Outranks(bs[i], bs[j]) {
    }
  }

  /** `getAllItemsForUser`: the items the user has bid on (none for an unregistered user). */
  function GetAllItemsForUser(t: State, userId: Uuid): (items: seq<Uuid>)
    ensures userId in t.users ==> items == t.users[userId].items
    ensures userId !in t.users ==> items == []
  {
    match GetItem(t.users, userId)
    case Some(u) => u.items
    case None => []
  }

  /**
    The items listed for a user are exactly the items of the registered bids
    that user has made, each listed once.
  */
  lemma ItemsForUserAreItemsBidOn(t: State, userId: Uuid)
    requires Valid(t)
    ensures var items := GetAllItemsForUser(t, userId);
      && Distinct(items)
      && forall i :: i in items <==> exists b :: b in t.bids && t.bids[b].user == userId && t.bids[b].item == i
  {
    var items := GetAllItemsForUser(t, userId);
    if userId in t.users {
      var u := t.users[userId];
      assert UserConsistent(u, t.items, t.bids);
      assert u.id == userId;
      forall i | i in items ensures exists b :: b in t.bids && t.bids[b].user == userId && t.bids[b].item == i {
        assert i in BidItems(u.bids, t.bids);
        var k :| 0 <= k < |u.bids| && u.bids[k] in t.bids && t.bids[u.bids[k]].item == i;
        assert t.bids[u.bids[k]].user == userId;
      }
      forall i | exists b :: b in t.bids && t.bids[b].user == userId && t.bids[b].item == i ensures i in items {
        var b :| b in t.bids && t.bids[b].user == userId && t.bids[b].item == i;
        assert b in u.bids;
        var k :| 0 <= k < |u.bids| && u.bids[k] == b;
        assert i in BidItems(u.bids, t.bids);
      }
    }
  }

  /** `getAllRegisteredUsers`. */
  function GetAllRegisteredUsers(t: State): (us: set<User>)
    ensures forall u :: u in us <==> exists k :: k in t.users && t.users[k] == u
  {
    GetAllItems(t.users)
  }

  /** `getAllRegisteredItems`. */
  function GetAllRegisteredItems(t: State): (its: set<Item>)
    ensures forall it :: it in its <==> exists k :: k in t.items && t.items[k] == it
  {
    GetAllItems(t.items)
  }

  /** In a valid tracker an entity is listed exactly when it is the one registered under its id. */
  lemma RegisteredListsById(t: State, u: User, it: Item)
    requires Valid(t)
    ensures u in GetAllRegisteredUsers(t) <==> u.id in t.users && t.users[u.id] == u
    ensures it in GetAllRegisteredItems(t) <==> it.id in t.items && t.items[it.id] == it
  {
  }

  /** A user registered with success is listed among the registered users. */
  lemma RegisteredUserIsListed(t: State, user: User)
    requires RegisterUser(t, user).1
    ensures user in GetAllRegisteredUsers(RegisterUser(t, user).0)
  {
    assert RegisterUser(t, user).0.users[user.id] == user;
  }

  /** An item registered with success is listed among the registered items. */
  lemma RegisteredItemIsListed(t: State, item: Item)
    requires RegisterItem(t, item).1
    ensures item in GetAllRegisteredItems(RegisterItem(t, item).0)
  {
    assert RegisterItem(t, item).0.items[item.id] == item;
  }
}
