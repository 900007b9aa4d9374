/**
  Concrete runs of the ranking and of the tracker, following the repository's
  unit tests for the winning bid: amounts below the reserve are refused, a
  higher amount beats a lower one, and of two equal amounts the one whose
  amount was set first wins.
*/
module Scenarios {
  import opened Identity
  import opened Bids
  import opened Ranking
  import opened Items
  import opened Users
  import opened Wrappers
  import Tracker

  const Foo: Uuid := Uuid(0, 1)
  const Bar: Uuid := Uuid(0, 2)
  const Alice: Uuid := Uuid(1, 1)
  const Bob: Uuid := Uuid(1, 2)
  const Charlie: Uuid := Uuid(1, 3)
  const Bid1: Uuid := Uuid(2, 1)
  const Bid2: Uuid := Uuid(2, 2)
  const Bid3: Uuid := Uuid(2, 3)
  const Bid4: Uuid := Uuid(2, 4)
  const Bid5: Uuid := Uuid(2, 5)
  const Bid6: Uuid := Uuid(2, 6)

  /** Alice bids 11 on Foo, then Bob bids 12: Bob's bid wins, and both stay ranked. */
  lemma HigherBidWins()
    ensures var store := map[Bid3 := NewBid(Bid3, Foo, Alice, 11, 100), Bid4 := NewBid(Bid4, Foo, Bob, 12, 101)];
      var it := AddBid(AddBid(NewItemWithReserve(Foo, "Foo", "Finest Foo", 10), store, Bid3), store, Bid4);
      it.ranking == [Bid4, Bid3] && GetWinningBid(it) == Bid4
  {
  }

  /** Bob bids 5 on Bar, then Charlie bids 5 a moment later: Bob's earlier bid wins. */
  lemma EarlierBidWinsTie()
    ensures var store := map[Bid5 := NewBid(Bid5, Bar, Bob, 5, 200), Bid6 := NewBid(Bid6, Bar, Charlie, 5, 201)];
      var it := AddBid(AddBid(NewItemWithDescription(Bar, "Bar", "Boring Bar"), store, Bid5), store, Bid6);
      it.ranking == [Bid5, Bid6] && GetWinningBid(it) == Bid5
  {
  }

  /** Two bids of 5 placed within the same millisecond share a sort key: the second is not ranked. */
  lemma SameInstantTieKeepsFirst()
    ensures var store := map[Bid5 := NewBid(Bid5, Bar, Bob, 5, 200), Bid6 := NewBid(Bid6, Bar, Charlie, 5, 200)];
      var it := AddBid(AddBid(NewItemWithDescription(Bar, "Bar", "Boring Bar"), store, Bid5), store, Bid6);
      it.ranking == [Bid5]
  {
  }

  /**
    Bob bids 12 and Alice 11; Alice raises her bid to 13. Changing the stored
    bid without moving it leaves the ranking out of order.
  */
  lemma RaisedBidInPlaceIsOutOfOrder()
    ensures var store := map[Bid4 := NewBid(Bid4, Foo, Bob, 12, 101), Bid3 := NewBid(Bid3, Foo, Alice, 11, 100)];
      var store' := store[Bid3 := SetBidAmount(store[Bid3], 13, 102)];
      Sorted([Bid4, Bid3], store) && !Sorted([Bid4, Bid3], store')
  {
    var store := map[Bid4 := NewBid(Bid4, Foo, Bob, 12, 101), Bid3 := NewBid(Bid3, Foo, Alice, 11, 100)];
    var store' := store[Bid3 := SetBidAmount(store[Bid3], 13, 102)];
    var r := [Bid4, Bid3];
    assert InStore(r, store) && InStore(r, store');
    forall i, j | 0 <= i < j < |r| ensures CompareTo(store[r[i]], store[r[j]]) < 0 {
      assert i == 0 && j == 1;
    }
    assert CompareTo(store'[r[0]], store'[r[1]]) > 0;
  }

  /** Re-ranking Alice's raised bid instead puts it first. */
  lemma RaisedBidRerankedLeads()
    ensures var store := map[Bid4 := NewBid(Bid4, Foo, Bob, 12, 101), Bid3 := NewBid(Bid3, Foo, Alice, 13, 102)];
      var it := NewItem(Foo, "Foo").(ranking := [Bid4, Bid3]);
      BidModified(it, store, Bid3).ranking == [Bid3, Bid4]
  {
    assert [Bid4, Bid3][1..] == [Bid3] && [Bid3][1..] == [];
    assert Remove([Bid3], Bid3) == [];
    assert Remove([Bid4, Bid3], Bid3) == [Bid4];
  }

  /** Foo with a reserve of 10, and the users Alice and Bob, registered with an empty tracker. */
  function FooAuction(): (t: Tracker.State)
    ensures t.items.Keys == {Foo} && t.users.Keys == {Alice, Bob} && t.bids == map[]
    ensures t.items[Foo].reserve == 10 && t.items[Foo].ranking == []
  {
    var t1 := Tracker.RegisterItem(Tracker.Empty, NewItemWithReserve(Foo, "Foo", "Finest Foo", 10)).0;
    var t2 := Tracker.RegisterUser(t1, NewUser(Alice, "Alice")).0;
    Tracker.RegisterUser(t2, NewUser(Bob, "Bob")).0
  }

  /**
    Through the tracker, Alice's 9 and then Bob's 8 on Foo fall below the
    reserve of 10: both are refused and the tracker is as registered, which is
    where Alice's 11 and Bob's 12 then start.
  */
  lemma BelowReserveRefused()
    ensures var t0 := FooAuction();
      var (t1, r1) := Tracker.RegisterBid(t0, Foo, Alice, 9, Bid1, 98);
      var (t2, r2) := Tracker.RegisterBid(t1, Foo, Bob, 8, Bid2, 99);
      r1.None? && r2.None? && t2 == t0 && Tracker.GetAllBidsForItem(t2, Foo) == []
  {
  }

  /** Alice's first bid of 11 on Foo, placed at time 100. */
  const AliceEleven: Bid := NewBid(Bid3, Foo, Alice, 11, 100)

  /** Bob's first bid of 12 on Foo, placed at time 101. */
  const BobTwelve: Bid := NewBid(Bid4, Foo, Bob, 12, 101)

  /** The state after Alice's 11: one stored bid, ranked alone on Foo. */
  ghost predicate AfterAlice(t: Tracker.State) {
    && t.items.Keys == {Foo} && t.users.Keys == {Alice, Bob}
    && t.items[Foo].reserve == 10 && t.users[Bob] == NewUser(Bob, "Bob")
    && t.bids == map[Bid3 := AliceEleven]
    && t.items[Foo].ranking == [Bid3]
  }

  /** Alice bids 11 on Foo: accepted as a new bid, and the only ranked one. */
  lemma AliceBidsEleven()
    ensures var (t, r) := Tracker.RegisterBid(FooAuction(), Foo, Alice, 11, Bid3, 100);
      r == Some(AliceEleven) && AfterAlice(t)
  {
    var t0 := FooAuction();
    assert t0.users[Alice].id == Alice;
    assert GetBidFromUser(t0.items[Foo], t0.bids, Alice) == None;
    Tracker.TakesNewPath(t0, Foo, Alice, 11, Bid3, 100);
    Tracker.PlaceNewBidUpdates(t0, Foo, Alice, 11, Bid3, 100);
  }

  /**
    Bob then bids 12 on Foo: accepted as a new bid and ranked ahead of Alice's
    11, so the tracker reports Bob's bid as the winner.
  */
  lemma BobBidsTwelve(t: Tracker.State)
    requires AfterAlice(t)
    ensures Tracker.Wired(t) && Bid4 !in t.bids
    ensures var (t', r) := Tracker.RegisterBid(t, Foo, Bob, 12, Bid4, 101);
      && r == Some(BobTwelve)
      && t'.items.Keys == {Foo} && t'.items[Foo].ranking == [Bid4, Bid3]
      && t'.bids == map[Bid3 := AliceEleven, Bid4 := BobTwelve]
      && Tracker.GetWinningBid(t', Foo) == Some(BobTwelve)
      && Tracker.GetAllBidsForItem(t', Foo) == [BobTwelve, AliceEleven]
  {
    assert t.users[Bob].id == Bob;
    assert Tracker.Accepts(t, Foo, Bob, 12);
    assert GetBidFromUser(t.items[Foo], t.bids, Bob) == None;
    Tracker.TakesNewPath(t, Foo, Bob, 12, Bid4, 101);
    Tracker.PlaceNewBidUpdates(t, Foo, Bob, 12, Bid4, 101);
  }

  /** Bar with no reserve, and the users Bob and Charlie, registered with an empty tracker. */
  function BarAuction(): (t: Tracker.State)
    ensures t.items.Keys == {Bar} && t.users.Keys == {Bob, Charlie} && t.bids == map[]
    ensures t.items[Bar].reserve == 0 && t.items[Bar].ranking == []
  {
    var t1 := Tracker.RegisterItem(Tracker.Empty, NewItemWithDescription(Bar, "Bar", "Boring Bar")).0;
    var t2 := Tracker.RegisterUser(t1, NewUser(Bob, "Bob")).0;
    Tracker.RegisterUser(t2, NewUser(Charlie, "Charlie")).0
  }

  /** Bob's bid of 5 on Bar, placed at time 200. */
  const BobFive: Bid := NewBid(Bid5, Bar, Bob, 5, 200)

  /** Charlie's bid of 5 on Bar, placed a moment later at time 201. */
  const CharlieFive: Bid := NewBid(Bid6, Bar, Charlie, 5, 201)

  /** The state after Bob's 5: one stored bid, ranked alone on Bar. */
  ghost predicate AfterBob(t: Tracker.State) {
    && t.items.Keys == {Bar} && t.users.Keys == {Bob, Charlie}
    && t.items[Bar].reserve == 0 && t.users[Charlie] == NewUser(Charlie, "Charlie")
    && t.bids == map[Bid5 := BobFive]
    && t.items[Bar].ranking == [Bid5]
  }

  /** Bob bids 5 on Bar: accepted as a new bid, and the only ranked one. */
  lemma BobBidsFive()
    ensures var (t, r) := Tracker.RegisterBid(BarAuction(), Bar, Bob, 5, Bid5, 200);
      r == Some(BobFive) && AfterBob(t)
  {
    var t0 := BarAuction();
    assert t0.users[Bob].id == Bob;
    assert GetBidFromUser(t0.items[Bar], t0.bids, Bob) == None;
    Tracker.TakesNewPath(t0, Bar, Bob, 5, Bid5, 200);
    Tracker.PlaceNewBidUpdates(t0, Bar, Bob, 5, Bid5, 200);
  }

  /** The state after Charlie's 5: both bids stored, Bob's ranked first. */
  ghost predicate AfterCharlie(t: Tracker.State) {
    && t.items.Keys == {Bar} && t.items[Bar].ranking == [Bid5, Bid6]
    && t.bids == map[Bid5 := BobFive, Bid6 := CharlieFive]
  }

  /**
    Charlie then bids the same 5 on Bar a moment later: accepted as a new bid
    and ranked behind Bob's earlier one.
  */
  lemma CharlieBidsFive(t: Tracker.State)
    requires AfterBob(t)
    ensures Tracker.Wired(t) && Bid6 !in t.bids
    ensures var (t', r) := Tracker.RegisterBid(t, Bar, Charlie, 5, Bid6, 201);
      r == Some(CharlieFive) && AfterCharlie(t')
  {
    assert t.users[Charlie].id == Charlie;
    assert Tracker.Accepts(t, Bar, Charlie, 5);
    assert GetBidFromUser(t.items[Bar], t.bids, Charlie) == None;
    Tracker.TakesNewPath(t, Bar, Charlie, 5, Bid6, 201);
    Tracker.PlaceNewBidUpdates(t, Bar, Charlie, 5, Bid6, 201);
    var store := map[Bid5 := BobFive, Bid6 := CharlieFive];
    assert [Bid5][1..] == [];
    assert Insert([Bid5], store, Bid6) == [Bid5, Bid6];
  }

  /** With both bids of 5 in, the tracker reports Bob's earlier bid as the winner and lists both. */
  lemma TieGoesToEarlierBid(t: Tracker.State)
    requires AfterCharlie(t)
    ensures Tracker.Wired(t)
    ensures Tracker.GetWinningBid(t, Bar) == Some(BobFive)
    ensures Tracker.GetAllBidsForItem(t, Bar) == [BobFive, CharlieFive]
  {
  }
}
