# Auctioneer bid tracker in Dafny

A model of the bid-tracking engine of the Java auction library `auctioneer`.
The engine keeps three registries keyed by entity id: users, items and bids.
It accepts or rejects bids, amends a user's existing bid in place, and reports
the winning bid of each item. Every item keeps its bids in a collection ranked
by `Bid.compareTo`: the higher amount first, and of two equal amounts the one
whose amount was set earlier (`setBidAmount` refreshes a bid's timestamp,
`Bid.java:42`).

The model is functional. Every operation is a pure function from the tracker
state to a new state and a result. Object references are ids:
- the tracker holds one central bid store (`map<Uuid, Bid>`);
- an item's ranking is a sequence of bid ids, strictly sorted by the
  comparator applied to the stored bids;
- a user holds the ids of its bids and of the items it has bid on.

Fresh ids and the current time are parameters.

| file | module | models |
|---|---|---|
| `wrappers.dfy` | `Wrappers` | `Option` (Java `null`) |
| `collections.dfy` | `Collections` | `Distinct`: a list without repeats |
| `identity.dfy` | `Identity` | `AuctioneerObject`: id, `equals`, `hashCode` |
| `object_cache.dfy` | `ObjectCache` | `ObjectCache`: the id-keyed registry |
| `bid.dfy` | `Bids` | `Bid`: constructor, `setBidAmount`, `compareTo` |
| `ranking.dfy` | `Ranking` | the comparator-ordered bid collection of an item |
| `item.dfy` | `Items` | `Item`: constructors, `getUsers`, `getBidFromUser`, `addBid`, the re-rank after an amendment, `getWinningBid` |
| `user.dfy` | `Users` | `User`: constructor, `makeBid` |
| `tracker.dfy` | `Tracker` | `BidTrackerImpl`: registration, `registerBid`, the queries, and the invariant they keep |
| `scenarios.dfy` | `Scenarios` | concrete rankings and tracker runs taken from the repository's unit tests |

The tracker invariant `Tracker.Valid` has these parts:
- every registry entry sits under its own id;
- every item's ranking is strictly sorted and holds only bids on that item;
- every bid refers to a registered item and a registered user;
- every user's bid list points at stored bids of that user;
- every user's item list points at registered items, each at most once, and
  holds exactly the items of that user's bids;
- every stored bid is on the bid list of the user who made it;
- every bid amount is positive and at least its item's reserve. The source
  checks every amount it stores (`BidTrackerImpl.java:48`) and has no setter
  for the reserve, so this holds for the lifetime of a bid.

It holds of the empty tracker. Registering a fresh user or item keeps it, and
so does every path of `registerBid`.

### Where the model follows the code rather than its comments or documentation

- **Ties go to the earlier bid.** The comment at `Bid.java:112-113` says the
  bid "with the higher timestamp" is returned on equal amounts. The code at
  lines 115-117 ranks the earlier bid first, and so do the unit tests.
  `Bids.EarlierFirstOnTie` states the code's behaviour.
- **Resubmitting the same amount creates a new bid.** It is not an idempotent
  no-op. When the user's existing bid already has the submitted amount, the
  amend branch is skipped (`BidTrackerImpl.java:54`). Control then falls
  through to the new-bid path at line 63 (`Tracker.SameAmountCreatesNewBid`).
  So one user can hold several bids on one item, and "one bid per user per
  item" is not part of the invariant.
- **Duplicates are detected by sort key, not by id.** `addBid` asks the ranked
  collection whether it `contains` the bid. That question is answered with the
  comparator, so a different bid with the same amount and the same timestamp
  counts as present. That new bid is still stored, added to the user's list
  and returned, but it is not ranked (`Tracker.NewBidRankedUnlessKeyTaken`,
  `Scenarios.SameInstantTieKeepsFirst`).
- **`bidModified` is not defined in `Item.java`.** `BidTrackerImpl.java:58`
  calls it. The model defines it as: take the bid out of the ranking by id,
  then add it again through `addBid` under its new key (`Items.BidModified`).
  Under that definition, an amended bid whose new key collides with another
  ranked bid drops out of the ranking, just as a fresh bid with a taken key is
  never ranked.
- **Bid operations take ids.** `registerBid` takes item and user objects. Ids
  are random UUIDs, so an object whose id is registered is the registered
  object. `registerBid` refuses an unregistered item or user, so an
  unregistered item never receives a bid placed through the tracker. The
  model's queries therefore return `None` or an empty list for an
  unregistered id; see "Left out" for what that does not cover.

## Model

| member | source | states |
|---|---|---|
| Identity.Equals | auctioneer/src/main/java/com/luhar/auctioneer/model/AuctioneerObject.java:27-42 | `equals(null)` is false, an object equals itself, and equal objects have equal hash codes |
| Identity.HashCode | auctioneer/src/main/java/com/luhar/auctioneer/model/AuctioneerObject.java:19-25 | the hash lies 31 above the hash of the id, with Java's 32-bit wrap-around |
| Identity.EqualsReflexive | auctioneer/src/main/java/com/luhar/auctioneer/model/AuctioneerObject.java:28-30 | every object equals itself |
| Identity.EqualsNull | auctioneer/src/main/java/com/luhar/auctioneer/model/AuctioneerObject.java:31-32 | no object equals `null` |
| Identity.EqualsIffSameClassAndId | auctioneer/src/main/java/com/luhar/auctioneer/model/AuctioneerObject.java:33-41 | base equality holds exactly for the same class and an equal id |
| Identity.EqualsSymmetric | auctioneer/src/main/java/com/luhar/auctioneer/model/AuctioneerObject.java:27-42 | `a.equals(b)` exactly when `b.equals(a)` |
| Identity.EqualsTransitive | auctioneer/src/main/java/com/luhar/auctioneer/model/AuctioneerObject.java:27-42 | equality is transitive |
| Identity.HashCodeDependsOnIdOnly | auctioneer/src/main/java/com/luhar/auctioneer/model/AuctioneerObject.java:19-25 | two objects with the same id hash alike, whatever their class |
| Identity.HashCodeConsistentWithEquals | auctioneer/src/main/java/com/luhar/auctioneer/model/AuctioneerObject.java:19-42 | equal objects have equal hash codes |
| Tracker.EqualityByClassAndId | auctioneer/src/main/java/com/luhar/auctioneer/model/AuctioneerObject.java:33-41 | a user, an item and a bid are never equal to each other; two users are equal exactly when their ids are |
| ObjectCache.AddItem | auctioneer/src/main/java/com/luhar/auctioneer/utils/ObjectCache.java:14-16 | the keys gain `x`'s id; `x` is stored under it, replacing any old entry; other ids keep their entries; a registry keyed by id stays keyed by id |
| ObjectCache.UpdateKeepsKeyed | auctioneer/src/main/java/com/luhar/auctioneer/utils/ObjectCache.java:14-16 | overwriting an entry with a value that carries the same id keeps every entry under its own id |
| ObjectCache.GetItem | auctioneer/src/main/java/com/luhar/auctioneer/utils/ObjectCache.java:18-20 | `null` exactly for an id that is not stored; otherwise the stored entry |
| ObjectCache.ContainsItem | auctioneer/src/main/java/com/luhar/auctioneer/utils/ObjectCache.java:22-24 | true exactly when the entity's id is stored |
| ObjectCache.GetAllItems | auctioneer/src/main/java/com/luhar/auctioneer/utils/ObjectCache.java:26-28 | exactly the values stored under some id |
| ObjectCache.AddThenGet | auctioneer/src/main/java/com/luhar/auctioneer/utils/ObjectCache.java:14-28 | after `addItem(x)`: `containsItem(x)` holds, `getItem(x.id)` is `x`, and `x` is among all items |
| ObjectCache.AddKeepsOtherIds | auctioneer/src/main/java/com/luhar/auctioneer/utils/ObjectCache.java:14-20 | `addItem` leaves the lookup of every other id unchanged |
| ObjectCache.ContainsDependsOnIdOnly | auctioneer/src/main/java/com/luhar/auctioneer/utils/ObjectCache.java:22-24 | two entities with the same id are both contained or both not |
| ObjectCache.AddAllKeys | auctioneer/src/main/java/com/luhar/auctioneer/utils/ObjectCache.java:14-16 | after a series of `addItem` calls the keys are the old keys plus exactly the ids added |
| ObjectCache.GetMissing | auctioneer/src/main/java/com/luhar/auctioneer/utils/ObjectCache.java:18-20 | `getItem` of an id neither stored before nor added since returns `null` |
| Bids.NewBid | auctioneer/src/main/java/com/luhar/auctioneer/model/Bid.java:16-22 | a new bid has the given id, item, user and amount, stamped with the current time |
| Bids.SetBidAmount | auctioneer/src/main/java/com/luhar/auctioneer/model/Bid.java:40-43 | the amount becomes the new one and the timestamp the current time; id, item and user never change |
| Bids.CompareAmounts | auctioneer/src/main/java/com/luhar/auctioneer/model/Bid.java:127 | negative, zero or positive exactly when the first amount is below, equal to or above the second |
| Bids.CompareTo | auctioneer/src/main/java/com/luhar/auctioneer/model/Bid.java:111-128 | `compareTo` returns -1, 0 or 1; it is negative exactly when the first bid outranks the second (higher amount, or equal amount and earlier), zero exactly for equal amount and timestamp, positive exactly when the second outranks the first |
| Bids.HigherAmountFirst | auctioneer/src/main/java/com/luhar/auctioneer/model/Bid.java:127 | a higher amount ranks first whatever the timestamps |
| Bids.EarlierFirstOnTie | auctioneer/src/main/java/com/luhar/auctioneer/model/Bid.java:114-124 | on equal amounts the earlier bid ranks first and the later one after |
| Bids.SameKeyComparesEqual | auctioneer/src/main/java/com/luhar/auctioneer/model/Bid.java:118-120 | equal amount and equal timestamp compare as 0 |
| Bids.CompareToAntisymmetric | auctioneer/src/main/java/com/luhar/auctioneer/model/Bid.java:111-128 | swapping the two bids negates the result |
| Bids.CompareToReflexive | auctioneer/src/main/java/com/luhar/auctioneer/model/Bid.java:118-120 | a bid compares equal to itself |
| Bids.CompareToTransitive | auctioneer/src/main/java/com/luhar/auctioneer/model/Bid.java:111-128 | both "ranks no later than" and "ranks ahead of" are transitive |
| Bids.CompareToTotal | auctioneer/src/main/java/com/luhar/auctioneer/model/Bid.java:111-128 | any two bids are ordered one way or the other |
| Ranking.ContainsKey | auctioneer/src/main/java/com/luhar/auctioneer/model/Item.java:82 | the ranked collection `contains` a bid exactly when some ranked bid has the same amount and timestamp, whatever its id |
| Ranking.Insert | auctioneer/src/main/java/com/luhar/auctioneer/model/Item.java:84 | adding a bid to the ranked collection adds exactly one occurrence of it and nothing else |
| Ranking.InsertKeepsSorted | auctioneer/src/main/java/com/luhar/auctioneer/model/Item.java:17-22 | inserting a bid whose key no ranked bid shares keeps the collection strictly ordered by the comparator |
| Ranking.SortedHasNoEqualKeys | auctioneer/src/main/java/com/luhar/auctioneer/model/Item.java:81-88 | a strictly ordered collection never holds two bids that compare equal |
| Ranking.FirstOutranksRest | auctioneer/src/main/java/com/luhar/auctioneer/model/Item.java:90-92 | the first entry outranks every later entry |
| Ranking.OutrankingAllMeansFirst | auctioneer/src/main/java/com/luhar/auctioneer/model/Item.java:90-92 | a ranked bid that outranks every other ranked bid is the first entry |
| Ranking.Remove | auctioneer/src/main/java/com/luhar/auctioneer/impl/BidTrackerImpl.java:58 | taking a bid out leaves every other bid, with its count, and drops every copy of that one |
| Ranking.RemoveKeepsSorted | auctioneer/src/main/java/com/luhar/auctioneer/impl/BidTrackerImpl.java:58 | taking a bid out keeps the collection strictly ordered |
| Ranking.StoreUpdateKeepsSorted | auctioneer/src/main/java/com/luhar/auctioneer/impl/BidTrackerImpl.java:57 | changing a bid that is not in a ranking leaves that ranking ordered |
| Ranking.InPlaceMutationBreaksOrder | auctioneer/src/main/java/com/luhar/auctioneer/impl/BidTrackerImpl.java:57-58 | raising a ranked bid above the leader without moving it leaves the collection out of order |
| Items.NewItem | auctioneer/src/main/java/com/luhar/auctioneer/model/Item.java:12-27 | an item built from a name has an empty description, a reserve of zero and no bids |
| Items.NewItemWithDescription | auctioneer/src/main/java/com/luhar/auctioneer/model/Item.java:29-32 | the description is the given one; the reserve is still zero |
| Items.NewItemWithReserve | auctioneer/src/main/java/com/luhar/auctioneer/model/Item.java:34-37 | description and reserve are the given ones; there are no bids |
| Items.FirstBidIndex | auctioneer/src/main/java/com/luhar/auctioneer/model/Item.java:71-78 | the position of a bid by the user with no bid by that user before it, or `None` exactly when the user has no ranked bid |
| Items.FirstBidIndexIsUnique | auctioneer/src/main/java/com/luhar/auctioneer/model/Item.java:71-78 | any position holding the user's bid with none of the user's bids before it is the one found |
| Items.GetBidFromUser | auctioneer/src/main/java/com/luhar/auctioneer/model/Item.java:71-78 | `null` exactly when no ranked bid belongs to the user; otherwise a ranked bid of that user with no bid of the user ranked ahead of it |
| Items.GetUsers | auctioneer/src/main/java/com/luhar/auctioneer/model/Item.java:60-68 | exactly the owners of ranked bids, each once, in the order of their first bids in the ranking |
| Items.AddBid | auctioneer/src/main/java/com/luhar/auctioneer/model/Item.java:81-88 | when a ranked bid compares equal to the new one the ranking is unchanged; otherwise the new bid is added once; name, description and reserve never change |
| Items.AddBidKeepsSorted | auctioneer/src/main/java/com/luhar/auctioneer/model/Item.java:81-88 | a strictly ordered ranking stays strictly ordered through `addBid` |
| Items.BidModified | auctioneer/src/main/java/com/luhar/auctioneer/impl/BidTrackerImpl.java:58 | other bids stay ranked exactly as before; the amended bid is ranked exactly when no other ranked bid shares its new key |
| Items.BidModifiedRestoresOrder | auctioneer/src/main/java/com/luhar/auctioneer/impl/BidTrackerImpl.java:57-58 | changing a bid's key and then re-ranking it leaves the ranking strictly ordered, whatever its old position |
| Items.OutrankingBidLeads | auctioneer/src/main/java/com/luhar/auctioneer/impl/BidTrackerImpl.java:57-58 | a bid raised above every other ranked bid becomes the first entry after re-ranking |
| Items.GetWinningBid | auctioneer/src/main/java/com/luhar/auctioneer/model/Item.java:90-92 | the winning bid is one of the item's ranked bids |
| Items.WinnerOutranksAll | auctioneer/src/main/java/com/luhar/auctioneer/model/Item.java:90-92 | the winning bid outranks every other ranked bid and has the highest amount |
| Users.NewUser | auctioneer/src/main/java/com/luhar/auctioneer/model/User.java:13-16 | a new user has the given name and no bids or items |
| Users.MakeBid | auctioneer/src/main/java/com/luhar/auctioneer/model/User.java:33-43 | the bid has the given item, this user and the given amount; it is appended to the user's bids; the item is appended only when not already listed, so the item list stays duplicate-free; id and name never change |
| Users.MakeBidOnlyGrows | auctioneer/src/main/java/com/luhar/auctioneer/model/User.java:33-43 | the bid and item lists keep every earlier entry in place, and the item is listed afterwards |
| Tracker.EmptyIsValid | auctioneer/src/main/java/com/luhar/auctioneer/impl/BidTrackerImpl.java:17-19 | the tracker invariant holds of the three empty registries |
| Tracker.RegisterUser | auctioneer/src/main/java/com/luhar/auctioneer/impl/BidTrackerImpl.java:22-31 | true exactly when the id was not registered; on false nothing changes; on true the user is stored under its id; items and bids never change |
| Tracker.RegisterItem | auctioneer/src/main/java/com/luhar/auctioneer/impl/BidTrackerImpl.java:33-42 | true exactly when the id was not registered; on false nothing changes; on true the item is stored under its id; users and bids never change |
| Tracker.RegisterUserTwice | auctioneer/src/main/java/com/luhar/auctioneer/impl/BidTrackerImpl.java:22-31 | registering the same user again returns false and changes nothing |
| Tracker.RegisterItemTwice | auctioneer/src/main/java/com/luhar/auctioneer/impl/BidTrackerImpl.java:33-42 | registering the same item again returns false and changes nothing |
| Tracker.RegisterUserKeepsValid | auctioneer/src/main/java/com/luhar/auctioneer/impl/BidTrackerImpl.java:22-31 | registering a new user keeps the tracker invariant |
| Tracker.RegisterItemKeepsValid | auctioneer/src/main/java/com/luhar/auctioneer/impl/BidTrackerImpl.java:33-42 | registering a new item keeps the tracker invariant |
| Tracker.RegisteredUserIsListed | auctioneer/src/test/java/com/luhar/auctioneer/impl/BidTrackerImplTest.java:66-71 | a user registered with success is among all registered users |
| Tracker.RegisteredItemIsListed | auctioneer/src/test/java/com/luhar/auctioneer/impl/BidTrackerImplTest.java:74-79 | an item registered with success is among all registered items |
| Tracker.Accepts | auctioneer/src/main/java/com/luhar/auctioneer/impl/BidTrackerImpl.java:45-49 | a bid is accepted exactly when the item and the user are registered and the amount is positive and at least the item's reserve |
| Tracker.AmendBid | auctioneer/src/main/java/com/luhar/auctioneer/impl/BidTrackerImpl.java:54-59 | the amended bid keeps its id, item and user and takes the new amount and time; it replaces the stored bid, no bid is added and no other bid changes, no user changes, no item is added or removed, and no other item changes; on the bid's item every other bid keeps its place in the ranking or its absence from it, and the amended bid stays ranked exactly when no other ranked bid has its new amount and time (the re-rank at line 58) |
| Tracker.PlaceNewBid | auctioneer/src/main/java/com/luhar/auctioneer/impl/BidTrackerImpl.java:63-67 | the new bid has the fresh id, the item, the user, the amount and the time; it is stored under its id and appended to the user's bids; no other bid, item or user changes, and no item or user is added or removed; every bid ranked on the item stays ranked, and the new bid is the only one that can join the ranking (the `addBid` at line 65) |
| Tracker.RegisterBid | auctioneer/src/main/java/com/luhar/auctioneer/impl/BidTrackerImpl.java:44-74 | `null` exactly when the item or the user is unregistered, the amount is not positive, or it is below the reserve; then nothing changes; otherwise the returned bid has the given amount and the current time; no bid is removed, at most the fresh bid id is added, and the only stored bid that can change is the returned one; no item or user is added or removed, and no item other than the bid's item and no user other than the bidder changes; on the bid's item every ranked bid whose stored value is unchanged stays ranked, and the only bid that can join the ranking is the returned one |
| Tracker.ReserveIsInclusive | auctioneer/src/main/java/com/luhar/auctioneer/impl/BidTrackerImpl.java:48 | an amount equal to the reserve is accepted and one below it is refused |
| Tracker.AmendKeepsIdentity | auctioneer/src/main/java/com/luhar/auctioneer/impl/BidTrackerImpl.java:51-59 | a user's existing bid with a different amount is returned under the same id with the new amount and time; no bid is added, no other bid and no user changes |
| Tracker.SameAmountCreatesNewBid | auctioneer/src/main/java/com/luhar/auctioneer/impl/BidTrackerImpl.java:51-67 | resubmitting the existing bid's amount leaves that bid untouched and creates a new bid under the fresh id |
| Tracker.NewBidIsRecorded | auctioneer/src/main/java/com/luhar/auctioneer/impl/BidTrackerImpl.java:63-67 | a new bid has the given item and user, is stored under its id, is appended to the user's bids, and the item is among the user's items |
| Tracker.NewBidRankedUnlessKeyTaken | auctioneer/src/main/java/com/luhar/auctioneer/impl/BidTrackerImpl.java:63-65 | a new bid enters the item's ranking exactly when no ranked bid has the same amount and timestamp |
| Tracker.BidAmountsAboveReserve | auctioneer/src/main/java/com/luhar/auctioneer/impl/BidTrackerImpl.java:47-48 | in a valid tracker every stored bid is on a registered item, positive, and at least that item's reserve |
| Tracker.RegisterBidKeepsValid | auctioneer/src/main/java/com/luhar/auctioneer/impl/BidTrackerImpl.java:44-74 | every path of `registerBid` keeps the tracker invariant: every ranking stays strictly ordered, every user's item list stays the items of that user's bids, and every amount stays positive and at least its item's reserve |
| Tracker.RegisterBidOnlyGrowsUsers | auctioneer/src/main/java/com/luhar/auctioneer/impl/BidTrackerImpl.java:44-74 | no bid registration removes or renames a user or drops an entry from its bid or item lists |
| Tracker.GetWinningBid | auctioneer/src/main/java/com/luhar/auctioneer/impl/BidTrackerImpl.java:77-84 | `null` exactly when the item has no ranked bids; otherwise one of its ranked bids |
| Tracker.WinningBidOutranksAll | auctioneer/src/main/java/com/luhar/auctioneer/impl/BidTrackerImpl.java:77-84 | the winning bid is a bid on the item that outranks every other bid ranked on it |
| Tracker.GetAllBidsForItem | auctioneer/src/main/java/com/luhar/auctioneer/impl/BidTrackerImpl.java:86-88 | the item's bids, one per ranked entry, in ranked order |
| Tracker.AllBidsForItemAreRanked | auctioneer/src/main/java/com/luhar/auctioneer/impl/BidTrackerImpl.java:86-88 | the listed bids are bids on the item, each outranking every bid listed after it |
| Tracker.GetAllItemsForUser | auctioneer/src/main/java/com/luhar/auctioneer/impl/BidTrackerImpl.java:90-92 | the user's item list, or none for an unregistered user |
| Tracker.ItemsForUserAreItemsBidOn | auctioneer/src/main/java/com/luhar/auctioneer/model/BidTracker.java:23-24 | in a valid tracker the items listed for a user are exactly the items of the stored bids that user made, each listed once |
| Tracker.GetAllRegisteredUsers | auctioneer/src/main/java/com/luhar/auctioneer/impl/BidTrackerImpl.java:94-96 | exactly the registered users |
| Tracker.GetAllRegisteredItems | auctioneer/src/main/java/com/luhar/auctioneer/impl/BidTrackerImpl.java:98-100 | exactly the registered items |
| Tracker.RegisteredListsById | auctioneer/src/main/java/com/luhar/auctioneer/impl/BidTrackerImpl.java:94-100 | an entity is listed exactly when it is the one registered under its id |
| Scenarios.HigherBidWins | auctioneer/src/test/java/com/luhar/auctioneer/impl/BidTrackerImplTest.java:104-106 | bids of 11 and then 12 rank 12 first, and 12 wins |
| Scenarios.EarlierBidWinsTie | auctioneer/src/main/java/com/luhar/auctioneer/model/Bid.java:114-124 | on one item, two bids of 5 with different timestamps are both ranked and the earlier one comes first |
| Scenarios.SameInstantTieKeepsFirst | auctioneer/src/main/java/com/luhar/auctioneer/model/Item.java:81-88 | a second bid with the same amount and the same millisecond is not ranked |
| Scenarios.RaisedBidInPlaceIsOutOfOrder | auctioneer/src/main/java/com/luhar/auctioneer/impl/BidTrackerImpl.java:57 | bids of 12 and 11, with the 11 raised to 13 without moving it, leave the ranking out of order |
| Scenarios.BelowReserveRefused | auctioneer/src/test/java/com/luhar/auctioneer/impl/BidTrackerImplTest.java:97-101 | on Foo with a reserve of 10, bids of 9 and 8 are refused, the tracker is left as registered, and Foo has no bids |
| Scenarios.AliceBidsEleven | auctioneer/src/test/java/com/luhar/auctioneer/impl/BidTrackerImplTest.java:104 | Alice's 11 is accepted as a new bid and is the only bid ranked on Foo |
| Scenarios.BobBidsTwelve | auctioneer/src/test/java/com/luhar/auctioneer/impl/BidTrackerImplTest.java:105-106 | Bob's 12 is then accepted as a new bid, ranked ahead of the 11, and returned as the winning bid |
| Scenarios.BobBidsFive | auctioneer/src/test/java/com/luhar/auctioneer/impl/BidTrackerImplTest.java:109 | on Bar with no reserve, Bob's 5 is accepted as a new bid and is the only bid ranked on Bar |
| Scenarios.CharlieBidsFive | auctioneer/src/test/java/com/luhar/auctioneer/impl/BidTrackerImplTest.java:110-111 | Charlie's 5, placed a moment later, is accepted as a new bid and ranked behind Bob's |
| Scenarios.TieGoesToEarlierBid | auctioneer/src/test/java/com/luhar/auctioneer/impl/BidTrackerImplTest.java:112-113 | with both bids of 5 in, Bob's earlier bid is the winning bid and Bar lists both bids |
| Scenarios.RaisedBidRerankedLeads | auctioneer/src/main/java/com/luhar/auctioneer/impl/BidTrackerImpl.java:58 | re-ranking the bid raised to 13 puts it ahead of the 12 |

## Left out

- Logging through log4j: it has no effect on any result.
- `toString` and `SimpleDateFormat` (`Bid.java:14,102-109`, `Item.java:95-103`, `User.java:82-87`): display only.
- `UUID.randomUUID()` and `new Date()` (`AuctioneerObject.java:12`, `Bid.java:21,42`): the fresh id and the current time are parameters of the operations. A new bid id is required not to be in use.
- Thread safety of `ConcurrentHashMap` (`ObjectCache.java:12`): the model is sequential and the registries are plain maps.
- The field-by-field `equals` and `hashCode` overrides of `Item`, `User` and `Bid` (`Item.java:106-149`, `User.java:45-80`, `Bid.java:49-100`). The registries key on the id. `getUsers`, `getBidFromUser` and `makeBid` compare objects that are the same reference, which the overrides treat as equal on their first line. Identity is therefore the id.
- `BigDecimal` scale: amounts are only ever compared with `compareTo`, so they are whole minor units (`int`).
- The multiplicity counts of Guava's `TreeMultiset`: the `contains` guard before `add` keeps every count at one, so a strictly sorted sequence is an exact picture.
- The demo `main` (`BidTrackerImpl.java:102-146`): driver code.
- The `BidTracker` interface: signatures only, and its comment that `registerBid` returns a boolean is stale.
- `getName`, `getBids`, `getItems`, `getItemName`, `getDescription`, `getReserveAmount`, `getLastUpdate`: field reads, which the datatypes expose directly.
- Items.GetWinningBid: `bids.firstEntry().getElement()` (`Item.java:91`) throws a `NullPointerException` on an item with no bids. The model requires a non-empty ranking instead of modelling the exception. The tracker's `getWinningBid` checks for bids first (`BidTrackerImpl.java:78`), and `Tracker.GetWinningBid` models that guard, returning `None`.
- Tracker.GetWinningBid, Tracker.GetAllBidsForItem, Tracker.GetAllItemsForUser: the Java queries (`BidTrackerImpl.java:76-92`) read the item or user object they are handed without checking that it is registered. An unregistered item that received bids through the public `Item.addBid` (`Item.java:81`) yields those bids there. The model takes ids and answers only from the registries, so a query on an unregistered id reads nothing and returns `None` or an empty list. The object-level behaviour is `Items.GetWinningBid` and the item's own ranking.
- Identity.HashCode: returns the 32-bit pattern of the Java `int` (`bv32`), not a signed integer. Arithmetic in `bv32` is exactly Java's wrap-around.
- Tracker.RegisterBid: its own contract does not name the user and item of the returned bid. That fact needs the tracker invariant, so `Tracker.AmendKeepsIdentity` and `Tracker.NewBidIsRecorded` state it under `Tracker.Valid`.

## Findings

| source | as written | input that shows it | evidently intended | confidence | as-written member | corrected member |
|---|---|---|---|---|---|---|
| auctioneer/src/main/java/com/luhar/auctioneer/impl/BidTrackerImpl.java:57-58 | The file does not compile as given: line 58 calls `bidModified`, which `Item.java` does not define. Before that call, line 57 has `setBidAmount` change the amount and timestamp of a bid while it still sits inside the item's comparator-ordered collection. After line 57 the entry sits at its old place under its new key. Any removal at line 58 that goes through the comparator would search for the entry under that new key. | Bob bids 12 and Alice bids 11 on one item. Alice then raises her bid to 13: her entry still sits behind Bob's 12. | Take the bid out of the ranking by identity before or regardless of the key change, then insert it again under its new key. | medium, not executed | Ranking.InPlaceMutationBreaksOrder | Items.BidModifiedRestoresOrder |
