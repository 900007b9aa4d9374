/**
  A bid (Bid.java): an immutable id, item and user, and a mutable amount with
  the time it was last set. Amounts are BigDecimal values in the source and
  are compared only with `compareTo`, so they are kept as whole minor units;
  timestamps are milliseconds.
*/
module Bids {
  import opened Identity

  datatype Bid = Bid(id: Uuid, item: Uuid, user: Uuid, amount: int, timestamp: int) {
    function AsEntity(): Entity {
      Entity(BidKind, id)
    }
  }

  /** The constructor: item, user and amount as given, stamped with the current time. */
  function NewBid(id: Uuid, item: Uuid, user: Uuid, amount: int, now: int): (b: Bid)
    ensures b.id == id && b.item == item && b.user == user
    ensures b.amount == amount && b.timestamp == now
  {
    Bid(id, item, user, amount, now)
  }

  /** `setBidAmount`: a new amount and a fresh timestamp; nothing else changes. */
  function SetBidAmount(b: Bid, newAmount: int, now: int): (b': Bid)
    ensures b'.amount == newAmount && b'.timestamp == now
    ensures b'.id == b.id && b'.item == b.item && b'.user == b.user
  {
    b.(amount := newAmount, timestamp := now)
  }

  /** `BigDecimal.compareTo` on two amounts: -1, 0 or 1. */
  function CompareAmounts(x: int, y: int): (c: int)
    ensures c < 0 <==> x < y
    ensures c == 0 <==> x == y
    ensures c > 0 <==> x > y
  {
    if x < y then -1 else if x == y then 0 else 1
  }

  /** The auction's ranking rule: higher amount first, and the earlier of two equal amounts. */
  predicate Outranks(a: Bid, b: Bid) {
    a.amount > b.amount || (a.amount == b.amount && a.timestamp < b.timestamp)
  }

  /** Two bids with the same sort key: equal amount and equal timestamp. */
  predicate SameKey(a: Bid, b: Bid) {
    a.amount == b.amount && a.timestamp == b.timestamp
  }

  /**
    `Bid.compareTo`: negative when `self` ranks ahead of `other`. Equal amounts
    are ordered by timestamp, earlier first; otherwise the amounts are compared
    the other way round, so the higher amount comes first.
  */
  function CompareTo(self: Bid, other: Bid): (c: int)
    ensures c == -1 || c == 0 || c == 1
    ensures c < 0 <==> Outranks(self, other)
    ensures c == 0 <==> SameKey(self, other)
    ensures c > 0 <==> Outranks(other, self)
  {
    if CompareAmounts(other.amount, self.amount) == 0 then
      if other.timestamp > self.timestamp then -1
      else if other.timestamp == self.timestamp then 0
      else 1
    else
      CompareAmounts(other.amount, self.amount)
  }

  /** A higher amount ranks first, whatever the timestamps. */
  lemma HigherAmountFirst(a: Bid, b: Bid)
    requires a.amount > b.amount
    ensures CompareTo(a, b) < 0
  {
  }

  /** For equal amounts the earlier bid ranks first (not the later one). */
  lemma EarlierFirstOnTie(a: Bid, b: Bid)
    requires a.amount == b.amount && a.timestamp < b.timestamp
    ensures CompareTo(a, b) < 0 && CompareTo(b, a) > 0
  {
  }

  /** Equal amount and equal timestamp compare as equal. */
  lemma SameKeyComparesEqual(a: Bid, b: Bid)
    requires SameKey(a, b)
    ensures CompareTo(a, b) == 0
  {
  }

  /** Swapping the arguments flips the sign. */
  lemma CompareToAntisymmetric(a: Bid, b: Bid)
    ensures CompareTo(a, b) == -CompareTo(b, a)
  {
  }

  lemma CompareToReflexive(a: Bid)
    ensures CompareTo(a, a) == 0
  {
  }

  /** The comparator is transitive, strictly and non-strictly: a total preorder. */
  lemma CompareToTransitive(a: Bid, b: Bid, c: Bid)
    ensures CompareTo(a, b) <= 0 && CompareTo(b, c) <= 0 ==> CompareTo(a, c) <= 0
    ensures CompareTo(a, b) < 0 && CompareTo(b, c) < 0 ==> CompareTo(a, c) < 0
  {
  }

  /** Any two bids are comparable one way or the other. */
  lemma CompareToTotal(a: Bid, b: Bid)
    ensures CompareTo(a, b) <= 0 || CompareTo(b, a) <= 0
  {
  }
}
