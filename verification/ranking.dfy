/**
  The ranked bid collection an item owns (a comparator-ordered multiset in the
  source). A ranking is a sequence of bid ids; the bids themselves live in one
  central store, and the order is the order of `Bid.compareTo` on the stored
  values. Because an insertion is refused when an element comparing equal is
  already present, no multiplicity ever exceeds one, so a strictly sorted
  sequence is an exact picture of the collection.
*/
module Ranking {
  import opened Identity
  import opened Bids

  type Store = map<Uuid, Bid>

  /** Every ranked id resolves in the store. */
  predicate InStore(r: seq<Uuid>, store: Store) {
    forall k :: 0 <= k < |r| ==> r[k] in store
  }

  /** Strictly ascending under the comparator: each entry ranks ahead of every later one. */
  ghost predicate Sorted(r: seq<Uuid>, store: Store) {
    && InStore(r, store)
    && forall i, j :: 0 <= i < j < |r| ==> CompareTo(store[r[i]], store[r[j]]) < 0
  }

  /** `contains` on the ordered collection: some entry compares equal to `b`. */
  predicate ContainsKey(r: seq<Uuid>, store: Store, b: Bid)
    requires InStore(r, store)
    ensures ContainsKey(r, store, b) <==> exists k :: 0 <= k < |r| && SameKey(store[r[k]], b)
  {
    exists k :: 0 <= k < |r| && CompareTo(store[r[k]], b) == 0
  }

  /** `h` resolves and ranks ahead of every id in `s`. */
  ghost predicate Leads(store: Store, h: Uuid, s: seq<Uuid>) {
    && h in store
    && forall y :: y in s ==> y in store && CompareTo(store[h], store[y]) < 0
  }

  /** Places `x` in front of the first entry it ranks ahead of. */
  function Insert(r: seq<Uuid>, store: Store, x: Uuid): (r': seq<Uuid>)
    requires InStore(r, store) && x in store
    ensures InStore(r', store)
    ensures multiset(r') == multiset(r) + multiset{x}
    ensures forall y :: y in r' <==> y in r || y == x
    decreases |r|
  {
    if r == [] then [x]
    else if CompareTo(store[x], store[r[0]]) < 0 then [x] + r
    else
      assert r == [r[0]] + r[1..];
      [r[0]] + Insert(r[1..], store, x)
  }

  /** Drops every occurrence of `x`, keeping the rest in order. */
  function Remove(r: seq<Uuid>, x: Uuid): (r': seq<Uuid>)
    ensures forall y :: y in r' <==> y in r && y != x
    ensures forall y :: y != x ==> multiset(r')[y] == multiset(r)[y]
    decreases |r|
  {
    if r == [] then []
    else
      assert r == [r[0]] + r[1..];
      if r[0] == x then Remove(r[1..], x)
      else [r[0]] + Remove(r[1..], x)
  }

  /** A sorted ranking holds no two entries that compare equal, and no id twice. */
  lemma SortedHasNoEqualKeys(r: seq<Uuid>, store: Store)
    requires Sorted(r, store)
    ensures forall i, j :: 0 <= i < |r| && 0 <= j < |r| && i != j ==> CompareTo(store[r[i]], store[r[j]]) != 0
    ensures forall i, j :: 0 <= i < j < |r| ==> r[i] != r[j]
  {
    forall i, j | 0 <= i < |r| && 0 <= j < |r| && i != j
      ensures CompareTo(store[r[i]], store[r[j]]) != 0
    {
      CompareToAntisymmetric(store[r[i]], store[r[j]]);
    }
  }

  /** The first entry of a sorted ranking outranks every other entry. */
  lemma FirstOutranksRest(r: seq<Uuid>, store: Store)
    requires Sorted(r, store) && |r| > 0
    ensures forall k :: 0 < k < |r| ==> Outranks(store[r[0]], store[r[k]])
    ensures forall k :: 0 <= k < |r| ==> store[r[k]].amount <= store[r[0]].amount
  {
    forall k | 0 < k < |r| ensures Outranks(store[r[0]], store[r[k]]) {
    }
  }

  /** If an id is ranked and outranks every other ranked bid, it is first. */
  lemma OutrankingAllMeansFirst(r: seq<Uuid>, store: Store, x: Uuid)
    requires Sorted(r, store) && x in r
    requires forall k :: 0 <= k < |r| && r[k] != x ==> Outranks(store[x], store[r[k]])
    ensures r[0] == x
  {
  }

  /** A bid that leads a sorted ranking may be put in front of it. */
  lemma ConsKeepsSorted(h: Uuid, t: seq<Uuid>, store: Store)
    requires Sorted(t, store) && Leads(store, h, t)
    ensures Sorted([h] + t, store)
  {
    var r := [h] + t;
    forall i, j | 0 <= i < j < |r| ensures CompareTo(store[r[i]], store[r[j]]) < 0 {
      assert r[j] == t[j - 1];
      if i > 0 {
        assert r[i] == t[i - 1];
      }
    }
  }

  /** The tail of a sorted ranking is sorted and led by the head. */
  lemma TailOfSorted(r: seq<Uuid>, store: Store)
    requires Sorted(r, store) && |r| > 0
    ensures Sorted(r[1..], store) && Leads(store, r[0], r[1..])
  {
    var t := r[1..];
    forall i, j | 0 <= i < j < |t| ensures CompareTo(store[t[i]], store[t[j]]) < 0 {
      assert t[i] == r[i + 1] && t[j] == r[j + 1];
    }
    forall y | y in t ensures y in store && CompareTo(store[r[0]], store[y]) < 0 {
      var k :| 0 <= k < |t| && t[k] == y;
      assert t[k] == r[k + 1];
    }
  }

  /** Insertion of a bid whose key is not present keeps the ranking sorted. */
  lemma {:induction false} InsertKeepsSorted(r: seq<Uuid>, store: Store, x: Uuid)
    requires Sorted(r, store) && x in store
    requires !ContainsKey(r, store, store[x])
    ensures Sorted(Insert(r, store, x), store)
    decreases |r|
  {
    if r == [] {
      assert Insert(r, store, x) == [x];
    } else {
      TailOfSorted(r, store);
      var t := r[1..];
      assert r == [r[0]] + t;
      if CompareTo(store[x], store[r[0]]) < 0 {
        forall y | y in r ensures y in store && CompareTo(store[x], store[y]) < 0 {
          if y != r[0] {
            CompareToTransitive(store[x], store[r[0]], store[y]);
          }
        }
        ConsKeepsSorted(x, r, store);
      } else {
        assert CompareTo(store[r[0]], store[x]) != 0;
        CompareToAntisymmetric(store[x], store[r[0]]);
        assert !ContainsKey(t, store, store[x]) by {
          forall k | 0 <= k < |t| ensures CompareTo(store[t[k]], store[x]) != 0 {
            assert t[k] == r[k + 1];
          }
        }
        InsertKeepsSorted(t, store, x);
        var ins := Insert(t, store, x);
        forall y | y in ins ensures y in store && CompareTo(store[r[0]], store[y]) < 0 {
          assert y in multiset(ins);
        }
        ConsKeepsSorted(r[0], ins, store);
      }
    }
  }

  /** Removing entries keeps the rest in the same relative order, hence sorted. */
  lemma {:induction false} RemoveKeepsSorted(r: seq<Uuid>, store: Store, x: Uuid)
    requires Sorted(r, store)
    ensures Sorted(Remove(r, x), store)
    decreases |r|
  {
    if r != [] {
      TailOfSorted(r, store);
      var t := r[1..];
      RemoveKeepsSorted(t, store, x);
      if r[0] != x {
        var rem := Remove(t, x);
        assert Remove(r, x) == [r[0]] + rem;
        ConsKeepsSorted(r[0], rem, store);
      }
    }
  }

  /** Changing the stored value of a bid that is not ranked here cannot disturb the order. */
  lemma StoreUpdateKeepsSorted(r: seq<Uuid>, store: Store, x: Uuid, b: Bid)
    requires Sorted(r, store) && x !in r
    ensures Sorted(r, store[x := b])
  {
    var store' := store[x := b];
    forall i, j | 0 <= i < j < |r| ensures CompareTo(store'[r[i]], store'[r[j]]) < 0 {
      assert r[i] != x && r[j] != x;
    }
  }

  /**
    Mutating the key of a ranked bid in place, without re-ranking, breaks the
    order: raising any bid but the first above the first one.
  */
  lemma InPlaceMutationBreaksOrder(r: seq<Uuid>, store: Store, k: nat, b: Bid)
    requires Sorted(r, store) && 0 < k < |r|
    requires b.amount > store[r[0]].amount
    ensures !Sorted(r, store[r[k] := b])
  {
    SortedHasNoEqualKeys(r, store);
    assert r[0] != r[k];
  }
}
