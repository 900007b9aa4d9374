/**
  The keyed entity registry (ObjectCache): a map from an entity's id to the
  entity. `idOf` is the entity's `getID()`.
*/
module ObjectCache {
  import opened Wrappers
  import opened Identity

  type Cache<T> = map<Uuid, T>

  /** Every entry sits under its own id. */
  ghost predicate KeyedById<T>(c: Cache<T>, idOf: T -> Uuid) {
    forall k :: k in c ==> idOf(c[k]) == k
  }

  /** `addItem`: stores `x` under its id, replacing any entry with that id. */
  function AddItem<T>(c: Cache<T>, idOf: T -> Uuid, x: T): (c': Cache<T>)
    ensures c'.Keys == c.Keys + {idOf(x)}
    ensures idOf(x) in c' && c'[idOf(x)] == x
    ensures forall k :: k in c && k != idOf(x) ==> c'[k] == c[k]
    ensures KeyedById(c, idOf) ==> KeyedById(c', idOf)
  {
    c[idOf(x) := x]
  }

  /** Overwriting an entry with a value carrying the same id keeps the map keyed by id. */
  lemma UpdateKeepsKeyed<T>(c: Cache<T>, idOf: T -> Uuid, k: Uuid, x: T)
    requires KeyedById(c, idOf) && idOf(x) == k
    ensures KeyedById(c[k := x], idOf)
  {
  }

  /** `getItem`: the entry stored under `id`, or `None` (Java `null`). */
  function GetItem<T>(c: Cache<T>, id: Uuid): (r: Option<T>)
    ensures r.None? <==> id !in c
    ensures r.Some? ==> r.value == c[id]
  {
    if id in c then Some(c[id]) else None
  }

  /** `containsItem`: whether some entry is stored under the id of `x`. */
  function ContainsItem<T>(c: Cache<T>, idOf: T -> Uuid, x: T): (b: bool)
    ensures b <==> idOf(x) in c
  {
    GetItem(c, idOf(x)).Some?
  }

  /** `getAllItems`: the stored values. */
  function GetAllItems<T(!new)>(c: Cache<T>): (vs: set<T>)
    ensures forall x :: x in vs <==> exists k :: k in c && c[k] == x
  {
    c.Values
  }

  /** After `addItem(x)`, `containsItem(x)` holds and `getItem(x.id)` yields `x`. */
  lemma AddThenGet<T(!new)>(c: Cache<T>, idOf: T -> Uuid, x: T)
    ensures ContainsItem(AddItem(c, idOf, x), idOf, x)
    ensures GetItem(AddItem(c, idOf, x), idOf(x)) == Some(x)
    ensures x in GetAllItems(AddItem(c, idOf, x))
  {
  }

  /** Adding under one id leaves the lookups of every other id as they were. */
  lemma AddKeepsOtherIds<T>(c: Cache<T>, idOf: T -> Uuid, x: T, id: Uuid)
    requires id != idOf(x)
    ensures GetItem(AddItem(c, idOf, x), id) == GetItem(c, id)
  {
  }

  /** Membership is a question about the id only. */
  lemma ContainsDependsOnIdOnly<T>(c: Cache<T>, idOf: T -> Uuid, x: T, y: T)
    requires idOf(x) == idOf(y)
    ensures ContainsItem(c, idOf, x) == ContainsItem(c, idOf, y)
  {
  }

  /** An id neither stored before nor added since is not found. */
  lemma GetMissing<T>(c: Cache<T>, idOf: T -> Uuid, xs: seq<T>, id: Uuid)
    requires id !in c
    requires forall i :: 0 <= i < |xs| ==> idOf(xs[i]) != id
    ensures GetItem(AddAll(c, idOf, xs), id) == None
  {
    AddAllKeys(c, idOf, xs);
  }

  /** Adds `xs` one after the other, as a sequence of `addItem` calls does. */
  function AddAll<T>(c: Cache<T>, idOf: T -> Uuid, xs: seq<T>): (c': Cache<T>)
    decreases |xs|
  {
    if xs == [] then c else AddAll(AddItem(c, idOf, xs[0]), idOf, xs[1..])
  }

  lemma {:induction false} AddAllKeys<T>(c: Cache<T>, idOf: T -> Uuid, xs: seq<T>)
    ensures AddAll(c, idOf, xs).Keys == c.Keys + set i | 0 <= i < |xs| :: idOf(xs[i])
    decreases |xs|
  {
    if xs != [] {
      AddAllKeys(AddItem(c, idOf, xs[0]), idOf, xs[1..]);
      var tail := set i | 0 <= i < |xs[1..]| :: idOf(xs[1..][i]);
      var all := set i | 0 <= i < |xs| :: idOf(xs[i]);
      assert all == {idOf(xs[0])} + tail by {
        forall y | y in all ensures y in {idOf(xs[0])} + tail {
          var i :| 0 <= i < |xs| && idOf(xs[i]) == y;
          if i > 0 { assert idOf(xs[1..][i - 1]) == y; }
        }
        forall y | y in tail ensures y in all {
          var i :| 0 <= i < |xs[1..]| && idOf(xs[1..][i]) == y;
          assert idOf(xs[i + 1]) == y;
        }
      }
    }
  }
}
