/**
  Identity of auction entities (AuctioneerObject).

  Every user, item and bid carries an immutable identifier assigned once at
  construction. Equality and hashing of the base class depend only on the
  runtime class and that identifier.
*/
module Identity {
  import opened Wrappers

  /** A 128-bit universally unique identifier, kept as its two 64-bit halves. */
  datatype Uuid = Uuid(mostSigBits: bv64, leastSigBits: bv64)

  /** The runtime class of an entity, as seen by `getClass()`. */
  datatype Kind = UserKind | ItemKind | BidKind

  /** The part of every entity that the base class owns: its class and its id. */
  datatype Entity = Entity(kind: Kind, id: Uuid)

  /** The hash of a UUID: the two halves folded together, then the high and low words folded. */
  function UuidHash(u: Uuid): bv32 {
    var hilo := u.mostSigBits ^ u.leastSigBits;
    ((hilo >> 32) as bv32) ^ ((hilo & 0xFFFF_FFFF) as bv32)
  }

  /**
    `AuctioneerObject.hashCode`: `31 * 1 + id.hashCode()`. A Java `int` is kept as
    its 32-bit pattern, so `bv32` arithmetic is exactly the wrap-around of the
    source: the hash lies 31 above the id's hash, modulo 2^32.
  */
  function HashCode(e: Entity): (h: bv32)
    ensures h - UuidHash(e.id) == 31
  {
    31 + UuidHash(e.id)
  }

  /**
    `AuctioneerObject.equals`: false for `null`, otherwise true exactly when the
    other object has the same class and an equal id. The reference-equality
    shortcut is subsumed, since one reference has one class and one id.
  */
  function Equals(self: Entity, obj: Option<Entity>): (r: bool)
    ensures obj.None? ==> !r
    ensures obj == Some(self) ==> r
    ensures r ==> HashCode(self) == HashCode(obj.value)
  {
    match obj
    case None => false
    case Some(other) => self.kind == other.kind && self.id == other.id
  }

  lemma EqualsReflexive(a: Entity)
    ensures Equals(a, Some(a))
  {
  }

  lemma EqualsNull(a: Entity)
    ensures !Equals(a, None)
  {
  }

  /** Base equality holds exactly for the same class and the same id. */
  lemma EqualsIffSameClassAndId(a: Entity, b: Entity)
    ensures Equals(a, Some(b)) <==> a.kind == b.kind && a.id == b.id
  {
  }

  lemma EqualsSymmetric(a: Entity, b: Entity)
    ensures Equals(a, Some(b)) <==> Equals(b, Some(a))
  {
  }

  lemma EqualsTransitive(a: Entity, b: Entity, c: Entity)
    requires Equals(a, Some(b)) && Equals(b, Some(c))
    ensures Equals(a, Some(c))
  {
  }

  /** The hash depends on the id alone: neither the class nor anything else enters it. */
  lemma HashCodeDependsOnIdOnly(a: Entity, b: Entity)
    requires a.id == b.id
    ensures HashCode(a) == HashCode(b)
  {
  }

  /** Equal objects have equal hash codes, as the `Object.hashCode` contract demands. */
  lemma HashCodeConsistentWithEquals(a: Entity, b: Entity)
    requires Equals(a, Some(b))
    ensures HashCode(a) == HashCode(b)
  {
  }
}
