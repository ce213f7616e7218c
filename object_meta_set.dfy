/**
 * The per-type set of the registry (`objectMetaSet`): a map from identity to
 * snapshot, mutated in place. Locking is not modelled.
 *
 * This is a standalone model of the set's own methods. The registry in module
 * `ObjectRegistry` does not hold `ObjectMetaSet` objects: it keeps each set's
 * contents as a `Partition` value and applies the same operations to it inline.
 */
module ObjectMetaSets {
  import opened Objects

  class ObjectMetaSet {
    /** The entity type this set belongs to; fixed when the set is created. */
    const entityType: EntityType
    /** Identity to stored snapshot. */
    var contents: Partition

    ghost predicate Valid()
      reads this
    {
      WellKeyed(contents)
    }

    /** `newObjectMetaSet`: an empty set for one entity type. */
    constructor (entityType: EntityType)
      ensures Valid()
      ensures this.entityType == entityType && contents == map[]
    {
      this.entityType := entityType;
      contents := map[];
    }

    /** Adds `o` only if no object with the same identity is present; reports whether it did. */
    method MaybeAdd(o: Object) returns (added: bool)
      requires Valid()
      modifies this
      ensures Valid()
      ensures added <==> IdentityOf(o) !in old(contents)
      ensures contents == if added then old(contents)[IdentityOf(o) := o] else old(contents)
    {
      if IdentityOf(o) in contents {
        return false;
      }
      contents := contents[IdentityOf(o) := o];
      return true;
    }

    /** Deletes the entry with `o`'s identity, matching on identity only; reports whether one was there. */
    method Remove(o: Object) returns (removed: bool)
      requires Valid()
      modifies this
      ensures Valid()
      ensures removed <==> IdentityOf(o) in old(contents)
      ensures contents == old(contents) - {IdentityOf(o)}
    {
      if IdentityOf(o) !in contents {
        return false;
      }
      contents := contents - {IdentityOf(o)};
      return true;
    }

    /** Whether an object with `o`'s identity is present (labels and annotations are ignored). */
    method Contains(o: Object) returns (found: bool)
      ensures found <==> IdentityOf(o) in contents
    {
      found := IdentityOf(o) in contents;
    }

    /**
     * Hands every stored snapshot to the caller's function once, in map order;
     * the visits are returned in the order they were made.
     */
    method Walk() returns (visited: seq<Object>)
      requires Valid()
      ensures EnumeratesPartition(visited, contents)
    {
      visited := WalkPartition(contents);
    }

    /** The number of stored snapshots. */
    method Len() returns (n: int)
      ensures n == |contents|
      ensures n == 0 <==> contents == map[]
    {
      n := |contents|;
    }
  }

  /** The loop of `walk` over a set's map: every stored snapshot once, in map order. */
  method WalkPartition(p: Partition) returns (visited: seq<Object>)
    requires WellKeyed(p)
    ensures EnumeratesPartition(visited, p)
  {
    visited := [];
    var remaining := p.Keys;
    while remaining != {}
      invariant remaining <= p.Keys
      invariant forall i, j :: 0 <= i < j < |visited| ==> visited[i] != visited[j]
      invariant forall o :: o in visited ==>
        IdentityOf(o) in p && p[IdentityOf(o)] == o && IdentityOf(o) !in remaining
      invariant forall id :: id in p && id !in remaining ==> p[id] in visited
      decreases remaining
    {
      var id :| id in remaining;
      visited := visited + [p[id]];
      remaining := remaining - {id};
    }
  }
}
