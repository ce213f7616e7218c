/**
 * The object registry (`Registry` in the operator's `model` package): for each
 * entity type, the contents of that type's set, created lazily and updated in place.
 *
 * A Go method on a pointer receiver may be called on a nil registry. Each
 * registry operation is therefore a method of this module whose first
 * parameter is the receiver: `r: Registry?` where the source guards against
 * nil, `r: Registry` where it does not (hasEntity, deleteEntity and their
 * wrappers dereference the missing set). Locks are not modelled.
 */
module ObjectRegistry {
  import opened Objects
  import opened ObjectMetaSets
  import opened RegistryState

  class Registry {
    /** Entity type to the contents of that type's set; a key appears when the set is created. */
    var r: State

    ghost predicate Valid()
      reads this
    {
      WellFormed(r)
    }

    /** `NewRegistry`: no entity type materialised yet. */
    constructor ()
      ensures Valid()
      ensures r == map[]
    {
      r := map[];
    }
  }

  /**
   * `ensureObjectSetForType`: the set of `t`, created empty and added to the
   * registry when absent; `None` (the nil set) for a nil registry. The read-locked
   * lookup and the write-locked re-check of the source collapse into one lookup.
   */
  method EnsureObjectSetForType(r: Registry?, t: EntityType) returns (s: Option<Partition>)
    requires r != null ==> r.Valid()
    modifies r
    ensures r == null ==> s == None
    ensures r != null ==> r.Valid() && t in r.r && s == Some(r.r[t])
    ensures r != null ==> r.r == Ensured(old(r.r), t)
    ensures r != null && t in old(r.r) ==> s == Some(old(r.r)[t]) && r.r == old(r.r)
    ensures r != null && t !in old(r.r) ==> s == Some(map[]) && |r.r| == |old(r.r)| + 1
  {
    if r == null {
      return None;
    }
    if t in r.r {
      return Some(r.r[t]);
    }
    EnsuredLen(r.r, t);
    r.r := r.r[t := map[]];
    s := Some(map[]);
  }

  /**
   * `Len`: with no types, the number of entity types materialised; with types, the
   * sizes of their sets added up, materialising each named type on the way. 0 on nil.
   */
  method Len(r: Registry?, what: seq<EntityType>) returns (n: int)
    requires r != null ==> r.Valid()
    modifies if what == [] then {} else {r}
    ensures r == null ==> n == 0
    ensures r != null ==> r.Valid()
    ensures r != null && what == [] ==> n == |old(r.r)| && r.r == old(r.r)
    ensures r != null && what != [] ==>
      n == SizeSum(old(r.r), what) && r.r == EnsuredAll(old(r.r), what)
  {
    if r == null {
      return 0;
    }
    if |what| == 0 {
      return |r.r|;
    }
    ghost var s0 := r.r;
    n := 0;
    var i := 0;
    while i < |what|
      invariant 0 <= i <= |what|
      invariant r.Valid()
      invariant r.r == EnsuredAll(s0, what[..i])
      invariant n == SizeSum(s0, what[..i])
    {
      EnsuredAllStep(s0, what[..i], what[i]);
      assert what[..i + 1] == what[..i] + [what[i]];
      var setForType := EnsureObjectSetForType(r, what[i]);
      n := n + |setForType.value|;
      i := i + 1;
    }
    assert what[..i] == what;
  }

  /** `registerEntity`: store a snapshot of `o` under `t` unless its identity is already there. No-op on nil. */
  method RegisterEntity(r: Registry?, t: EntityType, o: Object)
    requires r != null ==> r.Valid()
    modifies r
    ensures r != null ==> r.Valid() && r.r == Registered(old(r.r), t, o)
  {
    if r == null {
      return;
    }
    var setForType := EnsureObjectSetForType(r, t);
    var newObj := Snapshot(o);
    var id := IdentityOf(newObj);
    if id !in setForType.value {
      r.r := r.r[t := setForType.value[id := newObj]];
    }
    RegisteredWellFormed(old(r.r), t, o);
  }

  /** `hasEntity`: whether `o`'s identity is stored under `t`; materialises `t`'s set. */
  method HasEntity(r: Registry, t: EntityType, o: Object) returns (found: bool)
    requires r.Valid()
    modifies r
    ensures r.Valid()
    ensures found <==> Has(old(r.r), t, IdentityOf(o))
    ensures r.r == Ensured(old(r.r), t)
  {
    var setForType := EnsureObjectSetForType(r, t);
    found := IdentityOf(o) in setForType.value;
  }

  /** `deleteEntity`: drop the entry with `o`'s identity under `t`; reports whether one was there. */
  method DeleteEntity(r: Registry, t: EntityType, o: Object) returns (removed: bool)
    requires r.Valid()
    modifies r
    ensures r.Valid()
    ensures removed <==> Has(old(r.r), t, IdentityOf(o))
    ensures r.r == Deleted(old(r.r), t, IdentityOf(o))
  {
    var setForType := EnsureObjectSetForType(r, t);
    var id := IdentityOf(o);
    removed := id in setForType.value;
    if removed {
      r.r := r.r[t := setForType.value - {id}];
    } else {
      assert setForType.value - {id} == setForType.value;
    }
    DeletedWellFormed(old(r.r), t, id);
  }

  /**
   * `Walk`: call the visiting function once for every stored snapshot, of every type,
   * in map order; the calls are returned in the order they were made. None on nil.
   */
  method Walk(r: Registry?) returns (visits: seq<Visit>)
    requires r != null ==> r.Valid()
    ensures r == null ==> visits == []
    ensures r != null ==> Enumerates(visits, r.r)
  {
    visits := [];
    if r == null {
      return;
    }
    var c := r.r;
    var remaining := c.Keys;
    while remaining != {}
      invariant remaining <= c.Keys
      invariant forall i, j :: 0 <= i < j < |visits| ==> visits[i] != visits[j]
      invariant forall v :: v in visits ==> Stored(c, v) && v.entityType !in remaining
      invariant forall t, id :: Has(c, t, id) && t !in remaining ==> Visit(t, c[t][id]) in visits
      decreases remaining
    {
      var t :| t in remaining;
      var objs := WalkPartition(c[t]);
      var j := 0;
      while j < |objs|
        invariant 0 <= j <= |objs|
        invariant forall i, k :: 0 <= i < k < |visits| ==> visits[i] != visits[k]
        invariant forall v :: v in visits ==>
          Stored(c, v) && (v.entityType !in remaining || (v.entityType == t && v.obj in objs[..j]))
        invariant forall u, id :: Has(c, u, id) && u !in remaining ==> Visit(u, c[u][id]) in visits
        invariant forall k :: 0 <= k < j ==> Visit(t, objs[k]) in visits
      {
        assert objs[j] !in objs[..j];
        visits := visits + [Visit(t, objs[j])];
        j := j + 1;
      }
      forall id | Has(c, t, id)
        ensures Visit(t, c[t][id]) in visits
      {
        assert c[t][id] in objs;
      }
      remaining := remaining - {t};
    }
  }

  /** `walkEntityType`: visit every snapshot of type `t`; materialises `t`'s set. None on nil. */
  method WalkEntityType(r: Registry?, t: EntityType) returns (visited: seq<Object>)
    requires r != null ==> r.Valid()
    modifies r
    ensures r == null ==> visited == []
    ensures r != null ==> r.Valid() && r.r == Ensured(old(r.r), t)
    ensures r != null ==> EnumeratesPartition(visited, Get(old(r.r), t))
  {
    if r == null {
      return [];
    }
    var setForType := EnsureObjectSetForType(r, t);
    visited := WalkPartition(setForType.value);
  }

  /** One line of the registry dump: `<type>: <namespace>/<name>`. */
  function Line(v: Visit): string
  {
    TypeName(v.entityType) + ": " + v.obj.namespace + "/" + v.obj.name + "\n"
  }

  /** The dump of a sequence of visits, one line each, in order. */
  function Lines(vs: seq<Visit>): string
    decreases |vs|
  {
    if vs == [] then "" else Lines(vs[..|vs| - 1]) + Line(vs[|vs| - 1])
  }

  /** The number of line breaks in `s`. */
  function Newlines(s: string): nat
    decreases |s|
  {
    if s == [] then 0 else Newlines(s[..|s| - 1]) + (if s[|s| - 1] == '\n' then 1 else 0)
  }

  lemma {:induction false} NewlinesConcat(a: string, b: string)
    ensures Newlines(a + b) == Newlines(a) + Newlines(b)
    decreases |b|
  {
    if b == [] {
      assert a + b == a;
    } else {
      var b' := b[..|b| - 1];
      assert (a + b)[..|a + b| - 1] == a + b';
      assert (a + b)[|a + b| - 1] == b[|b| - 1];
      NewlinesConcat(a, b');
    }
  }

  lemma NoNewlines(s: string)
    requires '\n' !in s
    ensures Newlines(s) == 0
    decreases |s|
  {
    if s != [] {
      assert s[..|s| - 1] <= s;
      NoNewlines(s[..|s| - 1]);
    }
  }

  /** A dump line ends in its only line break, given names and namespaces without one. */
  lemma LineHasOneBreak(v: Visit)
    requires '\n' !in v.obj.name && '\n' !in v.obj.namespace
    ensures Newlines(Line(v)) == 1
  {
    var t := TypeName(v.entityType);
    assert '\n' !in t;
    NoNewlines(t);
    NoNewlines(": ");
    NoNewlines(v.obj.namespace);
    NoNewlines("/");
    NoNewlines(v.obj.name);
    NewlinesConcat(t, ": ");
    NewlinesConcat(t + ": ", v.obj.namespace);
    NewlinesConcat(t + ": " + v.obj.namespace, "/");
    NewlinesConcat(t + ": " + v.obj.namespace + "/", v.obj.name);
    NewlinesConcat(t + ": " + v.obj.namespace + "/" + v.obj.name, "\n");
  }

  /**
   * The dump has one line per visit: as many line breaks as visits, when no name or
   * namespace holds a line break (as Kubernetes names never do).
   */
  lemma {:induction false} OneLinePerVisit(vs: seq<Visit>)
    requires forall v :: v in vs ==> '\n' !in v.obj.name && '\n' !in v.obj.namespace
    ensures Newlines(Lines(vs)) == |vs|
    decreases |vs|
  {
    if vs != [] {
      var init := vs[..|vs| - 1];
      assert forall v :: v in init ==> v in vs;
      OneLinePerVisit(init);
      LineHasOneBreak(vs[|vs| - 1]);
      NewlinesConcat(Lines(init), Line(vs[|vs| - 1]));
    }
  }

  /** `String`: "" on nil; otherwise one line per stored snapshot, in the order a walk visits them. */
  method String(r: Registry?) returns (str: string)
    requires r != null ==> r.Valid()
    ensures r == null ==> str == ""
    ensures r != null ==> exists order :: Enumerates(order, r.r) && str == Lines(order)
  {
    if r == null {
      return "";
    }
    str := "";
    var visits := Walk(r);
    var i := 0;
    while i < |visits|
      invariant 0 <= i <= |visits|
      invariant str == Lines(visits[..i])
    {
      assert visits[..i + 1][..i] == visits[..i];
      str := str + Line(visits[i]);
      i := i + 1;
    }
    assert visits[..i] == visits;
  }

  /**
   * `Subtract`: unless `sub` or `r` has no entity type materialised, delete from `r`
   * every entry `sub` holds, matched by type and identity; return the receiver.
   * The source deletes while walking `sub`; the model walks first and deletes after.
   * Subtracting a registry from itself deadlocks in the source as soon as the walk
   * reaches an entry (the set's read lock, held by the walk, meets the write lock of
   * the removal), so that case is excluded. Self-subtraction of a registry whose sets
   * are all empty visits nothing and returns the registry unchanged.
   */
  method Subtract(r: Registry?, sub: Registry?) returns (res: Registry?)
    requires r != null ==> r.Valid()
    requires sub != null ==> sub.Valid()
    requires r != null && sub != null && r == sub ==> forall t :: t in r.r ==> r.r[t] == map[]
    modifies r
    ensures res == r
    ensures r != null ==> r.Valid()
    ensures r != null && sub == null ==> r.r == old(r.r)
    ensures r != null && sub != null ==> r.r == Subtracted(old(r.r), old(sub.r))
    ensures r != null && r == sub ==> r.r == old(r.r)
  {
    var subLen := Len(sub, []);
    if subLen == 0 {
      // Nothing to subtract.
      return r;
    }
    var rLen := Len(r, []);
    if rLen == 0 {
      // Nowhere to subtract from.
      return r;
    }
    ghost var a := r.r;
    ghost var b := sub.r;
    var visits := Walk(sub);
    var i := 0;
    while i < |visits|
      invariant 0 <= i <= |visits|
      invariant r.Valid()
      invariant r.r == DeletedAll(a, visits[..i])
    {
      assert visits[..i + 1][..i] == visits[..i];
      var _ := DeleteEntity(r, visits[i].entityType, visits[i].obj);
      i := i + 1;
    }
    assert visits[..i] == visits;
    DeletedAllComplete(a, b, visits);
    if r == sub {
      SubtractedSelfEmpty(a);
    }
    return r;
  }
}
