/**
 * The abstract state of an object registry, a map from entity type to that
 * type's partition, and the effect of each registry operation on it. The
 * methods of module ObjectRegistry are proved to act on their object's state
 * as the functions here say; the lemmas here state what follows for callers.
 */
module RegistryState {
  import opened Objects

  /** Entity type to partition; a key is present once its set has been materialised. */
  type State = map<EntityType, Partition>

  /** The partition of `t`, empty when the type has no set yet. */
  function Get(s: State, t: EntityType): (p: Partition)
    ensures t !in s ==> p == map[]
  {
    if t in s then s[t] else map[]
  }

  /** Whether identity `id` is stored under type `t`. */
  predicate Has(s: State, t: EntityType, id: Identity)
  {
    t in s && id in s[t]
  }

  /** Every partition stores each snapshot under its own identity. */
  ghost predicate WellFormed(s: State)
  {
    forall t :: t in s ==> WellKeyed(s[t])
  }

  /**
   * `ensureObjectSetForType`: an absent type gains one new empty set; a present
   * type is left as it is; no key is ever removed.
   */
  function Ensured(s: State, t: EntityType): State
  {
    if t in s then s else s[t := map[]]
  }

  /** The types are those before plus `t`; every existing set is kept; a new set is empty. */
  lemma EnsuredSpec(s: State, t: EntityType)
    ensures Ensured(s, t).Keys == s.Keys + {t}
    ensures forall u :: u in s ==> Ensured(s, t)[u] == s[u]
    ensures t !in s ==> Ensured(s, t)[t] == map[]
  {
  }

  /** A type seen for the first time grows the number of types by exactly one; a known type leaves it as it is. */
  lemma EnsuredLen(s: State, t: EntityType)
    ensures |Ensured(s, t)| == if t in s then |s| else |s| + 1
  {
    if t !in s {
      assert Ensured(s, t).Keys == s.Keys + {t};
    }
  }

  /** The state after `ensureObjectSetForType` has run for each of `ts`, in order. */
  function EnsuredAll(s: State, ts: seq<EntityType>): State
    decreases |ts|
  {
    if ts == [] then s else Ensured(EnsuredAll(s, ts[..|ts| - 1]), ts[|ts| - 1])
  }

  /**
   * `Len(ts...)` materialises exactly the named types that were missing, each with an
   * empty set, and leaves every existing set as it was.
   */
  lemma {:induction false} EnsuredAllSpec(s: State, ts: seq<EntityType>)
    ensures forall u :: u in EnsuredAll(s, ts) <==> u in s || u in ts
    ensures forall u :: u in EnsuredAll(s, ts) ==> EnsuredAll(s, ts)[u] == Get(s, u)
    decreases |ts|
  {
    if ts != [] {
      EnsuredAllSpec(s, ts[..|ts| - 1]);
      assert ts == ts[..|ts| - 1] + [ts[|ts| - 1]];
    }
  }

  /** One more named type: materialise it, and add the size it had before `ts` ran. */
  lemma EnsuredAllStep(s: State, ts: seq<EntityType>, t: EntityType)
    ensures EnsuredAll(s, ts + [t]) == Ensured(EnsuredAll(s, ts), t)
    ensures Get(Ensured(EnsuredAll(s, ts), t), t) == Get(s, t)
    ensures SizeSum(s, ts + [t]) == SizeSum(s, ts) + |Get(s, t)|
  {
    assert (ts + [t])[..|ts|] == ts;
    EnsuredAllSpec(s, ts);
  }

  /** Naming a single type materialises just that type and counts just its entries. */
  lemma EnsuredAllSingle(s: State, t: EntityType)
    ensures EnsuredAll(s, [t]) == Ensured(s, t)
    ensures SizeSum(s, [t]) == |Get(s, t)|
  {
    assert [t][..0] == [];
  }

  /** `Len(ts...)`: the sizes of the named types' partitions, added up (a type named twice counts twice). */
  function SizeSum(s: State, ts: seq<EntityType>): nat
    decreases |ts|
  {
    if ts == [] then 0 else SizeSum(s, ts[..|ts| - 1]) + |Get(s, ts[|ts| - 1])|
  }

  /** The sum bounds each named type's size, and is 0 exactly when every named type is empty. */
  lemma {:induction false} SizeSumSpec(s: State, ts: seq<EntityType>)
    ensures forall t :: t in ts ==> |Get(s, t)| <= SizeSum(s, ts)
    ensures SizeSum(s, ts) == 0 <==> forall t :: t in ts ==> Get(s, t) == map[]
    decreases |ts|
  {
    if ts != [] {
      SizeSumSpec(s, ts[..|ts| - 1]);
      assert ts == ts[..|ts| - 1] + [ts[|ts| - 1]];
    }
  }

  /**
   * `registerEntity`: materialise `t`'s set, then store a snapshot of `o` only if
   * its identity is absent. A present identity keeps its first snapshot.
   */
  function Registered(s: State, t: EntityType, o: Object): State
  {
    var e := Ensured(s, t);
    var id := IdentityOf(o);
    if id in e[t] then e else e[t := e[t][id := Snapshot(o)]]
  }

  /**
   * After registration the identity is present under `t`, the types are those before
   * plus `t`, and every other type is untouched.
   */
  lemma RegisteredSpec(s: State, t: EntityType, o: Object)
    ensures Has(Registered(s, t, o), t, IdentityOf(o))
    ensures Registered(s, t, o).Keys == s.Keys + {t}
    ensures forall u :: u in s && u != t ==> Registered(s, t, o)[u] == s[u]
  {
  }

  /**
   * First wins: a present identity leaves the state exactly as it was; an absent one is
   * stored with `o`'s snapshot, beside the entries `t` already had.
   */
  lemma RegisteredEntry(s: State, t: EntityType, o: Object)
    ensures Has(s, t, IdentityOf(o)) ==> Registered(s, t, o) == s
    ensures !Has(s, t, IdentityOf(o)) ==> Registered(s, t, o)[t] == Get(s, t)[IdentityOf(o) := o]
  {
    assert Snapshot(o) == o;
  }

  /** Registration keeps every partition stored under identities. */
  lemma RegisteredWellFormed(s: State, t: EntityType, o: Object)
    requires WellFormed(s)
    ensures WellFormed(Registered(s, t, o))
  {
    assert Snapshot(o) == o;
  }

  /**
   * `deleteEntity`: materialise `t`'s set, then drop the entry with identity `id`;
   * every other entry, of this and every other type, stays.
   */
  function Deleted(s: State, t: EntityType, id: Identity): State
  {
    var e := Ensured(s, t);
    e[t := e[t] - {id}]
  }

  /**
   * After deletion `id` is absent under `t`; the types are those before plus `t`; other
   * types are untouched; every other entry of `t` stays with its snapshot, and nothing is added.
   */
  lemma DeletedSpec(s: State, t: EntityType, id: Identity)
    ensures !Has(Deleted(s, t, id), t, id)
    ensures Deleted(s, t, id).Keys == s.Keys + {t}
    ensures forall u :: u in s && u != t ==> Deleted(s, t, id)[u] == s[u]
    ensures forall j :: j != id && j in Get(s, t) ==> Has(Deleted(s, t, id), t, j) && Deleted(s, t, id)[t][j] == s[t][j]
    ensures forall j :: Has(Deleted(s, t, id), t, j) ==> Has(s, t, j)
  {
  }

  /** Deletion keeps every partition stored under identities. */
  lemma DeletedWellFormed(s: State, t: EntityType, id: Identity)
    requires WellFormed(s)
    ensures WellFormed(Deleted(s, t, id))
  {
  }

  /** One call of a walk's visiting function: the type and the stored snapshot. */
  datatype Visit = Visit(entityType: EntityType, obj: Object)

  /** `v` is an entry of `s`. */
  predicate Stored(s: State, v: Visit)
  {
    Has(s, v.entityType, IdentityOf(v.obj)) && s[v.entityType][IdentityOf(v.obj)] == v.obj
  }

  /** `vs` visits every entry of `s`, across all types, exactly once and nothing else. */
  ghost predicate Enumerates(vs: seq<Visit>, s: State)
  {
    && (forall i, j :: 0 <= i < j < |vs| ==> vs[i] != vs[j])
    && (forall v :: v in vs ==> Stored(s, v))
    && (forall t, id :: Has(s, t, id) ==> Visit(t, s[t][id]) in vs)
  }

  /** The types of the partitions that hold at least one entry. */
  function NonEmptyTypes(s: State): set<EntityType>
  {
    set t | t in s && s[t] != map[]
  }

  /**
   * `Subtract`: when either side has no type materialised, the receiver as it is;
   * otherwise every entry of `b` is removed from `a` by type and identity, and each
   * type with entries in `b` gains a (possibly empty) set in `a`.
   */
  function Subtracted(a: State, b: State): State
  {
    if |b| == 0 || |a| == 0 then a
    else map t | t in a.Keys + NonEmptyTypes(b) :: Get(a, t) - Get(b, t).Keys
  }

  /**
   * Subtraction short-circuits when either side has no type; otherwise an entry remains
   * exactly when it is in `a` and not in `b` (by type and identity), keeping `a`'s
   * snapshot, and each type with entries in `b` gains a set.
   */
  lemma SubtractedSpec(a: State, b: State)
    ensures |a| == 0 || |b| == 0 ==> Subtracted(a, b) == a
    ensures |a| > 0 && |b| > 0 ==> Subtracted(a, b).Keys == a.Keys + NonEmptyTypes(b)
    ensures |a| > 0 && |b| > 0 ==>
      forall t, id :: Has(Subtracted(a, b), t, id) <==> Has(a, t, id) && !Has(b, t, id)
    ensures forall t, id :: Has(Subtracted(a, b), t, id) ==> Has(a, t, id) && Subtracted(a, b)[t][id] == a[t][id]
  {
  }

  /**
   * Subtracting a state from itself when none of its sets holds an entry changes
   * nothing: the walk of `sub` has nothing to visit.
   */
  lemma SubtractedSelfEmpty(a: State)
    requires forall t :: t in a ==> a[t] == map[]
    ensures Subtracted(a, a) == a
  {
    if |a| > 0 {
      assert NonEmptyTypes(a) == {};
      forall t | t in a
        ensures Get(a, t) - Get(a, t).Keys == a[t]
      {
      }
    }
  }

  /** The types named by a sequence of visits. */
  function TypesOf(vs: seq<Visit>): set<EntityType>
  {
    set v | v in vs :: v.entityType
  }

  /** The identities a sequence of visits names under type `t`. */
  function IdsOf(vs: seq<Visit>, t: EntityType): set<Identity>
  {
    set v | v in vs && v.entityType == t :: IdentityOf(v.obj)
  }

  /** `a` after `deleteEntity` has run for each visit of `vs`, in order: the loop state of `Subtract`. */
  function DeletedAll(a: State, vs: seq<Visit>): State
    decreases |vs|
  {
    if vs == [] then a
    else
      var v := vs[|vs| - 1];
      Deleted(DeletedAll(a, vs[..|vs| - 1]), v.entityType, IdentityOf(v.obj))
  }

  lemma TypesOfAppend(vs: seq<Visit>, v: Visit)
    ensures TypesOf(vs + [v]) == TypesOf(vs) + {v.entityType}
  {
    var vs' := vs + [v];
    forall u | u in TypesOf(vs')
      ensures u in TypesOf(vs) + {v.entityType}
    {
      var w :| w in vs' && w.entityType == u;
      if w != v {
        assert w in vs;
      }
    }
    forall u | u in TypesOf(vs)
      ensures u in TypesOf(vs')
    {
      var w :| w in vs && w.entityType == u;
      assert w in vs';
    }
    assert v in vs';
  }

  lemma IdsOfAppend(vs: seq<Visit>, v: Visit, t: EntityType)
    ensures IdsOf(vs + [v], t) == IdsOf(vs, t) + (if t == v.entityType then {IdentityOf(v.obj)} else {})
  {
    var vs' := vs + [v];
    forall id | id in IdsOf(vs', t)
      ensures id in IdsOf(vs, t) + (if t == v.entityType then {IdentityOf(v.obj)} else {})
    {
      var w :| w in vs' && w.entityType == t && IdentityOf(w.obj) == id;
      if w != v {
        assert w in vs;
      }
    }
    forall id | id in IdsOf(vs, t)
      ensures id in IdsOf(vs', t)
    {
      var w :| w in vs && w.entityType == t && IdentityOf(w.obj) == id;
      assert w in vs';
    }
    assert v in vs';
  }

  /**
   * After deleting the visits `vs`: the types are those of `a` and those visited; an entry
   * remains exactly when it was in `a` and its identity was not visited under its type,
   * and it keeps its snapshot.
   */
  lemma {:induction false} DeletedAllShape(a: State, vs: seq<Visit>)
    ensures forall t :: t in DeletedAll(a, vs) <==> t in a || t in TypesOf(vs)
    ensures forall t, id :: Has(DeletedAll(a, vs), t, id) <==> Has(a, t, id) && id !in IdsOf(vs, t)
    ensures forall t, id :: Has(DeletedAll(a, vs), t, id) ==> Has(a, t, id) && DeletedAll(a, vs)[t][id] == a[t][id]
    decreases |vs|
  {
    if vs == [] {
      assert TypesOf(vs) == {};
      forall t
        ensures IdsOf(vs, t) == {}
      {
      }
    } else {
      var init, v := vs[..|vs| - 1], vs[|vs| - 1];
      assert vs == init + [v];
      DeletedAllShape(a, init);
      TypesOfAppend(init, v);
      forall t
        ensures IdsOf(vs, t) == IdsOf(init, t) + (if t == v.entityType then {IdentityOf(v.obj)} else {})
      {
        IdsOfAppend(init, v, t);
      }
    }
  }

  /** An enumeration of `b` visits exactly the types whose partitions are not empty. */
  lemma TypesOfEnumeration(b: State, vs: seq<Visit>)
    requires Enumerates(vs, b)
    ensures TypesOf(vs) == NonEmptyTypes(b)
  {
    forall u | u in TypesOf(vs)
      ensures u in NonEmptyTypes(b)
    {
      var w :| w in vs && w.entityType == u;
      assert Stored(b, w);
    }
    forall u | u in NonEmptyTypes(b)
      ensures u in TypesOf(vs)
    {
      var id :| id in b[u];
      assert Visit(u, b[u][id]) in vs;
    }
  }

  /** An enumeration of `b` visits, under each type, exactly the identities stored there. */
  lemma IdsOfEnumeration(b: State, vs: seq<Visit>, t: EntityType, id: Identity)
    requires WellFormed(b) && Enumerates(vs, b)
    ensures id in IdsOf(vs, t) <==> Has(b, t, id)
  {
    if id in IdsOf(vs, t) {
      var w :| w in vs && w.entityType == t && IdentityOf(w.obj) == id;
      assert Stored(b, w);
    }
    if Has(b, t, id) {
      var w := Visit(t, b[t][id]);
      assert w in vs;
    }
  }

  /** Under one type present on both sides, deleting the visits of an enumeration of `b` leaves what `Subtracted` leaves. */
  lemma DeletedAllCompleteAt(a: State, b: State, vs: seq<Visit>, t: EntityType)
    requires WellFormed(b) && Enumerates(vs, b)
    requires |a| > 0 && |b| > 0
    requires t in DeletedAll(a, vs) && t in Subtracted(a, b)
    requires forall u, id :: Has(DeletedAll(a, vs), u, id) <==> Has(a, u, id) && id !in IdsOf(vs, u)
    requires forall u, id :: Has(DeletedAll(a, vs), u, id) ==> Has(a, u, id) && DeletedAll(a, vs)[u][id] == a[u][id]
    ensures DeletedAll(a, vs)[t] == Subtracted(a, b)[t]
  {
    var d, r := DeletedAll(a, vs), Subtracted(a, b);
    forall id
      ensures id in d[t] <==> id in r[t]
    {
      IdsOfEnumeration(b, vs, t, id);
      assert Has(d, t, id) <==> Has(a, t, id) && id !in IdsOf(vs, t);
    }
    assert d[t].Keys == r[t].Keys;
    forall id | id in d[t]
      ensures d[t][id] == r[t][id]
    {
      assert Has(d, t, id);
    }
  }

  /** Deleting every visit of an enumeration of `b` is the set difference `Subtracted` describes. */
  lemma DeletedAllComplete(a: State, b: State, vs: seq<Visit>)
    requires WellFormed(b) && Enumerates(vs, b)
    requires |a| > 0 && |b| > 0
    ensures DeletedAll(a, vs) == Subtracted(a, b)
  {
    var d, r := DeletedAll(a, vs), Subtracted(a, b);
    DeletedAllShape(a, vs);
    TypesOfEnumeration(b, vs);
    assert d.Keys == r.Keys;
    forall t | t in d
      ensures d[t] == r[t]
    {
      DeletedAllCompleteAt(a, b, vs, t);
    }
  }

  /** The state after registering each of `objs` under type `t`, first to last. */
  function RegisteredAll(s: State, t: EntityType, objs: seq<Object>): State
    decreases |objs|
  {
    if objs == [] then s else RegisteredAll(Registered(s, t, objs[0]), t, objs[1..])
  }

  /** The distinct identities among `objs`. */
  function IdentitiesOf(objs: seq<Object>): set<Identity>
  {
    set o | o in objs :: IdentityOf(o)
  }

  lemma IdentitiesOfCons(objs: seq<Object>)
    requires objs != []
    ensures IdentitiesOf(objs) == {IdentityOf(objs[0])} + IdentitiesOf(objs[1..])
  {
    forall id | id in IdentitiesOf(objs)
      ensures id in {IdentityOf(objs[0])} + IdentitiesOf(objs[1..])
    {
      var o :| o in objs && IdentityOf(o) == id;
      if o != objs[0] {
        assert o in objs[1..];
      }
    }
    forall id | id in IdentitiesOf(objs[1..])
      ensures id in IdentitiesOf(objs)
    {
      var o :| o in objs[1..] && IdentityOf(o) == id;
      assert o in objs;
    }
  }

  lemma RegisteredKeys(s: State, t: EntityType, o: Object)
    ensures Get(Registered(s, t, o), t).Keys == Get(s, t).Keys + {IdentityOf(o)}
  {
  }

  /** Registration only ever adds the registered identities to `t`'s partition. */
  lemma {:induction false} RegisteredAllKeys(s: State, t: EntityType, objs: seq<Object>)
    ensures Get(RegisteredAll(s, t, objs), t).Keys == Get(s, t).Keys + IdentitiesOf(objs)
    decreases |objs|
  {
    if objs == [] {
      assert IdentitiesOf(objs) == {};
    } else {
      var s1 := Registered(s, t, objs[0]);
      RegisteredAllKeys(s1, t, objs[1..]);
      RegisteredKeys(s, t, objs[0]);
      IdentitiesOfCons(objs);
    }
  }

  /**
   * Uniqueness: registering `objs` into a fresh registry leaves `t`'s set holding exactly
   * as many entries as there are distinct identities among them, duplicates or not (none
   * for the empty sequence); a non-empty sequence also creates the set.
   */
  lemma Uniqueness(t: EntityType, objs: seq<Object>)
    ensures |Get(RegisteredAll(map[], t, objs), t)| == |IdentitiesOf(objs)|
    ensures objs != [] ==> t in RegisteredAll(map[], t, objs)
  {
    var p := Get(RegisteredAll(map[], t, objs), t);
    RegisteredAllKeys(map[], t, objs);
    if objs != [] {
      RegisteredAllHasType(map[], t, objs);
    }
    assert |p| == |p.Keys|;
  }

  /** Registering at least one object materialises the type. */
  lemma {:induction false} RegisteredAllHasType(s: State, t: EntityType, objs: seq<Object>)
    requires objs != [] || t in s
    ensures t in RegisteredAll(s, t, objs)
    decreases |objs|
  {
    if objs != [] {
      RegisteredAllHasType(Registered(s, t, objs[0]), t, objs[1..]);
    }
  }

  /** First wins: an identity already present keeps its stored snapshot through any later registrations. */
  lemma {:induction false} RegisteredAllKeepsExisting(s: State, t: EntityType, objs: seq<Object>, id: Identity)
    requires Has(s, t, id)
    ensures Has(RegisteredAll(s, t, objs), t, id)
    ensures RegisteredAll(s, t, objs)[t][id] == s[t][id]
    decreases |objs|
  {
    if objs != [] {
      RegisteredAllKeepsExisting(Registered(s, t, objs[0]), t, objs[1..], id);
    }
  }

  /**
   * First wins: when identity `IdentityOf(objs[i])` was not stored and no earlier object
   * has it, the snapshot stored for it at the end is `objs[i]`, however many later
   * objects share that identity with other labels or annotations.
   */
  lemma {:induction false} RegisteredAllFirstWins(s: State, t: EntityType, objs: seq<Object>, i: nat)
    requires i < |objs|
    requires !Has(s, t, IdentityOf(objs[i]))
    requires forall j :: 0 <= j < i ==> IdentityOf(objs[j]) != IdentityOf(objs[i])
    ensures Has(RegisteredAll(s, t, objs), t, IdentityOf(objs[i]))
    ensures RegisteredAll(s, t, objs)[t][IdentityOf(objs[i])] == objs[i]
    decreases |objs|
  {
    var s1 := Registered(s, t, objs[0]);
    if i == 0 {
      assert Has(s1, t, IdentityOf(objs[0])) && s1[t][IdentityOf(objs[0])] == objs[0];
      RegisteredAllKeepsExisting(s1, t, objs[1..], IdentityOf(objs[0]));
    } else {
      assert IdentityOf(objs[0]) != IdentityOf(objs[i]);
      assert objs[1..][i - 1] == objs[i];
      RegisteredAllFirstWins(s1, t, objs[1..], i - 1);
    }
  }

  /** Type isolation: registrations under `t` never change whether or what another type holds. */
  lemma {:induction false} RegisteredAllIsolation(s: State, t: EntityType, objs: seq<Object>, u: EntityType)
    requires u != t
    ensures u in RegisteredAll(s, t, objs) <==> u in s
    ensures Get(RegisteredAll(s, t, objs), u) == Get(s, u)
    decreases |objs|
  {
    if objs != [] {
      RegisteredAllIsolation(Registered(s, t, objs[0]), t, objs[1..], u);
    }
  }
}
