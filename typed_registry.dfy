/**
 * The exported, per-entity-type registry operations: each one names a fixed entity
 * type and hands over to the generic registry operation.
 * The receiver may be nil exactly where the generic operation allows it.
 */
module TypedRegistry {
  import opened Objects
  import opened RegistryState
  import opened ObjectRegistry

  /** `RegisterStatefulSet`: store a snapshot under StatefulSet unless its identity is there already. */
  method RegisterStatefulSet(r: Registry?, o: Object)
    requires r != null ==> r.Valid()
    modifies r
    ensures r != null ==> r.Valid() && r.r == Registered(old(r.r), StatefulSet, o)
  {
    RegisterEntity(r, StatefulSet, o);
  }

  /** `HasStatefulSet`: whether a StatefulSet with `o`'s identity is registered; materialises the StatefulSet set. */
  method HasStatefulSet(r: Registry, o: Object) returns (found: bool)
    requires r.Valid()
    modifies r
    ensures r.Valid() && r.r == Ensured(old(r.r), StatefulSet)
    ensures found <==> Has(old(r.r), StatefulSet, IdentityOf(o))
  {
    found := HasEntity(r, StatefulSet, o);
  }

  /** `NumStatefulSet`: the number of registered StatefulSet entries; materialises the StatefulSet set. 0 on nil. */
  method NumStatefulSet(r: Registry?) returns (n: int)
    requires r != null ==> r.Valid()
    modifies r
    ensures r == null ==> n == 0
    ensures r != null ==> r.Valid() && r.r == Ensured(old(r.r), StatefulSet)
    ensures r != null ==> n == |Get(old(r.r), StatefulSet)|
  {
    if r != null {
      EnsuredAllSingle(r.r, StatefulSet);
    }
    n := Len(r, [StatefulSet]);
  }

  /** `WalkStatefulSet`: visit every registered StatefulSet once; materialises the StatefulSet set. None on nil. */
  method WalkStatefulSet(r: Registry?) returns (visited: seq<Object>)
    requires r != null ==> r.Valid()
    modifies r
    ensures r == null ==> visited == []
    ensures r != null ==> r.Valid() && r.r == Ensured(old(r.r), StatefulSet)
    ensures r != null ==> EnumeratesPartition(visited, Get(old(r.r), StatefulSet))
  {
    visited := WalkEntityType(r, StatefulSet);
  }

  /** `RegisterConfigMap`: store a snapshot under ConfigMap unless its identity is there already. */
  method RegisterConfigMap(r: Registry?, o: Object)
    requires r != null ==> r.Valid()
    modifies r
    ensures r != null ==> r.Valid() && r.r == Registered(old(r.r), ConfigMap, o)
  {
    RegisterEntity(r, ConfigMap, o);
  }

  /** `HasConfigMap`: whether a ConfigMap with `o`'s identity is registered; materialises the ConfigMap set. */
  method HasConfigMap(r: Registry, o: Object) returns (found: bool)
    requires r.Valid()
    modifies r
    ensures r.Valid() && r.r == Ensured(old(r.r), ConfigMap)
    ensures found <==> Has(old(r.r), ConfigMap, IdentityOf(o))
  {
    found := HasEntity(r, ConfigMap, o);
  }

  /** `NumConfigMap`: the number of registered ConfigMap entries; materialises the ConfigMap set. 0 on nil. */
  method NumConfigMap(r: Registry?) returns (n: int)
    requires r != null ==> r.Valid()
    modifies r
    ensures r == null ==> n == 0
    ensures r != null ==> r.Valid() && r.r == Ensured(old(r.r), ConfigMap)
    ensures r != null ==> n == |Get(old(r.r), ConfigMap)|
  {
    if r != null {
      EnsuredAllSingle(r.r, ConfigMap);
    }
    n := Len(r, [ConfigMap]);
  }

  /** `WalkConfigMap`: visit every registered ConfigMap once; materialises the ConfigMap set. None on nil. */
  method WalkConfigMap(r: Registry?) returns (visited: seq<Object>)
    requires r != null ==> r.Valid()
    modifies r
    ensures r == null ==> visited == []
    ensures r != null ==> r.Valid() && r.r == Ensured(old(r.r), ConfigMap)
    ensures r != null ==> EnumeratesPartition(visited, Get(old(r.r), ConfigMap))
  {
    visited := WalkEntityType(r, ConfigMap);
  }

  /** `RegisterService`: store a snapshot under Service unless its identity is there already. */
  method RegisterService(r: Registry?, o: Object)
    requires r != null ==> r.Valid()
    modifies r
    ensures r != null ==> r.Valid() && r.r == Registered(old(r.r), Service, o)
  {
    RegisterEntity(r, Service, o);
  }

  /** `HasService`: whether a Service with `o`'s identity is registered; materialises the Service set. */
  method HasService(r: Registry, o: Object) returns (found: bool)
    requires r.Valid()
    modifies r
    ensures r.Valid() && r.r == Ensured(old(r.r), Service)
    ensures found <==> Has(old(r.r), Service, IdentityOf(o))
  {
    found := HasEntity(r, Service, o);
  }

  /** `NumService`: the number of registered Service entries; materialises the Service set. 0 on nil. */
  method NumService(r: Registry?) returns (n: int)
    requires r != null ==> r.Valid()
    modifies r
    ensures r == null ==> n == 0
    ensures r != null ==> r.Valid() && r.r == Ensured(old(r.r), Service)
    ensures r != null ==> n == |Get(old(r.r), Service)|
  {
    if r != null {
      EnsuredAllSingle(r.r, Service);
    }
    n := Len(r, [Service]);
  }

  /** `WalkService`: visit every registered Service once; materialises the Service set. None on nil. */
  method WalkService(r: Registry?) returns (visited: seq<Object>)
    requires r != null ==> r.Valid()
    modifies r
    ensures r == null ==> visited == []
    ensures r != null ==> r.Valid() && r.r == Ensured(old(r.r), Service)
    ensures r != null ==> EnumeratesPartition(visited, Get(old(r.r), Service))
  {
    visited := WalkEntityType(r, Service);
  }

  /** `RegisterSecret`: store a snapshot under Secret unless its identity is there already. */
  method RegisterSecret(r: Registry?, o: Object)
    requires r != null ==> r.Valid()
    modifies r
    ensures r != null ==> r.Valid() && r.r == Registered(old(r.r), Secret, o)
  {
    RegisterEntity(r, Secret, o);
  }

  /** `HasSecret`: whether a Secret with `o`'s identity is registered; materialises the Secret set. */
  method HasSecret(r: Registry, o: Object) returns (found: bool)
    requires r.Valid()
    modifies r
    ensures r.Valid() && r.r == Ensured(old(r.r), Secret)
    ensures found <==> Has(old(r.r), Secret, IdentityOf(o))
  {
    found := HasEntity(r, Secret, o);
  }

  /** `NumSecret`: the number of registered Secret entries; materialises the Secret set. 0 on nil. */
  method NumSecret(r: Registry?) returns (n: int)
    requires r != null ==> r.Valid()
    modifies r
    ensures r == null ==> n == 0
    ensures r != null ==> r.Valid() && r.r == Ensured(old(r.r), Secret)
    ensures r != null ==> n == |Get(old(r.r), Secret)|
  {
    if r != null {
      EnsuredAllSingle(r.r, Secret);
    }
    n := Len(r, [Secret]);
  }

  /** `WalkSecret`: visit every registered Secret once; materialises the Secret set. None on nil. */
  method WalkSecret(r: Registry?) returns (visited: seq<Object>)
    requires r != null ==> r.Valid()
    modifies r
    ensures r == null ==> visited == []
    ensures r != null ==> r.Valid() && r.r == Ensured(old(r.r), Secret)
    ensures r != null ==> EnumeratesPartition(visited, Get(old(r.r), Secret))
  {
    visited := WalkEntityType(r, Secret);
  }

  /** `RegisterPVC`: store a snapshot under PVC unless its identity is there already. */
  method RegisterPVC(r: Registry?, o: Object)
    requires r != null ==> r.Valid()
    modifies r
    ensures r != null ==> r.Valid() && r.r == Registered(old(r.r), PVC, o)
  {
    RegisterEntity(r, PVC, o);
  }

  /** `HasPVC`: whether a PVC with `o`'s identity is registered; materialises the PVC set. */
  method HasPVC(r: Registry, o: Object) returns (found: bool)
    requires r.Valid()
    modifies r
    ensures r.Valid() && r.r == Ensured(old(r.r), PVC)
    ensures found <==> Has(old(r.r), PVC, IdentityOf(o))
  {
    found := HasEntity(r, PVC, o);
  }

  /** `NumPVC`: the number of registered PVC entries; materialises the PVC set. 0 on nil. */
  method NumPVC(r: Registry?) returns (n: int)
    requires r != null ==> r.Valid()
    modifies r
    ensures r == null ==> n == 0
    ensures r != null ==> r.Valid() && r.r == Ensured(old(r.r), PVC)
    ensures r != null ==> n == |Get(old(r.r), PVC)|
  {
    if r != null {
      EnsuredAllSingle(r.r, PVC);
    }
    n := Len(r, [PVC]);
  }

  /** `WalkPVC`: visit every registered PVC once; materialises the PVC set. None on nil. */
  method WalkPVC(r: Registry?) returns (visited: seq<Object>)
    requires r != null ==> r.Valid()
    modifies r
    ensures r == null ==> visited == []
    ensures r != null ==> r.Valid() && r.r == Ensured(old(r.r), PVC)
    ensures r != null ==> EnumeratesPartition(visited, Get(old(r.r), PVC))
  {
    visited := WalkEntityType(r, PVC);
  }

  /** `RegisterPDB`: store a snapshot under PDB unless its identity is there already. */
  method RegisterPDB(r: Registry?, o: Object)
    requires r != null ==> r.Valid()
    modifies r
    ensures r != null ==> r.Valid() && r.r == Registered(old(r.r), PDB, o)
  {
    RegisterEntity(r, PDB, o);
  }

  /** `HasPDB`: whether a PDB with `o`'s identity is registered; materialises the PDB set. */
  method HasPDB(r: Registry, o: Object) returns (found: bool)
    requires r.Valid()
    modifies r
    ensures r.Valid() && r.r == Ensured(old(r.r), PDB)
    ensures found <==> Has(old(r.r), PDB, IdentityOf(o))
  {
    found := HasEntity(r, PDB, o);
  }

  /** `NumPDB`: the number of registered PDB entries; materialises the PDB set. 0 on nil. */
  method NumPDB(r: Registry?) returns (n: int)
    requires r != null ==> r.Valid()
    modifies r
    ensures r == null ==> n == 0
    ensures r != null ==> r.Valid() && r.r == Ensured(old(r.r), PDB)
    ensures r != null ==> n == |Get(old(r.r), PDB)|
  {
    if r != null {
      EnsuredAllSingle(r.r, PDB);
    }
    n := Len(r, [PDB]);
  }

  /** `WalkPDB`: visit every registered PDB once; materialises the PDB set. None on nil. */
  method WalkPDB(r: Registry?) returns (visited: seq<Object>)
    requires r != null ==> r.Valid()
    modifies r
    ensures r == null ==> visited == []
    ensures r != null ==> r.Valid() && r.r == Ensured(old(r.r), PDB)
    ensures r != null ==> EnumeratesPartition(visited, Get(old(r.r), PDB))
  {
    visited := WalkEntityType(r, PDB);
  }
}
