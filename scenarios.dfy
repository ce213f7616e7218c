/**
 * Concrete runs of the registry on fresh registries, each stating the outcome
 * the registry produces for that run.
 */
module RegistryScenarios {
  import opened Objects
  import opened RegistryState
  import opened ObjectRegistry
  import opened TypedRegistry

  /** Registry A of the subtraction scenario: one StatefulSet and one ConfigMap. */
  function ScenarioA(sts: Object, cm: Object): State
  {
    map[StatefulSet := map[IdentityOf(sts) := sts], ConfigMap := map[IdentityOf(cm) := cm]]
  }

  /** Registry B of the subtraction scenario: the ConfigMap alone. */
  function ScenarioB(cm: Object): State
  {
    map[ConfigMap := map[IdentityOf(cm) := cm]]
  }

  /** What subtracting B from A leaves: the StatefulSet, and an empty ConfigMap set. */
  function ScenarioLeft(sts: Object): State
  {
    map[StatefulSet := map[IdentityOf(sts) := sts], ConfigMap := map[]]
  }

  /** Subtracting B from A leaves the StatefulSet and an empty ConfigMap set. */
  lemma SubtractScenarioStates(sts: Object, cm: Object)
    ensures Subtracted(ScenarioA(sts, cm), ScenarioB(cm)) == ScenarioLeft(sts)
  {
    var a, b := ScenarioA(sts, cm), ScenarioB(cm);
    assert |a| == 2 && |b| == 1 by {
      assert a.Keys == {StatefulSet, ConfigMap};
      assert b.Keys == {ConfigMap};
    }
    assert NonEmptyTypes(b) == {ConfigMap} by {
      assert IdentityOf(cm) in b[ConfigMap];
    }
    var d := Subtracted(a, b);
    assert d.Keys == {StatefulSet, ConfigMap};
    assert d[ConfigMap] == map[];
    assert d[StatefulSet] == map[IdentityOf(sts) := sts];
  }

  /** What is left counts one object over the two types, and has both types materialised. */
  lemma ScenarioLeftCounts(sts: Object)
    ensures SizeSum(ScenarioLeft(sts), [StatefulSet, ConfigMap]) == 1
    ensures |ScenarioLeft(sts)| == 2
  {
    var left := ScenarioLeft(sts);
    assert [StatefulSet, ConfigMap][..1] == [StatefulSet];
    EnsuredAllSingle(left, StatefulSet);
    assert left.Keys == {StatefulSet, ConfigMap};
  }

  /** Registry A holds the StatefulSet and the ConfigMap, registry B the ConfigMap alone. */
  method ScenarioRegistries(sts: Object, cm: Object) returns (a: Registry, b: Registry)
    ensures fresh(a) && fresh(b)
    ensures a.Valid() && a.r == ScenarioA(sts, cm)
    ensures b.Valid() && b.r == ScenarioB(cm)
  {
    a := new Registry();
    b := new Registry();
    RegisterStatefulSet(a, sts);
    RegisterConfigMap(a, cm);
    RegisterConfigMap(b, cm);
  }

  /**
   * Register a StatefulSet and a ConfigMap into A, only the ConfigMap into B, and
   * subtract B from A: A keeps the StatefulSet alone, counts one object over the two
   * types, and still has both types materialised. The names need not differ: the two
   * objects live under different types.
   */
  method SubtractScenario(sts: Object, cm: Object) returns (hasStatefulSet: bool, hasConfigMap: bool, objects: int, types: int)
    ensures hasStatefulSet && !hasConfigMap
    ensures objects == 1 && types == 2
  {
    var a, b := ScenarioRegistries(sts, cm);
    SubtractScenarioStates(sts, cm);
    ScenarioLeftCounts(sts);
    var _ := Subtract(a, b);
    types := Len(a, []);
    hasStatefulSet := HasStatefulSet(a, sts);
    hasConfigMap := HasConfigMap(a, cm);
    objects := Len(a, [StatefulSet, ConfigMap]);
  }

  /**
   * Register demo/sts-a with labels {a: 1}, then again with labels {a: 2}: the set
   * holds one entry, and every snapshot a walk visits is the first one.
   */
  method FirstSnapshotScenario() returns (count: int, stored: seq<Object>)
    ensures count == 1
    ensures stored != [] && forall k :: 0 <= k < |stored| ==> stored[k].labels == map["a" := "1"]
  {
    var r := new Registry();
    var first := Object("sts-a", "demo", map["a" := "1"], map[]);
    RegisterStatefulSet(r, first);
    assert r.r == map[StatefulSet := map[IdentityOf(first) := first]];
    RegisterStatefulSet(r, Object("sts-a", "demo", map["a" := "2"], map[]));
    assert r.r == map[StatefulSet := map[IdentityOf(first) := first]];
    count := NumStatefulSet(r);
    stored := WalkStatefulSet(r);
    assert first in stored;
    forall k | 0 <= k < |stored|
      ensures stored[k] == first
    {
      assert stored[k] in stored;
    }
  }

  /** Registering demo/sts-a as a StatefulSet does not make it a ConfigMap. */
  method IsolationScenario() returns (asStatefulSet: bool, asConfigMap: bool)
    ensures asStatefulSet && !asConfigMap
  {
    var r := new Registry();
    var o := Object("sts-a", "demo", map[], map[]);
    RegisterStatefulSet(r, o);
    asStatefulSet := HasStatefulSet(r, o);
    asConfigMap := HasConfigMap(r, o);
  }
}
