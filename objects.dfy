/**
 * Entity types, managed objects and their identities, as the object registry
 * of the operator's `model` package sees them.
 */
module Objects {

  /** A value, or its absence (Go's nil pointer). */
  datatype Option<T> = None | Some(value: T)

  /** The closed set of entity types a registry partitions its contents by. */
  datatype EntityType = StatefulSet | ConfigMap | Service | Secret | PVC | PDB

  /** The string value of each entity type constant, as rendered by the registry dump. */
  function TypeName(t: EntityType): string
  {
    match t
    case StatefulSet => "StatefulSet"
    case ConfigMap => "ConfigMap"
    case Service => "Service"
    case Secret => "Secret"
    case PVC => "PVC"
    case PDB => "PDB"
  }

  /** Distinct entity types render differently. */
  lemma TypeNameInjective(t: EntityType, u: EntityType)
    ensures TypeName(t) == TypeName(u) ==> t == u
  {
  }

  /** The part of a Kubernetes object's metadata the registry looks at. */
  datatype Object = Object(
    name: string,
    namespace: string,
    labels: map<string, string>,
    annotations: map<string, string>)

  /** The coordinate of an object within one entity type. */
  datatype Identity = Identity(name: string, namespace: string)

  /** The identity of an object: its name and namespace, nothing else. */
  function IdentityOf(o: Object): Identity
  {
    Identity(o.name, o.namespace)
  }

  /** Two objects collide in a set exactly when name and namespace agree, whatever their labels and annotations. */
  lemma SameIdentity(a: Object, b: Object)
    ensures IdentityOf(a) == IdentityOf(b) <==> a.name == b.name && a.namespace == b.namespace
  {
  }

  /**
   * The snapshot the registry stores on registration: a fresh copy of namespace,
   * name, labels and annotations (as values, so it can never alias the caller's object).
   */
  function Snapshot(o: Object): (c: Object)
    ensures IdentityOf(c) == IdentityOf(o)
    ensures c.labels == o.labels && c.annotations == o.annotations
  {
    Object(o.name, o.namespace, o.labels, o.annotations)
  }

  /** The contents of one entity type's set: identity to stored snapshot. */
  type Partition = map<Identity, Object>

  /** Every snapshot is stored under its own identity. */
  ghost predicate WellKeyed(p: Partition)
  {
    forall id :: id in p ==> IdentityOf(p[id]) == id
  }

  /** `visited` lists every snapshot of `p` exactly once, in some order. */
  ghost predicate EnumeratesPartition(visited: seq<Object>, p: Partition)
  {
    && (forall i, j :: 0 <= i < j < |visited| ==> visited[i] != visited[j])
    && (forall o :: o in visited ==> IdentityOf(o) in p && p[IdentityOf(o)] == o)
    && (forall id :: id in p ==> p[id] in visited)
  }


}
