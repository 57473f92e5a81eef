/**
 * The values the snapshot core works on: object identities, property
 * metadata, live objects as the graph layer presents them, and snapshots.
 *
 * The collaborators whose code is not part of this model (the type mapper's
 * classification and lookup, the graph layer's value accessors) appear as
 * function-valued fields: the model knows only that they are functions of
 * their arguments.
 */
module Metamodel {

  /** Identity of one logical object: an entity by its type name and id, or
      a value object by its owner's identity and the path from the owner. */
  datatype GlobalId =
    | InstanceId(typeName: string, cdoId: string)
    | ValueObjectId(typeName: string, ownerId: GlobalId, fragment: string)

  /** A property value. Structural equality of this datatype stands in for
      Java's `Objects.equals`. A dehydrated reference is the referenced
      object's identity. */
  datatype Value =
    | Null
    | BoolValue(b: bool)
    | IntValue(i: int)
    | StringValue(s: string)
    | Reference(id: GlobalId)
    | Items(elements: seq<Value>)

  /** The type-mapper's view of a property type, and the declared (generic)
      Java type that the default value is computed from. */
  datatype JaversType = JaversType(name: string)
  datatype JavaType = JavaType(name: string)

  datatype Property = Property(name: string, javersType: JaversType, genericType: JavaType)

  /** A domain type: its properties in declaration order. */
  datatype ManagedType = ManagedType(name: string, properties: seq<Property>)

  /** Property names are unique within a type. */
  ghost predicate DistinctNames(props: seq<Property>) {
    forall i, j :: 0 <= i < j < |props| ==> props[i].name != props[j].name
  }

  /** The type mapper's services used by the factory. */
  datatype TypeMapper = TypeMapper(
    isManagedType: JaversType -> bool,
    isEnumerableOfManagedTypes: JaversType -> bool,
    managedTypeOf: GlobalId -> ManagedType)

  /** A live domain object: its identity, its type and its raw property values. */
  datatype Cdo = Cdo(globalId: GlobalId, managedType: ManagedType, propertyValue: Property -> Value)

  /** A node of the live object graph: the object and its dehydrated property
      values (nested live references replaced by identities). */
  datatype LiveNode = LiveNode(cdo: Cdo, dehydratedPropertyValue: Property -> Value)

  /** Opaque commit information, only attached to a snapshot. */
  datatype CommitMetadata = CommitMetadata(author: string, commitId: string)

  datatype SnapshotType = Initial | Update | Terminal

  /** One present property of a snapshot state. */
  datatype Entry = Entry(property: Property, value: Value)

  /** A snapshot state: present properties with their values, in the order
      they were added. A property that is absent holds its default. */
  type State = seq<Entry>

  /** The properties of a state's entries, in order. */
  function PropertiesOf(s: State): (props: seq<Property>)
    ensures |props| == |s|
    ensures forall i :: 0 <= i < |s| ==> props[i] == s[i].property
  {
    seq(|s|, i requires 0 <= i < |s| => s[i].property)
  }

  /** The names of the properties present in a state. */
  function PropertyNames(s: State): set<string> {
    set e | e in s :: e.property.name
  }

  /** What every snapshot carries besides its content: identity, type and commit. */
  datatype SnapshotHeader = SnapshotHeader(globalId: GlobalId, managedType: ManagedType, commitMetadata: CommitMetadata)

  datatype Snapshot = Snapshot(
    header: SnapshotHeader,
    state: State,
    changed: set<string>,
    kind: SnapshotType,
    version: nat)
}
