/**
 * The class-diagram model the engine reads and extends: entity models
 * (classes, interfaces, enums) with their members, the other models a
 * diagram may hold, typed connections, and the root model that owns them.
 */
module ClassDiagram {

  datatype Visibility = Public | Private | Protected | Package

  /** A field of an entity, as imported from source. */
  datatype AttributeModel = AttributeModel(
    name: string,
    typeName: string,
    isStatic: bool,
    isFinal: bool,
    isEnumConstant: bool,
    visibility: Visibility)

  /** One parameter of an operation. */
  datatype Argument = Argument(name: string, typeName: string)

  /** A method of an entity, as imported from source. */
  datatype OperationModel = OperationModel(
    name: string,
    typeName: string,
    visibility: Visibility,
    isAbstract: bool,
    isStatic: bool,
    isFinal: bool,
    params: seq<Argument>)

  /** The children of an entity model: attributes and operations, in order. */
  datatype Member = Attribute(attr: AttributeModel) | Operation(op: OperationModel)

  datatype EntityKind = ClassKind | InterfaceKind | EnumKind

  /** The figure's bounds on the canvas. */
  datatype Rectangle = Rectangle(x: int, y: int, width: int, height: int)

  /**
   * A class, interface or enum model. `id` is the model object's identity
   * (Java compares models with `equals`, which is identity); `name` may
   * carry generic parameters; `path` is the origin-source hint.
   */
  datatype Entity = Entity(
    id: nat,
    kind: EntityKind,
    name: string,
    members: seq<Member>,
    path: string,
    constraint: Rectangle)

  /** A child of the diagram: an entity model, or any other model (a note, say). */
  datatype DiagramModel = EntityModel(entity: Entity) | OtherModel(otherId: nat)
  {
    function Id(): nat
    {
      match this
      case EntityModel(e) => e.id
      case OtherModel(i) => i
    }
  }

  datatype ConnectionKind = Generalization | Realization | Aggregation

  /** A typed edge between two models, named by their identities. */
  datatype Connection = Connection(kind: ConnectionKind, source: nat, target: nat)

  /**
   * The diagram. Connections live in one list owned by the root; attaching a
   * connection to its source and target is appending it here.
   */
  class RootModel {
    var children: seq<DiagramModel>
    var connections: seq<Connection>

    constructor (children: seq<DiagramModel>)
      ensures this.children == children && connections == []
    {
      this.children := children;
      connections := [];
    }

    /** `conn.attachSource(); conn.attachTarget()`. */
    method AttachConnection(conn: Connection)
      modifies this`connections
      ensures connections == old(connections) + [conn]
    {
      connections := connections + [conn];
    }
  }
}
