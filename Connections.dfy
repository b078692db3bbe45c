/**
 * Connection building of UMLJavaUtils: from one type's facts, the
 * generalization, realization and aggregation edges it takes part in,
 * appended to the diagram. Each pass scans the root's children in order and
 * the first match wins; an optional `restrict2Model` limits the candidates to
 * that one model.
 */
module Connections {
  import opened Wrappers
  import opened Sequences
  import opened JavaStrings
  import opened ClassDiagram
  import opened JavaModel
  import opened TypeNames

  /** `getClassName`: the name of a class, interface or enum model, `null` for any other model. */
  function GetClassName(model: DiagramModel): (r: Option<string>)
    ensures r.Some? <==> model.EntityModel?
    ensures r.Some? ==> r.value == model.entity.name
  {
    match model
    case EntityModel(e) => Some(e.name)
    case OtherModel(_) => None
  }

  /** Whether a child may be a candidate: all may when there is no restriction, else only that model. */
  predicate Admits(restrict2Model: Option<Entity>, obj: DiagramModel)
  {
    restrict2Model.None? || restrict2Model.value.id == obj.Id()
  }

  /** What a pass leaves behind: the edges it attached, and whether it ran to its end. */
  datatype Outcome = Outcome(added: seq<Connection>, completed: bool)

  // ---------------------------------------------------------------------
  // appendSuperClassConnection
  // ---------------------------------------------------------------------

  predicate IsSuperClassMatch(superClass: string, restrict2Model: Option<Entity>, obj: DiagramModel)
  {
    Admits(restrict2Model, obj) && StripGenerics(GetClassName(obj)) == Some(superClass)
  }

  function SuperClassTest(superClass: string, restrict2Model: Option<Entity>): DiagramModel -> bool
  {
    obj => IsSuperClassMatch(superClass, restrict2Model, obj)
  }

  /** The generalization to the first admitted child named like `superClass`, if any. */
  function SuperClassEdgeTo(model: Entity, children: seq<DiagramModel>, restrict2Model: Option<Entity>,
                            superClass: string): seq<Connection>
  {
    match FirstMatch(children, SuperClassTest(superClass, restrict2Model))
    case None => []
    case Some(k) => [Connection(Generalization, model.id, children[k].Id())]
  }

  /** The superclass pass: at most one generalization, from the model to the first child named like its resolved superclass. */
  function SuperClassEdges(project: Project, javaType: JavaType, model: Entity,
                           children: seq<DiagramModel>, restrict2Model: Option<Entity>): seq<Connection>
  {
    if javaType.superclassName.None? then []
    else SuperClassEdgeTo(model, children, restrict2Model, FullQName(project, javaType, javaType.superclassName.value))
  }

  method AppendSuperClassConnection(root: RootModel, project: Project, javaType: JavaType,
                                    model: Entity, restrict2Model: Option<Entity>)
    modifies root`connections
    ensures root.connections == old(root.connections) + SuperClassEdges(project, javaType, model, root.children, restrict2Model)
  {
    if javaType.superclassName.None? {
      return;
    }
    var superClass := GetFullQName(project, javaType, javaType.superclassName.value);
    AttachSuperClassConnection(root, model, restrict2Model, superClass);
  }

  /** The scan of the children for the resolved superclass name: the first match gets the edge. */
  method AttachSuperClassConnection(root: RootModel, model: Entity, restrict2Model: Option<Entity>, superClass: string)
    modifies root`connections
    ensures root.connections == old(root.connections) + SuperClassEdgeTo(model, root.children, restrict2Model, superClass)
  {
    var children := root.children;
    for i := 0 to |children|
      invariant root.connections == old(root.connections)
      invariant forall j :: 0 <= j < i ==> !IsSuperClassMatch(superClass, restrict2Model, children[j])
    {
      var obj := children[i];
      if restrict2Model.Some? && restrict2Model.value.id != obj.Id() {
        // restricted to one model: every other child is discarded
        continue;
      }
      var className := StripGenerics(GetClassName(obj));
      if className.Some? && className.value == superClass {
        root.AttachConnection(Connection(Generalization, model.id, obj.Id()));
        FirstMatchAt(children, SuperClassTest(superClass, restrict2Model), i);
        return;
      }
    }
    FirstMatchNone(children, SuperClassTest(superClass, restrict2Model));
  }

  /**
   * No superclass, no edge; otherwise exactly one generalization when some
   * admitted child's erased name is the resolved superclass, from the model
   * to the first such child, and under a restriction only to that model.
   */
  lemma SuperClassConnectionRule(project: Project, javaType: JavaType, model: Entity,
                                 children: seq<DiagramModel>, restrict2Model: Option<Entity>)
    ensures var r := SuperClassEdges(project, javaType, model, children, restrict2Model);
      && |r| <= 1
      && (javaType.superclassName.None? ==> r == [])
      && (javaType.superclassName.Some? ==>
            var superClass := FullQName(project, javaType, javaType.superclassName.value);
            && (r != [] <==> exists k :: 0 <= k < |children| && IsSuperClassMatch(superClass, restrict2Model, children[k]))
            && (r != [] ==> exists k :: 0 <= k < |children| && IsSuperClassMatch(superClass, restrict2Model, children[k])
                              && r[0].target == children[k].Id()
                              && forall j :: 0 <= j < k ==> !IsSuperClassMatch(superClass, restrict2Model, children[j])))
      && (forall e :: e in r ==> e.kind == Generalization && e.source == model.id)
      && (forall e :: e in r && restrict2Model.Some? ==> e.target == restrict2Model.value.id)
  {
    if javaType.superclassName.Some? {
      SuperClassEdgeToRule(model, children, restrict2Model, FullQName(project, javaType, javaType.superclassName.value));
    }
  }

  /** The scan for one resolved superclass name: at most one generalization, to the first admitted match. */
  lemma SuperClassEdgeToRule(model: Entity, children: seq<DiagramModel>, restrict2Model: Option<Entity>, superClass: string)
    ensures var r := SuperClassEdgeTo(model, children, restrict2Model, superClass);
      && |r| <= 1
      && (r != [] <==> exists k :: 0 <= k < |children| && IsSuperClassMatch(superClass, restrict2Model, children[k]))
      && (r != [] ==> exists k :: 0 <= k < |children| && IsSuperClassMatch(superClass, restrict2Model, children[k])
                        && r[0] == Connection(Generalization, model.id, children[k].Id())
                        && forall j :: 0 <= j < k ==> !IsSuperClassMatch(superClass, restrict2Model, children[j]))
      && (forall e :: e in r ==> e.kind == Generalization && e.source == model.id)
      && (forall e :: e in r && restrict2Model.Some? ==> e.target == restrict2Model.value.id)
  {
  }

  // ---------------------------------------------------------------------
  // appendInterfacesConnection
  // ---------------------------------------------------------------------

  /** A class or enum realizes an interface; an interface generalizes to it. */
  function InterfaceConnectionKind(model: Entity): ConnectionKind
  {
    if model.kind == InterfaceKind then Generalization else Realization
  }

  predicate IsInterfaceMatch(interfaceName: string, restrict2Model: Option<Entity>, obj: DiagramModel)
  {
    Admits(restrict2Model, obj) && obj.EntityModel? && obj.entity.kind == InterfaceKind &&
    EraseGenerics(obj.entity.name) == interfaceName
  }

  function InterfaceTest(interfaceName: string, restrict2Model: Option<Entity>): DiagramModel -> bool
  {
    obj => IsInterfaceMatch(interfaceName, restrict2Model, obj)
  }

  /** The edge to the first admitted interface child whose erased name is `interfaceName`, if any. */
  function InterfaceEdgeTo(model: Entity, children: seq<DiagramModel>, restrict2Model: Option<Entity>,
                           interfaceName: string): seq<Connection>
  {
    match FirstMatch(children, InterfaceTest(interfaceName, restrict2Model))
    case None => []
    case Some(k) => [Connection(InterfaceConnectionKind(model), model.id, children[k].Id())]
  }

  /** The edge one superinterface name contributes, once resolved. */
  function InterfaceEdge(project: Project, javaType: JavaType, model: Entity,
                         children: seq<DiagramModel>, restrict2Model: Option<Entity>, rawName: string): seq<Connection>
  {
    InterfaceEdgeTo(model, children, restrict2Model, FullQName(project, javaType, rawName))
  }

  /** The interface pass over the names in declaration order. */
  function InterfaceEdges(project: Project, javaType: JavaType, model: Entity,
                          children: seq<DiagramModel>, restrict2Model: Option<Entity>, names: seq<string>): seq<Connection>
    decreases |names|
  {
    if |names| == 0 then []
    else InterfaceEdges(project, javaType, model, children, restrict2Model, names[..|names| - 1]) +
         InterfaceEdge(project, javaType, model, children, restrict2Model, names[|names| - 1])
  }

  lemma InterfaceEdgesSnoc(project: Project, javaType: JavaType, model: Entity,
                           children: seq<DiagramModel>, restrict2Model: Option<Entity>, names: seq<string>, i: nat)
    requires i < |names|
    ensures InterfaceEdges(project, javaType, model, children, restrict2Model, names[..i + 1]) ==
            InterfaceEdges(project, javaType, model, children, restrict2Model, names[..i]) +
            InterfaceEdge(project, javaType, model, children, restrict2Model, names[i])
  {
    assert names[..i + 1][..i] == names[..i];
  }

  /** The scan of the children for one resolved superinterface name: the first match gets the edge. */
  method AttachInterfaceConnection(root: RootModel, model: Entity, restrict2Model: Option<Entity>, interfaceName: string)
    modifies root`connections
    ensures root.connections == old(root.connections) + InterfaceEdgeTo(model, root.children, restrict2Model, interfaceName)
  {
    var children := root.children;
    for j := 0 to |children|
      invariant root.connections == old(root.connections)
      invariant forall n :: 0 <= n < j ==> !IsInterfaceMatch(interfaceName, restrict2Model, children[n])
    {
      var obj := children[j];
      if restrict2Model.Some? && restrict2Model.value.id != obj.Id() {
        continue;
      }
      if obj.EntityModel? && obj.entity.kind == InterfaceKind {
        var className := EraseGenerics(obj.entity.name);
        if className == interfaceName {
          var kind;
          if model.kind == ClassKind || model.kind == EnumKind {
            kind := Realization;
          } else {
            kind := Generalization;
          }
          root.AttachConnection(Connection(kind, model.id, obj.Id()));
          FirstMatchAt(children, InterfaceTest(interfaceName, restrict2Model), j);
          return;
        }
      }
    }
    FirstMatchNone(children, InterfaceTest(interfaceName, restrict2Model));
  }

  method AppendInterfacesConnection(root: RootModel, project: Project, javaType: JavaType,
                                    model: Entity, restrict2Model: Option<Entity>)
    modifies root`connections
    ensures root.connections == old(root.connections) +
      InterfaceEdges(project, javaType, model, root.children, restrict2Model, javaType.superInterfaceNames)
  {
    var interfaces := javaType.superInterfaceNames;
    for i := 0 to |interfaces|
      invariant root.connections == old(root.connections) +
        InterfaceEdges(project, javaType, model, root.children, restrict2Model, interfaces[..i])
    {
      var interfaceName := GetFullQName(project, javaType, interfaces[i]);
      InterfaceEdgesSnoc(project, javaType, model, root.children, restrict2Model, interfaces, i);
      AttachInterfaceConnection(root, model, restrict2Model, interfaceName);
      ConcatAssoc(old(root.connections),
                  InterfaceEdges(project, javaType, model, root.children, restrict2Model, interfaces[..i]),
                  InterfaceEdgeTo(model, root.children, restrict2Model, interfaceName));
    }
    assert interfaces[..|interfaces|] == interfaces;
  }

  /**
   * The scan for one resolved superinterface name: at most one edge, present
   * exactly when some admitted interface child carries the name, and then to
   * the first such child, from the model, of the kind the model's kind dictates.
   */
  lemma InterfaceEdgeToRule(model: Entity, children: seq<DiagramModel>, restrict2Model: Option<Entity>,
                            interfaceName: string)
    ensures var r := InterfaceEdgeTo(model, children, restrict2Model, interfaceName);
      && |r| <= 1
      && (r != [] <==> exists k :: 0 <= k < |children| && IsInterfaceMatch(interfaceName, restrict2Model, children[k]))
      && (r != [] ==> exists k :: 0 <= k < |children| && IsInterfaceMatch(interfaceName, restrict2Model, children[k])
                        && r[0] == Connection(InterfaceConnectionKind(model), model.id, children[k].Id())
                        && forall j :: 0 <= j < k ==> !IsInterfaceMatch(interfaceName, restrict2Model, children[j]))
  {
  }

  /**
   * Over all the superinterface names: at most one edge per name, each from
   * the model, of the kind its own kind dictates, to an admitted interface
   * child whose erased name is one of the resolved names.
   */
  lemma {:induction false} InterfaceConnectionRule(project: Project, javaType: JavaType, model: Entity,
                                                   children: seq<DiagramModel>, restrict2Model: Option<Entity>,
                                                   names: seq<string>)
    ensures var r := InterfaceEdges(project, javaType, model, children, restrict2Model, names);
      && |r| <= |names|
      && forall e :: e in r ==>
           && e.kind == InterfaceConnectionKind(model) && e.source == model.id
           && (restrict2Model.Some? ==> e.target == restrict2Model.value.id)
           && (exists k :: 0 <= k < |children| && children[k].Id() == e.target &&
                           children[k].EntityModel? && children[k].entity.kind == InterfaceKind)
           && exists i, k :: 0 <= i < |names| && 0 <= k < |children| && children[k].Id() == e.target &&
                             IsInterfaceMatch(FullQName(project, javaType, names[i]), restrict2Model, children[k])
    decreases |names|
  {
    if |names| > 0 {
      var front := names[..|names| - 1];
      var last := names[|names| - 1];
      InterfaceConnectionRule(project, javaType, model, children, restrict2Model, front);
      var name := FullQName(project, javaType, last);
      InterfaceEdgeToRule(model, children, restrict2Model, name);
      var r := InterfaceEdges(project, javaType, model, children, restrict2Model, names);
      forall e | e in r
        ensures exists i, k :: 0 <= i < |names| && 0 <= k < |children| && children[k].Id() == e.target &&
                               IsInterfaceMatch(FullQName(project, javaType, names[i]), restrict2Model, children[k])
      {
        if e in InterfaceEdges(project, javaType, model, children, restrict2Model, front) {
          var i, k :| 0 <= i < |front| && 0 <= k < |children| && children[k].Id() == e.target &&
                      IsInterfaceMatch(FullQName(project, javaType, front[i]), restrict2Model, children[k]);
          assert names[i] == front[i];
        } else {
          var k :| 0 <= k < |children| && IsInterfaceMatch(name, restrict2Model, children[k])
                   && InterfaceEdgeTo(model, children, restrict2Model, name)[0] ==
                      Connection(InterfaceConnectionKind(model), model.id, children[k].Id());
          assert names[|names| - 1] == last;
        }
      }
    }
  }

  // ---------------------------------------------------------------------
  // appendAggregationConnection
  // ---------------------------------------------------------------------

  /**
   * The element type of a `List…` or `java.util.List…` type: the text between
   * the first `<` and the first `>`. `None` when the first `>` comes before
   * the first `<`, where `substring` throws.
   */
  function ListElementType(attrType: string): (r: Option<string>)
    ensures r.None? <==>
      && (StartsWith(attrType, "List") || StartsWith(attrType, "java.util.List"))
      && IndexOf(attrType, '<').Some? && IndexOf(attrType, '>').Some?
      && IndexOf(attrType, '>').value < IndexOf(attrType, '<').value
    ensures !(StartsWith(attrType, "List") || StartsWith(attrType, "java.util.List")) ==> r == Some(attrType)
    ensures ('<' !in attrType || '>' !in attrType) ==> r == Some(attrType)
    ensures r.Some? && r.value != attrType ==> '>' !in r.value && |r.value| < |attrType|
  {
    if StartsWith(attrType, "List") || StartsWith(attrType, "java.util.List") then
      match (IndexOf(attrType, '<'), IndexOf(attrType, '>'))
      case (Some(fromIndex), Some(endIndex)) =>
        if fromIndex + 1 <= endIndex then Some(attrType[fromIndex + 1..endIndex]) else None
      case _ => Some(attrType)
    else Some(attrType)
  }

  /** A `<` with a `>` somewhere after it. */
  ghost predicate HasAngleSpan(s: string)
  {
    exists a, b :: 0 <= a < b < |s| && s[a] == '<' && s[b] == '>'
  }

  /**
   * `replaceAll("<.*>", "")`: the greedy match runs from the first `<` to the
   * last `>`; nothing after it can match again.
   */
  function EraseArgumentList(s: string): (r: string)
    ensures !HasAngleSpan(r)
    ensures !HasAngleSpan(s) ==> r == s
    ensures HasAngleSpan(s) ==>
      exists i, j :: 0 <= i < j < |s| && s[i] == '<' && '<' !in s[..i] && s[j] == '>' && '>' !in s[j + 1..] &&
                     r == s[..i] + s[j + 1..]
  {
    AngleSpanBounds(s);
    match (IndexOf(s, '<'), LastIndexOf(s, '>'))
    case (Some(i), Some(j)) =>
      if i < j then
        CutLeavesNoAngleSpan(s, i, j);
        CutIsKeptText(s, i, j);
        s[..i] + s[j + 1..]
      else s
    case _ => s
  }

  /** The cut at the first `<` and the last `>` keeps the text outside them. */
  lemma CutIsKeptText(s: string, i: nat, j: nat)
    requires i < j < |s| && s[i] == '<' && '<' !in s[..i] && s[j] == '>' && '>' !in s[j + 1..]
    ensures exists a, b :: 0 <= a < b < |s| && s[a] == '<' && '<' !in s[..a] && s[b] == '>' && '>' !in s[b + 1..] &&
                           s[..i] + s[j + 1..] == s[..a] + s[b + 1..]
  {
  }

  /** A `<` before a `>` exists exactly when the first `<` comes before the last `>`. */
  lemma AngleSpanBounds(s: string)
    ensures HasAngleSpan(s) <==>
      IndexOf(s, '<').Some? && LastIndexOf(s, '>').Some? && IndexOf(s, '<').value < LastIndexOf(s, '>').value
  {
    if HasAngleSpan(s) {
      var a, b :| 0 <= a < b < |s| && s[a] == '<' && s[b] == '>';
      assert s[a] in s && s[b] in s;
    }
  }

  /** Cutting from the first `<` to the last `>` leaves no `<` before a `>`. */
  lemma CutLeavesNoAngleSpan(s: string, i: nat, j: nat)
    requires i < j < |s| && '<' !in s[..i] && '>' !in s[j + 1..]
    ensures !HasAngleSpan(s[..i] + s[j + 1..])
  {
    var r := s[..i] + s[j + 1..];
    forall a, b | 0 <= a < b < |r|
      ensures r[a] != '<' || r[b] != '>'
    {
      if a < i {
        assert r[a] == s[..i][a];
      } else {
        assert r[b] == s[j + 1..][b - i];
      }
    }
  }

  /** An occurrence of `[]`. */
  ghost predicate HasEmptyBrackets(s: string)
  {
    exists k :: 0 <= k < |s| - 1 && s[k] == '[' && s[k + 1] == ']'
  }

  /** `replaceAll("\\[\\]", "")`: every `[]`, left to right and without overlap, is removed. */
  function RemoveArrayBrackets(s: string): (r: string)
    ensures |r| <= |s|
    ensures !HasEmptyBrackets(s) ==> r == s
    decreases |s|
  {
    if |s| < 2 then s
    else if s[0] == '[' && s[1] == ']' then RemoveArrayBrackets(s[2..])
    else
      var r := [s[0]] + RemoveArrayBrackets(s[1..]);
      assert !HasEmptyBrackets(s) ==> !HasEmptyBrackets(s[1..]) by {
        if HasEmptyBrackets(s[1..]) {
          var k :| 0 <= k < |s[1..]| - 1 && s[1..][k] == '[' && s[1..][k + 1] == ']';
          assert s[k + 1] == '[' && s[k + 2] == ']';
        }
      }
      r
  }

  /** The name an attribute's type is matched by: list element, arguments and brackets removed, then resolved. */
  function AggregationTypeName(project: Project, javaType: JavaType, attrType: string): Option<string>
  {
    match ListElementType(attrType)
    case None => None
    case Some(elementType) =>
      Some(FullQName(project, javaType, RemoveArrayBrackets(EraseArgumentList(elementType))))
  }

  /**
   * A child the attribute may aggregate: admitted, an entity model whose
   * erased name is the attribute's type, and not, when the owning type is an
   * enum, an enum model named like the model.
   */
  predicate IsAggregationMatch(attrType: string, model: Entity, javaType: JavaType,
                               restrict2Model: Option<Entity>, entity: DiagramModel)
  {
    && Admits(restrict2Model, entity)
    && entity.EntityModel?
    && (entity.entity.kind == EnumKind ==> !javaType.isEnum || model.name != entity.entity.name)
    && EraseGenerics(entity.entity.name) == attrType
  }

  function AggregationTest(attrType: string, model: Entity, javaType: JavaType,
                           restrict2Model: Option<Entity>): DiagramModel -> bool
  {
    entity => IsAggregationMatch(attrType, model, javaType, restrict2Model, entity)
  }

  /** The edge from the first child the resolved attribute type may aggregate, if any, to the model. */
  function AggregationEdgeTo(model: Entity, javaType: JavaType, children: seq<DiagramModel>,
                             restrict2Model: Option<Entity>, attrType: string): seq<Connection>
  {
    match FirstMatch(children, AggregationTest(attrType, model, javaType, restrict2Model))
    case None => []
    case Some(k) => [Connection(Aggregation, children[k].Id(), model.id)]
  }

  /** The edge one member contributes; `None` when handling it throws. */
  function MemberEdges(project: Project, javaType: JavaType, model: Entity, children: seq<DiagramModel>,
                       restrict2Model: Option<Entity>, member: Member): (r: Option<seq<Connection>>)
  {
    match member
    case Operation(_) => Some([])
    case Attribute(attr) =>
      if attr.isStatic then Some([])
      else match AggregationTypeName(project, javaType, attr.typeName)
        case None => None
        case Some(attrType) =>
          Some(AggregationEdgeTo(model, javaType, children, restrict2Model, attrType))
  }

  /** The aggregation pass over the members in order, stopping for good at the first that throws. */
  function AggregationScan(project: Project, javaType: JavaType, model: Entity, children: seq<DiagramModel>,
                           restrict2Model: Option<Entity>, members: seq<Member>): Outcome
    decreases |members|
  {
    if |members| == 0 then Outcome([], true)
    else
      var prev := AggregationScan(project, javaType, model, children, restrict2Model, members[..|members| - 1]);
      if !prev.completed then prev
      else match MemberEdges(project, javaType, model, children, restrict2Model, members[|members| - 1])
        case None => Outcome(prev.added, false)
        case Some(edges) => Outcome(prev.added + edges, true)
  }

  /** Once the pass has thrown, further members change nothing. */
  lemma {:induction false} AggregationAbortIsFinal(project: Project, javaType: JavaType, model: Entity,
                                                   children: seq<DiagramModel>, restrict2Model: Option<Entity>,
                                                   members: seq<Member>, k: nat)
    requires k <= |members|
    requires !AggregationScan(project, javaType, model, children, restrict2Model, members[..k]).completed
    ensures AggregationScan(project, javaType, model, children, restrict2Model, members) ==
            AggregationScan(project, javaType, model, children, restrict2Model, members[..k])
    decreases |members| - k
  {
    if k < |members| {
      assert members[..|members| - 1][..k] == members[..k];
      AggregationAbortIsFinal(project, javaType, model, children, restrict2Model, members[..|members| - 1], k);
    } else {
      assert members[..k] == members;
    }
  }

  /** One more member: the pass, still running, extends by what that member contributes. */
  lemma AggregationScanSnoc(project: Project, javaType: JavaType, model: Entity, children: seq<DiagramModel>,
                            restrict2Model: Option<Entity>, members: seq<Member>, i: nat)
    requires i < |members|
    requires AggregationScan(project, javaType, model, children, restrict2Model, members[..i]).completed
    ensures var prev := AggregationScan(project, javaType, model, children, restrict2Model, members[..i]);
      AggregationScan(project, javaType, model, children, restrict2Model, members[..i + 1]) ==
        match MemberEdges(project, javaType, model, children, restrict2Model, members[i])
        case None => Outcome(prev.added, false)
        case Some(edges) => Outcome(prev.added + edges, true)
  {
    assert members[..i + 1][..i] == members[..i];
  }

  /** The scan of the children for one resolved attribute type: the first match gets the edge. */
  method AttachAggregationConnection(root: RootModel, model: Entity, javaType: JavaType,
                                     restrict2Model: Option<Entity>, attrType: string)
    modifies root`connections
    ensures root.connections == old(root.connections) +
      AggregationEdgeTo(model, javaType, root.children, restrict2Model, attrType)
  {
    var entities := root.children;
    for j := 0 to |entities|
      invariant root.connections == old(root.connections)
      invariant forall n :: 0 <= n < j ==> !IsAggregationMatch(attrType, model, javaType, restrict2Model, entities[n])
    {
      var entity := entities[j];
      if restrict2Model.Some? && restrict2Model.value.id != entity.Id() {
        continue;
      }
      if entity.EntityModel? {
        var e := entity.entity;
        // an enum is not aggregated to itself: its constants are static fields of its own type
        var addElmt := false;
        if e.kind != EnumKind || !javaType.isEnum {
          addElmt := true;
        } else if model.name != e.name {
          addElmt := true;
        }
        if addElmt && EraseGenerics(e.name) == attrType {
          root.AttachConnection(Connection(Aggregation, entity.Id(), model.id));
          FirstMatchAt(entities, AggregationTest(attrType, model, javaType, restrict2Model), j);
          return;
        }
      }
    }
    FirstMatchNone(entities, AggregationTest(attrType, model, javaType, restrict2Model));
  }

  /**
   * The type name an attribute is matched by, computed step by step as the
   * pass does; `None` where `substring` throws.
   */
  method ResolveAttributeType(project: Project, javaType: JavaType, typeName: string) returns (r: Option<string>)
    ensures r == AggregationTypeName(project, javaType, typeName)
  {
    var attrType := typeName;
    if StartsWith(attrType, "List") || StartsWith(attrType, "java.util.List") {
      var fromIndex := IndexOf(attrType, '<');
      var endIndex := IndexOf(attrType, '>');
      if fromIndex.Some? && endIndex.Some? {
        if endIndex.value < fromIndex.value + 1 {
          assert ListElementType(typeName).None?;
          return None;
        }
        attrType := attrType[fromIndex.value + 1..endIndex.value];
      }
    }
    assert ListElementType(typeName) == Some(attrType);
    attrType := EraseArgumentList(attrType);
    attrType := RemoveArrayBrackets(attrType);
    attrType := GetFullQName(project, javaType, attrType);
    return Some(attrType);
  }

  method AppendAggregationConnection(root: RootModel, project: Project, javaType: JavaType,
                                     model: Entity, restrict2Model: Option<Entity>) returns (completed: bool)
    modifies root`connections
    ensures var o := AggregationScan(project, javaType, model, root.children, restrict2Model, model.members);
      root.connections == old(root.connections) + o.added && completed == o.completed
  {
    var members := model.members;
    for i := 0 to |members|
      invariant AggregationScan(project, javaType, model, root.children, restrict2Model, members[..i]).completed
      invariant root.connections == old(root.connections) +
        AggregationScan(project, javaType, model, root.children, restrict2Model, members[..i]).added
    {
      AggregationScanSnoc(project, javaType, model, root.children, restrict2Model, members, i);
      var handled := AppendMemberConnection(root, project, javaType, model, restrict2Model, members[i]);
      if !handled {
        AggregationAbortIsFinal(project, javaType, model, root.children, restrict2Model, members, i + 1);
        return false;
      }
      ConcatAssoc(old(root.connections),
                  AggregationScan(project, javaType, model, root.children, restrict2Model, members[..i]).added,
                  MemberEdges(project, javaType, model, root.children, restrict2Model, members[i]).value);
    }
    assert members[..|members|] == members;
    return true;
  }

  /**
   * The loop body of `appendAggregationConnection` for one member; `false`
   * when `substring` throws, which ends the pass.
   */
  method AppendMemberConnection(root: RootModel, project: Project, javaType: JavaType,
                                model: Entity, restrict2Model: Option<Entity>, obj: Member) returns (handled: bool)
    modifies root`connections
    ensures var r := MemberEdges(project, javaType, model, root.children, restrict2Model, obj);
      && handled == r.Some?
      && root.connections == old(root.connections) + (if r.Some? then r.value else [])
  {
    if obj.Attribute? {
      var attr := obj.attr;
      if attr.isStatic {
        // a static field belongs to no instance: nothing to aggregate
        return true;
      }
      var resolved := ResolveAttributeType(project, javaType, attr.typeName);
      if resolved.None? {
        // substring(fromIndex + 1, endIndex) threw
        assert root.connections == old(root.connections) + [];
        return false;
      }
      AttachAggregationConnection(root, model, javaType, restrict2Model, resolved.value);
    } else {
      assert root.connections == old(root.connections) + [];
    }
    return true;
  }

  /** The edge of one member: at most one, from an admitted entity child, to the model, never from the enum itself. */
  lemma MemberEdgesRule(project: Project, javaType: JavaType, model: Entity, children: seq<DiagramModel>,
                        restrict2Model: Option<Entity>, member: Member)
    ensures var r := MemberEdges(project, javaType, model, children, restrict2Model, member);
      r.Some? ==>
        && |r.value| <= 1
        && forall e :: e in r.value ==>
             && e.kind == Aggregation && e.target == model.id
             && (restrict2Model.Some? ==> e.source == restrict2Model.value.id)
             && exists k :: 0 <= k < |children| && children[k].Id() == e.source && children[k].EntityModel? &&
                            !(javaType.isEnum && children[k].entity.kind == EnumKind && children[k].entity.name == model.name)
    ensures var r := MemberEdges(project, javaType, model, children, restrict2Model, member);
      r.Some? ==> forall e :: e in r.value ==>
        exists k :: 0 <= k < |children| && children[k].Id() == e.source &&
                    AggregationSourceFor(project, javaType, model, restrict2Model, member, children[k])
  {
    if member.Attribute? && !member.attr.isStatic {
      var t := AggregationTypeName(project, javaType, member.attr.typeName);
      if t.Some? {
        AggregationEdgeToRule(model, javaType, children, restrict2Model, t.value);
      }
    }
  }

  /** The scan for one resolved type: at most one edge, from the first matching child to the model. */
  lemma AggregationEdgeToRule(model: Entity, javaType: JavaType, children: seq<DiagramModel>,
                              restrict2Model: Option<Entity>, attrType: string)
    ensures var r := AggregationEdgeTo(model, javaType, children, restrict2Model, attrType);
      && |r| <= 1
      && (r != [] <==> exists k :: 0 <= k < |children| && IsAggregationMatch(attrType, model, javaType, restrict2Model, children[k]))
      && (forall e :: e in r ==>
           && e.kind == Aggregation && e.target == model.id
           && exists k :: 0 <= k < |children| && children[k].Id() == e.source &&
                          IsAggregationMatch(attrType, model, javaType, restrict2Model, children[k]))
      && (r != [] ==>
           exists k :: 0 <= k < |children| && IsAggregationMatch(attrType, model, javaType, restrict2Model, children[k]) &&
                       r[0] == Connection(Aggregation, children[k].Id(), model.id) &&
                       forall j :: 0 <= j < k ==> !IsAggregationMatch(attrType, model, javaType, restrict2Model, children[j]))
  {
    var m := FirstMatch(children, AggregationTest(attrType, model, javaType, restrict2Model));
    if m.Some? {
      assert IsAggregationMatch(attrType, model, javaType, restrict2Model, children[m.value]);
    }
  }

  /**
   * At most one aggregation per member, each from an admitted entity child to
   * the model, never from an enum named like the model when the owning type
   * is an enum.
   */
  lemma {:induction false} AggregationConnectionRule(project: Project, javaType: JavaType, model: Entity,
                                                     children: seq<DiagramModel>, restrict2Model: Option<Entity>,
                                                     members: seq<Member>)
    ensures var r := AggregationScan(project, javaType, model, children, restrict2Model, members).added;
      && |r| <= |members|
      && forall e :: e in r ==>
           && e.kind == Aggregation && e.target == model.id
           && (restrict2Model.Some? ==> e.source == restrict2Model.value.id)
           && exists k :: 0 <= k < |children| && children[k].Id() == e.source && children[k].EntityModel? &&
                          !(javaType.isEnum && children[k].entity.kind == EnumKind && children[k].entity.name == model.name)
    ensures var r := AggregationScan(project, javaType, model, children, restrict2Model, members).added;
      forall e :: e in r ==>
        exists i, k :: 0 <= i < |members| && 0 <= k < |children| && children[k].Id() == e.source &&
                       AggregationSourceFor(project, javaType, model, restrict2Model, members[i], children[k])
    decreases |members|
  {
    if |members| > 0 {
      AggregationConnectionRule(project, javaType, model, children, restrict2Model, members[..|members| - 1]);
      MemberEdgesRule(project, javaType, model, children, restrict2Model, members[|members| - 1]);
    }
    var r := AggregationScan(project, javaType, model, children, restrict2Model, members).added;
    forall e | e in r
      ensures exists i, k :: 0 <= i < |members| && 0 <= k < |children| && children[k].Id() == e.source &&
                             AggregationSourceFor(project, javaType, model, restrict2Model, members[i], children[k])
    {
      AggregationScanMembers(project, javaType, model, children, restrict2Model, members, e);
      var i :| 0 <= i < |members| && MemberEdges(project, javaType, model, children, restrict2Model, members[i]).Some? &&
               e in MemberEdges(project, javaType, model, children, restrict2Model, members[i]).value;
      MemberEdgesRule(project, javaType, model, children, restrict2Model, members[i]);
    }
  }

  /** Every edge of the pass is an edge of some member. */
  lemma {:induction false} AggregationScanMembers(project: Project, javaType: JavaType, model: Entity,
                                                  children: seq<DiagramModel>, restrict2Model: Option<Entity>,
                                                  members: seq<Member>, e: Connection)
    requires e in AggregationScan(project, javaType, model, children, restrict2Model, members).added
    ensures exists i :: 0 <= i < |members| && MemberEdges(project, javaType, model, children, restrict2Model, members[i]).Some? &&
                        e in MemberEdges(project, javaType, model, children, restrict2Model, members[i]).value
    decreases |members|
  {
    var front := members[..|members| - 1];
    var pre := AggregationScan(project, javaType, model, children, restrict2Model, front);
    if e in pre.added {
      AggregationScanMembers(project, javaType, model, children, restrict2Model, front, e);
      var i :| 0 <= i < |front| && MemberEdges(project, javaType, model, children, restrict2Model, front[i]).Some? &&
               e in MemberEdges(project, javaType, model, children, restrict2Model, front[i]).value;
      assert members[i] == front[i];
    }
  }

  /** `child` is one the non-static attribute `member` may aggregate, by the member's resolved type. */
  predicate AggregationSourceFor(project: Project, javaType: JavaType, model: Entity, restrict2Model: Option<Entity>,
                                 member: Member, child: DiagramModel)
  {
    && member.Attribute? && !member.attr.isStatic
    && AggregationTypeName(project, javaType, member.attr.typeName).Some?
    && IsAggregationMatch(AggregationTypeName(project, javaType, member.attr.typeName).value,
                          model, javaType, restrict2Model, child)
  }

  /** Static attributes and operations never yield an aggregation. */
  lemma {:induction false} StaticAttributesAreSkipped(project: Project, javaType: JavaType, model: Entity,
                                                      children: seq<DiagramModel>, restrict2Model: Option<Entity>,
                                                      members: seq<Member>)
    requires forall k :: 0 <= k < |members| && members[k].Attribute? ==> members[k].attr.isStatic
    ensures AggregationScan(project, javaType, model, children, restrict2Model, members) == Outcome([], true)
    decreases |members|
  {
    if |members| > 0 {
      StaticAttributesAreSkipped(project, javaType, model, children, restrict2Model, members[..|members| - 1]);
    }
  }

  /**
   * A static attribute, wherever it sits among the members, changes nothing:
   * the pass over the members is the pass over them without it.
   */
  lemma {:induction false} StaticAttributeAddsNothing(project: Project, javaType: JavaType, model: Entity,
                                                      children: seq<DiagramModel>, restrict2Model: Option<Entity>,
                                                      before: seq<Member>, a: AttributeModel, after: seq<Member>)
    requires a.isStatic
    ensures AggregationScan(project, javaType, model, children, restrict2Model, before + [Attribute(a)] + after) ==
            AggregationScan(project, javaType, model, children, restrict2Model, before + after)
    decreases |after|
  {
    var with := before + [Attribute(a)] + after;
    var without := before + after;
    if |after| == 0 {
      assert with[..|with| - 1] == before;
      assert without == before;
    } else {
      var front := after[..|after| - 1];
      assert with[..|with| - 1] == before + [Attribute(a)] + front;
      assert without[..|without| - 1] == before + front;
      assert with[|with| - 1] == without[|without| - 1];
      StaticAttributeAddsNothing(project, javaType, model, children, restrict2Model, before, a, front);
    }
  }

  /**
   * An enum type never aggregates its own model, whatever its fields: when
   * the child bearing the model's identity is the model itself, no
   * aggregation comes from it.
   */
  lemma EnumNeverAggregatesItself(project: Project, javaType: JavaType, model: Entity,
                                  children: seq<DiagramModel>, restrict2Model: Option<Entity>)
    requires javaType.isEnum && model.kind == EnumKind
    requires forall k :: 0 <= k < |children| && children[k].Id() == model.id ==> children[k] == EntityModel(model)
    ensures forall e :: e in AggregationScan(project, javaType, model, children, restrict2Model, model.members).added ==>
      e.source != model.id
  {
    AggregationConnectionRule(project, javaType, model, children, restrict2Model, model.members);
  }

  // ---------------------------------------------------------------------
  // appendSubConnection
  // ---------------------------------------------------------------------

  predicate IsExcluded(excludedModels: seq<Entity>, child: DiagramModel)
  {
    exists k :: 0 <= k < |excludedModels| && excludedModels[k].id == child.Id()
  }

  /** Under synchronization only edges touching the model are rebuilt. */
  function SubRestriction(model: Entity, synchronizeAction: bool): Option<Entity>
  {
    if synchronizeAction then Some(model) else None
  }

  /**
   * The passes one child reruns, when its type is found: an interface its
   * superinterfaces; a class its superclass, superinterfaces and
   * aggregations; an enum its superinterfaces and aggregations.
   */
  function ChildOutcome(project: Project, children: seq<DiagramModel>, restrict2Model: Option<Entity>,
                        child: DiagramModel): Outcome
  {
    match child
    case OtherModel(_) => Outcome([], true)
    case EntityModel(e) =>
      if e.name !in project then Outcome([], true)
      else
        var javaType := project[e.name];
        var interfaces := InterfaceEdges(project, javaType, e, children, restrict2Model, javaType.superInterfaceNames);
        match e.kind
        case InterfaceKind => Outcome(interfaces, true)
        case ClassKind =>
          var aggregations := AggregationScan(project, javaType, e, children, restrict2Model, e.members);
          Outcome(SuperClassEdges(project, javaType, e, children, restrict2Model) + interfaces + aggregations.added,
                  aggregations.completed)
        case EnumKind =>
          var aggregations := AggregationScan(project, javaType, e, children, restrict2Model, e.members);
          Outcome(interfaces + aggregations.added, aggregations.completed)
  }

  /** The sub-connection pass over the first children of the root, the model itself and the excluded ones skipped. */
  function SubScan(project: Project, model: Entity, excludedModels: seq<Entity>, restrict2Model: Option<Entity>,
                   children: seq<DiagramModel>, visited: seq<DiagramModel>): Outcome
    decreases |visited|
  {
    if |visited| == 0 then Outcome([], true)
    else
      var prev := SubScan(project, model, excludedModels, restrict2Model, children, visited[..|visited| - 1]);
      var child := visited[|visited| - 1];
      if !prev.completed || child.Id() == model.id || IsExcluded(excludedModels, child) then prev
      else
        var step := ChildOutcome(project, children, restrict2Model, child);
        Outcome(prev.added + step.added, step.completed)
  }

  lemma {:induction false} SubScanAbortIsFinal(project: Project, model: Entity, excludedModels: seq<Entity>,
                                               restrict2Model: Option<Entity>, children: seq<DiagramModel>,
                                               visited: seq<DiagramModel>, k: nat)
    requires k <= |visited|
    requires !SubScan(project, model, excludedModels, restrict2Model, children, visited[..k]).completed
    ensures SubScan(project, model, excludedModels, restrict2Model, children, visited) ==
            SubScan(project, model, excludedModels, restrict2Model, children, visited[..k])
    decreases |visited| - k
  {
    if k < |visited| {
      assert visited[..|visited| - 1][..k] == visited[..k];
      SubScanAbortIsFinal(project, model, excludedModels, restrict2Model, children, visited[..|visited| - 1], k);
    } else {
      assert visited[..k] == visited;
    }
  }

  /** One more child: the pass, still running, extends by what that child contributes unless it is skipped. */
  lemma SubScanSnoc(project: Project, model: Entity, excludedModels: seq<Entity>, restrict2Model: Option<Entity>,
                    children: seq<DiagramModel>, visited: seq<DiagramModel>, i: nat)
    requires i < |visited|
    requires SubScan(project, model, excludedModels, restrict2Model, children, visited[..i]).completed
    ensures var prev := SubScan(project, model, excludedModels, restrict2Model, children, visited[..i]);
      SubScan(project, model, excludedModels, restrict2Model, children, visited[..i + 1]) ==
        if visited[i].Id() == model.id || IsExcluded(excludedModels, visited[i]) then prev
        else
          var step := ChildOutcome(project, children, restrict2Model, visited[i]);
          Outcome(prev.added + step.added, step.completed)
  {
    assert visited[..i + 1][..i] == visited[..i];
  }

  /**
   * The body of `appendSubConnection` for one child: when its type is found,
   * the passes its kind calls for, in the source's order.
   */
  method AppendChildConnections(root: RootModel, project: Project, child: DiagramModel,
                                restrict2Model: Option<Entity>) returns (completed: bool)
    modifies root`connections
    ensures var o := ChildOutcome(project, root.children, restrict2Model, child);
      root.connections == old(root.connections) + o.added && completed == o.completed
  {
    if child.OtherModel? {
      return true;
    }
    var e := child.entity;
    if e.name !in project {
      // findType returns null: nothing to rebuild
      return true;
    }
    var javaType := project[e.name];
    match e.kind
    case InterfaceKind =>
      AppendInterfacesConnection(root, project, javaType, e, restrict2Model);
      completed := true;
    case ClassKind =>
      ghost var superClass := SuperClassEdges(project, javaType, e, root.children, restrict2Model);
      ghost var interfaces := InterfaceEdges(project, javaType, e, root.children, restrict2Model, javaType.superInterfaceNames);
      ghost var aggregations := AggregationScan(project, javaType, e, root.children, restrict2Model, e.members).added;
      AppendSuperClassConnection(root, project, javaType, e, restrict2Model);
      AppendInterfacesConnection(root, project, javaType, e, restrict2Model);
      completed := AppendAggregationConnection(root, project, javaType, e, restrict2Model);
      ConcatAssoc(old(root.connections), superClass, interfaces);
      ConcatAssoc(old(root.connections), superClass + interfaces, aggregations);
    case EnumKind =>
      ghost var interfaces := InterfaceEdges(project, javaType, e, root.children, restrict2Model, javaType.superInterfaceNames);
      ghost var aggregations := AggregationScan(project, javaType, e, root.children, restrict2Model, e.members).added;
      AppendInterfacesConnection(root, project, javaType, e, restrict2Model);
      completed := AppendAggregationConnection(root, project, javaType, e, restrict2Model);
      ConcatAssoc(old(root.connections), interfaces, aggregations);
  }

  /**
   * `appendSubConnection`: every other child of the diagram whose type is
   * found reruns its passes, against the model only when synchronizing.
   */
  method AppendSubConnection(root: RootModel, project: Project, model: Entity,
                             excludedModels: seq<Entity>, synchronizeAction: bool) returns (completed: bool)
    modifies root`connections
    ensures var o := SubScan(project, model, excludedModels, SubRestriction(model, synchronizeAction),
                             root.children, root.children);
      root.connections == old(root.connections) + o.added && completed == o.completed
  {
    var children := root.children;
    var restrict2Model := SubRestriction(model, synchronizeAction);
    for i := 0 to |children|
      invariant SubScan(project, model, excludedModels, restrict2Model, children, children[..i]).completed
      invariant root.connections == old(root.connections) +
        SubScan(project, model, excludedModels, restrict2Model, children, children[..i]).added
    {
      SubScanSnoc(project, model, excludedModels, restrict2Model, children, children, i);
      ghost var prev := SubScan(project, model, excludedModels, restrict2Model, children, children[..i]);
      ghost var next := SubScan(project, model, excludedModels, restrict2Model, children, children[..i + 1]);
      var child := children[i];
      if child.Id() != model.id && !IsExcluded(excludedModels, child) {
        ghost var step := ChildOutcome(project, children, restrict2Model, child);
        assert next == Outcome(prev.added + step.added, step.completed);
        var done := AppendChildConnections(root, project, child, restrict2Model);
        ConcatAssoc(old(root.connections), prev.added, step.added);
        if !done {
          SubScanAbortIsFinal(project, model, excludedModels, restrict2Model, children, children, i + 1);
          return false;
        }
      }
    }
    assert children[..|children|] == children;
    return true;
  }

  /** Every edge one child's passes add touches the restriction, when there is one. */
  lemma ChildOutcomeTouches(project: Project, children: seq<DiagramModel>, restriction: Entity, child: DiagramModel)
    ensures forall e :: e in ChildOutcome(project, children, Some(restriction), child).added ==>
      e.source == restriction.id || e.target == restriction.id
  {
    if child.EntityModel? && child.entity.name in project {
      var c := child.entity;
      var javaType := project[c.name];
      SuperClassConnectionRule(project, javaType, c, children, Some(restriction));
      InterfaceConnectionRule(project, javaType, c, children, Some(restriction), javaType.superInterfaceNames);
      AggregationConnectionRule(project, javaType, c, children, Some(restriction), c.members);
    }
  }

  /**
   * Synchronizing one model rebuilds only edges that touch it: every edge the
   * sub-connection pass adds has the model as source or target.
   */
  lemma {:induction false} SynchronizedSubConnectionsTouchModel(project: Project, model: Entity,
                                                                excludedModels: seq<Entity>,
                                                                children: seq<DiagramModel>,
                                                                visited: seq<DiagramModel>)
    ensures forall e :: e in SubScan(project, model, excludedModels, SubRestriction(model, true), children, visited).added ==>
      e.source == model.id || e.target == model.id
    decreases |visited|
  {
    if |visited| > 0 {
      SynchronizedSubConnectionsTouchModel(project, model, excludedModels, children, visited[..|visited| - 1]);
      ChildOutcomeTouches(project, children, model, visited[|visited| - 1]);
    }
  }

  // ---------------------------------------------------------------------
  // Worked cases
  // ---------------------------------------------------------------------

  /** The list forms the aggregation pass unwraps: `List<E>` and `java.util.List<E>` both give `E`. */
  lemma ListElementOfList(e: string)
    requires '<' !in e && '>' !in e
    ensures ListElementType("List" + ("<" + e + ">")) == Some(e)
    ensures ListElementType("java.util.List" + ("<" + e + ">")) == Some(e)
  {
    ListElementOfPrefix("List", e);
    ListElementOfPrefix("java.util.List", e);
  }

  lemma ListElementOfPrefix(prefix: string, e: string)
    requires prefix == "List" || prefix == "java.util.List"
    requires '<' !in e && '>' !in e
    ensures ListElementType(prefix + ("<" + e + ">")) == Some(e)
  {
    var s := prefix + ("<" + e + ">");
    BracketsOfListType(prefix, e);
    ListPrefixStarts(prefix, "<" + e + ">");
    ElementBetweenBrackets(prefix, e);
    ListElementTypeBetween(s, |prefix|, |prefix| + 1 + |e|);
  }

  lemma ListPrefixStarts(prefix: string, rest: string)
    requires prefix == "List" || prefix == "java.util.List"
    ensures StartsWith(prefix + rest, "List") || StartsWith(prefix + rest, "java.util.List")
  {
    assert (prefix + rest)[..|prefix|] == prefix;
  }

  lemma ElementBetweenBrackets(prefix: string, e: string)
    ensures (prefix + ("<" + e + ">"))[|prefix| + 1..|prefix| + 1 + |e|] == e
  {
  }

  /** In `prefix<e>`, the first `<` and the first `>` are the ones around `e`. */
  lemma BracketsOfListType(prefix: string, e: string)
    requires prefix == "List" || prefix == "java.util.List"
    requires '<' !in e && '>' !in e
    ensures var s := prefix + ("<" + e + ">");
      IndexOf(s, '<') == Some(|prefix|) && IndexOf(s, '>') == Some(|prefix| + 1 + |e|)
  {
    var s := prefix + ("<" + e + ">");
    assert s[..|prefix|] == prefix;
    IndexOfAt(s, '<', |prefix|);
    assert s[..|prefix| + 1 + |e|] == prefix + "<" + e;
    IndexOfAt(s, '>', |prefix| + 1 + |e|);
  }

  /** Where a list type's first `<` precedes its first `>`, the element type is what lies between. */
  lemma ListElementTypeBetween(s: string, i: nat, j: nat)
    requires StartsWith(s, "List") || StartsWith(s, "java.util.List")
    requires IndexOf(s, '<') == Some(i) && IndexOf(s, '>') == Some(j) && i < j
    ensures ListElementType(s) == Some(s[i + 1..j])
  {
  }

  /** Text without `[` passes through the bracket removal untouched, whatever follows it. */
  lemma {:induction false} RemoveArrayBracketsKeepsPrefix(p: string, s: string)
    requires '[' !in p
    ensures RemoveArrayBrackets(p + s) == p + RemoveArrayBrackets(s)
    decreases |p|
  {
    if |p| > 0 {
      assert (p + s)[1..] == p[1..] + s;
      RemoveArrayBracketsKeepsPrefix(p[1..], s);
      if |p + s| >= 2 {
        assert (p + s)[0] == p[0];
      }
      assert [p[0]] + p[1..] == p;
    } else {
      assert p + s == s;
    }
  }

  /** Array brackets go, however many dimensions: `Product[]` and `int[][]` give `Product` and `int`. */
  lemma ArrayBracketsRemoved(p: string)
    requires '[' !in p
    ensures RemoveArrayBrackets(p + "[]") == p
    ensures RemoveArrayBrackets(p + "[][]") == p
  {
    RemoveArrayBracketsKeepsPrefix(p, "[]");
    RemoveArrayBracketsKeepsPrefix(p, "[][]");
    assert "[][]"[2..] == "[]";
  }

  /**
   * The greedy removal takes everything from the first `<` on when the text
   * ends in `>`: `Map<K,List<V>>` gives `Map`.
   */
  lemma ArgumentListRemoved(n: string, a: string)
    requires '<' !in n
    ensures EraseArgumentList(n + ("<" + a + ">")) == n
  {
    var s := n + ("<" + a + ">");
    assert s[..|n|] == n;
    IndexOfAt(s, '<', |n|);
    assert s[|s| - 1] == '>' && s[|s|..] == [];
    assert s[..|n|] + s[|s|..] == n;
  }

  /**
   * A class implementing an interface of the diagram realizes it, once: with
   * the class and the interface as the only children, the interface pass
   * adds exactly the realization from the class to the interface.
   */
  lemma ClassRealizesItsInterface(project: Project, javaType: JavaType, model: Entity, other: Entity, rawName: string)
    requires model.kind == ClassKind && other.kind == InterfaceKind
    requires '<' !in other.name && FullQName(project, javaType, rawName) == other.name
    ensures InterfaceEdges(project, javaType, model, [EntityModel(model), EntityModel(other)], None, [rawName]) ==
            [Connection(Realization, model.id, other.id)]
  {
    var children := [EntityModel(model), EntityModel(other)];
    FirstMatchAt(children, InterfaceTest(other.name, None), 1);
    assert [rawName][..0] == [];
  }

  /**
   * A class holding a list of another class aggregates it: with the holder
   * and the element class as the only children, a field `List<E>` whose `E`
   * resolves to the element class gives exactly the aggregation from the
   * element class to the holder.
   */
  lemma ListFieldAggregatesElement(project: Project, javaType: JavaType, model: Entity, other: Entity,
                                   attr: AttributeModel, e: string)
    requires model.members == [Attribute(attr)] && !attr.isStatic
    requires attr.typeName == "List" + ("<" + e + ">")
    requires '<' !in e && '>' !in e && '[' !in e
    requires other.kind == ClassKind && '<' !in other.name && '<' !in model.name
    requires FullQName(project, javaType, e) == other.name && model.name != other.name
    ensures AggregationScan(project, javaType, model, [EntityModel(model), EntityModel(other)], None, model.members) ==
            Outcome([Connection(Aggregation, other.id, model.id)], true)
  {
    var children := [EntityModel(model), EntityModel(other)];
    ListFieldEdges(project, javaType, model, children, None, attr, e);
    AggregationEdgeToSecondChild(model, other, javaType);
    AggregationScanOfOne(project, javaType, model, children, None, Attribute(attr));
  }

  /** A list field's edges are those of its resolved element type. */
  lemma ListFieldEdges(project: Project, javaType: JavaType, model: Entity, children: seq<DiagramModel>,
                       restrict2Model: Option<Entity>, attr: AttributeModel, e: string)
    requires !attr.isStatic && attr.typeName == "List" + ("<" + e + ">")
    requires '<' !in e && '>' !in e && '[' !in e
    ensures MemberEdges(project, javaType, model, children, restrict2Model, Attribute(attr)) ==
            Some(AggregationEdgeTo(model, javaType, children, restrict2Model, FullQName(project, javaType, e)))
  {
    ListAttributeTypeName(project, javaType, e);
  }

  /** With the model and another class as the children, the other class is the one aggregated. */
  lemma AggregationEdgeToSecondChild(model: Entity, other: Entity, javaType: JavaType)
    requires other.kind == ClassKind && '<' !in other.name && '<' !in model.name && model.name != other.name
    ensures AggregationEdgeTo(model, javaType, [EntityModel(model), EntityModel(other)], None, other.name) ==
            [Connection(Aggregation, other.id, model.id)]
  {
    FirstMatchAt([EntityModel(model), EntityModel(other)], AggregationTest(other.name, model, javaType, None), 1);
  }

  /** The aggregation pass over a single member is that member's contribution. */
  lemma AggregationScanOfOne(project: Project, javaType: JavaType, model: Entity, children: seq<DiagramModel>,
                             restrict2Model: Option<Entity>, member: Member)
    ensures AggregationScan(project, javaType, model, children, restrict2Model, [member]) ==
      match MemberEdges(project, javaType, model, children, restrict2Model, member)
      case None => Outcome([], false)
      case Some(edges) => Outcome(edges, true)
  {
    assert [member][..0] == [];
  }

  /** A field `List<E>` with a plain element type is matched by the resolved name of `E`. */
  lemma ListAttributeTypeName(project: Project, javaType: JavaType, e: string)
    requires '<' !in e && '>' !in e && '[' !in e
    ensures AggregationTypeName(project, javaType, "List" + ("<" + e + ">")) == Some(FullQName(project, javaType, e))
  {
    ListElementOfList(e);
    assert EraseArgumentList(e) == e;
    assert !HasEmptyBrackets(e);
  }
}
