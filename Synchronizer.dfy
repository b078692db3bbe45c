/**
 * The manual synchronization action of the class diagram editor: the
 * selection fixes the target models, and running the action replaces each
 * target whose Java type is found by a fresh import at the same place, as
 * one undoable chain of commands.
 */
module Synchronizer {
  import opened Wrappers
  import opened Sequences
  import opened ClassDiagram
  import opened JavaModel
  import opened TypeNames

  // ---------------------------------------------------------------------
  // CommandChain
  // ---------------------------------------------------------------------

  /**
   * The state reached by running `commands` one after the other from `s`,
   * each through `step`.
   */
  function Perform<C, S>(commands: seq<C>, step: (C, S) -> S, s: S): S
    decreases |commands|
  {
    if |commands| == 0 then s
    else step(commands[|commands| - 1], Perform(commands[..|commands| - 1], step, s))
  }

  /** Running two lists is running the first, then the second from where it ended. */
  lemma {:induction false} PerformConcat<C, S>(a: seq<C>, b: seq<C>, step: (C, S) -> S, s: S)
    ensures Perform(a + b, step, s) == Perform(b, step, Perform(a, step, s))
    decreases |b|
  {
    if |b| == 0 {
      assert a + b == a;
    } else {
      assert (a + b)[..|a + b| - 1] == a + b[..|b| - 1];
      PerformConcat(a, b[..|b| - 1], step, s);
    }
  }

  /** Insertion order: of two commands, the first added runs first. */
  lemma PerformInOrder<C, S>(c1: C, c2: C, step: (C, S) -> S, s: S)
    ensures Perform([c1, c2], step, s) == step(c2, step(c1, s))
  {
    assert [c1, c2][..1] == [c1];
    assert [c1][..0] == [];
    assert Perform([c1], step, s) == step(c1, s);
  }

  /**
   * Undo takes execute back: when each command's undo inverts its execute,
   * undoing the chain in reverse order after executing it restores the state.
   */
  lemma {:induction false} UndoAfterExecuteRestores<C, S>(commands: seq<C>, execute: (C, S) -> S,
                                                          undo: (C, S) -> S, s: S)
    requires forall c, x :: c in commands ==> undo(c, execute(c, x)) == x
    ensures Perform(Reversed(commands), undo, Perform(commands, execute, s)) == s
    decreases |commands|
  {
    if |commands| > 0 {
      var front := commands[..|commands| - 1];
      var last := commands[|commands| - 1];
      assert commands == front + [last];
      ReversedSnoc(front, last);
      PerformConcat([last], Reversed(front), undo, Perform(commands, execute, s));
      assert [last][..0] == [];
      assert Perform([last], undo, Perform(commands, execute, s)) == Perform(front, execute, s);
      UndoAfterExecuteRestores(front, execute, undo, s);
    }
  }

  /**
   * `CommandChain`: several commands executed as one. The commands are
   * values of any type; what executing or undoing one does to the state is
   * passed in as a step function.
   */
  class CommandChain<C> {
    var commandList: seq<C>

    constructor ()
      ensures commandList == []
    {
      commandList := [];
    }

    method Add(command: C)
      modifies this
      ensures commandList == old(commandList) + [command]
    {
      commandList := commandList + [command];
    }

    /** Executes the commands in insertion order. */
    method Execute<S>(execute: (C, S) -> S, s: S) returns (r: S)
      ensures r == Perform(commandList, execute, s)
    {
      r := s;
      for i := 0 to |commandList|
        invariant r == Perform(commandList[..i], execute, s)
      {
        assert commandList[..i + 1][..i] == commandList[..i];
        r := execute(commandList[i], r);
      }
      assert commandList[..|commandList|] == commandList;
    }

    /**
     * Undoes the commands in reverse insertion order, through a reversed copy
     * of the list; the chain itself is left as it is.
     */
    method Undo<S>(undo: (C, S) -> S, s: S) returns (r: S)
      ensures r == Perform(Reversed(commandList), undo, s)
    {
      var list := commandList;
      var reverseList := new C[|list|](i requires 0 <= i < |list| => list[i]);
      assert reverseList[..] == list;
      Reverse(reverseList);
      r := s;
      for i := 0 to reverseList.Length
        invariant r == Perform(reverseList[..i], undo, s)
      {
        assert reverseList[..i + 1][..i] == reverseList[..i];
        r := undo(reverseList[i], r);
      }
      assert reverseList[..reverseList.Length] == Reversed(commandList);
    }
  }

  /** `Collections.reverse`: the array's elements in the opposite order, in place. */
  method Reverse<T>(a: array<T>)
    modifies a
    ensures a[..] == Reversed(old(a[..]))
  {
    var n := a.Length;
    for i := 0 to n / 2
      invariant forall k :: 0 <= k < i ==> a[k] == old(a[n - 1 - k]) && a[n - 1 - k] == old(a[k])
      invariant forall k :: i <= k < n - i ==> a[k] == old(a[k])
    {
      a[i], a[n - 1 - i] := a[n - 1 - i], a[i];
    }
    forall k | 0 <= k < n
      ensures a[k] == Reversed(old(a[..]))[k]
    {
      ReversedAt(old(a[..]), k);
    }
  }

  // ---------------------------------------------------------------------
  // SyncAction
  // ---------------------------------------------------------------------

  /** An element of the selection: an edit part showing some model, or anything else. */
  datatype SelectedObject = EditPart(model: DiagramModel) | NonEditPart

  /** The editor's selection: none at all, one that is not a list, or a list of objects. */
  datatype Selection = NullSelection | UnstructuredSelection | StructuredSelection(items: seq<SelectedObject>)

  /** The menu action the editor shows; only whether it is enabled is modelled. */
  class Action {
    var enabled: bool

    constructor ()
      ensures !enabled
    {
      enabled := false;
    }
  }

  datatype Point = Point(x: int, y: int)

  /** The commands a synchronization chain is made of. */
  datatype SyncCommand =
    | DeleteCommand(targetModel: Entity)
    | ImportClassModelCommand(javaType: JavaType, synchronize: bool, location: Point)

  /** The class, interface and enum models of the edit parts among `items`, in order. */
  function EntitiesOf(items: seq<SelectedObject>): seq<Entity>
    decreases |items|
  {
    if |items| == 0 then []
    else
      var last := items[|items| - 1];
      EntitiesOf(items[..|items| - 1]) +
        (if last.EditPart? && last.model.EntityModel? then [last.model.entity] else [])
  }

  /** The targets a selection gives: only a structured selection gives any. */
  function SelectedEntities(selection: Selection): seq<Entity>
  {
    if selection.StructuredSelection? then EntitiesOf(selection.items) else []
  }

  /** Filtering keeps the selection's order: it distributes over concatenation. */
  lemma {:induction false} EntitiesOfConcat(a: seq<SelectedObject>, b: seq<SelectedObject>)
    ensures EntitiesOf(a + b) == EntitiesOf(a) + EntitiesOf(b)
    decreases |b|
  {
    if |b| == 0 {
      assert a + b == a;
    } else {
      assert (a + b)[..|a + b| - 1] == a + b[..|b| - 1];
      EntitiesOfConcat(a, b[..|b| - 1]);
    }
  }

  /** An entity is a target exactly when an edit part of the selection shows it. */
  lemma {:induction false} EntitiesOfMembership(items: seq<SelectedObject>, e: Entity)
    ensures e in EntitiesOf(items) <==> exists k :: 0 <= k < |items| && items[k] == EditPart(EntityModel(e))
    decreases |items|
  {
    if |items| > 0 {
      var front := items[..|items| - 1];
      EntitiesOfMembership(front, e);
      if e in EntitiesOf(front) {
        var k :| 0 <= k < |front| && front[k] == EditPart(EntityModel(e));
        assert items[k] == front[k];
      }
      if exists k :: 0 <= k < |items| && items[k] == EditPart(EntityModel(e)) {
        var k :| 0 <= k < |items| && items[k] == EditPart(EntityModel(e));
        if k < |front| {
          assert front[k] == items[k];
        }
      }
    }
  }

  /** At most one target per selected object. */
  lemma {:induction false} EntitiesOfLength(items: seq<SelectedObject>)
    ensures |EntitiesOf(items)| <= |items|
    decreases |items|
  {
    if |items| > 0 {
      EntitiesOfLength(items[..|items| - 1]);
    }
  }

  /** The chain synchronizing one model, when its project is found and holds its type. */
  function SyncChain(model: Entity, projectFor: Entity -> Option<Project>): Option<seq<SyncCommand>>
  {
    match projectFor(model)
    case None => None
    case Some(project) =>
      var className := EraseGenerics(model.name);
      if className in project then
        Some([DeleteCommand(model),
              ImportClassModelCommand(project[className], true, Point(model.constraint.x, model.constraint.y))])
      else None
  }

  /** The chains submitted for the targets, in target order. */
  function SyncChains(targets: seq<Entity>, projectFor: Entity -> Option<Project>): seq<seq<SyncCommand>>
    decreases |targets|
  {
    if |targets| == 0 then []
    else SyncChains(targets[..|targets| - 1], projectFor) + SubmittedFor(targets[|targets| - 1], projectFor)
  }

  /** What one target submits: its chain, if it has one. */
  function SubmittedFor(model: Entity, projectFor: Entity -> Option<Project>): seq<seq<SyncCommand>>
  {
    match SyncChain(model, projectFor)
    case None => []
    case Some(chain) => [chain]
  }

  class SyncAction {
    var target: seq<Entity>

    constructor ()
      ensures target == []
    {
      target := [];
    }

    /** `setActiveEditor`: a fresh editor starts with the action disabled. */
    method SetActiveEditor(action: Action)
      modifies action
      ensures !action.enabled
    {
      action.enabled := false;
    }

    /** `setTargetList`: the targets are given outright. */
    method SetTargetList(target: seq<Entity>)
      modifies this
      ensures this.target == target
    {
      this.target := target;
    }

    /**
     * `selectionChanged`: the targets become the class, interface and enum
     * models of the selected edit parts, and the action is enabled exactly
     * when there is one.
     */
    method SelectionChanged(action: Action, selection: Selection)
      modifies this, action
      ensures target == SelectedEntities(selection)
      ensures action.enabled <==> target != []
    {
      target := [];
      if selection.StructuredSelection? {
        var items := selection.items;
        for i := 0 to |items|
          invariant target == EntitiesOf(items[..i])
        {
          assert items[..i + 1][..i] == items[..i];
          var obj := items[i];
          if obj.EditPart? {
            var model := obj.model;
            if model.EntityModel? {
              target := target + [model.entity];
            }
          }
        }
        assert items[..|items|] == items;
      }
      if target == [] {
        action.enabled := false;
      } else {
        action.enabled := true;
      }
    }

    /**
     * `run`: for each target, in order, whose project is found and whose
     * erased name the project resolves, one chain is submitted: delete the
     * model, then import its type again at the model's old position.
     * `projectFor` stands for finding the model's project from its path or
     * from the editor's input.
     */
    method Run(projectFor: Entity -> Option<Project>) returns (submitted: seq<seq<SyncCommand>>)
      ensures submitted == SyncChains(target, projectFor)
    {
      if target == [] {
        return [];
      }
      submitted := [];
      var models := target;
      for i := 0 to |models|
        invariant submitted == SyncChains(models[..i], projectFor)
      {
        assert models[..i + 1][..i] == models[..i];
        var model := models[i];
        var project := projectFor(model);
        if project.Some? {
          var className := EraseGenerics(model.name);
          if className in project.value {
            var commandChain := new CommandChain<SyncCommand>();
            commandChain.Add(DeleteCommand(model));
            var rect := model.constraint;
            commandChain.Add(ImportClassModelCommand(project.value[className], true, Point(rect.x, rect.y)));
            assert commandChain.commandList == [DeleteCommand(model), ImportClassModelCommand(project.value[className], true, Point(rect.x, rect.y))];
            assert projectFor(model) == Some(project.value);
            assert SyncChain(model, projectFor) == Some(commandChain.commandList);
            submitted := submitted + [commandChain.commandList];
          }
        }
      }
      assert models[..|models|] == models;
    }
  }

  /**
   * Every submitted chain deletes one of the targets and then re-imports, as
   * a synchronization, the type its project finds for it, at the model's old
   * position; undoing it undoes the import first.
   */
  lemma {:induction false} SyncChainShape(targets: seq<Entity>, projectFor: Entity -> Option<Project>)
    ensures |SyncChains(targets, projectFor)| <= |targets|
    ensures forall chain: seq<SyncCommand> :: chain in SyncChains(targets, projectFor) ==>
      && |chain| == 2
      && chain[0].DeleteCommand? && chain[0].targetModel in targets
      && chain[1].ImportClassModelCommand? && chain[1].synchronize
      && chain[1].location == Point(chain[0].targetModel.constraint.x, chain[0].targetModel.constraint.y)
      && projectFor(chain[0].targetModel).Some?
      && EraseGenerics(chain[0].targetModel.name) in projectFor(chain[0].targetModel).value
      && chain[1].javaType == projectFor(chain[0].targetModel).value[EraseGenerics(chain[0].targetModel.name)]
      && Reversed(chain) == [chain[1], chain[0]]
    decreases |targets|
  {
    if |targets| > 0 {
      var front := targets[..|targets| - 1];
      SyncChainShape(front, projectFor);
      assert forall m :: m in front ==> m in targets;
      forall chain: seq<SyncCommand> | chain in SyncChains(targets, projectFor)
        ensures Reversed(chain) == [chain[1], chain[0]]
      {
        if |chain| == 2 {
          assert chain[..1] == [chain[0]];
          assert chain[..1][..0] == [];
        }
      }
    }
  }

  /** Submitting is per target and in target order: it distributes over concatenation. */
  lemma {:induction false} SyncChainsConcat(a: seq<Entity>, b: seq<Entity>, projectFor: Entity -> Option<Project>)
    ensures SyncChains(a + b, projectFor) == SyncChains(a, projectFor) + SyncChains(b, projectFor)
    decreases |b|
  {
    if |b| == 0 {
      assert a + b == a;
    } else {
      var front := b[..|b| - 1];
      var last := b[|b| - 1];
      assert (a + b)[..|a + b| - 1] == a + front;
      assert (a + b)[|a + b| - 1] == last;
      SyncChainsConcat(a, front, projectFor);
      ConcatAssoc(SyncChains(a, projectFor), SyncChains(front, projectFor), SubmittedFor(last, projectFor));
    }
  }

  /** A target whose type is found gets its chain; one whose type is not found is left alone. */
  lemma SingleTargetChain(model: Entity, projectFor: Entity -> Option<Project>)
    ensures SyncChain(model, projectFor).Some? <==>
      projectFor(model).Some? && EraseGenerics(model.name) in projectFor(model).value
    ensures SyncChains([model], projectFor) ==
      if SyncChain(model, projectFor).Some? then [SyncChain(model, projectFor).value] else []
  {
    assert [model][..0] == [];
  }
}
