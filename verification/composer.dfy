/**
 The treatment-solution composer (`SolutionBuilder`): the ordered list of placed
 steps and the operations on it. Drag gestures arrive as an abstract drag-end
 event; the random id of a new step is a parameter.
 */
module Composer {
  import opened Options
  import opened Strings
  import opened Steps
  import opened Catalog
  import opened Seqs

  /** The droppable id of the composer's drop surface. */
  const DropZoneId: string := "step-drop-zone"

  /** The ids of `steps`, in order. */
  function Ids(steps: seq<Step>): (r: seq<string>)
    ensures |r| == |steps| && forall i :: 0 <= i < |steps| ==> r[i] == steps[i].id
  {
    seq(|steps|, i requires 0 <= i < |steps| => steps[i].id)
  }

  /** No two placed steps share an id. */
  predicate UniqueIds(steps: seq<Step>) {
    forall i, j :: 0 <= i < |steps| && 0 <= j < |steps| && steps[i].id == steps[j].id ==> i == j
  }

  /** The timing a freshly dropped step gets: daily for home care, day 0 for everything else. */
  function DefaultTiming(t: string): (r: string)
    ensures r == "Quotidien" <==> StartsWith(t, "DOMICILE")
    ensures r != "Quotidien" ==> r == "J0"
  {
    if StartsWith(t, "DOMICILE") then "Quotidien" else "J0"
  }

  /** The step built for a library item of type `t` dropped on the drop zone. */
  function NewStep(t: string, id: string): Step {
    Step(id, t, FindStepInfo(t).name, DefaultTiming(t), false, None, None)
  }

  /** `steps.findIndex(s => s.id === id)`: the first index carrying `id`, or -1. */
  function FindIndex(steps: seq<Step>, id: string): (r: int)
    ensures -1 <= r < |steps|
    ensures r == -1 <==> forall i :: 0 <= i < |steps| ==> steps[i].id != id
    ensures r >= 0 ==> steps[r].id == id && forall i :: 0 <= i < r ==> steps[i].id != id
    decreases |steps|
  {
    if |steps| == 0 then -1
    else if steps[0].id == id then 0
    else
      var k := FindIndex(steps[1..], id);
      if k == -1 then -1 else k + 1
  }

  /** Where the element that `ArrayMove(s, from, to)` puts at position `i` came from. */
  function MoveSource(from: nat, to: nat, i: nat): nat {
    if i == to then from
    else if from < to && from <= i < to then i + 1
    else if to < from && to < i <= from then i - 1
    else i
  }

  /** `s` without its element at `k`. */
  function RemoveAt<T>(s: seq<T>, k: nat): (r: seq<T>)
    requires k < |s|
    ensures |r| == |s| - 1
    ensures forall i :: 0 <= i < |r| ==> r[i] == (if i < k then s[i] else s[i + 1])
  {
    s[..k] + s[k + 1..]
  }

  /**
   `arrayMove(s, from, to)`: take out the element at `from`, then insert it so
   that it lands at `to`. Every position is filled from `MoveSource`.
   */
  function ArrayMove<T>(s: seq<T>, from: nat, to: nat): (r: seq<T>)
    requires from < |s| && to < |s|
    ensures |r| == |s|
    ensures forall i :: 0 <= i < |s| ==> r[i] == s[MoveSource(from, to, i)]
  {
    var rest := RemoveAt(s, from);
    var r := rest[..to] + [s[from]] + rest[to..];
    assert forall i :: 0 <= i < |s| ==> r[i] == (if i < to then rest[i] else if i == to then s[from] else rest[i - 1]);
    r
  }

  /** The moved element lands at `to`; all the others keep their relative order. */
  lemma ArrayMoveKeepsOthers<T>(s: seq<T>, from: nat, to: nat)
    requires from < |s| && to < |s|
    ensures ArrayMove(s, from, to)[to] == s[from]
    ensures RemoveAt(ArrayMove(s, from, to), to) == RemoveAt(s, from)
  {
  }

  /** Moving back undoes a move. */
  lemma ArrayMoveInverse<T>(s: seq<T>, from: nat, to: nat)
    requires from < |s| && to < |s|
    ensures ArrayMove(ArrayMove(s, from, to), to, from) == s
  {
  }

  /** A move is a permutation. */
  lemma ArrayMovePermutation<T>(s: seq<T>, from: nat, to: nat)
    requires from < |s| && to < |s|
    ensures multiset(ArrayMove(s, from, to)) == multiset(s)
  {
    var rest := RemoveAt(s, from);
    assert ArrayMove(s, from, to) == rest[..to] + [s[from]] + rest[to..];
    InsertAtMultiset(rest, s[from], to);
    RemoveAtMultiset(s, from);
  }

  /** Taking out one element removes exactly one occurrence of it. */
  lemma RemoveAtMultiset<T>(s: seq<T>, k: nat)
    requires k < |s|
    ensures multiset(RemoveAt(s, k)) + multiset{s[k]} == multiset(s)
  {
    assert s == s[..k] + [s[k]] + s[k + 1..];
  }

  /** Putting an element in anywhere adds exactly one occurrence of it. */
  lemma InsertAtMultiset<T>(s: seq<T>, x: T, k: nat)
    requires k <= |s|
    ensures multiset(s[..k] + [x] + s[k..]) == multiset(s) + multiset{x}
  {
    assert s == s[..k] + s[k..];
  }

  /** A move keeps step ids unique. */
  lemma ArrayMoveKeepsUnique(steps: seq<Step>, from: nat, to: nat)
    requires from < |steps| && to < |steps| && UniqueIds(steps)
    ensures UniqueIds(ArrayMove(steps, from, to))
  {
    var r := ArrayMove(steps, from, to);
    forall i, j | 0 <= i < |r| && 0 <= j < |r| && r[i].id == r[j].id
      ensures i == j
    {
      var a, b := MoveSource(from, to, i), MoveSource(from, to, j);
      MoveSourceInRange(from, to, |steps|, i);
      MoveSourceInRange(from, to, |steps|, j);
      assert steps[a].id == steps[b].id;
      MoveSourceInjective(from, to, i, j);
    }
  }

  /** Every position of a move is filled from a position of the input. */
  lemma MoveSourceInRange(from: nat, to: nat, n: nat, i: nat)
    requires from < n && to < n && i < n
    ensures MoveSource(from, to, i) < n
  {
  }

  /** No two positions of a move are filled from the same input position. */
  lemma MoveSourceInjective(from: nat, to: nat, i: nat, j: nat)
    requires MoveSource(from, to, i) == MoveSource(from, to, j)
    ensures i == j
  {
  }

  /** `handleRemoveStep`: drop every step with this id, keeping the rest in order. */
  function RemoveStep(steps: seq<Step>, id: string): (r: seq<Step>)
    ensures forall i :: 0 <= i < |r| ==> r[i].id != id
    ensures IsSubsequence(r, steps)
  {
    FilterIsSubsequence(steps, (s: Step) => s.id != id);
    Filter(steps, (s: Step) => s.id != id)
  }

  /** Removing an absent id changes nothing. */
  lemma RemoveAbsent(steps: seq<Step>, id: string)
    requires forall i :: 0 <= i < |steps| ==> steps[i].id != id
    ensures RemoveStep(steps, id) == steps
  {
    FilterAll(steps, (s: Step) => s.id != id);
  }

  /** Removing twice is removing once. */
  lemma RemoveIdempotent(steps: seq<Step>, id: string)
    ensures RemoveStep(RemoveStep(steps, id), id) == RemoveStep(steps, id)
  {
    RemoveAbsent(RemoveStep(steps, id), id);
  }

  /** Removal keeps exactly the steps with another id. */
  lemma RemoveMembers(steps: seq<Step>, id: string)
    ensures forall s :: s in RemoveStep(steps, id) <==> s in steps && s.id != id
  {
    FilterMembers(steps, (s: Step) => s.id != id);
  }

  /** With unique ids, removing a present id shortens the list by exactly one. */
  lemma {:induction false} RemoveOnePresent(steps: seq<Step>, id: string)
    requires UniqueIds(steps)
    requires exists i :: 0 <= i < |steps| && steps[i].id == id
    ensures |RemoveStep(steps, id)| == |steps| - 1
    decreases |steps|
  {
    if steps[0].id == id {
      RemoveAbsent(steps[1..], id);
    } else {
      assert UniqueIds(steps[1..]);
      var i :| 0 <= i < |steps| && steps[i].id == id;
      assert steps[1..][i - 1].id == id;
      RemoveOnePresent(steps[1..], id);
    }
  }

  /** Removal keeps ids unique. */
  lemma {:induction false} RemoveKeepsUnique(steps: seq<Step>, id: string)
    requires UniqueIds(steps)
    ensures UniqueIds(RemoveStep(steps, id))
    decreases |steps|
  {
    if |steps| > 0 {
      assert UniqueIds(steps[1..]);
      RemoveKeepsUnique(steps[1..], id);
      if steps[0].id != id {
        RemoveMembers(steps[1..], id);
        var r := RemoveStep(steps, id);
        assert r == [steps[0]] + RemoveStep(steps[1..], id);
        forall j | 1 <= j < |r|
          ensures r[j].id != steps[0].id
        {
          assert r[j] in steps[1..];
        }
      }
    }
  }

  /** Appending a step with a fresh id keeps ids unique. */
  lemma AppendKeepsUnique(steps: seq<Step>, step: Step)
    requires UniqueIds(steps)
    requires forall i :: 0 <= i < |steps| ==> steps[i].id != step.id
    ensures UniqueIds(steps + [step])
  {
  }

  /** Removing the step just appended under a fresh id restores the list. */
  lemma RemoveUndoesAppend(steps: seq<Step>, step: Step)
    requires forall i :: 0 <= i < |steps| ==> steps[i].id != step.id
    ensures RemoveStep(steps + [step], step.id) == steps
  {
    FilterAppend(steps, [step], (s: Step) => s.id != step.id);
    RemoveAbsent(steps, step.id);
  }

  /** `handleSaveStepConfig`: every step whose id matches is replaced by `updated`; the others stay. */
  function ReplaceStep(steps: seq<Step>, updated: Step): (r: seq<Step>)
    ensures |r| == |steps|
    ensures Ids(r) == Ids(steps)
    ensures forall i :: 0 <= i < |steps| && steps[i].id != updated.id ==> r[i] == steps[i]
    ensures forall i :: 0 <= i < |steps| && steps[i].id == updated.id ==> r[i] == updated
  {
    seq(|steps|, i requires 0 <= i < |steps| => if steps[i].id == updated.id then updated else steps[i])
  }

  /** An update for an id not in the list is silently dropped. */
  lemma ReplaceAbsent(steps: seq<Step>, updated: Step)
    requires forall i :: 0 <= i < |steps| ==> steps[i].id != updated.id
    ensures ReplaceStep(steps, updated) == steps
  {
  }

  /** Replacing keeps ids unique. */
  lemma ReplaceKeepsUnique(steps: seq<Step>, updated: Step)
    requires UniqueIds(steps)
    ensures UniqueIds(ReplaceStep(steps, updated))
  {
    var r := ReplaceStep(steps, updated);
    forall i, j | 0 <= i < |r| && 0 <= j < |r| && r[i].id == r[j].id
      ensures i == j
    {
      assert Ids(r)[i] == Ids(steps)[i] && Ids(r)[j] == Ids(steps)[j];
    }
  }

  /** The end of a drag: what was dragged and, if anything, what it was dropped over. */
  datatype DragEvent = DragEvent(active: string, over: Option<string>)

  /** The new step list and, when a step was inserted, the step the configuration dialog opens on. */
  datatype DragOutcome = DragOutcome(steps: seq<Step>, configure: Option<Step>)

  /**
   `handleDragEnd`. `stepTypes` is the set of values of the `StepType`
   enumeration: an active id among them is a library item. A library item
   dropped on the drop zone appends a new step under `freshId` and opens its
   configuration; a placed step dropped over another is moved to that step's
   index; everything else changes nothing.
   */
  function HandleDragEnd(steps: seq<Step>, ev: DragEvent, stepTypes: set<string>, freshId: string): (r: DragOutcome)
    ensures ev.over.None? ==> r == DragOutcome(steps, None)
    ensures r.configure.Some? <==> ev.active in stepTypes && ev.over == Some(DropZoneId)
    ensures r.configure.Some? ==> r.configure == Some(NewStep(ev.active, freshId)) && r.steps == steps + [NewStep(ev.active, freshId)]
    ensures ev.active in stepTypes && ev.over != Some(DropZoneId) ==> r.steps == steps
    ensures ev.active !in stepTypes && ev.over.Some? ==>
      var from := FindIndex(steps, ev.active);
      var to := FindIndex(steps, ev.over.value);
      if from == -1 || to == -1 || from == to then r.steps == steps
      else r.steps == ArrayMove(steps, from, to)
  {
    match ev.over
    case None => DragOutcome(steps, None)
    case Some(overId) =>
      var isLibraryItem := ev.active in stepTypes;
      if isLibraryItem && overId == DropZoneId then
        var step := NewStep(ev.active, freshId);
        DragOutcome(steps + [step], Some(step))
      else if !isLibraryItem then
        var from := FindIndex(steps, ev.active);
        var to := FindIndex(steps, overId);
        if from != -1 && to != -1 && from != to then DragOutcome(ArrayMove(steps, from, to), None)
        else DragOutcome(steps, None)
      else DragOutcome(steps, None)
  }

  /**
   A drag end is transactional: the list is unchanged, or has exactly one new
   step at its end, or is a permutation of itself in which the dragged step now
   sits where the step it was dropped over was.
   */
  lemma DragIsTransactional(steps: seq<Step>, ev: DragEvent, stepTypes: set<string>, freshId: string)
    ensures var r := HandleDragEnd(steps, ev, stepTypes, freshId).steps;
      || r == steps
      || (|r| == |steps| + 1 && r[..|steps|] == steps && r[|steps|].id == freshId && r[|steps|].stepType == ev.active)
      || (ev.over.Some? && multiset(r) == multiset(steps) && |r| == |steps|
          && r[FindIndex(steps, ev.over.value)].id == ev.active)
  {
    var r := HandleDragEnd(steps, ev, stepTypes, freshId).steps;
    if ev.over.Some? && ev.active !in stepTypes {
      var from := FindIndex(steps, ev.active);
      var to := FindIndex(steps, ev.over.value);
      if from != -1 && to != -1 && from != to {
        ArrayMovePermutation(steps, from, to);
      }
    } else if r != steps {
      assert (steps + [NewStep(ev.active, freshId)])[..|steps|] == steps;
    }
  }

  /** Given a fresh id for a possible new step, a drag end keeps step ids unique. */
  lemma DragKeepsUnique(steps: seq<Step>, ev: DragEvent, stepTypes: set<string>, freshId: string)
    requires UniqueIds(steps)
    requires forall i :: 0 <= i < |steps| ==> steps[i].id != freshId
    ensures UniqueIds(HandleDragEnd(steps, ev, stepTypes, freshId).steps)
  {
    if ev.over.Some? && ev.active !in stepTypes {
      var from := FindIndex(steps, ev.active);
      var to := FindIndex(steps, ev.over.value);
      if from != -1 && to != -1 && from != to {
        ArrayMoveKeepsUnique(steps, from, to);
      }
    } else if ev.over.Some? && ev.over.value == DropZoneId {
      AppendKeepsUnique(steps, NewStep(ev.active, freshId));
    }
  }

  /**
   Dropping catalog item `k` of category `c` on the drop zone appends a step
   named after the item, with day-0 timing for laser, peeling and cabin care and
   daily timing for home care, not tied to the previous session.
   */
  lemma DropCatalogItem(steps: seq<Step>, c: nat, k: nat, stepTypes: set<string>, freshId: string)
    requires c < |Library| && k < |Library[c].items|
    requires DraggableId(Library[c].items[k]) in stepTypes
    ensures var item := Library[c].items[k];
      var r := HandleDragEnd(steps, DragEvent(DraggableId(item), Some(DropZoneId)), stepTypes, freshId);
      && r.steps[..|steps|] == steps
      && r.steps[|steps|] == r.configure.value
      && r.configure.value.stepType == item.stepType
      && r.configure.value.name == item.name
      && (r.configure.value.timing == "Quotidien" <==> LibraryOrder[c] == Domicile)
      && (r.configure.value.timing != "Quotidien" ==> r.configure.value.timing == "J0")
      && !r.configure.value.sameDay
  {
    var item := Library[c].items[k];
    FindStepInfoCatalog(c, k);
    ItemCategory(c, k);
    assert Prefix(Domicile) == "DOMICILE";
    assert StartsWith(item.stepType, Prefix(Domicile)) <==> LibraryOrder[c] == Domicile;
    assert (steps + [NewStep(item.stepType, freshId)])[..|steps|] == steps;
  }

  /** One entry of the save request body. */
  datatype PayloadStep = PayloadStep(
    order: int,
    stepType: string,
    name: string,
    timing: string,
    sameDay: bool,
    parameters: Params,
    notes: string)

  /** The save request body. */
  datatype Payload = Payload(name: string, indication: string, steps: seq<PayloadStep>)

  /** A step as it is sent: its position becomes its `order`, absent parameters and notes become `{}` and `""`. */
  function ToPayloadStep(s: Step, index: nat): PayloadStep {
    PayloadStep(index, s.stepType, s.name, s.timing, s.sameDay, s.parameters.GetOr(map[]), s.notes.GetOr(""))
  }

  /**
   `handleSave`: nothing is sent without a name or without steps; otherwise the
   body carries every step, in list order, numbered from 0.
   */
  function SavePayload(name: string, indication: string, steps: seq<Step>): (r: Option<Payload>)
    ensures r.None? <==> name == "" || |steps| == 0
    ensures r.Some? ==> r.value.name == name && r.value.indication == indication && |r.value.steps| == |steps|
    ensures r.Some? ==> forall i :: 0 <= i < |steps| ==>
      var p := r.value.steps[i];
      && p.order == i
      && p.stepType == steps[i].stepType && p.name == steps[i].name
      && p.timing == steps[i].timing && p.sameDay == steps[i].sameDay
      && p.parameters == (if steps[i].parameters.Some? then steps[i].parameters.value else map[])
      && p.notes == (if steps[i].notes.Some? then steps[i].notes.value else "")
  {
    if name == "" || |steps| == 0 then None
    else Some(Payload(name, indication, seq(|steps|, i requires 0 <= i < |steps| => ToPayloadStep(steps[i], i))))
  }
}
