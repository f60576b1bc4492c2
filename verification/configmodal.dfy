/**
 The step configuration dialog (`StepConfigModal`): the editing state it loads
 from a step, the edits its controls allow, and the patch it hands back on
 save.
 */
module ConfigModal {
  import opened Options
  import opened Strings
  import opened Steps
  import Composer

  /** The timing badges, in display order. */
  const TimingOptions: seq<string> := ["J0", "J+7", "J+14", "J+21", "J+28", "Quotidien"]

  /** The dialog's local state: the four fields a configuration may change. */
  datatype ConfigState = ConfigState(timing: string, sameDay: bool, notes: string, parameters: Params)

  /** The state before any step has been loaded. */
  const InitialState: ConfigState := ConfigState("J0", false, "", map[])

  /**
   The effect run when the `step` prop changes: a present step's timing and
   same-day flag are copied, its notes and parameters default to `""` and
   `{}`; without a step the state is left as it was.
   */
  function Load(prev: ConfigState, step: Option<Step>): (r: ConfigState)
    ensures step.None? ==> r == prev
    ensures step.Some? ==> r.timing == step.value.timing && r.sameDay == step.value.sameDay
    ensures step.Some? && step.value.notes.Some? ==> r.notes == step.value.notes.value
    ensures step.Some? && step.value.notes.None? ==> r.notes == ""
    ensures step.Some? && step.value.parameters.Some? ==> r.parameters == step.value.parameters.value
    ensures step.Some? && step.value.parameters.None? ==> r.parameters == map[]
  {
    match step
    case None => prev
    case Some(s) => ConfigState(s.timing, s.sameDay, s.notes.GetOr(""), s.parameters.GetOr(map[]))
  }

  /** `handleSave`: the step spread with the four edited fields; identity, type and name are kept. */
  function Save(step: Step, st: ConfigState): (r: Step)
    ensures r.id == step.id && r.stepType == step.stepType && r.name == step.name
    ensures r.timing == st.timing && r.sameDay == st.sameDay
    ensures r.notes == Some(st.notes) && r.parameters == Some(st.parameters)
  {
    step.(timing := st.timing, sameDay := st.sameDay, notes := Some(st.notes), parameters := Some(st.parameters))
  }

  /** A null step renders nothing, so there is nothing to save; otherwise the save yields the patched step. */
  function SaveAction(step: Option<Step>, st: ConfigState): (r: Option<Step>)
    ensures r.None? <==> step.None?
    ensures r.Some? ==> r.value.id == step.value.id && r.value.timing == st.timing
    ensures r.Some? ==> r.value == Save(step.value, st)
  {
    match step
    case None => None
    case Some(s) => Some(Save(s, st))
  }

  /** Saving without editing gives the step back, with absent notes and parameters made explicit. */
  lemma SaveUnedited(prev: ConfigState, step: Step)
    ensures Save(step, Load(prev, Some(step))).timing == step.timing
    ensures Save(step, Load(prev, Some(step))).sameDay == step.sameDay
    ensures step.notes.Some? && step.parameters.Some? ==> Save(step, Load(prev, Some(step))) == step
    ensures step.notes.None? ==> Save(step, Load(prev, Some(step))).notes == Some("")
    ensures step.parameters.None? ==> Save(step, Load(prev, Some(step))).parameters == Some(map[])
  {
  }

  /** Reopening the dialog on a saved step shows exactly the state that was saved. */
  lemma LoadAfterSave(prev: ConfigState, step: Step, st: ConfigState)
    ensures Load(prev, Some(Save(step, st))) == st
  {
  }

  /** The six parameter inputs. */
  datatype Field = Energie | Couverture | Spot | Passages | TempsPose | Couches

  /** The parameter key an input writes. */
  function Key(f: Field): string {
    match f
    case Energie => "energie"
    case Couverture => "couverture"
    case Spot => "spot"
    case Passages => "passages"
    case TempsPose => "tempsPose"
    case Couches => "couches"
  }

  /** The first four inputs form the laser panel, the last two the peeling panel. */
  predicate IsLaserField(f: Field) {
    f.Energie? || f.Couverture? || f.Spot? || f.Passages?
  }

  /** The laser panel shows for `LASER…` types, the peeling panel for `PEELING…` types. */
  predicate FieldVisible(stepType: string, f: Field) {
    if IsLaserField(f) then StartsWith(stepType, "LASER") else StartsWith(stepType, "PEELING")
  }

  /** The keys the visible inputs can write. */
  function VisibleKeys(stepType: string): (r: set<string>)
    ensures forall f :: FieldVisible(stepType, f) ==> Key(f) in r
    ensures forall k :: k in r ==> exists f :: FieldVisible(stepType, f) && Key(f) == k
  {
    PanelsExclusive(stepType);
    if StartsWith(stepType, "LASER") then
      assert FieldVisible(stepType, Energie) && FieldVisible(stepType, Couverture);
      assert FieldVisible(stepType, Spot) && FieldVisible(stepType, Passages);
      {"energie", "couverture", "spot", "passages"}
    else if StartsWith(stepType, "PEELING") then
      assert FieldVisible(stepType, TempsPose) && FieldVisible(stepType, Couches);
      {"tempsPose", "couches"}
    else {}
  }

  /** No type shows both panels. */
  lemma PanelsExclusive(stepType: string)
    ensures !(StartsWith(stepType, "LASER") && StartsWith(stepType, "PEELING"))
    ensures forall f, g :: FieldVisible(stepType, f) && FieldVisible(stepType, g) ==> IsLaserField(f) == IsLaserField(g)
  {
    PrefixesExclusive(stepType);
    assert Prefix(Laser) == "LASER" && Prefix(Peeling) == "PEELING";
  }

  /** What an input displays: the stored value, or empty. */
  function ShownValue(p: Params, f: Field): string {
    if Key(f) in p then p[Key(f)] else ""
  }

  /** `{ ...parameters, [key]: value }`: the one key is set, every other key is kept. */
  function SetParam(p: Params, f: Field, v: string): (r: Params)
    ensures Key(f) in r && r[Key(f)] == v
    ensures forall k :: k != Key(f) ==> (k in r <==> k in p)
    ensures forall k :: k != Key(f) && k in p ==> r[k] == p[k]
  {
    p[Key(f) := v]
  }

  /** Typing into an input shows what was typed. */
  lemma SetParamShown(p: Params, f: Field, v: string)
    ensures ShownValue(SetParam(p, f, v), f) == v
    ensures forall g :: Key(g) != Key(f) ==> ShownValue(SetParam(p, f, v), g) == ShownValue(p, g)
  {
  }

  /** The same-day checkbox is hidden for daily steps. */
  predicate ShowsSameDay(st: ConfigState) {
    st.timing != "Quotidien"
  }

  /** One user action in the dialog. `PickTiming` names a badge by its position. */
  datatype Edit =
    | PickTiming(option: nat)
    | CheckSameDay(checked: bool)
    | TypeNotes(text: string)
    | TypeParam(field: Field, value: string)

  /** Whether the control for an edit is on screen. */
  predicate Enabled(stepType: string, st: ConfigState, e: Edit) {
    match e
    case PickTiming(i) => i < |TimingOptions|
    case CheckSameDay(_) => ShowsSameDay(st)
    case TypeNotes(_) => true
    case TypeParam(f, _) => FieldVisible(stepType, f)
  }

  /** The state after one edit. */
  function Apply(st: ConfigState, e: Edit): (r: ConfigState)
    requires e.PickTiming? ==> e.option < |TimingOptions|
    ensures e.PickTiming? ==> r == st.(timing := TimingOptions[e.option])
    ensures e.CheckSameDay? ==> r == st.(sameDay := e.checked)
    ensures e.TypeNotes? ==> r == st.(notes := e.text)
    ensures e.TypeParam? ==> r.timing == st.timing && r.sameDay == st.sameDay && r.notes == st.notes
    ensures e.TypeParam? ==> ShownValue(r.parameters, e.field) == e.value
  {
    match e
    case PickTiming(i) => st.(timing := TimingOptions[i])
    case CheckSameDay(b) => st.(sameDay := b)
    case TypeNotes(t) => st.(notes := t)
    case TypeParam(f, v) => st.(parameters := SetParam(st.parameters, f, v))
  }

  /** A run of edits, each made through a control that is on screen when it is made. */
  predicate Session(stepType: string, st: ConfigState, edits: seq<Edit>)
    decreases |edits|
  {
    |edits| == 0 || (Enabled(stepType, st, edits[0]) && Session(stepType, Apply(st, edits[0]), edits[1..]))
  }

  /** The state at the end of a session. */
  function ApplyAll(stepType: string, st: ConfigState, edits: seq<Edit>): ConfigState
    requires Session(stepType, st, edits)
    decreases |edits|
  {
    if |edits| == 0 then st else ApplyAll(stepType, Apply(st, edits[0]), edits[1..])
  }

  /** The timing is either the loaded one, untouched, or one of the six options. */
  lemma {:induction false} SessionTiming(stepType: string, st: ConfigState, edits: seq<Edit>)
    requires Session(stepType, st, edits)
    ensures ApplyAll(stepType, st, edits).timing == st.timing || ApplyAll(stepType, st, edits).timing in TimingOptions
    ensures (forall i :: 0 <= i < |edits| ==> !edits[i].PickTiming?) ==> ApplyAll(stepType, st, edits).timing == st.timing
    decreases |edits|
  {
    if |edits| > 0 {
      var next := Apply(st, edits[0]);
      SessionTiming(stepType, next, edits[1..]);
      if edits[0].PickTiming? {
        assert next.timing in TimingOptions;
      } else {
        assert forall i :: 0 <= i < |edits[1..]| ==> edits[1..][i] == edits[i + 1];
      }
    }
  }

  /** Two parameter maps agree on key `k`. */
  predicate SameAt(p: Params, q: Params, k: string) {
    (k in p <==> k in q) && (k in p ==> p[k] == q[k])
  }

  /** A session never touches a parameter key outside the visible panel, so laser and peeling keys never mix. */
  lemma {:induction false} SessionKeepsHiddenKeys(stepType: string, st: ConfigState, edits: seq<Edit>)
    requires Session(stepType, st, edits)
    ensures forall k :: k !in VisibleKeys(stepType) ==> SameAt(ApplyAll(stepType, st, edits).parameters, st.parameters, k)
    decreases |edits|
  {
    if |edits| > 0 {
      var next := Apply(st, edits[0]);
      SessionKeepsHiddenKeys(stepType, next, edits[1..]);
      if edits[0].TypeParam? {
        assert Key(edits[0].field) in VisibleKeys(stepType);
      }
    }
  }

  /** Picking `Quotidien` hides the checkbox but keeps the flag, and the save still carries it. */
  lemma QuotidienKeepsSameDay(step: Step, st: ConfigState)
    ensures !ShowsSameDay(Apply(st, PickTiming(5)))
    ensures Apply(st, PickTiming(5)).sameDay == st.sameDay
    ensures Save(step, Apply(st, PickTiming(5))).sameDay == st.sameDay
  {
  }

  /**
   Saving the dialog and replacing the step in the list changes only that
   step, and only its four configurable fields.
   */
  lemma ConfigureInList(steps: seq<Step>, k: nat, st: ConfigState)
    requires Composer.UniqueIds(steps)
    requires k < |steps|
    ensures |Composer.ReplaceStep(steps, Save(steps[k], st))| == |steps|
    ensures forall i :: 0 <= i < |steps| && i != k ==> Composer.ReplaceStep(steps, Save(steps[k], st))[i] == steps[i]
    ensures Composer.ReplaceStep(steps, Save(steps[k], st))[k] == Save(steps[k], st)
    ensures Load(InitialState, Some(Composer.ReplaceStep(steps, Save(steps[k], st))[k])) == st
  {
  }
}
