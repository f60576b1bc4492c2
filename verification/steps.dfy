/**
 The step record the solution composer manipulates (`SolutionStepData`) and the
 prefix classification of step types that drives colours, icons and category
 counts throughout the application.
 */
module Steps {
  import opened Options
  import opened Strings

  /** Free-form step parameters (`Record<string, unknown>`), values kept as strings. */
  type Params = map<string, string>

  /**
   One placed step. `parameters` and `notes` are optional fields: a step fresh
   from the catalog has neither.
   */
  datatype Step = Step(
    id: string,
    stepType: string,
    name: string,
    timing: string,
    sameDay: bool,
    parameters: Option<Params>,
    notes: Option<string>)

  /** The four families of step types, in catalog order. */
  datatype Category = Laser | Peeling | Cabine | Domicile

  /** The upper-case prefix that marks a type as belonging to `c`. */
  function Prefix(c: Category): string {
    match c
    case Laser => "LASER"
    case Peeling => "PEELING"
    case Cabine => "CABINE"
    case Domicile => "DOMICILE"
  }

  /** No two category prefixes can both start the same string. */
  lemma PrefixesExclusive(t: string)
    ensures forall c, d :: StartsWith(t, Prefix(c)) && StartsWith(t, Prefix(d)) ==> c == d
  {
    forall c, d | StartsWith(t, Prefix(c)) && StartsWith(t, Prefix(d))
      ensures c == d
    {
      assert t[0] == Prefix(c)[0] && t[0] == Prefix(d)[0];
    }
  }

  /**
   The prefix checks in the order the source runs them (LASER, PEELING, CABINE,
   DOMICILE): the first prefix that matches decides; none is `None`.
   */
  function CategoryOf(t: string): (r: Option<Category>)
    ensures forall c :: r == Some(c) <==> StartsWith(t, Prefix(c))
  {
    PrefixesExclusive(t);
    if StartsWith(t, "LASER") then Some(Laser)
    else if StartsWith(t, "PEELING") then Some(Peeling)
    else if StartsWith(t, "CABINE") then Some(Cabine)
    else if StartsWith(t, "DOMICILE") then Some(Domicile)
    else None
  }

  /** The colour of a category, shared by the library, the cards and the preview. */
  function CategoryColor(c: Category): string {
    match c
    case Laser => "#8B0000"
    case Peeling => "#2E8B57"
    case Cabine => "#4169E1"
    case Domicile => "#9932CC"
  }

  /** The colour used for a type no prefix matches. */
  const NeutralColor: string := "#6B7280"

  /** `getStepColor`: the colour of the first matching prefix, neutral grey otherwise. */
  function StepColor(t: string): (r: string)
    ensures forall c :: StartsWith(t, Prefix(c)) ==> r == CategoryColor(c)
    ensures CategoryOf(t).None? <==> r == NeutralColor
  {
    match CategoryOf(t)
    case Some(c) => CategoryColor(c)
    case None => NeutralColor
  }

  /** The four colours and the neutral grey are pairwise distinct. */
  lemma ColorsDistinct(c: Category, d: Category)
    ensures CategoryColor(c) == CategoryColor(d) <==> c == d
    ensures CategoryColor(c) != NeutralColor
  {
  }

  datatype Icon = Zap | Palette | Sparkles | Home

  /** The icon of each category: CABINE shares the fallback icon. */
  function CategoryIcon(c: Category): Icon {
    match c
    case Laser => Zap
    case Peeling => Palette
    case Cabine => Sparkles
    case Domicile => Home
  }

  /** `getStepIcon`: the icon of the first matching prefix, `Sparkles` for CABINE and for anything else. */
  function StepIcon(t: string): (r: Icon)
    ensures forall c :: StartsWith(t, Prefix(c)) ==> r == CategoryIcon(c)
    ensures CategoryOf(t).None? ==> r == Sparkles
    ensures r == Sparkles <==> CategoryOf(t) == None || CategoryOf(t) == Some(Cabine)
  {
    match CategoryOf(t)
    case Some(c) => CategoryIcon(c)
    case None => Sparkles
  }

  /** A step card shows the "Même séance" badge exactly when the step shares the previous session. */
  predicate ShowsSameDayBadge(step: Step) {
    step.sameDay
  }

  /** A step card shows its notes line exactly when it has non-empty notes. */
  predicate ShowsNotes(step: Step) {
    step.notes.Some? && step.notes.value != ""
  }

  /** The id a card hands to its remove callback: its own step's id. */
  function RemoveTarget(step: Step): string {
    step.id
  }
}
