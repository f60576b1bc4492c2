/**
 The pure parts of the `/api/solutions` route: who may see a solution, the
 summary the list endpoint returns, and how the create endpoint checks its
 caller and body and fills in step defaults. The session lookup, the user
 table and the stored solutions are parameters.
 */
module SolutionsApi {
  import opened Options
  import opened Seqs
  import opened Steps
  import Composer
  import SortBy

  /** A stored step row. */
  datatype StoredStep = StoredStep(
    order: int,
    stepType: string,
    name: string,
    timing: string,
    sameDay: bool,
    parameters: Params,
    notes: string)

  /** A stored solution, with its steps and the ids of the users who marked it as a favourite. */
  datatype Solution = Solution(
    id: string,
    name: string,
    indication: Option<string>,
    isTemplate: bool,
    isPublic: bool,
    createdById: string,
    createdAt: string,
    steps: seq<StoredStep>,
    favoriteUserIds: seq<string>)

  /** The list query's condition: the user's own solutions, the templates and the public ones. */
  predicate VisibleTo(s: Solution, userId: string) {
    s.createdById == userId || s.isTemplate || s.isPublic
  }

  /** One entry of the list response. */
  datatype Summary = Summary(
    id: string,
    name: string,
    indication: Option<string>,
    isTemplate: bool,
    isFavorite: bool,
    stepCount: nat,
    stepTypes: seq<string>,
    createdAt: string)

  /** `steps.map((step) => step.type)`. */
  function StepTypes(steps: seq<StoredStep>): (r: seq<string>)
    ensures |r| == |steps|
    ensures forall i :: 0 <= i < |steps| ==> r[i] == steps[i].stepType
  {
    seq(|steps|, i requires 0 <= i < |steps| => steps[i].stepType)
  }

  /** The `orderBy: { order: "asc" }` of the step include: the steps by ascending `order`, ties in stored order. */
  function OrderedSteps(steps: seq<StoredStep>): (r: seq<StoredStep>)
    ensures |r| == |steps|
    ensures SortBy.Sorted(r, (s: StoredStep) => s.order)
    ensures multiset(r) == multiset(steps)
  {
    SortBy.SortIsPermutation(steps, (s: StoredStep) => s.order);
    SortBy.Sort(steps, (s: StoredStep) => s.order)
  }

  /**
   The list transform. The query loads only the user's own favourite rows, so
   the solution is a favourite exactly when that restricted list is non-empty;
   the step types are listed by ascending step order.
   */
  function Summarize(s: Solution, userId: string): (r: Summary)
    ensures r.isFavorite <==> userId in s.favoriteUserIds
    ensures r.stepCount == |s.steps| == |r.stepTypes|
    ensures forall i :: 0 <= i < |s.steps| ==> r.stepTypes[i] == OrderedSteps(s.steps)[i].stepType
    ensures r.id == s.id && r.name == s.name && r.indication == s.indication
    ensures r.isTemplate == s.isTemplate && r.createdAt == s.createdAt
  {
    var own := Filter(s.favoriteUserIds, (u: string) => u == userId);
    FilterMembers(s.favoriteUserIds, (u: string) => u == userId);
    assert |own| > 0 ==> own[0] in own;
    Summary(s.id, s.name, s.indication, s.isTemplate, |own| > 0, |s.steps|, StepTypes(OrderedSteps(s.steps)), s.createdAt)
  }

  /** The responses the two handlers can give, other than the server error. */
  datatype Response =
    | Unauthorized
    | UserNotFound
    | BadRequest
    | Listed(summaries: seq<Summary>)
    | Created(solution: NewSolution)

  /** The HTTP status of a response. */
  function Status(r: Response): int {
    match r
    case Unauthorized => 401
    case UserNotFound => 404
    case BadRequest => 400
    case Listed(_) => 200
    case Created(_) => 201
  }

  /** `session?.user?.email` is truthy: there is a session, with a non-empty e-mail. */
  predicate Authenticated(email: Option<string>) {
    email.Some? && email.value != ""
  }

  /** The summaries of the visible solutions, in query order. */
  function Summaries(db: seq<Solution>, userId: string): (r: seq<Summary>)
    ensures |r| <= |db|
    ensures forall i :: 0 <= i < |r| ==> exists s :: s in db && VisibleTo(s, userId) && r[i] == Summarize(s, userId)
  {
    var visible := Filter(db, (s: Solution) => VisibleTo(s, userId));
    FilterMembers(db, (s: Solution) => VisibleTo(s, userId));
    var r := seq(|visible|, i requires 0 <= i < |visible| => Summarize(visible[i], userId));
    assert forall i :: 0 <= i < |r| ==> visible[i] in visible && r[i] == Summarize(visible[i], userId);
    r
  }

  /** Every visible solution is listed. */
  lemma SummariesComplete(db: seq<Solution>, userId: string, s: Solution)
    requires s in db && VisibleTo(s, userId)
    ensures Summarize(s, userId) in Summaries(db, userId)
  {
    var visible := Filter(db, (t: Solution) => VisibleTo(t, userId));
    FilterMembers(db, (t: Solution) => VisibleTo(t, userId));
    assert s in visible;
    var i :| 0 <= i < |visible| && visible[i] == s;
    assert Summaries(db, userId)[i] == Summarize(s, userId);
  }

  /**
   `GET`: 401 without an authenticated e-mail, 404 when no user has it,
   otherwise the summaries of the solutions the user may see.
   */
  function ListSolutions(email: Option<string>, users: map<string, string>, db: seq<Solution>): (r: Response)
    ensures r == Unauthorized <==> !Authenticated(email)
    ensures r == UserNotFound <==> Authenticated(email) && email.value !in users
    ensures r.Listed? <==> Authenticated(email) && email.value in users
    ensures r.Listed? ==> forall i :: 0 <= i < |r.summaries| ==>
      exists s :: s in db && VisibleTo(s, users[email.value]) && r.summaries[i] == Summarize(s, users[email.value])
  {
    if !Authenticated(email) then Unauthorized
    else if email.value !in users then UserNotFound
    else Listed(Summaries(db, users[email.value]))
  }

  /** One step as the request body carries it; the last three fields may be absent. */
  datatype BodyStep = BodyStep(
    order: int,
    stepType: string,
    name: string,
    timing: string,
    sameDay: Option<bool>,
    parameters: Option<Params>,
    notes: Option<string>)

  /** The create request body; every field may be absent. */
  datatype Body = Body(
    name: Option<string>,
    indication: Option<string>,
    description: Option<string>,
    steps: Option<seq<BodyStep>>)

  /** The solution the create endpoint stores. */
  datatype NewSolution = NewSolution(
    name: string,
    indication: Option<string>,
    description: Option<string>,
    createdById: string,
    steps: seq<StoredStep>)

  /** A body is accepted when it has a non-empty name and a non-empty step list. */
  predicate ValidBody(b: Body) {
    b.name.Some? && b.name.value != "" && b.steps.Some? && |b.steps.value| > 0
  }

  /** The stored row of a body step: the four required fields are copied, the others take their defaults. */
  function StoreStep(s: BodyStep): (r: StoredStep)
    ensures r.order == s.order && r.stepType == s.stepType && r.name == s.name && r.timing == s.timing
    ensures r.sameDay <==> s.sameDay == Some(true)
    ensures s.parameters.Some? ==> r.parameters == s.parameters.value
    ensures s.parameters.None? ==> r.parameters == map[]
    ensures s.notes.Some? ==> r.notes == s.notes.value
    ensures s.notes.None? ==> r.notes == ""
  {
    StoredStep(s.order, s.stepType, s.name, s.timing, s.sameDay.GetOr(false), s.parameters.GetOr(map[]), s.notes.GetOr(""))
  }

  /**
   `POST`: the session and user checks come first, whatever the body; then the
   body is validated; then the solution is stored with one row per body step,
   in body order.
   */
  function CreateSolution(email: Option<string>, users: map<string, string>, body: Body): (r: Response)
    ensures r == Unauthorized <==> !Authenticated(email)
    ensures r == UserNotFound <==> Authenticated(email) && email.value !in users
    ensures r == BadRequest <==> Authenticated(email) && email.value in users && !ValidBody(body)
    ensures r.Created? <==> Authenticated(email) && email.value in users && ValidBody(body)
    ensures r.Created? ==> r.solution.name == body.name.value && r.solution.createdById == users[email.value]
    ensures r.Created? ==> r.solution.indication == body.indication && r.solution.description == body.description
    ensures r.Created? ==> |r.solution.steps| == |body.steps.value|
    ensures r.Created? ==> forall i :: 0 <= i < |body.steps.value| ==> r.solution.steps[i] == StoreStep(body.steps.value[i])
  {
    if !Authenticated(email) then Unauthorized
    else if email.value !in users then UserNotFound
    else if !ValidBody(body) then BadRequest
    else
      var steps := body.steps.value;
      Created(NewSolution(body.name.value, body.indication, body.description, users[email.value],
                          seq(|steps|, i requires 0 <= i < |steps| => StoreStep(steps[i]))))
  }

  /** The created solution's steps as the response returns them: by ascending `order`. */
  function ResponseSteps(n: NewSolution): (r: seq<StoredStep>)
    ensures |r| == |n.steps|
    ensures SortBy.Sorted(r, (s: StoredStep) => s.order)
    ensures multiset(r) == multiset(n.steps)
  {
    OrderedSteps(n.steps)
  }

  /** The request body the composer sends for a payload. */
  function BodyOf(p: Composer.Payload): (r: Body)
    ensures r.name == Some(p.name) && r.indication == Some(p.indication) && r.description == None
    ensures r.steps.Some? && |r.steps.value| == |p.steps|
  {
    Body(Some(p.name), Some(p.indication), None,
         Some(seq(|p.steps|, i requires 0 <= i < |p.steps| =>
           var s := p.steps[i];
           BodyStep(s.order, s.stepType, s.name, s.timing, Some(s.sameDay), Some(s.parameters), Some(s.notes)))))
  }

  /**
   Whatever the composer sends is accepted from a known user: the stored rows
   are its steps in list order, numbered from 0 with their defaults filled in,
   and reading them back by `order` gives them in the same order.
   */
  lemma SavedSolutionIsStored(email: Option<string>, users: map<string, string>, name: string, indication: string, steps: seq<Step>)
    requires Authenticated(email) && email.value in users
    requires Composer.SavePayload(name, indication, steps).Some?
    ensures CreateSolution(email, users, BodyOf(Composer.SavePayload(name, indication, steps).value)).Created?
    ensures
      var n := CreateSolution(email, users, BodyOf(Composer.SavePayload(name, indication, steps).value)).solution;
      && n.name == name
      && |n.steps| == |steps|
      && (forall i :: 0 <= i < |steps| ==>
            && n.steps[i].order == i
            && n.steps[i].stepType == steps[i].stepType
            && n.steps[i].name == steps[i].name
            && n.steps[i].timing == steps[i].timing
            && n.steps[i].sameDay == steps[i].sameDay
            && n.steps[i].parameters == steps[i].parameters.GetOr(map[])
            && n.steps[i].notes == steps[i].notes.GetOr(""))
      && ResponseSteps(n) == n.steps
  {
    var p := Composer.SavePayload(name, indication, steps).value;
    var b := BodyOf(p);
    assert ValidBody(b);
    var n := CreateSolution(email, users, b).solution;
    forall i | 0 <= i < |steps|
      ensures n.steps[i].order == i
    {
      assert n.steps[i] == StoreStep(b.steps.value[i]);
    }
    assert SortBy.Sorted(n.steps, (s: StoredStep) => s.order);
    SortBy.SortOfSorted(n.steps, (s: StoredStep) => s.order);
  }
}
