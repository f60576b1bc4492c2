/**
 The training overview page: the overall progress figure, the completed-module
 count, and how each module tile is drawn (icon state, progress bar, button).
 */
module Formation {
  import opened Options
  import opened Seqs

  /** A training module as the page lists it; an absent `locked` flag is `false`. */
  datatype Module = Module(
    id: nat,
    title: string,
    lessons: nat,
    duration: nat,
    progress: int,
    completed: bool,
    locked: bool,
    xp: nat)

  /** The page's module table. */
  const Modules: seq<Module> := [
    Module(1, "Introduction CLINICARE", 4, 30, 100, true, false, 100),
    Module(2, "Gamme REFRESH", 6, 45, 65, false, false, 150),
    Module(3, "Gamme GLOW", 5, 40, 0, false, false, 150),
    Module(4, "Gamme PURE", 5, 35, 0, false, true, 150),
    Module(5, "Gamme TIGHT", 5, 40, 0, false, true, 150),
    Module(6, "Protocoles Laser", 8, 60, 0, false, true, 200)
  ]

  /** The `reduce` adding up the progress values. */
  function SumProgress(modules: seq<Module>): int
    decreases |modules|
  {
    if |modules| == 0 then 0 else SumProgress(modules[..|modules| - 1]) + modules[|modules| - 1].progress
  }

  /**
   `Math.round(sum / length)`. `Math.round` rounds half-way values up, so the
   result is `floor(sum / n + 1/2)`, computed exactly on integers. An empty
   table divides by zero and gives `NaN`, here `None`.
   */
  function TotalProgress(modules: seq<Module>): (r: Option<int>)
    ensures r.None? <==> |modules| == 0
    ensures r.Some? ==> 2 * SumProgress(modules) - |modules| < 2 * |modules| * r.value <= 2 * SumProgress(modules) + |modules|
  {
    if |modules| == 0 then None
    else
      var n := |modules|;
      var s := SumProgress(modules);
      var r := (2 * s + n) / (2 * n);
      assert 2 * n * r <= 2 * s + n < 2 * n * r + 2 * n;
      Some(r)
  }

  /** Progress values between 0 and 100 add up to between 0 and 100 per module. */
  lemma {:induction false} SumProgressBounds(modules: seq<Module>)
    requires forall i :: 0 <= i < |modules| ==> 0 <= modules[i].progress <= 100
    ensures 0 <= SumProgress(modules) <= 100 * |modules|
    decreases |modules|
  {
    if |modules| > 0 {
      var init := modules[..|modules| - 1];
      assert forall i :: 0 <= i < |init| ==> init[i] == modules[i];
      SumProgressBounds(init);
    }
  }

  /** The overall figure stays a percentage when every module's does. */
  lemma TotalProgressBounds(modules: seq<Module>)
    requires |modules| > 0
    requires forall i :: 0 <= i < |modules| ==> 0 <= modules[i].progress <= 100
    ensures 0 <= TotalProgress(modules).value <= 100
  {
    SumProgressBounds(modules);
    var n := |modules|;
    var s := SumProgress(modules);
    assert TotalProgress(modules).value == (2 * s + n) / (2 * n);
    QuotientBelow(2 * s + n, 2 * n, 101);
  }

  /** A non-negative numerator below `k` denominators gives a quotient in `[0, k)`. */
  lemma QuotientBelow(a: int, b: int, k: int)
    requires b > 0 && 0 <= a < b * k
    ensures 0 <= a / b < k
  {
  }

  /** With the page's table: 165 points over 6 modules round to 28 %. */
  lemma PageTotalProgress()
    ensures SumProgress(Modules) == 165
    ensures TotalProgress(Modules) == Some(28)
  {
    assert Modules[..1][..0] == [];
    assert SumProgress(Modules[..1]) == 100;
    assert Modules[..2][..1] == Modules[..1];
    assert SumProgress(Modules[..2]) == 165;
    assert Modules[..3][..2] == Modules[..2];
    assert SumProgress(Modules[..3]) == 165;
    assert Modules[..4][..3] == Modules[..3];
    assert SumProgress(Modules[..4]) == 165;
    assert Modules[..5][..4] == Modules[..4];
    assert SumProgress(Modules[..5]) == 165;
    assert Modules[..5] == Modules[..|Modules| - 1];
  }

  /** `MODULES.filter(m => m.completed).length`. */
  function CompletedCount(modules: seq<Module>): (r: nat)
    ensures r <= |modules|
  {
    |Filter(modules, (m: Module) => m.completed)|
  }

  /** Every module is either counted as completed or not: the two counts add up to the table's size. */
  lemma CompletedCountSplit(modules: seq<Module>)
    ensures CompletedCount(modules) + |Filter(modules, (m: Module) => !m.completed)| == |modules|
  {
    FilterSplit(modules, (m: Module) => true, (m: Module) => m.completed, (m: Module) => !m.completed);
    FilterAll(modules, (m: Module) => true);
  }

  /** One of the page's six modules is completed. */
  lemma PageCompletedCount()
    ensures CompletedCount(Modules) == 1
  {
    var done := (m: Module) => m.completed;
    assert Modules[5..][1..] == [];
    assert Filter(Modules[5..], done) == [];
    assert Modules[4..][1..] == Modules[5..];
    assert Filter(Modules[4..], done) == [];
    assert Modules[3..][1..] == Modules[4..];
    assert Filter(Modules[3..], done) == [];
    assert Modules[2..][1..] == Modules[3..];
    assert Filter(Modules[2..], done) == [];
    assert Modules[1..][1..] == Modules[2..];
    assert Filter(Modules[1..], done) == [];
  }

  /** How a tile's icon box is drawn. */
  datatype TileState = Done | Locked | Started | NotStarted

  /** Completed wins over locked, locked over progress. */
  function Tile(m: Module): (r: TileState)
    ensures r == Done <==> m.completed
    ensures r == Locked <==> !m.completed && m.locked
    ensures r == Started <==> !m.completed && !m.locked && m.progress > 0
  {
    if m.completed then Done
    else if m.locked then Locked
    else if m.progress > 0 then Started
    else NotStarted
  }

  /** The progress bar shows for modules that are open and not finished. */
  predicate ShowsProgressBar(m: Module) {
    !m.locked && !m.completed
  }

  /** The tile's button: none on a locked module, otherwise review, resume or start. */
  function ButtonLabel(m: Module): (r: Option<string>)
    ensures r.None? <==> m.locked
    ensures r == Some("Revoir") <==> !m.locked && m.completed
    ensures r == Some("Continuer") <==> !m.locked && !m.completed && m.progress > 0
    ensures r == Some("Commencer") <==> !m.locked && !m.completed && m.progress <= 0
  {
    if m.locked then None
    else if m.completed then Some("Revoir")
    else if m.progress > 0 then Some("Continuer")
    else Some("Commencer")
  }

  /** On an open module the button agrees with the tile, and the bar shows exactly on unfinished ones. */
  lemma ButtonMatchesTile(m: Module)
    requires !m.locked
    ensures ButtonLabel(m) == Some("Revoir") <==> Tile(m) == Done
    ensures ButtonLabel(m) == Some("Continuer") <==> Tile(m) == Started
    ensures ButtonLabel(m) == Some("Commencer") <==> Tile(m) == NotStarted
    ensures ShowsProgressBar(m) <==> Tile(m) != Done
  {
  }
}
