/**
 The composer's summary panel (`SolutionPreview`): per-category counts, the
 estimated duration in weeks with its open-ended marker, the save-button rule
 and the truncated timeline.
 */
module Preview {
  import opened Options
  import opened Strings
  import opened Steps
  import opened Seqs
  import Composer

  /** `steps.filter(s => s.type.startsWith(prefix)).length` for the prefix of `c`. */
  function CategoryCount(steps: seq<Step>, c: Category): nat {
    |Filter(steps, (s: Step) => StartsWith(s.stepType, Prefix(c)))|
  }

  lemma CategoryCountCons(steps: seq<Step>, c: Category)
    requires |steps| > 0
    ensures CategoryCount(steps, c) == (if StartsWith(steps[0].stepType, Prefix(c)) then 1 else 0) + CategoryCount(steps[1..], c)
  {
  }

  function Sum4(steps: seq<Step>): nat {
    CategoryCount(steps, Laser) + CategoryCount(steps, Peeling) + CategoryCount(steps, Cabine) + CategoryCount(steps, Domicile)
  }

  /** A step is counted in at most one category, so the four counts never add up to more than the step count. */
  lemma {:induction false} CategoryCountsBounded(steps: seq<Step>)
    ensures Sum4(steps) <= |steps|
    decreases |steps|
  {
    if |steps| > 0 {
      CategoryCountsBounded(steps[1..]);
      CategoryCountCons(steps, Laser);
      CategoryCountCons(steps, Peeling);
      CategoryCountCons(steps, Cabine);
      CategoryCountCons(steps, Domicile);
      PrefixesExclusive(steps[0].stepType);
    }
  }

  /** A category count is the number of steps whose type carries the category's prefix. */
  lemma CategoryCountMembers(steps: seq<Step>, c: Category)
    ensures CategoryCount(steps, c) > 0 <==> exists i :: 0 <= i < |steps| && StartsWith(steps[i].stepType, Prefix(c))
  {
    var f := Filter(steps, (s: Step) => StartsWith(s.stepType, Prefix(c)));
    FilterMembers(steps, (s: Step) => StartsWith(s.stepType, Prefix(c)));
    if CategoryCount(steps, c) > 0 {
      assert f[0] in f;
    } else if exists i :: 0 <= i < |steps| && StartsWith(steps[i].stepType, Prefix(c)) {
      var i :| 0 <= i < |steps| && StartsWith(steps[i].stepType, Prefix(c));
      assert steps[i] in f;
    }
  }

  /** `parseInt(t.replace("J", "").replace("+", "")) || 0`: the day offset a timing label stands for; `NaN` counts as 0. */
  function TimingValue(t: string): int {
    ParseInt(ReplaceFirst(ReplaceFirst(t, "J", ""), "+", "")).GetOr(0)
  }

  /** The labels `J<n>` and `J+<n>` stand for day `n`. */
  lemma TimingValueOfLabel(n: nat)
    ensures TimingValue("J" + NatToDecimal(n)) == n
    ensures TimingValue("J+" + NatToDecimal(n)) == n
  {
    var d := NatToDecimal(n);
    StripJ(d);
    StripJPlus(d);
    ParseIntDecimal(n);
  }

  /** Removing the leading `J` of `J<digits>` leaves the digits, which hold no `+`. */
  lemma StripJ(d: string)
    requires forall i :: 0 <= i < |d| ==> '0' <= d[i] <= '9'
    ensures ReplaceFirst(ReplaceFirst("J" + d, "J", ""), "+", "") == d
  {
    ReplaceLeading("J", d, "");
    var e := ReplaceFirst("J" + d, "J", "");
    assert e == d;
    NoPlusInDecimal(d);
    ReplaceAbsent(d, "+", "");
  }

  /** Removing the `J` and then the `+` of `J+<digits>` leaves the digits. */
  lemma StripJPlus(d: string)
    ensures ReplaceFirst(ReplaceFirst("J+" + d, "J", ""), "+", "") == d
  {
    assert "J+" + d == "J" + ("+" + d);
    ReplaceLeading("J", "+" + d, "");
    ReplaceLeading("+", d, "");
  }

  lemma {:induction false} NoPlusInDecimal(d: string)
    requires forall i :: 0 <= i < |d| ==> '0' <= d[i] <= '9'
    ensures !Contains(d, "+")
    decreases |d|
  {
    if |d| > 0 {
      NoPlusInDecimal(d[1..]);
      assert !StartsWith(d, "+") by {
        assert d[0] != '+';
      }
    }
  }

  /** The home-care count is positive exactly when some type starts with `DOMICILE`. */
  lemma DomicileCountMembers(steps: seq<Step>)
    ensures CategoryCount(steps, Domicile) > 0 <==> exists i :: 0 <= i < |steps| && StartsWith(steps[i].stepType, "DOMICILE")
  {
    var p := Prefix(Domicile);
    assert p == "DOMICILE";
    CategoryCountMembers(steps, Domicile);
  }

  /** The larger of two integers (`Math.max`). */
  function Max(a: int, b: int): int {
    if a >= b then a else b
  }

  /**
   The `reduce` computing `maxTiming`, for a given reading `day` of a timing
   label: the largest day among the non-daily timings, starting from 0.
   */
  function MaxDay(steps: seq<Step>, day: string -> int): (r: int)
    ensures r >= 0
    ensures forall i :: 0 <= i < |steps| && steps[i].timing != "Quotidien" ==> day(steps[i].timing) <= r
    decreases |steps|
  {
    if |steps| == 0 then 0
    else
      var init := steps[..|steps| - 1];
      var m := MaxDay(init, day);
      var t := steps[|steps| - 1].timing;
      assert forall i :: 0 <= i < |init| ==> init[i] == steps[i];
      if t == "Quotidien" then m else Max(m, day(t))
  }

  /** One more step: a daily one leaves the maximum alone, any other raises it to its own day if that is larger. */
  lemma MaxDaySnoc(steps: seq<Step>, s: Step, day: string -> int)
    ensures MaxDay(steps + [s], day) == if s.timing == "Quotidien" then MaxDay(steps, day) else Max(MaxDay(steps, day), day(s.timing))
  {
    assert (steps + [s])[..|steps|] == steps;
  }

  /** `maxTiming`: the reduce with the timing labels read by `TimingValue`. */
  function MaxTiming(steps: seq<Step>): (r: int)
    ensures r >= 0
    ensures forall i :: 0 <= i < |steps| && steps[i].timing != "Quotidien" ==> TimingValue(steps[i].timing) <= r
  {
    MaxDay(steps, TimingValue)
  }

  /** A non-daily timing read as day `v`. */
  predicate HasDay(steps: seq<Step>, day: string -> int, i: int, v: int) {
    0 <= i < |steps| && steps[i].timing != "Quotidien" && day(steps[i].timing) == v
  }

  /** A positive maximum is the day of some non-daily step. */
  lemma {:induction false} MaxDayAttained(steps: seq<Step>, day: string -> int)
    ensures MaxDay(steps, day) == 0 || exists i :: HasDay(steps, day, i, MaxDay(steps, day))
    decreases |steps|
  {
    if |steps| > 0 {
      var init := steps[..|steps| - 1];
      var last := |steps| - 1;
      var m := MaxDay(init, day);
      MaxDayAttained(init, day);
      if MaxDay(steps, day) != 0 {
        if MaxDay(steps, day) == m {
          var i :| HasDay(init, day, i, m);
          assert init[i] == steps[i];
          assert HasDay(steps, day, i, m);
        } else {
          assert HasDay(steps, day, last, MaxDay(steps, day));
        }
      }
    }
  }

  /** A positive `maxTiming` is the offset of some non-daily step. */
  lemma MaxTimingAttained(steps: seq<Step>)
    ensures MaxTiming(steps) == 0 || exists i :: 0 <= i < |steps| && steps[i].timing != "Quotidien" && TimingValue(steps[i].timing) == MaxTiming(steps)
  {
    MaxDayAttained(steps, TimingValue);
    if MaxTiming(steps) != 0 {
      var i :| HasDay(steps, TimingValue, i, MaxTiming(steps));
    }
  }

  /** `Math.ceil(maxTiming / 7) || 1`: whole weeks covering the last dated day, at least one. */
  function DurationWeeks(maxTiming: nat): (r: nat)
    ensures r >= 1
    ensures maxTiming == 0 ==> r == 1
    ensures maxTiming > 0 ==> 7 * (r - 1) < maxTiming <= 7 * r
  {
    var w := (maxTiming + 6) / 7;
    if w == 0 then 1 else w
  }

  /** The summary shown by the panel. */
  datatype Stats = Stats(
    stepCount: nat,
    weeks: nat,
    openEnded: bool,
    laser: nat,
    peeling: nat,
    cabine: nat,
    domicile: nat)

  function ComputeStats(steps: seq<Step>): (r: Stats)
    ensures r.laser + r.peeling + r.cabine + r.domicile <= r.stepCount == |steps|
    ensures r.weeks >= 1
    ensures r.openEnded <==> exists i :: 0 <= i < |steps| && StartsWith(steps[i].stepType, "DOMICILE")
    ensures r.laser == CategoryCount(steps, Laser) && r.peeling == CategoryCount(steps, Peeling)
    ensures r.cabine == CategoryCount(steps, Cabine) && r.domicile == CategoryCount(steps, Domicile)
    ensures r.weeks == DurationWeeks(MaxTiming(steps))
  {
    CategoryCountsBounded(steps);
    DomicileCountMembers(steps);
    var domicile := CategoryCount(steps, Domicile);
    Stats(|steps|, DurationWeeks(MaxTiming(steps)), domicile > 0,
          CategoryCount(steps, Laser), CategoryCount(steps, Peeling), CategoryCount(steps, Cabine), domicile)
  }

  /** The duration shown: the number of weeks, followed by `+` when a home-care step is present. */
  function DurationLabel(st: Stats): string {
    NatToDecimal(st.weeks) + (if st.openEnded then "+" else "")
  }

  /** A daily step changes neither the maximum day nor the week count; a home-care one only adds the marker. */
  lemma AddDailyKeepsWeeks(steps: seq<Step>, s: Step)
    requires s.timing == "Quotidien"
    ensures ComputeStats(steps + [s]).weeks == ComputeStats(steps).weeks
    ensures StartsWith(s.stepType, "DOMICILE") ==> ComputeStats(steps + [s]).openEnded
  {
    assert (steps + [s])[..|steps|] == steps;
    assert (steps + [s])[|steps|] == s;
  }

  /** The day offsets of the timing options `J0`, `J+7`, `J+14`, `J+21` and `J+28`. */
  lemma Offset0(t: string)
    requires t == "J0"
    ensures TimingValue(t) == 0
  {
    assert NatToDecimal(0) == "0";
    assert t == "J" + NatToDecimal(0);
    TimingValueOfLabel(0);
  }

  lemma Offset7(t: string)
    requires t == "J+7"
    ensures TimingValue(t) == 7
  {
    assert NatToDecimal(7) == "7";
    assert t == "J+" + NatToDecimal(7);
    TimingValueOfLabel(7);
  }

  lemma Offset14(t: string)
    requires t == "J+14"
    ensures TimingValue(t) == 14
  {
    assert NatToDecimal(14) == "14";
    assert t == "J+" + NatToDecimal(14);
    TimingValueOfLabel(14);
  }

  lemma Offset21(t: string)
    requires t == "J+21"
    ensures TimingValue(t) == 21
  {
    assert NatToDecimal(21) == "21";
    assert t == "J+" + NatToDecimal(21);
    TimingValueOfLabel(21);
  }

  lemma Offset28(t: string)
    requires t == "J+28"
    ensures TimingValue(t) == 28
  {
    assert NatToDecimal(28) == "28";
    assert t == "J+" + NatToDecimal(28);
    TimingValueOfLabel(28);
  }

  /** Steps at J+14 and J+28 span four weeks. */
  lemma WeeksJ14J28(a: Step, b: Step)
    requires a.timing == "J+14" && b.timing == "J+28"
    ensures ComputeStats([a, b]).weeks == 4
  {
    Offset14(a.timing);
    Offset28(b.timing);
    MaxDaySnoc([], a, TimingValue);
    assert [] + [a] == [a];
    MaxDaySnoc([a], b, TimingValue);
    assert [a] + [b] == [a, b];
    assert MaxTiming([a, b]) == 28;
  }

  /** A step at J+7 alone spans one week. */
  lemma WeeksJ7(a: Step)
    requires a.timing == "J+7"
    ensures ComputeStats([a]).weeks == 1
  {
    Offset7(a.timing);
    MaxDaySnoc([], a, TimingValue);
    assert [] + [a] == [a];
    assert MaxTiming([a]) == 7;
  }

  /** Only day-0 steps, or no steps at all, still give one week. */
  lemma WeeksDayZero(steps: seq<Step>)
    requires forall i :: 0 <= i < |steps| ==> steps[i].timing == "J0"
    ensures ComputeStats(steps).weeks == 1
  {
    MaxTimingAttained(steps);
    if MaxTiming(steps) != 0 {
      var i :| 0 <= i < |steps| && steps[i].timing != "Quotidien" && TimingValue(steps[i].timing) == MaxTiming(steps);
      Offset0(steps[i].timing);
    }
  }

  /** `disabled={!name || steps.length === 0 || isSaving}`, negated. */
  predicate SaveEnabled(name: string, steps: seq<Step>, isSaving: bool) {
    !(name == "" || |steps| == 0 || isSaving)
  }

  /** Whenever the button is enabled, saving sends a request; whenever no request would be sent, it is disabled. */
  lemma SaveEnabledSends(name: string, indication: string, steps: seq<Step>, isSaving: bool)
    ensures SaveEnabled(name, steps, isSaving) ==> Composer.SavePayload(name, indication, steps).Some?
    ensures Composer.SavePayload(name, indication, steps).None? ==> !SaveEnabled(name, steps, isSaving)
  {
  }

  /** The number of timeline rows shown. */
  const TimelineLimit: nat := 5

  /** `steps.slice(0, 5)`: the first steps, in list order. */
  function Timeline(steps: seq<Step>): (r: seq<Step>)
    ensures |r| == if |steps| < TimelineLimit then |steps| else TimelineLimit
    ensures r == steps[..|r|]
  {
    if |steps| <= TimelineLimit then steps else steps[..TimelineLimit]
  }

  /** The "+ n autres soins..." line: present only beyond five steps, counting those not shown. */
  function HiddenCount(steps: seq<Step>): (r: Option<nat>)
    ensures r.Some? <==> |steps| > TimelineLimit
  {
    if |steps| > TimelineLimit then Some(|steps| - TimelineLimit) else None
  }

  /** The rows shown plus the count announced account for every step exactly once. */
  lemma TimelineCoversAll(steps: seq<Step>)
    ensures |Timeline(steps)| + HiddenCount(steps).GetOr(0) == |steps|
    ensures Timeline(steps) + steps[|Timeline(steps)|..] == steps
  {
  }
}
