/**
 The drop zone's timing view (`StepDropZone`): the placed steps grouped into one
 bucket per timing value, the buckets ordered by the fixed timing sequence.
 */
module Grouping {
  import opened Steps
  import opened Seqs
  import SortBy

  /** The display order of the timing buckets. */
  const TimingOrder: seq<string> := ["J0", "J+7", "J+14", "J+21", "J+28", "Quotidien"]

  /** `timingOrder.indexOf(t)`: the position of `t` in the fixed order, -1 for any other timing. */
  function TimingRank(t: string): (r: int)
    ensures -1 <= r < |TimingOrder|
    ensures r == -1 <==> t !in TimingOrder
    ensures r >= 0 ==> TimingOrder[r] == t
  {
    if t == "J0" then 0
    else if t == "J+7" then 1
    else if t == "J+14" then 2
    else if t == "J+21" then 3
    else if t == "J+28" then 4
    else if t == "Quotidien" then 5
    else -1
  }

  /** The distinct timings of `steps` in order of first appearance: the keys the `reduce` creates. */
  function Timings(steps: seq<Step>): (r: seq<string>)
    ensures forall i, j :: 0 <= i < j < |r| ==> r[i] != r[j]
    ensures forall t :: t in r <==> exists i :: 0 <= i < |steps| && steps[i].timing == t
    decreases |steps|
  {
    if |steps| == 0 then []
    else
      var keys := Timings(steps[..|steps| - 1]);
      var t := steps[|steps| - 1].timing;
      assert forall i :: 0 <= i < |steps| - 1 ==> steps[..|steps| - 1][i] == steps[i];
      if t in keys then keys else keys + [t]
  }

  /** The steps of one bucket, in list order. */
  function Bucket(steps: seq<Step>, t: string): (r: seq<Step>)
    ensures forall i :: 0 <= i < |r| ==> r[i].timing == t
    ensures forall s :: s in r <==> s in steps && s.timing == t
    ensures IsSubsequence(r, steps)
  {
    FilterIsSubsequence(steps, (s: Step) => s.timing == t);
    FilterMembers(steps, (s: Step) => s.timing == t);
    Filter(steps, (s: Step) => s.timing == t)
  }

  lemma BucketCons(s: Step, steps: seq<Step>, t: string)
    ensures Bucket([s] + steps, t) == if s.timing == t then [s] + Bucket(steps, t) else Bucket(steps, t)
  {
    assert ([s] + steps)[1..] == steps;
  }

  datatype Group = Group(timing: string, steps: seq<Step>)

  /** The bucket keys after `Object.keys(...).sort` by rank: a stable sort, so unknown timings come first in appearance order. */
  function SortedTimings(steps: seq<Step>): seq<string> {
    SortBy.Sort(Timings(steps), TimingRank)
  }

  /**
   `sortedTimings.map(timing => groupedByTiming[timing])`: one group per
   timing that occurs, no timing twice, each group holding the bucket of its
   timing, the groups in the fixed timing order.
   */
  function GroupByTiming(steps: seq<Step>): (r: seq<Group>)
    ensures |r| == |SortedTimings(steps)|
    ensures forall g :: 0 <= g < |r| ==> r[g] == Group(SortedTimings(steps)[g], Bucket(steps, SortedTimings(steps)[g]))
    ensures forall g, h :: 0 <= g < h < |r| ==> r[g].timing != r[h].timing
    ensures forall i :: 0 <= i < |steps| ==> exists g :: 0 <= g < |r| && r[g].timing == steps[i].timing && steps[i] in r[g].steps
    ensures forall g :: 0 <= g < |r| ==> |r[g].steps| > 0
    ensures forall g, h :: 0 <= g < h < |r| ==>
      || TimingRank(r[g].timing) < TimingRank(r[h].timing)
      || (TimingRank(r[g].timing) == -1 && TimingRank(r[h].timing) == -1)
  {
    var keys := SortedTimings(steps);
    var r := seq(|keys|, g requires 0 <= g < |keys| => Group(keys[g], Bucket(steps, keys[g])));
    GroupsOfKeys(steps, keys, r);
    r
  }

  /** Groups built from the sorted keys inherit their distinctness, coverage and order. */
  lemma GroupsOfKeys(steps: seq<Step>, keys: seq<string>, r: seq<Group>)
    requires keys == SortedTimings(steps)
    requires |r| == |keys| && forall g :: 0 <= g < |r| ==> r[g] == Group(keys[g], Bucket(steps, keys[g]))
    ensures forall g, h :: 0 <= g < h < |r| ==> r[g].timing != r[h].timing
    ensures forall i :: 0 <= i < |steps| ==> exists g :: 0 <= g < |r| && r[g].timing == steps[i].timing && steps[i] in r[g].steps
    ensures forall g :: 0 <= g < |r| ==> |r[g].steps| > 0
    ensures forall g, h :: 0 <= g < h < |r| ==>
      || TimingRank(r[g].timing) < TimingRank(r[h].timing)
      || (TimingRank(r[g].timing) == -1 && TimingRank(r[h].timing) == -1)
  {
    KeysInOrder(steps);
    OrderCarries(keys, r);
    DistinctCarries(steps, keys, r);
    GroupsCoverSteps(steps, keys, r);
    GroupsNonEmpty(steps, keys, r);
  }

  /** Groups built from distinct keys have distinct timings. */
  lemma DistinctCarries(steps: seq<Step>, keys: seq<string>, r: seq<Group>)
    requires keys == SortedTimings(steps)
    requires |r| == |keys| && forall g :: 0 <= g < |r| ==> r[g].timing == keys[g]
    ensures forall g, h :: 0 <= g < h < |r| ==> r[g].timing != r[h].timing
  {
    SortedTimingsAreTimings(steps);
    forall g, h | 0 <= g < h < |r|
      ensures r[g].timing != r[h].timing
    {
      assert keys[g] != keys[h];
    }
  }

  /** Every step lies in the group of its own timing. */
  lemma GroupsCoverSteps(steps: seq<Step>, keys: seq<string>, r: seq<Group>)
    requires keys == SortedTimings(steps)
    requires |r| == |keys| && forall g :: 0 <= g < |r| ==> r[g] == Group(keys[g], Bucket(steps, keys[g]))
    ensures forall i :: 0 <= i < |steps| ==> exists g :: 0 <= g < |r| && r[g].timing == steps[i].timing && steps[i] in r[g].steps
  {
    forall i | 0 <= i < |steps|
      ensures exists g :: 0 <= g < |r| && r[g].timing == steps[i].timing && steps[i] in r[g].steps
    {
      KeyOfStep(steps, keys, i);
      var g :| 0 <= g < |keys| && keys[g] == steps[i].timing;
      assert steps[i] in Bucket(steps, keys[g]);
    }
  }

  /** No group is empty: its key is the timing of some step. */
  lemma GroupsNonEmpty(steps: seq<Step>, keys: seq<string>, r: seq<Group>)
    requires keys == SortedTimings(steps)
    requires |r| == |keys| && forall g :: 0 <= g < |r| ==> r[g] == Group(keys[g], Bucket(steps, keys[g]))
    ensures forall g :: 0 <= g < |r| ==> |r[g].steps| > 0
  {
    forall g | 0 <= g < |r|
      ensures |r[g].steps| > 0
    {
      var i := StepOfKey(steps, keys, g);
      assert steps[i] in Bucket(steps, keys[g]);
    }
  }

  /** Groups whose timings are the keys, position by position, are ordered as the keys are. */
  lemma OrderCarries(keys: seq<string>, r: seq<Group>)
    requires |r| == |keys| && forall g :: 0 <= g < |r| ==> r[g].timing == keys[g]
    requires forall g, h :: 0 <= g < h < |keys| ==>
      || TimingRank(keys[g]) < TimingRank(keys[h])
      || (TimingRank(keys[g]) == -1 && TimingRank(keys[h]) == -1)
    ensures forall g, h :: 0 <= g < h < |r| ==>
      || TimingRank(r[g].timing) < TimingRank(r[h].timing)
      || (TimingRank(r[g].timing) == -1 && TimingRank(r[h].timing) == -1)
  {
    forall g, h | 0 <= g < h < |r|
      ensures || TimingRank(r[g].timing) < TimingRank(r[h].timing)
              || (TimingRank(r[g].timing) == -1 && TimingRank(r[h].timing) == -1)
    {
      assert r[g].timing == keys[g] && r[h].timing == keys[h];
    }
  }

  /** Every step's timing is a key. */
  lemma KeyOfStep(steps: seq<Step>, keys: seq<string>, i: nat)
    requires keys == SortedTimings(steps) && i < |steps|
    ensures exists g :: 0 <= g < |keys| && keys[g] == steps[i].timing
  {
    SortedTimingsAreTimings(steps);
    assert steps[i].timing in keys;
  }

  /** Every key is the timing of some step. */
  lemma StepOfKey(steps: seq<Step>, keys: seq<string>, g: nat) returns (i: nat)
    requires keys == SortedTimings(steps) && g < |keys|
    ensures i < |steps| && steps[i].timing == keys[g]
  {
    SortedTimingsAreTimings(steps);
    assert keys[g] in keys;
    i :| 0 <= i < |steps| && steps[i].timing == keys[g];
  }

  /** The sorted keys have strictly increasing ranks, except among timings outside the fixed order. */
  lemma KeysInOrder(steps: seq<Step>)
    ensures var keys := SortedTimings(steps);
      forall g, h :: 0 <= g < h < |keys| ==>
        || TimingRank(keys[g]) < TimingRank(keys[h])
        || (TimingRank(keys[g]) == -1 && TimingRank(keys[h]) == -1)
  {
    var keys := SortedTimings(steps);
    SortedTimingsAreTimings(steps);
    forall g, h | 0 <= g < h < |keys|
      ensures TimingRank(keys[g]) < TimingRank(keys[h])
           || (TimingRank(keys[g]) == -1 && TimingRank(keys[h]) == -1)
    {
      assert TimingRank(keys[g]) <= TimingRank(keys[h]);
      assert keys[g] != keys[h];
    }
  }

  /** The sorted keys are the distinct timings, each once. */
  lemma SortedTimingsAreTimings(steps: seq<Step>)
    ensures var keys := SortedTimings(steps);
      && (forall i, j :: 0 <= i < j < |keys| ==> keys[i] != keys[j])
      && (forall t :: t in keys <==> exists i :: 0 <= i < |steps| && steps[i].timing == t)
  {
    var ts := Timings(steps);
    var keys := SortedTimings(steps);
    SortBy.SortIsPermutation(ts, TimingRank);
    assert forall t :: t in keys <==> t in ts by {
      forall t
        ensures t in keys <==> t in ts
      {
        assert t in keys <==> t in multiset(keys);
        assert t in ts <==> t in multiset(ts);
      }
    }
    forall i, j | 0 <= i < j < |keys|
      ensures keys[i] != keys[j]
    {
      if keys[i] == keys[j] {
        RepeatedMultiplicity(keys, i, j);
        DistinctMultiplicity(ts, keys[i]);
      }
    }
  }

  /** A value at two positions occurs at least twice. */
  lemma RepeatedMultiplicity(s: seq<string>, i: nat, j: nat)
    requires i < j < |s| && s[i] == s[j]
    ensures multiset(s)[s[i]] >= 2
  {
    var x := s[i];
    assert s == s[..i] + [x] + s[i + 1..j] + [x] + s[j + 1..];
    assert multiset(s) == multiset(s[..i]) + multiset{x} + multiset(s[i + 1..j]) + multiset{x} + multiset(s[j + 1..]);
  }

  /** In a sequence without repetitions, every value occurs at most once. */
  lemma {:induction false} DistinctMultiplicity(s: seq<string>, x: string)
    requires forall i, j :: 0 <= i < j < |s| ==> s[i] != s[j]
    ensures multiset(s)[x] <= 1
    decreases |s|
  {
    if |s| > 0 {
      assert s == [s[0]] + s[1..];
      DistinctMultiplicity(s[1..], x);
      if s[0] == x {
        assert x !in s[1..];
      }
    }
  }

  /**
   Grouping is a partition: every step lies in the group of its own timing, that
   group is the only one with this timing, every group holds only steps of its
   timing in list order, and no group is empty.
   */
  lemma GroupingIsPartition(steps: seq<Step>)
    ensures var gs := GroupByTiming(steps);
      && (forall i :: 0 <= i < |steps| ==> exists g :: 0 <= g < |gs| && gs[g].timing == steps[i].timing && steps[i] in gs[g].steps)
      && (forall g, h :: 0 <= g < |gs| && 0 <= h < |gs| && gs[g].timing == gs[h].timing ==> g == h)
      && (forall g :: 0 <= g < |gs| ==> gs[g].steps == Filter(steps, (s: Step) => s.timing == gs[g].timing))
      && (forall g :: 0 <= g < |gs| ==> |gs[g].steps| > 0)
  {
    var gs := GroupByTiming(steps);
    forall g | 0 <= g < |gs|
      ensures gs[g].steps == Filter(steps, (s: Step) => s.timing == gs[g].timing)
    {
      assert gs[g].steps == Bucket(steps, gs[g].timing);
    }
  }

  /** Buckets follow the fixed order: J0, J+7, J+14, J+21, J+28, Quotidien, with any other timing before all of them. */
  lemma GroupsInTimingOrder(steps: seq<Step>)
    ensures var gs := GroupByTiming(steps);
      forall g, h :: 0 <= g < h < |gs| ==>
        || TimingRank(gs[g].timing) < TimingRank(gs[h].timing)
        || (TimingRank(gs[g].timing) == -1 && TimingRank(gs[h].timing) == -1)
  {
    var gs := GroupByTiming(steps);
    var keys := SortedTimings(steps);
    SortedTimingsAreTimings(steps);
    forall g, h | 0 <= g < h < |gs|
      ensures TimingRank(gs[g].timing) < TimingRank(gs[h].timing)
           || (TimingRank(gs[g].timing) == -1 && TimingRank(gs[h].timing) == -1)
    {
      assert TimingRank(keys[g]) <= TimingRank(keys[h]);
      assert keys[g] != keys[h];
    }
  }

  /** Timings outside the fixed order keep their order of first appearance. */
  lemma UnknownTimingsInAppearanceOrder(steps: seq<Step>)
    ensures SortBy.WithKey(SortedTimings(steps), TimingRank, -1) == SortBy.WithKey(Timings(steps), TimingRank, -1)
  {
    SortBy.SortIsStable(Timings(steps), TimingRank, -1);
  }

  /** An empty list shows the placeholder instead of groups. */
  predicate ShowsPlaceholder(steps: seq<Step>) {
    |steps| == 0
  }

  lemma EmptyHasNoGroups(steps: seq<Step>)
    ensures ShowsPlaceholder(steps) <==> |GroupByTiming(steps)| == 0
  {
    SortedTimingsAreTimings(steps);
    if |steps| > 0 {
      assert steps[0].timing in SortedTimings(steps);
    }
  }

  /** The label over a bucket. */
  function GroupLabel(t: string): (r: string)
    ensures t == "Quotidien" ==> r == "Domicile - Quotidien"
    ensures t != "Quotidien" ==> r == t
  {
    if t == "Quotidien" then "Domicile - Quotidien" else t
  }

  /** A home-care step placed first and a day-0 step placed second: the day-0 bucket is shown first. */
  lemma DailyFirstDisplaysAfterJ0(a: Step, b: Step)
    requires a.timing == "Quotidien" && b.timing == "J0"
    ensures GroupByTiming([a, b]) == [Group("J0", [b]), Group("Quotidien", [a])]
  {
    ExampleKeys(a, b);
    ExampleBuckets(a, b);
  }

  lemma ExampleKeys(a: Step, b: Step)
    requires a.timing == "Quotidien" && b.timing == "J0"
    ensures SortedTimings([a, b]) == ["J0", "Quotidien"]
  {
    var steps := [a, b];
    assert steps[..1] == [a];
    assert [a][..0] == [];
    assert Timings([a]) == ["Quotidien"];
    assert Timings(steps) == ["Quotidien", "J0"];
    assert ["Quotidien", "J0"][1..] == ["J0"];
    assert SortBy.Sort(["J0"], TimingRank) == ["J0"];
    assert SortBy.Insert("Quotidien", ["J0"], TimingRank) == ["J0", "Quotidien"];
  }

  lemma ExampleBuckets(a: Step, b: Step)
    requires a.timing == "Quotidien" && b.timing == "J0"
    ensures Bucket([a, b], "J0") == [b] && Bucket([a, b], "Quotidien") == [a]
  {
    BucketCons(a, [b], "J0");
    BucketCons(b, [], "J0");
    BucketCons(a, [b], "Quotidien");
    BucketCons(b, [], "Quotidien");
    assert [b] + [] == [b];
    assert [a] + [b] == [a, b];
  }
}
