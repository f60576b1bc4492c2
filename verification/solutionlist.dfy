/**
 The solution list page: the search box and filter tabs over the summaries
 the list endpoint returns, the category icons shown for a solution, and the
 local favourite toggle.
 */
module SolutionList {
  import opened Options
  import opened Strings
  import opened Steps
  import opened Seqs
  import opened SolutionsApi

  /** The four filter tabs. */
  datatype FilterKind = All | Mine | Templates | Favorites

  /** Case-insensitive substring search over the name, and over the indication when there is one. */
  predicate MatchSearch(s: Summary, search: string) {
    || Contains(ToLower(s.name), ToLower(search))
    || (s.indication.Some? && Contains(ToLower(s.indication.value), ToLower(search)))
  }

  /** The tab's own condition, on top of the search. */
  predicate Keep(kind: FilterKind, search: string, s: Summary) {
    match kind
    case All => MatchSearch(s, search)
    case Mine => MatchSearch(s, search) && !s.isTemplate
    case Templates => MatchSearch(s, search) && s.isTemplate
    case Favorites => MatchSearch(s, search) && s.isFavorite
  }

  /** `filteredSolutions`: the kept summaries, in list order. */
  function FilterSolutions(solutions: seq<Summary>, search: string, kind: FilterKind): (r: seq<Summary>)
    ensures IsSubsequence(r, solutions)
    ensures forall s :: s in r <==> s in solutions && Keep(kind, search, s)
  {
    FilterIsSubsequence(solutions, (s: Summary) => Keep(kind, search, s));
    FilterMembers(solutions, (s: Summary) => Keep(kind, search, s));
    Filter(solutions, (s: Summary) => Keep(kind, search, s))
  }

  /** The search does not depend on the case of what is typed. */
  lemma SearchIgnoresCase(s: Summary, search: string)
    ensures MatchSearch(s, search) <==> MatchSearch(s, ToLower(search))
  {
    ToLowerIdempotent(search);
  }

  /** An empty search on the first tab shows every solution. */
  lemma EmptySearchShowsAll(solutions: seq<Summary>)
    ensures FilterSolutions(solutions, "", All) == solutions
  {
    assert ToLower("") == "";
    forall i | 0 <= i < |solutions|
      ensures Keep(All, "", solutions[i])
    {
      ContainsEmpty(ToLower(solutions[i].name));
    }
    FilterAll(solutions, (s: Summary) => Keep(All, "", s));
  }

  /** "Mine" and "templates" split the search matches between them. */
  lemma MineAndTemplatesPartition(solutions: seq<Summary>, search: string)
    ensures |FilterSolutions(solutions, search, Mine)| + |FilterSolutions(solutions, search, Templates)|
         == |FilterSolutions(solutions, search, All)|
    ensures forall s :: s in FilterSolutions(solutions, search, All) <==>
      s in FilterSolutions(solutions, search, Mine) || s in FilterSolutions(solutions, search, Templates)
  {
    FilterSplit(solutions, (s: Summary) => Keep(All, search, s),
                (s: Summary) => Keep(Mine, search, s), (s: Summary) => Keep(Templates, search, s));
  }

  /** Some type of the list belongs to category `c`. */
  predicate HasCategory(types: seq<string>, c: Category) {
    exists k :: 0 <= k < |types| && CategoryOf(types[k]) == Some(c)
  }

  /** No element occurs twice. */
  predicate Distinct<T(==)>(s: seq<T>) {
    forall i, j :: 0 <= i < j < |s| ==> s[i] != s[j]
  }

  /**
   `getUniqueCategories`: the categories of the types, each once, in the
   order a `Set` keeps them (first insertion); types with no known prefix
   are skipped.
   */
  function UniqueCategories(types: seq<string>): (r: seq<Category>)
    ensures Distinct(r)
    ensures forall c :: c in r <==> HasCategory(types, c)
    decreases |types|
  {
    if |types| == 0 then []
    else
      var init := types[..|types| - 1];
      var acc := UniqueCategories(init);
      var last := types[|types| - 1];
      HasCategoryLast(types);
      match CategoryOf(last)
      case None => acc
      case Some(c) => if c in acc then acc else acc + [c]
  }

  /** A category occurs in a list of types exactly when it occurs before the last one, or is the last one's. */
  lemma HasCategoryLast(types: seq<string>)
    requires |types| > 0
    ensures forall c :: HasCategory(types, c) <==>
      HasCategory(types[..|types| - 1], c) || CategoryOf(types[|types| - 1]) == Some(c)
  {
    var n := |types| - 1;
    var init := types[..n];
    forall c
      ensures HasCategory(types, c) <==> HasCategory(init, c) || CategoryOf(types[n]) == Some(c)
    {
      if HasCategory(types, c) {
        var k :| 0 <= k < |types| && CategoryOf(types[k]) == Some(c);
        if k < n {
          assert init[k] == types[k];
        }
      }
      if HasCategory(init, c) {
        var k :| 0 <= k < |init| && CategoryOf(init[k]) == Some(c);
        assert types[k] == init[k];
      }
    }
  }

  /** A list of distinct categories has at most as many entries as the set they come from. */
  lemma {:induction false} DistinctWithin(r: seq<Category>, within: set<Category>)
    requires Distinct(r)
    requires forall i :: 0 <= i < |r| ==> r[i] in within
    ensures |r| <= |within|
    decreases |r|
  {
    if |r| > 0 {
      DistinctWithin(r[1..], within - {r[0]});
    }
  }

  /** There are only four categories to show. */
  lemma UniqueCategoriesBound(types: seq<string>)
    ensures |UniqueCategories(types)| <= 4
  {
    var r := UniqueCategories(types);
    var all := {Laser, Peeling, Cabine, Domicile};
    forall i | 0 <= i < |r|
      ensures r[i] in all
    {
      assert r[i].Laser? || r[i].Peeling? || r[i].Cabine? || r[i].Domicile?;
    }
    DistinctWithin(r, all);
  }

  /**
   The entries of `r` are in order of first appearance in `types`: before any
   type of a later entry's category there is a type of the earlier entry's.
   */
  predicate InFirstAppearanceOrder(types: seq<string>, r: seq<Category>) {
    forall i, j, k :: (0 <= i < j < |r| && 0 <= k < |types| && CategoryOf(types[k]) == Some(r[j])
      ==> exists m :: 0 <= m < k && CategoryOf(types[m]) == Some(r[i]))
  }

  lemma {:induction false} UniqueCategoriesOrder(types: seq<string>)
    ensures InFirstAppearanceOrder(types, UniqueCategories(types))
    decreases |types|
  {
    if |types| > 0 {
      var n := |types| - 1;
      var init := types[..n];
      var acc := UniqueCategories(init);
      var r := UniqueCategories(types);
      UniqueCategoriesOrder(init);
      assert InFirstAppearanceOrder(init, acc);
      assert forall k :: 0 <= k < n ==> init[k] == types[k];
      assert acc == r[..|acc|];
      forall i, j, k | 0 <= i < j < |r| && 0 <= k < |types| && CategoryOf(types[k]) == Some(r[j])
        ensures exists m :: 0 <= m < k && CategoryOf(types[m]) == Some(r[i])
      {
        assert r[i] in acc;
        assert HasCategory(init, r[i]);
        var m :| 0 <= m < n && CategoryOf(init[m]) == Some(r[i]);
        if k < n {
          assert HasCategory(init, r[j]) by {
            assert CategoryOf(init[k]) == Some(r[j]);
          }
          assert j < |acc|;
          assert acc[i] == r[i] && acc[j] == r[j];
          assert CategoryOf(init[k]) == Some(acc[j]);
          var m2 :| 0 <= m2 < k && CategoryOf(init[m2]) == Some(acc[i]);
          var t := init[m2];
          assert t == types[m2];
          assert CategoryOf(t) == Some(r[i]);
        } else {
          assert 0 <= m < k && CategoryOf(types[m]) == Some(r[i]);
        }
      }
    }
  }

  /** How the favourite request ended: it threw, or it answered with some status. */
  datatype FetchOutcome = Threw | Responded(status: int)

  /**
   `toggleFavorite`: unless the request threw, every summary with the id gets
   the negation of the state the button showed; the status is not looked at.
   */
  function ToggleFavorite(solutions: seq<Summary>, id: string, currentState: bool, outcome: FetchOutcome): (r: seq<Summary>)
    ensures |r| == |solutions|
    ensures outcome.Threw? ==> r == solutions
    ensures forall i :: 0 <= i < |solutions| && solutions[i].id != id ==> r[i] == solutions[i]
    ensures outcome.Responded? ==> forall i :: 0 <= i < |solutions| && solutions[i].id == id ==>
      r[i] == solutions[i].(isFavorite := !currentState)
  {
    if outcome.Threw? then solutions
    else seq(|solutions|, i requires 0 <= i < |solutions| =>
           (if solutions[i].id == id then solutions[i].(isFavorite := !currentState) else solutions[i]))
  }

  /** An error status updates the list just as a success does. */
  lemma ToggleIgnoresStatus(solutions: seq<Summary>, id: string, currentState: bool, a: int, b: int)
    ensures ToggleFavorite(solutions, id, currentState, Responded(a)) == ToggleFavorite(solutions, id, currentState, Responded(b))
  {
  }

  /** Clicking the star twice, each time with the state it shows, restores the list. */
  lemma ToggleTwice(solutions: seq<Summary>, id: string, state: bool, a: int, b: int)
    requires forall i :: 0 <= i < |solutions| && solutions[i].id == id ==> solutions[i].isFavorite == state
    ensures ToggleFavorite(ToggleFavorite(solutions, id, state, Responded(a)), id, !state, Responded(b)) == solutions
  {
  }
}
