/**
 The manager dashboard's team ranking: members sorted by experience points,
 highest first, with a medal colour for the first three rows.
 */
module Ranking {
  import opened SortBy

  /** A team member as the dashboard lists them. */
  datatype Member = Member(id: nat, name: string, progress: int, xp: int, streak: nat)

  /** The dashboard's team table. */
  const Equipe: seq<Member> := [
    Member(1, "Marie", 65, 1250, 7),
    Member(2, "Sophie", 45, 890, 3),
    Member(3, "Julie", 80, 1800, 12),
    Member(4, "Emma", 30, 450, 1)
  ]

  /** The sort key of the comparator `(a, b) => b.xp - a.xp`: ascending negated points. */
  function NegXp(m: Member): int {
    -m.xp
  }

  /** `EQUIPE.sort((a, b) => b.xp - a.xp)`: the stable sort by descending points. */
  function Rank(team: seq<Member>): (r: seq<Member>)
    ensures |r| == |team|
    ensures forall i, j :: 0 <= i < j < |r| ==> r[i].xp >= r[j].xp
  {
    var r := Sort(team, NegXp);
    assert forall i, j :: 0 <= i < j < |r| ==> NegXp(r[i]) <= NegXp(r[j]);
    r
  }

  /** The ranking lists every member exactly once. */
  lemma RankIsPermutation(team: seq<Member>)
    ensures multiset(Rank(team)) == multiset(team)
  {
    SortIsPermutation(team, NegXp);
  }

  /** Members with the same points stay in table order. */
  lemma RankIsStable(team: seq<Member>, xp: int)
    ensures WithKey(Rank(team), NegXp, -xp) == WithKey(team, NegXp, -xp)
  {
    SortIsStable(team, NegXp, -xp);
  }

  /**
   The sort works in place on the page's constant table, so every render sorts
   the previous result again: that changes nothing.
   */
  lemma RankIdempotent(team: seq<Member>)
    ensures Rank(Rank(team)) == Rank(team)
  {
    SortOfSorted(Rank(team), NegXp);
  }

  /** With the page's table the order is Julie, Marie, Sophie, Emma. */
  lemma PageRanking()
    ensures Rank(Equipe) == [Equipe[2], Equipe[0], Equipe[1], Equipe[3]]
  {
    var e := Equipe;
    assert e == [e[0], e[1], e[2], e[3]];
    SortFour(e[0], e[1], e[2], e[3]);
    assert Rank(e) == Sort(e, NegXp);
  }

  /** Four members whose points are ordered third, first, second, fourth. */
  lemma SortFour(a: Member, b: Member, c: Member, d: Member)
    requires c.xp > a.xp > b.xp > d.xp
    ensures Sort([a, b, c, d], NegXp) == [c, a, b, d]
  {
    SortThree(b, c, d);
    SortCons(a, [b, c, d]);
    Cons3(a, [b, c, d]);
    var inserted := Insert(a, [c, b, d], NegXp);
    InsertPast(a, [c, b, d]);
    Tail3(c, [b, d]);
    InsertFront(a, [b, d]);
    assert inserted == [c] + ([a] + [b, d]);
    Cons2(a, [b, d]);
    Cons3(c, [a, b, d]);
  }

  lemma SortThree(b: Member, c: Member, d: Member)
    requires c.xp > b.xp > d.xp
    ensures Sort([b, c, d], NegXp) == [c, b, d]
  {
    SortTwo(c, d);
    SortCons(b, [c, d]);
    InsertPast(b, [c, d]);
    InsertFront(b, [d]);
    Cons2(b, [c, d]);
    Cons2(c, [b, d]);
    Tail2(c, [d]);
  }

  lemma SortTwo(c: Member, d: Member)
    requires c.xp > d.xp
    ensures Sort([c, d], NegXp) == [c, d]
  {
    SortCons(d, []);
    InsertFront(d, []);
    assert [d] + [] == [d];
    SortCons(c, [d]);
    InsertFront(c, [d]);
    assert [c] + [d] == [c, d];
  }

  lemma Cons3(x: Member, s: seq<Member>)
    requires |s| == 3
    ensures [x] + s == [x, s[0], s[1], s[2]]
  {
  }

  lemma Cons2(x: Member, s: seq<Member>)
    requires |s| == 2
    ensures [x] + s == [x, s[0], s[1]]
  {
  }

  lemma Tail3(x: Member, s: seq<Member>)
    requires |s| == 2
    ensures [x, s[0], s[1]][1..] == s
  {
  }

  lemma Tail2(x: Member, s: seq<Member>)
    requires |s| == 1
    ensures [x, s[0]][1..] == s
  {
  }

  lemma SortCons(x: Member, s: seq<Member>)
    ensures Sort([x] + s, NegXp) == Insert(x, Sort(s, NegXp), NegXp)
  {
    assert ([x] + s)[1..] == s;
  }

  lemma InsertFront(x: Member, s: seq<Member>)
    requires |s| == 0 || x.xp >= s[0].xp
    ensures Insert(x, s, NegXp) == [x] + s
  {
  }

  lemma InsertPast(x: Member, s: seq<Member>)
    requires |s| > 0 && x.xp < s[0].xp
    ensures Insert(x, s, NegXp) == [s[0]] + Insert(x, s[1..], NegXp)
  {
  }

  /** The medal colour of a row. */
  datatype Medal = Gold | Silver | Bronze | Plain

  /** Rows 1 to 3 get gold, silver and bronze; the rest are plain. */
  function MedalAt(index: nat): (r: Medal)
    ensures r == Gold <==> index == 0
    ensures r == Silver <==> index == 1
    ensures r == Bronze <==> index == 2
    ensures r == Plain <==> index >= 3
  {
    if index == 0 then Gold
    else if index == 1 then Silver
    else if index == 2 then Bronze
    else Plain
  }

  /** One row of the ranking card. */
  datatype Row = Row(rank: nat, member: Member, medal: Medal, bottomBorder: bool)

  /** The rows: the rank shown is the position plus one; every row but the last has a bottom border. */
  function Rows(team: seq<Member>): (r: seq<Row>)
    ensures |r| == |team|
    ensures forall i :: 0 <= i < |r| ==> r[i].rank == i + 1 && r[i].member == Rank(team)[i]
    ensures forall i :: 0 <= i < |r| ==> (r[i].bottomBorder <==> i != |r| - 1)
    ensures forall i :: 0 <= i < |r| ==> r[i].medal == MedalAt(i)
  {
    var ranked := Rank(team);
    seq(|ranked|, i requires 0 <= i < |ranked| => Row(i + 1, ranked[i], MedalAt(i), i < |team| - 1))
  }

  /** Ranks shown are 1 to n, a higher rank never has more points, and the three medals go to the first three rows. */
  lemma RowsOrdered(team: seq<Member>)
    ensures forall i, j :: 0 <= i < j < |Rows(team)| ==> Rows(team)[i].rank < Rows(team)[j].rank && Rows(team)[i].member.xp >= Rows(team)[j].member.xp
    ensures forall i :: 0 <= i < |Rows(team)| ==> (Rows(team)[i].medal == Plain <==> Rows(team)[i].rank > 3)
  {
  }
}
