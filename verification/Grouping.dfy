/** pkg/modbus/collector.go, groupPointsByRegisterType and sortPointsByAddress: greedy grouping of
    points into contiguous runs per register type. */
module Grouping {
  import opened Words
  import opened Points

  datatype BatchGroup = BatchGroup(
    registerType: RegisterType,
    startAddress: uint16,
    points: seq<Point>,
    totalLength: uint16)

  /** The group's last point ends, in uint16 arithmetic, at the new point's address. */
  predicate Extends(g: BatchGroup, p: Point)
  {
    g.registerType == p.registerType && g.points != [] && Wrap16(End(g.points[|g.points| - 1])) == p.address
  }

  /** The first group the point extends, or the number of groups. */
  function Target(groups: seq<BatchGroup>, p: Point): (t: nat)
    ensures t <= |groups|
    ensures t < |groups| ==> Extends(groups[t], p)
    ensures forall i :: 0 <= i < t ==> !Extends(groups[i], p)
  {
    if groups == [] || Extends(groups[0], p) then 0 else 1 + Target(groups[1..], p)
  }

  function Grown(g: BatchGroup, p: Point): BatchGroup
  {
    g.(points := g.points + [p], totalLength := Wrap16(g.totalLength + p.length))
  }

  function Place(groups: seq<BatchGroup>, p: Point): seq<BatchGroup>
  {
    var t := Target(groups, p);
    if t < |groups| then groups[t := Grown(groups[t], p)]
    else groups + [BatchGroup(p.registerType, p.address, [p], p.length)]
  }

  /** The groups before the final sort. */
  function Greedy(points: seq<Point>): seq<BatchGroup>
  {
    if points == [] then [] else Place(Greedy(points[..|points| - 1]), points[|points| - 1])
  }

  // ---- What a group is supposed to be ------------------------------------------------------------

  /** A point that has registers, all of them inside its table. */
  predicate Sound(p: Point) { p.length > 0 && End(p) <= 0x1_0000 }

  ghost predicate AllSound(points: seq<Point>) { forall i :: 0 <= i < |points| ==> Sound(points[i]) }

  ghost predicate Distinct(points: seq<Point>)
  {
    forall i, j :: 0 <= i < j < |points| ==> !SameRegister(points[i], points[j])
  }

  function SumLengths(points: seq<Point>): nat
  {
    if points == [] then 0 else points[0].length as nat + SumLengths(points[1..])
  }

  /** Each point starts where the previous one ends, in true arithmetic, and the types agree. */
  ghost predicate Chain(ps: seq<Point>)
  {
    && ps != []
    && (forall i :: 0 <= i < |ps| ==> ps[i].registerType == ps[0].registerType)
    && (forall i :: 0 < i < |ps| ==> ps[i].address == End(ps[i - 1]))
  }

  /** What every group is, whatever the configuration: in uint16 arithmetic. */
  ghost predicate Shaped(g: BatchGroup)
  {
    && g.points != []
    && (forall i :: 0 <= i < |g.points| ==> g.points[i].registerType == g.registerType)
    && (forall i :: 0 < i < |g.points| ==> g.points[i].address == Wrap16(End(g.points[i - 1])))
    && g.startAddress == g.points[0].address
    && g.totalLength == Wrap16(SumLengths(g.points))
  }

  /** What it is meant to be: a contiguous run with its true start and total. */
  ghost predicate GroupOk(g: BatchGroup)
  {
    && Chain(g.points)
    && g.registerType == g.points[0].registerType
    && g.startAddress == g.points[0].address
    && g.totalLength == SumLengths(g.points)
  }

  ghost predicate GroupsOk(groups: seq<BatchGroup>)
  {
    forall i :: 0 <= i < |groups| ==> GroupOk(groups[i]) && AllSound(groups[i].points)
  }

  function Concat<T>(ss: seq<seq<T>>): seq<T>
  {
    if ss == [] then [] else ss[0] + Concat(ss[1..])
  }

  function PointLists(groups: seq<BatchGroup>): (ss: seq<seq<Point>>)
    ensures |ss| == |groups| && forall i :: 0 <= i < |ss| ==> ss[i] == groups[i].points
  {
    seq(|groups|, i requires 0 <= i < |groups| => groups[i].points)
  }

  function AllPoints(groups: seq<BatchGroup>): seq<Point> { Concat(PointLists(groups)) }

  // ---- Sequence lemmas ---------------------------------------------------------------------------

  lemma {:induction false} SumAppend(ps: seq<Point>, p: Point)
    ensures SumLengths(ps + [p]) == SumLengths(ps) + p.length
  {
    if ps == [] {
      assert ps + [p] == [p];
      assert SumLengths([p]) == p.length as nat + SumLengths([]);
    } else {
      SumAppend(ps[1..], p);
      assert (ps + [p])[1..] == ps[1..] + [p];
    }
  }

  lemma {:induction false} ConcatUpdate<T>(ss: seq<seq<T>>, t: nat, x: T)
    requires t < |ss|
    ensures multiset(Concat(ss[t := ss[t] + [x]])) == multiset(Concat(ss)) + multiset{x}
  {
    if t == 0 {
      assert ss[0 := ss[0] + [x]][1..] == ss[1..];
    } else {
      ConcatUpdate(ss[1..], t - 1, x);
      assert ss[t := ss[t] + [x]][1..] == ss[1..][t - 1 := ss[t] + [x]];
    }
  }

  lemma {:induction false} ConcatAppend<T>(ss: seq<seq<T>>, s: seq<T>)
    ensures Concat(ss + [s]) == Concat(ss) + s
  {
    if ss == [] {
      assert ss + [s] == [s];
      assert Concat([s]) == s + Concat([]);
    } else {
      ConcatAppend(ss[1..], s);
      assert (ss + [s])[1..] == ss[1..] + [s];
    }
  }

  lemma {:induction false} ConcatMember<T>(ss: seq<seq<T>>, x: T) returns (i: nat, k: nat)
    requires x in Concat(ss)
    ensures i < |ss| && k < |ss[i]| && ss[i][k] == x
  {
    if x in ss[0] {
      i := 0;
      k :| 0 <= k < |ss[0]| && ss[0][k] == x;
    } else {
      i, k := ConcatMember(ss[1..], x);
      i := i + 1;
    }
  }

  lemma {:induction false} MemberOfConcat<T>(ss: seq<seq<T>>, i: nat, k: nat)
    requires i < |ss| && k < |ss[i]|
    ensures ss[i][k] in Concat(ss)
  {
    if i > 0 {
      MemberOfConcat(ss[1..], i - 1, k);
    }
  }

  lemma {:induction false} CountAtMostOnce<T>(s: seq<T>, x: T)
    requires forall i, j :: 0 <= i < j < |s| ==> s[i] != s[j]
    ensures multiset(s)[x] <= 1
  {
    if s != [] {
      var front, last := s[..|s| - 1], s[|s| - 1];
      assert s == front + [last];
      CountAtMostOnce(front, x);
      if x == last {
        forall i | 0 <= i < |front| ensures front[i] != x {
          assert front[i] == s[i];
        }
      }
    }
  }

  /** A permutation of a sequence without repetition has none. */
  lemma Unrepeated<T>(s: seq<T>, s': seq<T>)
    requires (forall i, j :: 0 <= i < j < |s| ==> s[i] != s[j]) && multiset(s) == multiset(s')
    ensures forall i, j :: 0 <= i < j < |s'| ==> s'[i] != s'[j]
  {
    forall i, j | 0 <= i < j < |s'| ensures s'[i] != s'[j] {
      CountAtMostOnce(s, s'[i]);
      assert s' == s'[..j] + s'[j..];
      assert s'[..j][i] == s'[i] && s'[j..][0] == s'[j];
      assert s'[i] in multiset(s'[..j]) && s'[j] in multiset(s'[j..]);
    }
  }

  // ---- The grouping invariant --------------------------------------------------------------------

  /** A chain of sound points spans exactly the sum of its lengths. */
  lemma {:induction false} ChainSpan(ps: seq<Point>)
    requires Chain(ps)
    ensures ps[0].address + SumLengths(ps) == End(ps[|ps| - 1])
  {
    if |ps| == 1 {
      assert SumLengths(ps) == ps[0].length as nat + SumLengths(ps[1..]);
    } else {
      ChainSpan(ps[1..]);
    }
  }

  lemma {:induction false} ChainAscends(ps: seq<Point>, i: nat, j: nat)
    requires Chain(ps) && AllSound(ps) && i < j < |ps|
    ensures End(ps[i]) <= ps[j].address && ps[i].address < ps[j].address
  {
    if i + 1 < j {
      ChainAscends(ps, i, j - 1);
    }
  }

  lemma PlaceKeepsPoints(groups: seq<BatchGroup>, p: Point)
    ensures multiset(AllPoints(Place(groups, p))) == multiset(AllPoints(groups)) + multiset{p}
  {
    var t := Target(groups, p);
    if t < |groups| {
      ConcatUpdate(PointLists(groups), t, p);
      assert PointLists(Place(groups, p)) == PointLists(groups)[t := groups[t].points + [p]];
    } else {
      ConcatAppend(PointLists(groups), [p]);
      assert PointLists(Place(groups, p)) == PointLists(groups) + [[p]];
    }
  }

  /** Grouping loses and invents no point, whatever the configuration. */
  lemma {:induction false} GreedyPartitions(points: seq<Point>)
    ensures multiset(AllPoints(Greedy(points))) == multiset(points)
  {
    if points == [] {
      assert PointLists([]) == [];
    } else {
      var front, p := points[..|points| - 1], points[|points| - 1];
      calc {
        multiset(AllPoints(Greedy(points)));
        multiset(AllPoints(Place(Greedy(front), p)));
        { PlaceKeepsPoints(Greedy(front), p); }
        multiset(AllPoints(Greedy(front))) + multiset{p};
        { GreedyPartitions(front); }
        multiset(front) + multiset{p};
        multiset(front + [p]);
        { assert points == front + [p]; }
        multiset(points);
      }
    }
  }

  lemma GrownShaped(g: BatchGroup, p: Point)
    requires Shaped(g) && Extends(g, p)
    ensures Shaped(Grown(g, p))
  {
    hide SumLengths, Wrap16;
    SumAppend(g.points, p);
    WrapAgain(SumLengths(g.points), p.length);
  }

  /** Every group of every configuration has one type, starts where its first point does, and in
      uint16 arithmetic is contiguous and as long as its points. */
  lemma {:induction false} GreedyShaped(points: seq<Point>)
    ensures forall i :: 0 <= i < |Greedy(points)| ==> Shaped(Greedy(points)[i])
  {
    if points != [] {
      var front, p := points[..|points| - 1], points[|points| - 1];
      GreedyShaped(front);
      var groups := Greedy(front);
      var t := Target(groups, p);
      if t < |groups| {
        GrownShaped(groups[t], p);
      } else {
        assert SumLengths([p]) == p.length as nat + SumLengths([]);
      }
    }
  }

  /** The span of a sound group: not empty, and inside the table. */
  lemma GroupSpan(g: BatchGroup)
    requires GroupOk(g) && AllSound(g.points)
    ensures g.totalLength > 0 && g.startAddress + g.totalLength == End(g.points[|g.points| - 1]) <= 0x1_0000
  {
    ChainSpan(g.points);
    assert Sound(g.points[|g.points| - 1]);
    assert SumLengths(g.points) == g.points[0].length as nat + SumLengths(g.points[1..]);
    assert Sound(g.points[0]);
  }

  // ---- When groups are contiguous runs -----------------------------------------------------------

  /** Some point ends at the end of the address space and a later one of its type starts at 0: the
      sum of the first wraps, and the second is taken for its successor. */
  ghost predicate WrapsRound(points: seq<Point>)
  {
    exists i, j :: 0 <= i < j < |points| && points[i].registerType == points[j].registerType &&
      End(points[i]) == 0x1_0000 && points[j].address == 0
  }

  ghost predicate Contiguous(groups: seq<BatchGroup>)
  {
    forall i :: 0 <= i < |groups| ==> Chain(groups[i].points)
  }

  /** A group all of whose table's registers are its points': TotalLength, a uint16, is then 0. */
  ghost predicate Full(g: BatchGroup)
  {
    g.points != [] && g.points[0].address == 0 && End(g.points[|g.points| - 1]) == 0x1_0000
  }

  ghost predicate NoneFull(groups: seq<BatchGroup>)
  {
    forall i :: 0 <= i < |groups| ==> !Full(groups[i])
  }

  lemma SoundMembers(points: seq<Point>, g: nat)
    requires AllSound(points) && g < |Greedy(points)|
    ensures AllSound(Greedy(points)[g].points)
  {
    hide Greedy, Concat;
    var groups := Greedy(points);
    forall m | 0 <= m < |groups[g].points| ensures Sound(groups[g].points[m]) {
      MemberOfConcat(PointLists(groups), g, m);
      MemberOfGreedy(points, groups[g].points[m]);
    }
  }

  /** Where a sound group is not contiguous, it wraps round. */
  lemma BrokenAt(g: BatchGroup) returns (k: nat)
    requires Shaped(g) && AllSound(g.points) && !Chain(g.points)
    ensures 0 < k < |g.points| && End(g.points[k - 1]) == 0x1_0000 && g.points[k].address == 0
  {
    k :| 0 < k < |g.points| && g.points[k].address != End(g.points[k - 1]);
    assert Sound(g.points[k - 1]);
  }

  /** A placed point leaves a broken group broken. */
  lemma StaysBroken(groups: seq<BatchGroup>, p: Point)
    requires !Contiguous(groups) && forall i :: 0 <= i < |groups| ==> groups[i].points != []
    ensures !Contiguous(Place(groups, p))
  {
    var i :| 0 <= i < |groups| && !Chain(groups[i].points);
    var ps := groups[i].points;
    assert Chain(ps + [p]) ==> Chain(ps) by {
      assert forall k :: 0 <= k < |ps| ==> (ps + [p])[k] == ps[k];
    }
    assert Place(groups, p)[i].points in {ps, ps + [p]};
  }

  lemma {:induction false} WrapBreaks(points: seq<Point>)
    requires AllSound(points) && WrapsRound(points)
    ensures !Contiguous(Greedy(points))
  {
    hide Concat, Target, Shaped;
    var front, p := points[..|points| - 1], points[|points| - 1];
    GreedyNonEmpty(front);
    if WrapsRound(front) {
      WrapBreaks(front);
      StaysBroken(Greedy(front), p);
    } else {
      var i, j :| 0 <= i < j < |points| && points[i].registerType == points[j].registerType &&
        End(points[i]) == 0x1_0000 && points[j].address == 0;
      assert forall k :: 0 <= k < |front| ==> front[k] == points[k];
      assert j == |front|;
      if Contiguous(Greedy(front)) {
        JoinsRound(front, p, front[i]);
      } else {
        StaysBroken(Greedy(front), p);
      }
    }
  }

  lemma InnerEnd(ps: seq<Point>, k: nat)
    requires Chain(ps) && k < |ps|
    ensures k == |ps| - 1 || End(ps[k]) == ps[k + 1].address
  {
    assert k + 1 < |ps| ==> ps[k + 1].address == End(ps[k + 1 - 1]);
  }

  /** A point at 0 joins the group of a point that ends at the end of the address space. */
  lemma JoinsRound(front: seq<Point>, p: Point, q: Point)
    requires AllSound(front) && Contiguous(Greedy(front)) && q in front
    requires q.registerType == p.registerType && End(q) == 0x1_0000 && p.address == 0
    ensures !Contiguous(Place(Greedy(front), p))
  {
    hide Concat, Greedy;
    var groups := Greedy(front);
    GreedyShaped(front);
    MemberOfGreedy(front, q);
    var g, k := ConcatMember(PointLists(groups), q);
    assert Shaped(groups[g]) && Chain(groups[g].points);
    InnerEnd(groups[g].points, k);
    assert k == |groups[g].points| - 1;
    assert Extends(groups[g], p);
    var t := Target(groups, p);
    SoundMembers(front, t);
    var ps := groups[t].points;
    assert Sound(ps[|ps| - 1]);
    assert (ps + [p])[|ps|] == p && (ps + [p])[|ps| - 1] == ps[|ps| - 1];
    assert Place(groups, p)[t].points == ps + [p];
  }

  /** On sound points every group is a contiguous run exactly when nothing wraps round. */
  lemma ContiguousExactly(points: seq<Point>)
    requires AllSound(points)
    ensures Contiguous(Greedy(points)) <==> !WrapsRound(points)
  {
    hide Greedy, WrapsRound;
    if WrapsRound(points) {
      WrapBreaks(points);
    } else if !Contiguous(Greedy(points)) {
      var g :| 0 <= g < |Greedy(points)| && !Chain(Greedy(points)[g].points);
      BreakWraps(points, g);
    }
  }

  lemma BreakWraps(points: seq<Point>, g: nat)
    requires AllSound(points) && g < |Greedy(points)| && !Chain(Greedy(points)[g].points)
    ensures WrapsRound(points)
  {
    hide Greedy, SumLengths;
    var group := Greedy(points)[g];
    GreedyShaped(points);
    SoundMembers(points, g);
    var k := BrokenAt(group);
    GreedyInOrder(points);
    assert Before(points, group.points[k - 1], group.points[k]);
  }

  /** The total of a contiguous group is exact unless the group fills its table. */
  lemma TotalExactly(g: BatchGroup)
    requires Shaped(g) && Chain(g.points) && AllSound(g.points)
    ensures GroupOk(g) <==> !Full(g)
  {
    ChainSpan(g.points);
    assert Sound(g.points[|g.points| - 1]);
  }

  /** On sound points every group is right, total included, exactly when nothing wraps round and no
      group fills its table. */
  lemma GroupsOkExactly(points: seq<Point>)
    requires AllSound(points)
    ensures GroupsOk(Greedy(points)) <==> !WrapsRound(points) && NoneFull(Greedy(points))
  {
    hide Greedy, WrapsRound, Full, SumLengths, Shaped;
    ContiguousExactly(points);
    GreedyShaped(points);
    forall i | 0 <= i < |Greedy(points)|
      ensures AllSound(Greedy(points)[i].points)
      ensures Chain(Greedy(points)[i].points) ==> (GroupOk(Greedy(points)[i]) <==> !Full(Greedy(points)[i]))
    {
      SoundMembers(points, i);
      if Chain(Greedy(points)[i].points) {
        TotalExactly(Greedy(points)[i]);
      }
    }
  }

  /** A contiguous run in input order over a whole table. */
  ghost predicate FullRun(points: seq<Point>, c: seq<Point>)
  {
    && Chain(c) && InOrder(points, c) && (forall k :: 0 <= k < |c| ==> c[k] in points)
    && c[0].address == 0 && End(c[|c| - 1]) == 0x1_0000
  }

  /** No two points of a type end at the same address. */
  ghost predicate DistinctEnds(points: seq<Point>)
  {
    forall i, j :: 0 <= i < j < |points| && points[i].registerType == points[j].registerType ==>
      End(points[i]) != End(points[j])
  }

  /** Without such a run no group is full. */
  lemma FullGroupIsRun(points: seq<Point>, g: nat)
    requires AllSound(points) && !WrapsRound(points) && g < |Greedy(points)| && Full(Greedy(points)[g])
    ensures FullRun(points, Greedy(points)[g].points)
  {
    hide Greedy, Concat, WrapsRound;
    ContiguousExactly(points);
    GreedyInOrder(points);
    var ps := Greedy(points)[g].points;
    forall k | 0 <= k < |ps| ensures ps[k] in points {
      MemberOfConcat(PointLists(Greedy(points)), g, k);
      MemberOfGreedy(points, ps[k]);
    }
  }

  lemma FirstIsOpener(points: seq<Point>, g: nat) returns (j: nat)
    requires Distinct(points) && g < |Greedy(points)|
    ensures Greedy(points)[g].points != []
    ensures j < |points| && points[j] == Greedy(points)[g].points[0] && Opener(points, j)
  {
    hide Target, Distinct;
    var front, p := points[..|points| - 1], points[|points| - 1];
    assert points == front + [p];
    DistinctFront(front, p);
    GreedyNonEmpty(points);
    GreedyNonEmpty(front);
    if g < |Greedy(front)| {
      j := FirstIsOpener(front, g);
      assert points[j] == front[j] && forall i :: 0 <= i < j ==> points[i] == front[i];
    } else {
      j := |front|;
      FindsGroup(front, p);
      OpenerIsUnpreceded(front, p);
    }
  }

  lemma DistinctFront(front: seq<Point>, p: Point)
    requires Distinct(front + [p])
    ensures Distinct(front)
  {
    forall i, j | 0 <= i < j < |front| ensures !SameRegister(front[i], front[j]) {
      assert (front + [p])[i] == front[i] && (front + [p])[j] == front[j];
    }
  }

  /** What ends where p starts, of p's type. */
  lemma SameEnd(points: seq<Point>, q: Point, r: Point)
    requires DistinctEnds(points) && q in points && r in points
    requires q.registerType == r.registerType && End(q) == End(r)
    ensures q == r
  {
    var i :| 0 <= i < |points| && points[i] == q;
    var j :| 0 <= j < |points| && points[j] == r;
  }

  /** An opener has nothing before it to continue. */
  lemma NotBeforeOpener(points: seq<Point>, q: Point, j: nat)
    requires Distinct(points) && j < |points| && Opener(points, j) && Precedes(q, points[j])
    ensures !Before(points, q, points[j])
  {
    if Before(points, q, points[j]) {
      FollowerIsNoOpener(points, q, j);
    }
  }

  /** A run in input order that ends in a group lies in it. */
  lemma {:induction false} RunInGroup(points: seq<Point>, c: seq<Point>, m: nat, g: nat, k: nat)
    requires AllSound(points) && Distinct(points) && DistinctEnds(points)
    requires Chain(c) && InOrder(points, c) && m < |c| && (forall n :: 0 <= n < |c| ==> c[n] in points)
    requires g < |Greedy(points)| && Chain(Greedy(points)[g].points)
    requires k < |Greedy(points)[g].points| && Greedy(points)[g].points[k] == c[m]
    ensures m <= k && Greedy(points)[g].points[k - m] == c[0]
  {
    hide Greedy, Distinct, DistinctEnds, Concat, Opener, Before;
    if m > 0 {
      var ps := Greedy(points)[g].points;
      assert c[m].address == End(c[m - 1]) && c[m].registerType == c[m - 1].registerType;
      var j := FirstIsOpener(points, g);
      assert k > 0 by {
        if k == 0 {
          NotBeforeOpener(points, c[m - 1], j);
        }
      }
      assert ps[k].address == End(ps[k - 1]) && ps[k].registerType == ps[k - 1].registerType;
      MemberOfConcat(PointLists(Greedy(points)), g, k - 1);
      MemberOfGreedy(points, ps[k - 1]);
      SameEnd(points, ps[k - 1], c[m - 1]);
      RunInGroup(points, c, m - 1, g, k - 1);
    }
  }

  /** A full run fills a group, where no two points of a type end at the same address. */
  lemma FullRunFills(points: seq<Point>, c: seq<Point>)
    requires AllSound(points) && Distinct(points) && DistinctEnds(points) && !WrapsRound(points) && FullRun(points, c)
    ensures !NoneFull(Greedy(points))
  {
    hide Greedy, Distinct, DistinctEnds, Concat, InOrder, WrapsRound;
    var last := c[|c| - 1];
    MemberOfGreedy(points, last);
    var g, k := ConcatMember(PointLists(Greedy(points)), last);
    var ps := Greedy(points)[g].points;
    ContiguousExactly(points);
    assert Chain(ps);
    RunInGroup(points, c, |c| - 1, g, k);
    InnerEnd(ps, k);
    var first := k - (|c| - 1);
    SoundMembers(points, g);
    if first > 0 {
      ChainAscends(ps, 0, first);
    }
    assert Full(Greedy(points)[g]);
  }

  /** So on such configurations the totals are exact precisely when no run in input order covers a
      whole table. */
  lemma NoneFullExactly(points: seq<Point>)
    requires AllSound(points) && Distinct(points) && DistinctEnds(points) && !WrapsRound(points)
    ensures NoneFull(Greedy(points)) <==> !exists c :: FullRun(points, c)
  {
    hide Greedy, FullRun, WrapsRound, Full;
    if c :| FullRun(points, c) {
      FullRunFills(points, c);
    } else if !NoneFull(Greedy(points)) {
      var g :| 0 <= g < |Greedy(points)| && Full(Greedy(points)[g]);
      FullGroupIsRun(points, g);
    }
  }

  // ---- What validation leaves open ---------------------------------------------------------------

  /** A point may be configured before any other exactly when its own range stops short of the end of
      the address space: otherwise its end wraps, and some point that validation admits after it is
      taken for its successor. */
  lemma BoundIsExact(p: Point)
    requires p.length > 0 && p.name != "" && !ScaleIsZero(p.scale)
    ensures End(p) <= 0xFFFF <==> forall q: Point | Acceptable([p, q]) && Sound(q) :: Contiguous(Greedy([p, q]))
  {
    hide Concat, DecimalText, Greedy;
    forall q: Point | End(p) <= 0xFFFF && Sound(q) ensures Contiguous(Greedy([p, q])) {
      ContiguousExactly([p, q]);
    }
    if End(p) > 0xFFFF {
      var q := WrapVictim(p);
    }
  }

  /** A sound point that the source would take for the successor of one that reaches the end. */
  lemma WrapVictim(p: Point) returns (q: Point)
    requires p.length > 0 && p.name != "" && !ScaleIsZero(p.scale) && End(p) > 0xFFFF
    ensures Acceptable([p, q]) && Sound(q)
    ensures |Greedy([p, q])| == 1 && !Contiguous(Greedy([p, q]))
  {
    hide Greedy, SumLengths;
    q := p.(name := p.name + "'", address := Wrap16(End(p)), length := 1);
    GreedyOfTwo(p, q);
    assert Greedy([p, q])[0].points == [p, q];
    assert [p, q][0] == p && [p, q][1] == q;
    assert q.address != End(p);
  }

  lemma GreedyOfTwo(p: Point, q: Point)
    ensures Greedy([p, q]) == Place([BatchGroup(p.registerType, p.address, [p], p.length)], q)
  {
    assert [p, q][..1] == [p] && [p][..0] == [];
    assert Greedy([p]) == Place(Greedy([]), p);
  }

  /** Points that share an end can hide a full run: r ends where p does and takes p's successor. */
  lemma SharedEndHidesRun(r: Point, p: Point, s: Point)
    requires r.address == 1 && r.length == 1 && p.address == 0 && p.length == 2 && s.address == 2 && s.length == 0xFFFE
    requires r.registerType == p.registerType == s.registerType
    ensures AllSound([r, p, s]) && Distinct([r, p, s])
    ensures FullRun([r, p, s], [p, s]) && NoneFull(Greedy([r, p, s]))
  {
    hide Greedy;
    var points := [r, p, s];
    assert points[0] == r && points[1] == p && points[2] == s;
    assert Before(points, p, s);
    GreedyOfTwo(r, p);
    assert points[..2] == [r, p];
    GreedyStep([r, p], s);
    assert points == [r, p] + [s];
  }

  lemma GreedyStep(front: seq<Point>, p: Point)
    ensures Greedy(front + [p]) == Place(Greedy(front), p)
  {
    assert (front + [p])[..|front|] == front;
  }

  /** TotalLength itself can wrap to zero on a validated configuration without any misplaced point. */
  lemma TotalLengthCanWrap(p: Point, q: Point)
    requires p.address == 0 && p.length == 0xFFFF && q.address == 0xFFFF && q.length == 1
    requires p.registerType == q.registerType && p.name != "" && q.name != "" && p.name != q.name
    requires !ScaleIsZero(p.scale) && !ScaleIsZero(q.scale)
    ensures Acceptable([p, q]) && |Greedy([p, q])| == 1
    ensures Greedy([p, q])[0].totalLength == 0 && SumLengths(Greedy([p, q])[0].points) == 0x1_0000
  {
    hide Greedy, DecimalText;
    GreedyOfTwo(p, q);
    assert Greedy([p, q])[0].points == [p, q];
    assert SumLengths([p, q]) == p.length as nat + SumLengths([q]);
    assert SumLengths([q]) == q.length as nat + SumLengths([]);
  }

  // ---- The number of groups is minimal -----------------------------------------------------------

  /** No earlier point of the same type ends, in uint16 arithmetic, where point j starts. */
  ghost predicate Opener(points: seq<Point>, j: nat)
    requires j < |points|
  {
    !exists i :: 0 <= i < j && points[i].registerType == points[j].registerType &&
      Wrap16(End(points[i])) == points[j].address
  }

  ghost function Openers(points: seq<Point>): set<Point>
  {
    set j | 0 <= j < |points| && Opener(points, j) :: points[j]
  }

  lemma MemberOfGreedy(points: seq<Point>, p: Point)
    ensures p in AllPoints(Greedy(points)) <==> p in points
  {
    GreedyPartitions(points);
    assert p in multiset(AllPoints(Greedy(points))) <==> p in multiset(points);
  }

  lemma NotAmong(front: seq<Point>, p: Point, q: Point)
    requires Distinct(front + [p]) && q in front
    ensures !SameRegister(q, p)
  {
    var i :| 0 <= i < |front| && front[i] == q;
    assert (front + [p])[i] == q && (front + [p])[|front|] == p;
  }

  lemma NoneAmong(front: seq<Point>, p: Point, g: nat)
    requires Distinct(front + [p]) && g < |Greedy(front)|
    ensures forall m :: 0 <= m < |Greedy(front)[g].points| ==>
      Greedy(front)[g].points[m] in front && !SameRegister(Greedy(front)[g].points[m], p)
  {
    hide Greedy, Concat;
    var groups := Greedy(front);
    forall m | 0 <= m < |groups[g].points|
      ensures groups[g].points[m] in front && !SameRegister(groups[g].points[m], p)
    {
      MemberOfConcat(PointLists(groups), g, m);
      MemberOfGreedy(front, groups[g].points[m]);
      NotAmong(front, p, groups[g].points[m]);
    }
  }

  /** In a group, the point that ends where p starts is the last one: a successor would share p's register. */
  lemma LastOrFollowed(front: seq<Point>, p: Point, g: nat, k: nat)
    requires Distinct(front + [p])
    requires g < |Greedy(front)| && k < |Greedy(front)[g].points|
    requires var q := Greedy(front)[g].points[k]; q.registerType == p.registerType && Wrap16(End(q)) == p.address
    ensures Extends(Greedy(front)[g], p)
  {
    hide Greedy, SumLengths;
    GreedyShaped(front);
    var group := Greedy(front)[g];
    assert Shaped(group);
    assert k + 1 < |group.points| ==> SameRegister(group.points[k + 1], p);
    NoneAmong(front, p, g);
  }

  lemma TargetEndsThere(front: seq<Point>, p: Point, t: nat) returns (q: Point)
    requires t < |Greedy(front)| && Extends(Greedy(front)[t], p)
    ensures q in front && q.registerType == p.registerType && Wrap16(End(q)) == p.address
  {
    hide Greedy, Concat;
    GreedyShaped(front);
    var ps := Greedy(front)[t].points;
    assert Shaped(Greedy(front)[t]);
    q := ps[|ps| - 1];
    MemberOfConcat(PointLists(Greedy(front)), t, |ps| - 1);
    MemberOfGreedy(front, q);
  }

  /** The greedy search finds a group exactly when some earlier point of the type ends at p. */
  lemma FindsGroup(front: seq<Point>, p: Point)
    requires Distinct(front + [p])
    ensures Target(Greedy(front), p) < |Greedy(front)| <==>
      exists q :: q in front && q.registerType == p.registerType && Wrap16(End(q)) == p.address
  {
    hide Greedy, Concat, Target, SumLengths, Distinct;
    if Target(Greedy(front), p) < |Greedy(front)| {
      var q := TargetEndsThere(front, p, Target(Greedy(front), p));
    }
    forall q | q in front && q.registerType == p.registerType && Wrap16(End(q)) == p.address
      ensures Target(Greedy(front), p) < |Greedy(front)|
    {
      MemberOfGreedy(front, q);
      var g, k := ConcatMember(PointLists(Greedy(front)), q);
      LastOrFollowed(front, p, g, k);
    }
  }

  lemma OpenersAppend(front: seq<Point>, p: Point)
    requires Distinct(front + [p])
    ensures Openers(front + [p]) == Openers(front) + (if Opener(front + [p], |front|) then {p} else {})
    ensures p !in Openers(front)
  {
    var points := front + [p];
    assert points[|front|] == p;
    forall j | 0 <= j < |front| ensures points[j] == front[j] && (Opener(points, j) <==> Opener(front, j)) {
      assert forall i :: 0 <= i < j ==> points[i] == front[i];
    }
    forall q | q in front ensures q != p {
      NotAmong(front, p, q);
    }
  }

  /** A point opens a new group exactly when no earlier point of its type ends at its address. */
  lemma {:induction false} GroupCount(points: seq<Point>)
    requires Distinct(points)
    ensures |Greedy(points)| == |Openers(points)|
  {
    if points == [] {
    } else {
      var front, p := points[..|points| - 1], points[|points| - 1];
      assert points == front + [p];
      GroupCount(front);
      FindsGroup(front, p);
      OpenersAppend(front, p);
      OpenerIsUnpreceded(front, p);
    }
  }

  lemma OpenerIsUnpreceded(front: seq<Point>, p: Point)
    ensures Opener(front + [p], |front|) <==>
      !exists q :: q in front && q.registerType == p.registerType && Wrap16(End(q)) == p.address
  {
    var points := front + [p];
    assert points[|front|] == p;
    assert forall i :: 0 <= i < |front| ==> front[i] == points[i];
  }

  /** c[k] comes earlier in the input than c[k + 1]. */
  ghost predicate InOrder(points: seq<Point>, c: seq<Point>)
  {
    forall k :: 0 < k < |c| ==> Before(points, c[k - 1], c[k])
  }

  ghost predicate Before(points: seq<Point>, p: Point, q: Point)
  {
    exists i, j :: 0 <= i < j < |points| && points[i] == p && points[j] == q
  }

  /** A division of the points into contiguous runs, each in input order. */
  ghost predicate ChainPartition(points: seq<Point>, chains: seq<seq<Point>>)
  {
    && multiset(Concat(chains)) == multiset(points)
    && forall i :: 0 <= i < |chains| ==> Chain(chains[i]) && InOrder(points, chains[i])
  }

  ghost function Heads(chains: seq<seq<Point>>): set<Point>
    requires forall i :: 0 <= i < |chains| ==> chains[i] != []
  {
    set i | 0 <= i < |chains| :: chains[i][0]
  }

  lemma {:induction false} FewHeads(chains: seq<seq<Point>>)
    requires forall i :: 0 <= i < |chains| ==> chains[i] != []
    ensures |Heads(chains)| <= |chains|
  {
    if chains != [] {
      var rest := chains[1..];
      FewHeads(rest);
      assert Heads(chains) == {chains[0][0]} + Heads(rest) by {
        assert forall i :: 0 < i < |chains| ==> chains[i] == rest[i - 1];
      }
    }
  }

  lemma {:induction false} CardinalityMonotone<T>(s: set<T>, t: set<T>)
    requires s <= t
    ensures |s| <= |t|
  {
    if s != {} {
      var x :| x in s;
      CardinalityMonotone(s - {x}, t - {x});
    }
  }

  lemma FollowerIsNoOpener(points: seq<Point>, q: Point, j: nat)
    requires Distinct(points) && j < |points|
    requires Before(points, q, points[j]) && q.registerType == points[j].registerType && End(q) == points[j].address
    ensures !Opener(points, j)
  {
    var i, j' :| 0 <= i < j' < |points| && points[i] == q && points[j'] == points[j];
    assert SameRegister(points[j'], points[j]);
  }

  /** No division into contiguous runs in input order has fewer runs than there are groups. */
  lemma GreedyIsMinimal(points: seq<Point>, chains: seq<seq<Point>>)
    requires Distinct(points) && ChainPartition(points, chains)
    ensures |Greedy(points)| <= |chains|
  {
    forall j | 0 <= j < |points| ensures Opener(points, j) ==> points[j] in Heads(chains) {
      assert points[j] in multiset(points);
      assert points[j] in multiset(Concat(chains));
      var c, k := ConcatMember(chains, points[j]);
      if k > 0 {
        assert Chain(chains[c]) && InOrder(points, chains[c]);
        FollowerIsNoOpener(points, chains[c][k - 1], j);
      }
    }
    GroupCount(points);
    FewHeads(chains);
    CardinalityMonotone(Openers(points), Heads(chains));
  }

  lemma BeforeAppend(front: seq<Point>, p: Point, c: seq<Point>)
    requires InOrder(front, c)
    ensures InOrder(front + [p], c)
    ensures c != [] && c[|c| - 1] in front ==> InOrder(front + [p], c + [p])
  {
    var points := front + [p];
    forall q, r | Before(front, q, r) ensures Before(points, q, r) {
      var i, j :| 0 <= i < j < |front| && front[i] == q && front[j] == r;
      assert points[i] == q && points[j] == r;
    }
    if c != [] && c[|c| - 1] in front {
      var i :| 0 <= i < |front| && front[i] == c[|c| - 1];
      assert points[i] == c[|c| - 1] && points[|front|] == p;
      assert Before(points, c[|c| - 1], p);
    }
  }

  /** The greedy groups are themselves such a division, so the minimum is attained, exactly when
      nothing wraps round. */
  lemma GreedyIsChainPartition(points: seq<Point>)
    requires AllSound(points)
    ensures ChainPartition(points, PointLists(Greedy(points))) <==> !WrapsRound(points)
  {
    hide Greedy, Chain, InOrder, WrapsRound;
    GreedyPartitions(points);
    ContiguousExactly(points);
    GreedyInOrder(points);
    assert forall i :: 0 <= i < |Greedy(points)| ==> PointLists(Greedy(points))[i] == Greedy(points)[i].points;
  }

  lemma {:induction false} GreedyInOrder(points: seq<Point>)
    ensures forall i :: 0 <= i < |Greedy(points)| ==> InOrder(points, Greedy(points)[i].points)
  {
    hide Concat, SumLengths;
    if points != [] {
      var front, p := points[..|points| - 1], points[|points| - 1];
      assert points == front + [p];
      GreedyInOrder(front);
      GrowsInOrder(front, p, Greedy(front));
      assert Greedy(points) == Place(Greedy(front), p);
    }
  }

  lemma GrowsInOrder(front: seq<Point>, p: Point, groups: seq<BatchGroup>)
    requires groups == Greedy(front)
    requires forall i :: 0 <= i < |groups| ==> InOrder(front, groups[i].points)
    ensures forall i :: 0 <= i < |groups| ==>
      InOrder(front + [p], groups[i].points) && InOrder(front + [p], groups[i].points + [p])
  {
    hide Greedy, Concat, SumLengths;
    GreedyShaped(front);
    forall i | 0 <= i < |groups|
      ensures InOrder(front + [p], groups[i].points) && InOrder(front + [p], groups[i].points + [p])
    {
      var c := groups[i].points;
      assert Shaped(groups[i]);
      MemberOfConcat(PointLists(groups), i, |c| - 1);
      MemberOfGreedy(front, c[|c| - 1]);
      BeforeAppend(front, p, c);
    }
  }

  // ---- Minimal among all divisions ---------------------------------------------------------------

  predicate Precedes(q: Point, p: Point) { q.registerType == p.registerType && End(q) == p.address }

  /** A point that continues another one is configured after such a one. */
  ghost predicate PredecessorsFirst(points: seq<Point>)
  {
    forall q, j :: q in points && 0 <= j < |points| && Precedes(q, points[j]) ==>
      exists i :: 0 <= i < j && Precedes(points[i], points[j])
  }

  /** Contiguous runs in any order. */
  ghost predicate Division(points: seq<Point>, chains: seq<seq<Point>>)
  {
    multiset(Concat(chains)) == multiset(points) && forall i :: 0 <= i < |chains| ==> Chain(chains[i])
  }

  /** The points that continue no other. */
  ghost function Beginnings(points: seq<Point>): set<Point>
  {
    set p | p in points && !exists q :: q in points && Precedes(q, p)
  }

  lemma BeginningsAreHeads(points: seq<Point>, chains: seq<seq<Point>>)
    requires Division(points, chains)
    ensures |Beginnings(points)| <= |chains|
  {
    forall p | p in Beginnings(points) ensures p in Heads(chains) {
      assert p in multiset(points) && p in multiset(Concat(chains));
      var c, k := ConcatMember(chains, p);
      if k > 0 {
        MemberOfConcat(chains, c, k - 1);
        assert chains[c][k - 1] in multiset(points);
        assert Precedes(chains[c][k - 1], p);
      }
    }
    FewHeads(chains);
    CardinalityMonotone(Beginnings(points), Heads(chains));
  }

  lemma OpenerIsUnpreceding(points: seq<Point>, j: nat)
    requires AllSound(points) && !WrapsRound(points) && j < |points|
    ensures Opener(points, j) <==> !exists i :: 0 <= i < j && Precedes(points[i], points[j])
  {
    forall i | 0 <= i < j && points[i].registerType == points[j].registerType
      ensures Wrap16(End(points[i])) == points[j].address <==> Precedes(points[i], points[j])
    {
      assert Sound(points[i]);
    }
  }

  lemma OpenersAndBeginnings(points: seq<Point>)
    requires AllSound(points) && Distinct(points) && !WrapsRound(points)
    ensures Beginnings(points) <= Openers(points)
    ensures Beginnings(points) == Openers(points) <==> PredecessorsFirst(points)
  {
    hide WrapsRound, AllSound, Opener, Distinct, Precedes;
    forall j | 0 <= j < |points|
      ensures points[j] in Openers(points) <==> !exists i :: 0 <= i < j && Precedes(points[i], points[j])
    {
      OpenerIsUnpreceding(points, j);
      OpenersAreOpeners(points, j);
    }
    forall p | p in Beginnings(points) ensures p in Openers(points) {
      var j :| 0 <= j < |points| && points[j] == p;
    }
    if Beginnings(points) == Openers(points) {
      forall q, j | q in points && 0 <= j < |points| && Precedes(q, points[j])
        ensures exists i :: 0 <= i < j && Precedes(points[i], points[j])
      {
        assert points[j] !in Beginnings(points);
      }
    } else {
      var p :| p in Openers(points) && p !in Beginnings(points);
      var j :| 0 <= j < |points| && points[j] == p;
    }
  }

  lemma OpenersAreOpeners(points: seq<Point>, j: nat)
    requires Distinct(points) && j < |points|
    ensures points[j] in Openers(points) <==> Opener(points, j)
  {
    hide Opener;
    forall i | 0 <= i < |points| && i != j ensures points[i] != points[j] {
      assert !SameRegister(points[if i < j then i else j], points[if i < j then j else i]);
    }
  }

  lemma SortedIsBest(points: seq<Point>)
    requires AllSound(points) && Distinct(points)
    ensures Division(points, PointLists(Greedy(SortedPoints(points))))
    ensures |Greedy(SortedPoints(points))| == |Beginnings(points)|
  {
    hide Greedy, SortedPoints, Concat, WrapsRound, Chain, InOrder, Beginnings, Openers;
    var sorted := SortedPoints(points);
    ExchangeSorts(points);
    SortedStaysSound(points, sorted);
    GreedyIsChainPartition(sorted);
    GroupCount(sorted);
    OpenersAndBeginnings(sorted);
    SameBeginnings(points, sorted);
  }

  lemma SameBeginnings(points: seq<Point>, points': seq<Point>)
    requires multiset(points) == multiset(points')
    ensures Beginnings(points) == Beginnings(points')
  {
    forall p ensures p in points <==> p in points' {
      assert p in multiset(points) <==> p in multiset(points');
    }
  }

  lemma SortedStaysSound(points: seq<Point>, sorted: seq<Point>)
    requires AllSound(points) && Distinct(points) && Sorted(sorted) && multiset(sorted) == multiset(points)
    ensures AllSound(sorted) && Distinct(sorted) && !WrapsRound(sorted) && PredecessorsFirst(sorted)
  {
    forall p ensures p in sorted <==> p in points {
      assert p in multiset(sorted) <==> p in multiset(points);
    }
    forall i | 0 <= i < |sorted| ensures Sound(sorted[i]) {
      assert sorted[i] in points;
    }
    DistinctPermuted(points, sorted);
    forall q, j | q in sorted && 0 <= j < |sorted| && Precedes(q, sorted[j])
      ensures exists i :: 0 <= i < j && Precedes(sorted[i], sorted[j])
    {
      var i :| 0 <= i < |sorted| && sorted[i] == q;
      assert Sound(sorted[i]);
    }
    forall i, j | 0 <= i < j < |sorted| && End(sorted[i]) == 0x1_0000 ensures sorted[j].address != 0 {
      assert sorted[i].address <= sorted[j].address;
    }
  }

  lemma DistinctPermuted(points: seq<Point>, points': seq<Point>)
    requires Distinct(points) && multiset(points') == multiset(points)
    ensures Distinct(points')
  {
    forall i, j | 0 <= i < j < |points| ensures points[i] != points[j] {
      assert !SameRegister(points[i], points[j]);
    }
    Unrepeated(points, points');
    forall i, j | 0 <= i < j < |points'| ensures !SameRegister(points'[i], points'[j]) {
      assert points'[i] in multiset(points) && points'[j] in multiset(points);
      var m :| 0 <= m < |points| && points[m] == points'[i];
      var n :| 0 <= n < |points| && points[n] == points'[j];
      assert m != n;
      assert !SameRegister(points[if m < n then m else n], points[if m < n then n else m]);
    }
  }

  lemma EqualBySize<T>(s: set<T>, t: set<T>)
    requires s <= t && |t| <= |s|
    ensures s == t
  {
    if x :| x in t && x !in s {
      CardinalityMonotone(s, t - {x});
    }
  }

  /** The groups are fewest among all divisions into contiguous runs, in whatever order, exactly when
      every point that continues another comes after such a one. */
  lemma GreedyIsMinimalExactly(points: seq<Point>)
    requires AllSound(points) && Distinct(points) && !WrapsRound(points)
    ensures (forall chains | Division(points, chains) :: |Greedy(points)| <= |chains|) <==> PredecessorsFirst(points)
  {
    hide Greedy, SortedPoints, Concat, WrapsRound, Division, Beginnings, Openers, PredecessorsFirst, Sorted;
    GroupCount(points);
    OpenersAndBeginnings(points);
    if PredecessorsFirst(points) {
      forall chains | Division(points, chains) ensures |Greedy(points)| <= |chains| {
        BeginningsAreHeads(points, chains);
      }
    } else {
      SortedIsBest(points);
      if |Greedy(points)| <= |Greedy(SortedPoints(points))| {
        EqualBySize(Beginnings(points), Openers(points));
      }
    }
  }

  /** Sorted input meets the condition. */
  lemma SortedIsMinimal(points: seq<Point>, chains: seq<seq<Point>>)
    requires AllSound(points) && Distinct(points) && Sorted(points) && Division(points, chains)
    ensures |Greedy(points)| <= |chains|
  {
    hide Greedy, WrapsRound, Division, PredecessorsFirst;
    SortedStaysSound(points, points);
    GreedyIsMinimalExactly(points);
  }

  // ---- The methods -------------------------------------------------------------------------------

  ghost predicate Sorted(ps: seq<Point>)
  {
    forall i, j :: 0 <= i < j < |ps| ==> ps[i].address <= ps[j].address
  }

  lemma ChainIsSorted(ps: seq<Point>)
    requires Chain(ps) && AllSound(ps)
    ensures Sorted(ps)
  {
    forall i, j | 0 <= i < j < |ps| ensures ps[i].address <= ps[j].address {
      ChainAscends(ps, i, j);
    }
  }

  /** The first i elements are the i smallest, in order. */
  ghost predicate Settled(ps: seq<Point>, i: int)
  {
    forall k, m :: 0 <= k < i && k < m < |ps| ==> ps[k].address <= ps[m].address
  }

  ghost predicate LeastSoFar(ps: seq<Point>, i: int, j: int)
  {
    0 <= i < j <= |ps| && forall m :: i < m < j ==> ps[i].address <= ps[m].address
  }

  function Exchanged(ps: seq<Point>, i: nat, j: nat): (r: seq<Point>)
    requires i < |ps| && j < |ps|
    ensures |r| == |ps|
  {
    if ps[i].address > ps[j].address then ps[i := ps[j]][j := ps[i]] else ps
  }

  /** The rest of an exchange sort that is about to compare elements i and j. */
  function ExchangeFrom(ps: seq<Point>, i: nat, j: nat): (r: seq<Point>)
    ensures |r| == |ps|
    decreases |ps| - i, |ps| - j
  {
    if i + 1 >= |ps| then ps
    else if j >= |ps| then ExchangeFrom(ps, i + 1, i + 2)
    else ExchangeFrom(Exchanged(ps, i, j), i, j + 1)
  }

  function SortedPoints(ps: seq<Point>): (r: seq<Point>)
    ensures |r| == |ps|
  {
    ExchangeFrom(ps, 0, 1)
  }

  lemma ExchangeKeeps(ps: seq<Point>, i: nat, j: nat)
    requires i < j < |ps| && Settled(ps, i) && LeastSoFar(ps, i, j)
    ensures Settled(Exchanged(ps, i, j), i) && LeastSoFar(Exchanged(ps, i, j), i, j + 1)
    ensures multiset(Exchanged(ps, i, j)) == multiset(ps)
    ensures Sorted(ps) ==> Exchanged(ps, i, j) == ps
  {
  }

  lemma {:induction false} ExchangeFromSorts(ps: seq<Point>, i: nat, j: nat)
    requires Settled(ps, i) && (i + 1 < |ps| ==> LeastSoFar(ps, i, j))
    ensures var r := ExchangeFrom(ps, i, j);
      Sorted(r) && multiset(r) == multiset(ps) && (Sorted(ps) ==> r == ps)
    decreases |ps| - i, |ps| - j
  {
    hide Exchanged;
    if i + 1 >= |ps| {
    } else if j >= |ps| {
      assert Settled(ps, i + 1);
      ExchangeFromSorts(ps, i + 1, i + 2);
    } else {
      ExchangeKeeps(ps, i, j);
      ExchangeFromSorts(Exchanged(ps, i, j), i, j + 1);
    }
  }

  /** The exchange sort sorts, permutes, and leaves a sorted sequence alone. */
  lemma ExchangeSorts(ps: seq<Point>)
    ensures Sorted(SortedPoints(ps)) && multiset(SortedPoints(ps)) == multiset(ps)
    ensures Sorted(ps) ==> SortedPoints(ps) == ps
  {
    ExchangeFromSorts(ps, 0, 1);
  }

  /** In-place exchange sort: sorted, a permutation, and without effect on a sorted array. */
  method SortPointsByAddress(points: array<Point>)
    modifies points
    ensures points[..] == SortedPoints(old(points[..]))
    ensures Sorted(points[..])
    ensures multiset(points[..]) == multiset(old(points[..]))
    ensures Sorted(old(points[..])) ==> points[..] == old(points[..])
  {
    hide Sorted;
    var n := points.Length;
    ghost var input := points[..];
    var i := 0;
    while i < n - 1
      invariant 0 <= i
      invariant ExchangeFrom(points[..], i, i + 1) == SortedPoints(input)
    {
      var j := i + 1;
      while j < n
        invariant i < j <= n
        invariant ExchangeFrom(points[..], i, j) == SortedPoints(input)
      {
        ghost var now := points[..];
        if points[i].address > points[j].address {
          points[i], points[j] := points[j], points[i];
        }
        assert points[..] == Exchanged(now, i, j);
        j := j + 1;
      }
      i := i + 1;
    }
    ExchangeSorts(input);
  }

  // ---- The final sort ----------------------------------------------------------------------------

  function Arranged(g: BatchGroup): BatchGroup { g.(points := SortedPoints(g.points)) }

  function ArrangedAll(groups: seq<BatchGroup>): (r: seq<BatchGroup>)
    ensures |r| == |groups| && forall i :: 0 <= i < |groups| ==> r[i] == Arranged(groups[i])
  {
    seq(|groups|, i requires 0 <= i < |groups| => Arranged(groups[i]))
  }

  /** The groups of a configuration. */
  function Grouped(points: seq<Point>): (groups: seq<BatchGroup>)
    ensures |groups| == |Greedy(points)|
    ensures forall i :: 0 <= i < |groups| ==> groups[i] == Arranged(Greedy(points)[i])
  {
    ArrangedAll(Greedy(points))
  }

  /** The final sort leaves contiguous groups as they are. */
  lemma SortChangesNothing(points: seq<Point>)
    requires AllSound(points) && !WrapsRound(points)
    ensures Grouped(points) == Greedy(points)
  {
    hide Greedy, WrapsRound, SortedPoints, Sorted, Chain, AllSound;
    ContiguousExactly(points);
    forall i | 0 <= i < |Greedy(points)| ensures Arranged(Greedy(points)[i]) == Greedy(points)[i] {
      SoundMembers(points, i);
      ChainIsSorted(Greedy(points)[i].points);
      ExchangeSorts(Greedy(points)[i].points);
    }
  }

  lemma {:induction false} ArrangedKeepsPoints(groups: seq<BatchGroup>)
    ensures multiset(AllPoints(ArrangedAll(groups))) == multiset(AllPoints(groups))
    decreases |groups|
  {
    hide SortedPoints;
    if groups == [] {
      assert ArrangedAll(groups) == [];
    } else {
      ArrangedKeepsPoints(groups[1..]);
      ExchangeSorts(groups[0].points);
      assert PointLists(groups)[1..] == PointLists(groups[1..]);
      assert PointLists(ArrangedAll(groups))[1..] == PointLists(ArrangedAll(groups[1..]));
      assert AllPoints(groups) == groups[0].points + AllPoints(groups[1..]);
      assert AllPoints(ArrangedAll(groups)) == SortedPoints(groups[0].points) + AllPoints(ArrangedAll(groups[1..]));
    }
  }

  /** No configuration loses or gains a point in its groups. */
  lemma GroupedPartitions(points: seq<Point>)
    ensures multiset(AllPoints(Grouped(points))) == multiset(points)
  {
    hide Greedy, ArrangedAll;
    GreedyPartitions(points);
    ArrangedKeepsPoints(Greedy(points));
  }


  /** The inner loop: the first group the point extends takes it, else it opens a group. */
  method PlacePoint(before: seq<BatchGroup>, point: Point) returns (groups: seq<BatchGroup>)
    requires forall i :: 0 <= i < |before| ==> before[i].points != []
    ensures groups == Place(before, point)
  {
    groups := before;
    var merged := false;
    var i := 0;
    while i < |groups|
      invariant 0 <= i <= |groups| && !merged
      invariant groups == before
      invariant forall k :: 0 <= k < i ==> !Extends(groups[k], point)
    {
      if groups[i].registerType == point.registerType {
        var lastPoint := groups[i].points[|groups[i].points| - 1];
        if Wrap16(lastPoint.address as int + lastPoint.length as int) == point.address {
          TargetIs(groups, point, i);
          groups := groups[i := groups[i].(
            points := groups[i].points + [point],
            totalLength := Wrap16(groups[i].totalLength as int + point.length as int))];
          merged := true;
          break;
        }
      }
      i := i + 1;
    }
    if !merged {
      groups := groups + [BatchGroup(point.registerType, point.address, [point], point.length)];
    }
  }

  method GroupPointsByRegisterType(points: seq<Point>) returns (groups: seq<BatchGroup>)
    ensures groups == Grouped(points)
    ensures AllSound(points) && !WrapsRound(points) ==> groups == Greedy(points)
  {
    hide Place, WrapsRound, AllSound;
    groups := [];
    var n := 0;
    while n < |points|
      invariant 0 <= n <= |points|
      invariant groups == Greedy(points[..n])
    {
      GreedyNonEmpty(points[..n]);
      groups := PlacePoint(groups, points[n]);
      assert points[..n + 1][..n] == points[..n];
      n := n + 1;
    }
    assert points[..n] == points;
    groups := SortGroups(groups);
    if AllSound(points) && !WrapsRound(points) {
      SortChangesNothing(points);
    }
  }

  method SortGroups(unsorted: seq<BatchGroup>) returns (groups: seq<BatchGroup>)
    ensures groups == ArrangedAll(unsorted)
  {
    hide SortedPoints, Sorted;
    groups := unsorted;
    var i := 0;
    while i < |groups|
      invariant 0 <= i <= |groups| == |unsorted|
      invariant forall k :: 0 <= k < i ==> groups[k] == Arranged(unsorted[k])
      invariant forall k :: i <= k < |groups| ==> groups[k] == unsorted[k]
    {
      var ps := groups[i].points;
      var slice := new Point[|ps|](k requires 0 <= k < |ps| => ps[k]);
      assert slice[..] == ps;
      SortPointsByAddress(slice);
      groups := groups[i := groups[i].(points := slice[..])];
      i := i + 1;
    }
  }

  lemma TargetIs(groups: seq<BatchGroup>, p: Point, i: nat)
    requires i < |groups| && Extends(groups[i], p)
    requires forall k :: 0 <= k < i ==> !Extends(groups[k], p)
    ensures Target(groups, p) == i
  {
  }

  lemma {:induction false} GreedyNonEmpty(points: seq<Point>)
    ensures forall i :: 0 <= i < |Greedy(points)| ==> Greedy(points)[i].points != []
  {
    if points != [] {
      GreedyNonEmpty(points[..|points| - 1]);
    }
  }
}
