/*
 * The region merger of the map generator: the breadth-first flood fill that
 * collects the cells drawn as one merged region, and the facts that make its
 * result well defined (every region is maximal, unique, and two regions that
 * share a cell are the same region).
 */
module RegionMerger {
  import opened JsStrings
  import opened GridModel

  /** `q` is one of the four edge neighbours of `p`. */
  predicate Adjacent(p: Pos, q: Pos) {
    (p.y == q.y && (q.x == p.x - 1 || q.x == p.x + 1)) || (p.x == q.x && (q.y == p.y - 1 || q.y == p.y + 1))
  }

  /** The neighbours in the order the flood fill visits them: left, right, up, down. */
  function Neighbours(p: Pos): (r: seq<Pos>)
    ensures |r| == 4
    ensures forall q :: Adjacent(p, q) <==> q in r
  {
    [Pos(p.x - 1, p.y), Pos(p.x + 1, p.y), Pos(p.x, p.y - 1), Pos(p.x, p.y + 1)]
  }

  /** A cell the flood fill seeded with `seedCell` takes in: in bounds, assigned, and merging with the seed's record. */
  predicate Joins(g: Grid, seedCell: Cell, p: Pos) {
    InBounds(g, p) && p in g.cells && ShouldMerge(seedCell, g.cells[p])
  }

  predicate Distinct(s: seq<Pos>) {
    forall i, j :: 0 <= i < j < |s| ==> s[i] != s[j]
  }

  /** Every member after the first touches an earlier one: the members grow one 4-connected region from the first. */
  predicate ConnectedInOrder(s: seq<Pos>) {
    forall i :: 0 < i < |s| ==> TouchesEarlier(s, i)
  }

  /** The `i`-th member is a neighbour of some earlier member. */
  predicate TouchesEarlier(s: seq<Pos>, i: int) {
    0 <= i < |s| && exists j :: 0 <= j < i && Adjacent(s[j], s[i])
  }

  /** No neighbour of a member that the flood would take in is missing. */
  ghost predicate Closed(g: Grid, seedCell: Cell, s: seq<Pos>) {
    forall i, q :: 0 <= i < |s| && Adjacent(s[i], q) && Joins(g, seedCell, q) ==> q in s
  }

  /**
   * What `findMergeGroup(start, seedCell)` returns: distinct joining cells, starting
   * at `start`, connected, and closed under joining neighbours; empty exactly when
   * the start cell itself does not join.
   */
  ghost predicate IsMergeGroup(g: Grid, start: Pos, seedCell: Cell, group: seq<Pos>) {
    (forall i :: 0 <= i < |group| ==> Joins(g, seedCell, group[i]))
    && Distinct(group)
    && (group != [] <==> Joins(g, seedCell, start))
    && (group != [] ==> group[0] == start)
    && ConnectedInOrder(group)
    && Closed(g, seedCell, group)
  }

  /** The in-bounds positions of the grid. */
  ghost function Box(g: Grid): set<Pos> {
    set x, y | 0 <= x < g.width && 0 <= y < g.height :: Pos(x, y)
  }

  /** The neighbours of `p` that the flood fill enqueues: in bounds and not yet visited, in visiting order. */
  function FreshNeighbours(g: Grid, p: Pos, visited: set<Pos>): (r: seq<Pos>)
    ensures forall q :: q in r <==> Adjacent(p, q) && InBounds(g, q) && q !in visited
  {
    var n := Neighbours(p);
    (if InBounds(g, n[0]) && n[0] !in visited then [n[0]] else [])
    + (if InBounds(g, n[1]) && n[1] !in visited then [n[1]] else [])
    + (if InBounds(g, n[2]) && n[2] !in visited then [n[2]] else [])
    + (if InBounds(g, n[3]) && n[3] !in visited then [n[3]] else [])
  }

  lemma RemoveOneFromBox(all: set<Pos>, visited: set<Pos>, p: Pos)
    requires p in all && p !in visited
    ensures |all - (visited + {p})| < |all - visited|
  {
    assert all - (visited + {p}) == (all - visited) - {p};
  }

  // The loop invariant of the flood fill, in parts.

  predicate QueueInBounds(g: Grid, queue: seq<Pos>) {
    forall k :: 0 <= k < |queue| ==> InBounds(g, queue[k])
  }

  /** Group members join and have been visited. */
  predicate GroupVisited(g: Grid, seedCell: Cell, group: seq<Pos>, visited: set<Pos>) {
    forall k :: 0 <= k < |group| ==> Joins(g, seedCell, group[k]) && group[k] in visited
  }

  /** Every visited cell that joins has been collected. */
  ghost predicate VisitedCollected(g: Grid, seedCell: Cell, group: seq<Pos>, visited: set<Pos>) {
    forall p :: p in visited && Joins(g, seedCell, p) ==> p in group
  }

  /** Every queued cell is the start cell or a neighbour of a member. */
  predicate QueueFromMembers(start: Pos, group: seq<Pos>, queue: seq<Pos>) {
    forall k :: 0 <= k < |queue| ==> queue[k] == start || exists j :: 0 <= j < |group| && Adjacent(group[j], queue[k])
  }

  /** Every in-bounds neighbour of a member has been visited or is still queued. */
  ghost predicate FrontierQueued(g: Grid, group: seq<Pos>, visited: set<Pos>, queue: seq<Pos>) {
    forall k, q :: 0 <= k < |group| && Adjacent(group[k], q) && InBounds(g, q) ==> q in visited || q in queue
  }

  ghost predicate FloodInv(g: Grid, start: Pos, seedCell: Cell, group: seq<Pos>, visited: set<Pos>, queue: seq<Pos>) {
    visited <= Box(g)
    && QueueInBounds(g, queue)
    && GroupVisited(g, seedCell, group, visited)
    && Distinct(group)
    && VisitedCollected(g, seedCell, group, visited)
    && (group != [] ==> group[0] == start)
    && ConnectedInOrder(group)
    && QueueFromMembers(start, group, queue)
    && (start in visited || start in queue)
    && FrontierQueued(g, group, visited, queue)
  }

  /** Dequeuing an already visited cell keeps the invariant. */
  lemma PopVisited(g: Grid, start: Pos, seedCell: Cell, group: seq<Pos>, visited: set<Pos>, queue: seq<Pos>)
    requires queue != [] && queue[0] in visited
    requires FloodInv(g, start, seedCell, group, visited, queue)
    ensures FloodInv(g, start, seedCell, group, visited, queue[1..])
  {
    var rest := queue[1..];
    assert forall q :: q in queue ==> q == queue[0] || q in rest;
  }

  /** Visiting a cell that does not join marks it visited and nothing else. */
  lemma PopNonJoining(g: Grid, start: Pos, seedCell: Cell, group: seq<Pos>, visited: set<Pos>, queue: seq<Pos>)
    requires queue != [] && queue[0] !in visited && !Joins(g, seedCell, queue[0])
    requires FloodInv(g, start, seedCell, group, visited, queue)
    ensures FloodInv(g, start, seedCell, group, visited + {queue[0]}, queue[1..])
  {
    var rest := queue[1..];
    assert forall q :: q in queue ==> q == queue[0] || q in rest;
    assert queue[0] in Box(g);
  }

  lemma JoinDistinct(g: Grid, seedCell: Cell, group: seq<Pos>, visited: set<Pos>, p: Pos)
    requires GroupVisited(g, seedCell, group, visited) && Distinct(group) && p !in visited
    ensures Distinct(group + [p])
  {
    assert p !in group;
  }

  lemma JoinConnected(start: Pos, group: seq<Pos>, queue: seq<Pos>, p: Pos)
    requires ConnectedInOrder(group) && QueueFromMembers(start, group, queue)
    requires queue != [] && queue[0] == p
    requires group != [] ==> p != start
    ensures ConnectedInOrder(group + [p])
  {
    var group' := group + [p];
    forall i | 0 < i < |group'|
      ensures TouchesEarlier(group', i)
    {
      if i < |group| {
        assert TouchesEarlier(group, i);
        var j :| 0 <= j < i && Adjacent(group[j], group[i]);
        assert group'[j] == group[j] && group'[i] == group[i];
      } else {
        assert queue[0] == p && p != start;
        var j :| 0 <= j < |group| && Adjacent(group[j], p);
        assert group'[j] == group[j] && group'[i] == p;
      }
    }
  }

  lemma JoinQueueFromMembers(start: Pos, group: seq<Pos>, queue: seq<Pos>, newCells: seq<Pos>)
    requires queue != [] && QueueFromMembers(start, group, queue)
    requires forall q :: q in newCells ==> Adjacent(queue[0], q)
    ensures QueueFromMembers(start, group + [queue[0]], queue[1..] + newCells)
  {
    var p := queue[0];
    var rest := queue[1..];
    var group' := group + [p];
    var queue' := rest + newCells;
    forall k | 0 <= k < |queue'|
      ensures queue'[k] == start || exists j :: 0 <= j < |group'| && Adjacent(group'[j], queue'[k])
    {
      if k < |rest| {
        assert queue'[k] == queue[k + 1];
        if queue'[k] != start {
          var j :| 0 <= j < |group| && Adjacent(group[j], queue[k + 1]);
          assert group'[j] == group[j];
        }
      } else {
        assert queue'[k] in newCells;
        assert Adjacent(group'[|group|], queue'[k]);
      }
    }
  }

  lemma JoinFrontier(g: Grid, group: seq<Pos>, visited: set<Pos>, queue: seq<Pos>)
    requires queue != [] && FrontierQueued(g, group, visited, queue)
    ensures var p := queue[0];
            FrontierQueued(g, group + [p], visited + {p}, queue[1..] + FreshNeighbours(g, p, visited + {p}))
  {
    var p := queue[0];
    var rest := queue[1..];
    var group' := group + [p];
    var visited' := visited + {p};
    var queue' := rest + FreshNeighbours(g, p, visited');
    forall k, q | 0 <= k < |group'| && Adjacent(group'[k], q) && InBounds(g, q)
      ensures q in visited' || q in queue'
    {
      if k == |group| {
        if q !in visited' {
          assert q in FreshNeighbours(g, p, visited');
        }
      } else {
        assert group'[k] == group[k];
        if q !in visited && q != p {
          assert q in queue;
          assert q in rest by {
            var i :| 0 <= i < |queue| && queue[i] == q;
            assert i != 0;
            assert rest[i - 1] == q;
          }
        }
      }
    }
  }

  /** Visiting a joining cell collects it and enqueues its newCells neighbours. */
  lemma PopJoining(g: Grid, start: Pos, seedCell: Cell, group: seq<Pos>, visited: set<Pos>, queue: seq<Pos>)
    requires queue != [] && queue[0] !in visited && Joins(g, seedCell, queue[0])
    requires FloodInv(g, start, seedCell, group, visited, queue)
    ensures var p := queue[0];
            FloodInv(g, start, seedCell, group + [p], visited + {p}, queue[1..] + FreshNeighbours(g, p, visited + {p}))
  {
    var p := queue[0];
    var visited' := visited + {p};
    var newCells := FreshNeighbours(g, p, visited');
    assert p in Box(g);
    JoinDistinct(g, seedCell, group, visited, p);
    JoinConnected(start, group, queue, p);
    JoinQueueFromMembers(start, group, queue, newCells);
    JoinFrontier(g, group, visited, queue);
    var rest := queue[1..];
    assert QueueInBounds(g, rest + newCells);
  }

  /**
   * The flood fill as a function of its state: take the head of the queue; skip it
   * if visited; otherwise mark it visited and, if it joins, collect it and enqueue
   * its in-bounds unvisited neighbours, left, right, up, down. The result is the
   * group once the queue is empty, so it fixes the order of the members.
   */
  ghost function Flood(g: Grid, seedCell: Cell, queue: seq<Pos>, visited: set<Pos>, group: seq<Pos>): seq<Pos>
    requires visited <= Box(g) && QueueInBounds(g, queue)
    decreases |Box(g) - visited|, |queue|
  {
    if queue == [] then group
    else if queue[0] in visited then Flood(g, seedCell, queue[1..], visited, group)
    else
      FloodStep(g, queue, visited);
      var p := queue[0];
      if !Joins(g, seedCell, p) then Flood(g, seedCell, queue[1..], visited + {p}, group)
      else Flood(g, seedCell, queue[1..] + FreshNeighbours(g, p, visited + {p}), visited + {p}, group + [p])
  }

  /** One step of `Flood` on an unvisited head stays in the box and shrinks what is left of it. */
  lemma FloodStep(g: Grid, queue: seq<Pos>, visited: set<Pos>)
    requires visited <= Box(g) && QueueInBounds(g, queue)
    requires queue != [] && queue[0] !in visited
    ensures var p := queue[0];
            visited + {p} <= Box(g) && |Box(g) - (visited + {p})| < |Box(g) - visited|
            && QueueInBounds(g, queue[1..])
            && QueueInBounds(g, queue[1..] + FreshNeighbours(g, p, visited + {p}))
  {
    var p := queue[0];
    assert InBounds(g, queue[0]);
    RemoveOneFromBox(Box(g), visited, p);
    var next := queue[1..] + FreshNeighbours(g, p, visited + {p});
    forall k | 0 <= k < |next|
      ensures InBounds(g, next[k])
    {
      if k < |queue| - 1 {
        assert next[k] == queue[k + 1];
      } else {
        assert next[k] in FreshNeighbours(g, p, visited + {p});
      }
    }
  }

  /** `findMergeGroup`: breadth-first flood fill from `start` with a queue and a visited set. */
  method FindMergeGroup(g: Grid, start: Pos, seedCell: Cell) returns (group: seq<Pos>)
    requires InBounds(g, start)
    ensures IsMergeGroup(g, start, seedCell, group)
    ensures group == Flood(g, seedCell, [start], {}, [])
  {
    group := [];
    var visited: set<Pos> := {};
    var queue: seq<Pos> := [start];
    ghost var all := Box(g);
    ghost var total := Flood(g, seedCell, queue, visited, group);
    while |queue| > 0
      invariant FloodInv(g, start, seedCell, group, visited, queue)
      invariant Flood(g, seedCell, queue, visited, group) == total
      decreases |all - visited|, |queue|
    {
      var p := queue[0];
      if p in visited {
        PopVisited(g, start, seedCell, group, visited, queue);
        queue := queue[1..];
        continue;
      }
      FloodStep(g, queue, visited);
      if p !in g.cells || !ShouldMerge(seedCell, g.cells[p]) {
        PopNonJoining(g, start, seedCell, group, visited, queue);
        visited := visited + {p};
        queue := queue[1..];
        continue;
      }
      PopJoining(g, start, seedCell, group, visited, queue);
      visited := visited + {p};
      group := group + [p];
      queue := queue[1..] + FreshNeighbours(g, p, visited);
    }
    FloodDone(g, start, seedCell, group, visited);
  }

  /** The group `findMergeGroup(p, gridData[p])` returns, in the order the flood fill collects it. */
  ghost function FloodFrom(g: Grid, p: Pos): seq<Pos>
    requires InBounds(g, p) && p in g.cells
  {
    Flood(g, g.cells[p], [p], {}, [])
  }

  /** With the queue empty, the invariant gives the merge-group properties. */
  lemma FloodDone(g: Grid, start: Pos, seedCell: Cell, group: seq<Pos>, visited: set<Pos>)
    requires FloodInv(g, start, seedCell, group, visited, [])
    ensures IsMergeGroup(g, start, seedCell, group)
  {
    assert Closed(g, seedCell, group) by {
      forall i, q | 0 <= i < |group| && Adjacent(group[i], q) && Joins(g, seedCell, q)
        ensures q in group
      {
        assert q in visited;
      }
    }
    if Joins(g, seedCell, start) {
      assert start in group;
    }
  }

  // ------------------------------------------------------------------ facts about merge groups

  lemma AdjacentSymmetric(p: Pos, q: Pos)
    ensures Adjacent(p, q) <==> Adjacent(q, p)
  {
  }

  /** If a connected sequence of joining cells starts inside a closed region, it lies entirely inside it. */
  lemma {:induction false} ForwardInclusion(g: Grid, seedCell: Cell, a: seq<Pos>, b: seq<Pos>, i: nat)
    requires Closed(g, seedCell, a) && ConnectedInOrder(b)
    requires forall k :: 0 <= k < |b| ==> Joins(g, seedCell, b[k])
    requires b != [] && b[0] in a
    requires i < |b|
    ensures b[i] in a
    decreases i
  {
    if i > 0 {
      assert TouchesEarlier(b, i);
      var j :| 0 <= j < i && Adjacent(b[j], b[i]);
      ForwardInclusion(g, seedCell, a, b, j);
      var k :| 0 <= k < |a| && a[k] == b[j];
      assert Adjacent(a[k], b[i]);
    }
  }

  /** If a member of a connected sequence of joining cells lies inside a closed region, so does its first cell. */
  lemma {:induction false} ReachBack(g: Grid, seedCell: Cell, a: seq<Pos>, b: seq<Pos>, i: nat)
    requires Closed(g, seedCell, a) && ConnectedInOrder(b)
    requires forall k :: 0 <= k < |b| ==> Joins(g, seedCell, b[k])
    requires i < |b| && b[i] in a
    ensures b[0] in a
    decreases i
  {
    if i > 0 {
      assert TouchesEarlier(b, i);
      var j :| 0 <= j < i && Adjacent(b[j], b[i]);
      var k :| 0 <= k < |a| && a[k] == b[i];
      AdjacentSymmetric(b[j], b[i]);
      assert Adjacent(a[k], b[j]);
      ReachBack(g, seedCell, a, b, j);
    }
  }

  /** The flood fill's result is determined as a set: any two results for the same seed have the same members. */
  lemma MergeGroupUnique(g: Grid, start: Pos, seedCell: Cell, g1: seq<Pos>, g2: seq<Pos>)
    requires IsMergeGroup(g, start, seedCell, g1) && IsMergeGroup(g, start, seedCell, g2)
    ensures forall p :: p in g1 <==> p in g2
  {
    forall p | p in g2 ensures p in g1 {
      var i :| 0 <= i < |g2| && g2[i] == p;
      ForwardInclusion(g, seedCell, g1, g2, i);
    }
    forall p | p in g1 ensures p in g2 {
      var i :| 0 <= i < |g1| && g1[i] == p;
      ForwardInclusion(g, seedCell, g2, g1, i);
    }
  }

  predicate IsPath(path: seq<Pos>) {
    forall k :: 0 <= k < |path| - 1 ==> Adjacent(path[k], path[k + 1])
  }

  /** Maximality: every 4-connected path of joining cells from the start cell stays inside the merge group. */
  lemma {:induction false} MergeGroupMaximal(g: Grid, start: Pos, seedCell: Cell, group: seq<Pos>, path: seq<Pos>)
    requires IsMergeGroup(g, start, seedCell, group)
    requires path != [] && path[0] == start && IsPath(path)
    requires forall k :: 0 <= k < |path| ==> Joins(g, seedCell, path[k])
    ensures forall k :: 0 <= k < |path| ==> path[k] in group
    decreases |path|
  {
    if |path| > 1 {
      var prefix := path[..|path| - 1];
      MergeGroupMaximal(g, start, seedCell, group, prefix);
      var last := |path| - 1;
      assert path[last - 1] in group;
      var k :| 0 <= k < |group| && group[k] == path[last - 1];
      assert Adjacent(group[k], path[last]);
    }
  }

  /**
   * Two merge groups seeded at assigned cells with their own records either share
   * no cell, or the second seed already belongs to the first group.
   */
  lemma GroupsOverlap(g: Grid, a: Pos, ga: seq<Pos>, b: Pos, gb: seq<Pos>, q: Pos)
    requires a in g.cells && b in g.cells
    requires IsMergeGroup(g, a, g.cells[a], ga) && IsMergeGroup(g, b, g.cells[b], gb)
    requires q in ga && q in gb
    ensures b in ga
  {
    var ca, cb, cq := g.cells[a], g.cells[b], g.cells[q];
    assert Joins(g, ca, q) && Joins(g, cb, q);
    ShouldMergeSymmetric(cb, cq);
    ShouldMergeTransitive(ca, cq, cb);
    forall k | 0 <= k < |gb| ensures Joins(g, ca, gb[k]) {
      assert Joins(g, cb, gb[k]);
      ShouldMergeTransitive(ca, cb, g.cells[gb[k]]);
    }
    var i :| 0 <= i < |gb| && gb[i] == q;
    ReachBack(g, ca, ga, gb, i);
  }

  /** A cell none of whose assigned in-bounds neighbours merges with it. */
  ghost predicate Isolated(g: Grid, p: Pos)
    requires p in g.cells
  {
    forall q :: Adjacent(p, q) && InBounds(g, q) && q in g.cells ==> !ShouldMerge(g.cells[p], g.cells[q])
  }

  /** A merge group of at most one cell means the seed is isolated. */
  lemma SmallGroupIsolated(g: Grid, p: Pos, group: seq<Pos>)
    requires p in g.cells && InBounds(g, p) && IsMergeGroup(g, p, g.cells[p], group) && |group| <= 1
    ensures Isolated(g, p)
  {
    var c := g.cells[p];
    forall q | Adjacent(p, q) && InBounds(g, q) && q in g.cells
      ensures !ShouldMerge(c, g.cells[q])
    {
      if group == [] {
        assert !ShouldMerge(c, c);
        NoSelfMergeNoMerge(c, g.cells[q]);
      } else {
        assert q !in group;
      }
    }
  }

  /** Every member of a merge group with more than one cell merges with one of its neighbours. */
  lemma MemberNotIsolated(g: Grid, s: Pos, group: seq<Pos>, i: nat)
    requires s in g.cells && IsMergeGroup(g, s, g.cells[s], group) && |group| > 1
    requires i < |group|
    ensures group[i] in g.cells && !Isolated(g, group[i])
  {
    var c := g.cells[s];
    var m := group[i];
    var other: Pos;
    if i == 0 {
      assert TouchesEarlier(group, 1);
      other := group[1];
    } else {
      assert TouchesEarlier(group, i);
      var j :| 0 <= j < i && Adjacent(group[j], group[i]);
      other := group[j];
      AdjacentSymmetric(group[j], group[i]);
    }
    assert Adjacent(m, other) && Joins(g, c, m) && Joins(g, c, other);
    ShouldMergeSymmetric(c, g.cells[m]);
    ShouldMergeTransitive(g.cells[m], c, g.cells[other]);
  }
}
