/**
 * The analysis behind the 2D view: grouping line endpoints into joints and
 * flagging misaligned ones, the side a wall's thickness is drawn on, the
 * openings lying on a wall and the wall an opening belongs to.
 */
module Render2D {
  import opened Wrappers
  import opened Plan
  import opened Geometry
  import opened Utils

  /** Endpoints closer than this (inches) belong to one joint. */
  const JointClusterTolerance: real := 1.0
  /** A joint whose endpoints spread wider than this (inches) is misaligned. */
  const JointGapThreshold: real := 0.25

  // ------------------------------------------------------------------
  // Endpoints
  // ------------------------------------------------------------------

  datatype Which = Start | End

  /** One end of a line: where it is, the line it belongs to, and which end it is. */
  datatype Endpoint = Endpoint(at: Point, line: Line, which: Which)

  /**
   * The endpoints in the order the clustering visits them: the start and then
   * the end of each line, so line `i` owns endpoints `2 * i` and `2 * i + 1`.
   */
  function Endpoints(lines: seq<Line>): (eps: seq<Endpoint>)
    ensures |eps| == 2 * |lines|
    ensures forall i :: 0 <= i < |lines| ==>
              eps[2 * i] == Endpoint(StartOf(lines[i]), lines[i], Start) &&
              eps[2 * i + 1] == Endpoint(EndOf(lines[i]), lines[i], End)
  {
    if lines == [] then []
    else
      var l := lines[|lines| - 1];
      Endpoints(lines[..|lines| - 1]) + [Endpoint(StartOf(l), l, Start), Endpoint(EndOf(l), l, End)]
  }

  /** Two points within the squared tolerance of each other. */
  predicate Near(p: Point, q: Point, tolSq: real)
  {
    SquaredDistance(p, q) <= tolSq
  }

  lemma NearSymmetric(p: Point, q: Point, tolSq: real)
    ensures Near(p, q, tolSq) == Near(q, p, tolSq)
  {
    SqValue(p.x - q.x);
    SqValue(q.x - p.x);
    SqValue(p.y - q.y);
    SqValue(q.y - p.y);
  }

  // ------------------------------------------------------------------
  // Clusters
  // ------------------------------------------------------------------

  /**
   * A joint: the mean of its endpoints, the endpoints themselves (as indices
   * into `Endpoints(lines)`, which keeps apart endpoints of equal lines) and
   * the widest distance between two of them.
   */
  datatype Cluster = Cluster(center: Point, members: seq<nat>, maxPairDistance: real)

  /** Every cluster's members in cluster order. */
  ghost function AllMembers(clusters: seq<Cluster>): seq<nat>
  {
    if clusters == [] then []
    else AllMembers(clusters[..|clusters| - 1]) + clusters[|clusters| - 1].members
  }

  /** Every endpoint index below `n` occurs exactly once among all members, and no cluster is empty. */
  ghost predicate Partitions(clusters: seq<Cluster>, n: nat)
  {
    (forall x: nat :: multiset(AllMembers(clusters))[x] == if x < n then 1 else 0) &&
    (forall g :: 0 <= g < |clusters| ==> |clusters[g].members| > 0)
  }

  ghost predicate MembersBelow(clusters: seq<Cluster>, n: nat)
  {
    forall g, k :: 0 <= g < |clusters| && 0 <= k < |clusters[g].members| ==> clusters[g].members[k] < n
  }

  /** No endpoint near a member of a cluster lies outside that cluster. */
  ghost predicate Closed(eps: seq<Endpoint>, clusters: seq<Cluster>, tolSq: real)
  {
    forall g, m, j ::
      (0 <= g < |clusters| && m in clusters[g].members && m < |eps| && 0 <= j < |eps| &&
       Near(eps[m].at, eps[j].at, tolSq)) ==> j in clusters[g].members
  }

  /** Within each sequence of members, every member after the first is near an earlier one. */
  ghost predicate Linked(eps: seq<Endpoint>, members: seq<nat>, tolSq: real)
  {
    (forall k :: 0 <= k < |members| ==> members[k] < |eps|) &&
    forall k :: 0 < k < |members| ==>
      exists k' :: 0 <= k' < k && Near(eps[members[k']].at, eps[members[k]].at, tolSq)
  }

  ghost predicate Connected(eps: seq<Endpoint>, clusters: seq<Cluster>, tolSq: real)
  {
    forall g :: 0 <= g < |clusters| ==> Linked(eps, clusters[g].members, tolSq)
  }

  function PointsOf(eps: seq<Endpoint>, members: seq<nat>): (pts: seq<Point>)
    requires forall k :: 0 <= k < |members| ==> members[k] < |eps|
    ensures |pts| == |members|
    ensures forall k :: 0 <= k < |members| ==> pts[k] == eps[members[k]].at
  {
    seq(|members|, k requires 0 <= k < |members| => eps[members[k]].at)
  }

  function SumX(pts: seq<Point>): real
  {
    if pts == [] then 0.0 else SumX(pts[..|pts| - 1]) + pts[|pts| - 1].x
  }

  function SumY(pts: seq<Point>): real
  {
    if pts == [] then 0.0 else SumY(pts[..|pts| - 1]) + pts[|pts| - 1].y
  }

  /** The cluster's centre: the average of its endpoint coordinates. */
  function Mean(pts: seq<Point>): Point
    requires |pts| > 0
  {
    Point(SumX(pts) / |pts| as real, SumY(pts) / |pts| as real)
  }

  /** `Math.sqrt(dx * dx + dy * dy)` between two points. */
  function Distance(sqrt: real -> real, p: Point, q: Point): real
  {
    sqrt(SquaredDistance(p, q))
  }

  /**
   * `m` is the widest distance between two of `pts`, or 0 when none is
   * positive: it bounds every pair and is 0 or attained by one.
   */
  ghost predicate IsGap(sqrt: real -> real, pts: seq<Point>, m: real)
  {
    m >= 0.0 &&
    (forall a, b :: 0 <= a < b < |pts| ==> Distance(sqrt, pts[a], pts[b]) <= m) &&
    (m == 0.0 || exists a, b :: 0 <= a < b < |pts| && m == Distance(sqrt, pts[a], pts[b]))
  }

  /** The gap of a set of points is determined by them. */
  lemma GapUnique(sqrt: real -> real, pts: seq<Point>, m1: real, m2: real)
    requires IsGap(sqrt, pts, m1) && IsGap(sqrt, pts, m2)
    ensures m1 == m2
  {
  }

  /** A single endpoint has gap 0. */
  lemma SingletonGap(sqrt: real -> real, p: Point, m: real)
    requires IsGap(sqrt, [p], m)
    ensures m == 0.0
  {
  }

  /** The `maxPairDistance` loop: the largest distance over pairs `a < b`, starting from 0. */
  method MaxPairDistance(sqrt: real -> real, pts: seq<Point>) returns (m: real)
    ensures IsGap(sqrt, pts, m)
  {
    m := 0.0;
    for a := 0 to |pts|
      invariant m >= 0.0
      invariant forall a', b :: 0 <= a' < a && a' < b < |pts| ==> Distance(sqrt, pts[a'], pts[b]) <= m
      invariant m == 0.0 || exists a', b :: 0 <= a' < b < |pts| && m == Distance(sqrt, pts[a'], pts[b])
    {
      for b := a + 1 to |pts|
        invariant m >= 0.0
        invariant forall a', b' :: 0 <= a' < a && a' < b' < |pts| ==> Distance(sqrt, pts[a'], pts[b']) <= m
        invariant forall b' :: a < b' < b ==> Distance(sqrt, pts[a], pts[b']) <= m
        invariant m == 0.0 || exists a', b' :: 0 <= a' < b' < |pts| && m == Distance(sqrt, pts[a'], pts[b'])
      {
        var dist := Distance(sqrt, pts[a], pts[b]);
        if dist > m {
          m := dist;
        }
      }
    }
  }

  // ------------------------------------------------------------------
  // The breadth-first pass
  // ------------------------------------------------------------------

  /** Each visited index below `|visited|` is counted once in `seen`, and nothing else is. */
  ghost predicate Accounts(seen: multiset<nat>, visited: seq<bool>)
  {
    forall x: nat :: seen[x] == if x < |visited| && visited[x] then 1 else 0
  }

  /** The number of endpoints not yet visited. */
  ghost function Unvisited(visited: seq<bool>): nat
  {
    if visited == [] then 0
    else Unvisited(visited[..|visited| - 1]) + if visited[|visited| - 1] then 0 else 1
  }

  lemma {:induction false} UnvisitedMark(visited: seq<bool>, j: nat)
    requires j < |visited| && !visited[j]
    ensures Unvisited(visited[j := true]) == Unvisited(visited) - 1
    decreases |visited|
  {
    var last := |visited| - 1;
    assert visited[j := true][..last] == if j == last then visited[..last] else visited[..last][j := true];
    if j < last {
      UnvisitedMark(visited[..last], j);
    }
  }

  lemma {:induction false} MemberCounted(clusters: seq<Cluster>, g: nat, x: nat)
    requires g < |clusters| && x in clusters[g].members
    ensures x in multiset(AllMembers(clusters))
    decreases |clusters|
  {
    var last := |clusters| - 1;
    if g < last {
      MemberCounted(clusters[..last], g, x);
    }
  }

  lemma {:induction false} CountedMember(clusters: seq<Cluster>, x: nat)
    requires x in multiset(AllMembers(clusters))
    ensures exists g :: 0 <= g < |clusters| && x in clusters[g].members
    decreases |clusters|
  {
    var last := |clusters| - 1;
    if x !in clusters[last].members {
      CountedMember(clusters[..last], x);
      var g :| 0 <= g < last && x in clusters[..last][g].members;
      assert x in clusters[g].members;
    }
  }

  lemma {:induction false} TwiceCounted(clusters: seq<Cluster>, g1: nat, g2: nat, x: nat)
    requires g1 < g2 < |clusters| && x in clusters[g1].members && x in clusters[g2].members
    ensures multiset(AllMembers(clusters))[x] >= 2
    decreases |clusters|
  {
    var last := |clusters| - 1;
    var prefix := clusters[..last];
    assert AllMembers(clusters) == AllMembers(prefix) + clusters[last].members;
    assert multiset(AllMembers(clusters)) == multiset(AllMembers(prefix)) + multiset(clusters[last].members);
    if g2 < last {
      assert prefix[g1] == clusters[g1] && prefix[g2] == clusters[g2];
      TwiceCounted(prefix, g1, g2, x);
    } else {
      assert prefix[g1] == clusters[g1];
      MemberCounted(prefix, g1, x);
      assert multiset(clusters[last].members)[x] >= 1;
    }
  }

  lemma AllMembersAppend(clusters: seq<Cluster>, c: Cluster)
    ensures AllMembers(clusters + [c]) == AllMembers(clusters) + c.members
  {
    assert (clusters + [c])[..|clusters|] == clusters;
  }

  /**
   * An endpoint near a member of the cluster being grown is not in a finished
   * cluster: finished clusters are closed, so the member would be in it too.
   */
  lemma NeighbourUnfinished(eps: seq<Endpoint>, clusters: seq<Cluster>, cur: seq<nat>, idx: nat, j: nat, tolSq: real)
    requires Closed(eps, clusters, tolSq)
    requires idx in cur && idx < |eps| && j < |eps| && Near(eps[idx].at, eps[j].at, tolSq)
    requires (multiset(AllMembers(clusters)) + multiset(cur))[idx] <= 1
    ensures j !in multiset(AllMembers(clusters))
  {
    if j in multiset(AllMembers(clusters)) {
      CountedMember(clusters, j);
      var g :| 0 <= g < |clusters| && j in clusters[g].members;
      NearSymmetric(eps[idx].at, eps[j].at, tolSq);
      assert idx in clusters[g].members;
      MemberCounted(clusters, g, idx);
      assert false;
    }
  }

  /**
   * The state of the scan of endpoint `idx` once indices below `j` are done:
   * `queue'` is `queue` followed by the newly visited endpoints, each near
   * `idx`, and every endpoint below `j` near `idx` is visited.
   */
  ghost predicate ScanInv(eps: seq<Endpoint>, idx: nat, tolSq: real, queue: seq<nat>, v0: seq<bool>,
                          queue': seq<nat>, v: seq<bool>, j: nat)
  {
    |v0| == |eps| && |v| == |eps| && idx < |eps| && j <= |eps| &&
    |queue| <= |queue'| && queue'[..|queue|] == queue &&
    (forall k :: |queue| <= k < |queue'| ==> queue'[k] < |eps| && Near(eps[idx].at, eps[queue'[k]].at, tolSq)) &&
    (forall x: nat :: multiset(queue')[x] == multiset(queue)[x] + if x < |eps| && v[x] && !v0[x] then 1 else 0) &&
    |queue'| - |queue| + Unvisited(v) == Unvisited(v0) &&
    (forall x :: 0 <= x < |eps| && v0[x] ==> v[x]) &&
    (forall x :: j <= x < |eps| ==> v[x] == v0[x]) &&
    (forall x :: 0 <= x < j && Near(eps[idx].at, eps[x].at, tolSq) ==> v[x])
  }

  lemma ScanPush(eps: seq<Endpoint>, idx: nat, tolSq: real, queue: seq<nat>, v0: seq<bool>,
                 queue': seq<nat>, v: seq<bool>, j: nat)
    requires ScanInv(eps, idx, tolSq, queue, v0, queue', v, j)
    requires j < |eps| && !v[j] && Near(eps[idx].at, eps[j].at, tolSq)
    ensures ScanInv(eps, idx, tolSq, queue, v0, queue' + [j], v[j := true], j + 1)
  {
    UnvisitedMark(v, j);
    var q, w := queue' + [j], v[j := true];
    assert q[..|queue|] == queue;
    assert multiset(q) == multiset(queue') + multiset{j};
  }

  lemma ScanSkip(eps: seq<Endpoint>, idx: nat, tolSq: real, queue: seq<nat>, v0: seq<bool>,
                 queue': seq<nat>, v: seq<bool>, j: nat)
    requires ScanInv(eps, idx, tolSq, queue, v0, queue', v, j)
    requires j < |eps| && (v[j] || !Near(eps[idx].at, eps[j].at, tolSq))
    ensures ScanInv(eps, idx, tolSq, queue, v0, queue', v, j + 1)
  {
  }

  /**
   * The inner scan of one popped endpoint `idx`: every unvisited endpoint near
   * it is marked visited and pushed on the queue.
   */
  method ScanNeighbours(eps: seq<Endpoint>, visited: array<bool>, idx: nat, tolSq: real, queue: seq<nat>)
    returns (queue': seq<nat>)
    requires visited.Length == |eps| && idx < |eps|
    modifies visited
    ensures ScanInv(eps, idx, tolSq, queue, old(visited[..]), queue', visited[..], |eps|)
  {
    ghost var v0 := visited[..];
    queue' := queue;
    assert queue'[..|queue|] == queue;
    for j := 0 to |eps|
      invariant ScanInv(eps, idx, tolSq, queue, v0, queue', visited[..], j)
    {
      var other := eps[j];
      var dx := eps[idx].at.x - other.at.x;
      var dy := eps[idx].at.y - other.at.y;
      SqValue(dx);
      SqValue(dy);
      if !visited[j] && dx * dx + dy * dy <= tolSq {
        ghost var vj := visited[..];
        ScanPush(eps, idx, tolSq, queue, v0, queue', vj, j);
        visited[j] := true;
        assert visited[..] == vj[j := true];
        queue' := queue' + [j];
      } else {
        ScanSkip(eps, idx, tolSq, queue, v0, queue', visited[..], j);
      }
    }
  }

  /** Every neighbour of a member of `cur` is in `cur` or waiting in `queue`. */
  ghost predicate Absorbs(eps: seq<Endpoint>, cur: seq<nat>, queue: seq<nat>, tolSq: real)
  {
    forall m, j :: (m in cur && m < |eps| && 0 <= j < |eps| && Near(eps[m].at, eps[j].at, tolSq)) ==>
      j in cur || j in queue
  }

  /** Every queued endpoint is near a member of `cur`. */
  ghost predicate Parented(eps: seq<Endpoint>, cur: seq<nat>, queue: seq<nat>, tolSq: real)
  {
    (forall k :: 0 <= k < |cur| ==> cur[k] < |eps|) &&
    (forall k :: 0 <= k < |queue| ==> queue[k] < |eps|) &&
    forall k :: 0 <= k < |queue| ==>
      exists k' :: 0 <= k' < |cur| && Near(eps[cur[k']].at, eps[queue[k]].at, tolSq)
  }

  /**
   * The state of the cluster grown from `i`: `members` (the finished
   * clusters), `cur` and `queue` together count each visited endpoint once;
   * every neighbour of `cur` is in `cur` or `queue`; `cur` is linked and
   * every queued endpoint is near a member of `cur`.
   */
  ghost predicate GrowInv(eps: seq<Endpoint>, members: multiset<nat>, v0: seq<bool>, i: nat, tolSq: real,
                          cur: seq<nat>, queue: seq<nat>, v: seq<bool>)
  {
    |v0| == |eps| && |v| == |eps| && i < |eps| &&
    Accounts(members + multiset(cur) + multiset(queue), v) &&
    (forall x :: 0 <= x < |eps| && v0[x] ==> v[x]) &&
    (forall k :: 0 <= k < |cur| ==> cur[k] < |eps|) &&
    (forall k :: 0 <= k < |queue| ==> queue[k] < |eps|) &&
    (cur == [] ==> queue == [i]) &&
    (cur != [] ==> cur[0] == i) &&
    Absorbs(eps, cur, queue, tolSq) &&
    Linked(eps, cur, tolSq) &&
    (cur != [] ==> Parented(eps, cur, queue, tolSq))
  }

  /** The selections of `ScanInv` that `GrowStep` needs, stated over one popped endpoint. */
  ghost predicate Scanned(eps: seq<Endpoint>, idx: nat, tolSq: real, rest: seq<nat>, v: seq<bool>,
                          queue': seq<nat>, v': seq<bool>)
  {
    |v| == |eps| && |v'| == |eps| && idx < |eps| &&
    |rest| <= |queue'| && queue'[..|rest|] == rest &&
    (forall k :: |rest| <= k < |queue'| ==> queue'[k] < |eps| && Near(eps[idx].at, eps[queue'[k]].at, tolSq)) &&
    (forall x: nat :: multiset(queue')[x] == multiset(rest)[x] + if x < |eps| && v'[x] && !v[x] then 1 else 0) &&
    (forall x :: 0 <= x < |eps| && v[x] ==> v'[x]) &&
    (forall x :: 0 <= x < |eps| && Near(eps[idx].at, eps[x].at, tolSq) ==> v'[x])
  }

  lemma StepCounts(members: multiset<nat>, cur: seq<nat>, rest: seq<nat>, idx: nat, v: seq<bool>,
                   queue': seq<nat>, v': seq<bool>)
    requires |v| == |v'|
    requires Accounts(members + multiset(cur) + multiset(rest + [idx]), v)
    requires forall x: nat :: multiset(queue')[x] == multiset(rest)[x] + if x < |v| && v'[x] && !v[x] then 1 else 0
    requires forall x :: 0 <= x < |v| && v[x] ==> v'[x]
    ensures Accounts(members + multiset(cur + [idx]) + multiset(queue'), v')
  {
    assert multiset(rest + [idx]) == multiset(rest) + multiset{idx};
    assert multiset(cur + [idx]) == multiset(cur) + multiset{idx};
  }

  lemma StepLinked(eps: seq<Endpoint>, cur: seq<nat>, idx: nat, tolSq: real)
    requires idx < |eps| && Linked(eps, cur, tolSq)
    requires cur != [] ==> exists k' :: 0 <= k' < |cur| && Near(eps[cur[k']].at, eps[idx].at, tolSq)
    ensures Linked(eps, cur + [idx], tolSq)
  {
    var cur' := cur + [idx];
    assert forall k :: 0 <= k < |cur'| ==> cur'[k] < |eps|;
    forall k | 0 < k < |cur'|
      ensures exists k' :: 0 <= k' < k && Near(eps[cur'[k']].at, eps[cur'[k]].at, tolSq)
    {
      if k < |cur| {
        var k' :| 0 <= k' < k && Near(eps[cur[k']].at, eps[cur[k]].at, tolSq);
        assert cur'[k'] == cur[k'] && cur'[k] == cur[k];
        assert Near(eps[cur'[k']].at, eps[cur'[k]].at, tolSq);
      } else {
        var k' :| 0 <= k' < |cur| && Near(eps[cur[k']].at, eps[idx].at, tolSq);
        assert cur'[k'] == cur[k'] && cur'[k] == idx;
        assert Near(eps[cur'[k']].at, eps[cur'[k]].at, tolSq);
      }
    }
    assert forall k :: 0 < k < |cur'| ==>
      exists k' :: 0 <= k' < k && Near(eps[cur'[k']].at, eps[cur'[k]].at, tolSq);
    assert Linked(eps, cur', tolSq);
  }

  lemma StepAbsorbs(eps: seq<Endpoint>, clusters: seq<Cluster>, cur: seq<nat>, rest: seq<nat>, idx: nat,
                    tolSq: real, queue': seq<nat>, v': seq<bool>)
    requires Closed(eps, clusters, tolSq)
    requires |v'| == |eps| && idx < |eps|
    requires Absorbs(eps, cur, rest + [idx], tolSq)
    requires Accounts(multiset(AllMembers(clusters)) + multiset(cur + [idx]) + multiset(queue'), v')
    requires |rest| <= |queue'| && queue'[..|rest|] == rest
    requires forall x :: 0 <= x < |eps| && Near(eps[idx].at, eps[x].at, tolSq) ==> v'[x]
    ensures Absorbs(eps, cur + [idx], queue', tolSq)
  {
    var cur' := cur + [idx];
    forall m, j | m in cur' && m < |eps| && 0 <= j < |eps| && Near(eps[m].at, eps[j].at, tolSq)
      ensures j in cur' || j in queue'
    {
      if m == idx {
        assert (multiset(AllMembers(clusters)) + multiset(cur'))[idx] <= 1;
        NeighbourUnfinished(eps, clusters, cur', idx, j, tolSq);
        assert v'[j];
      } else {
        assert m in cur;
        assert j in cur || j in rest + [idx];
        if j in rest {
          var k :| 0 <= k < |rest| && rest[k] == j;
          assert queue'[k] == j;
        }
      }
    }
  }

  lemma StepParented(eps: seq<Endpoint>, cur: seq<nat>, rest: seq<nat>, idx: nat, tolSq: real, queue': seq<nat>)
    requires forall k :: 0 <= k < |cur| ==> cur[k] < |eps|
    requires forall k :: 0 <= k < |rest| ==> rest[k] < |eps|
    requires idx < |eps|
    requires cur != [] ==> Parented(eps, cur, rest, tolSq)
    requires |rest| <= |queue'| && queue'[..|rest|] == rest
    requires forall k :: |rest| <= k < |queue'| ==> queue'[k] < |eps| && Near(eps[idx].at, eps[queue'[k]].at, tolSq)
    requires cur == [] ==> rest == []
    ensures Parented(eps, cur + [idx], queue', tolSq)
  {
    var cur' := cur + [idx];
    assert forall k :: 0 <= k < |cur'| ==> cur'[k] < |eps|;
    forall k | 0 <= k < |queue'|
      ensures queue'[k] < |eps|
    {
      if k < |rest| {
        assert queue'[k] == rest[k];
      }
    }
    forall k | 0 <= k < |queue'|
      ensures exists k' :: 0 <= k' < |cur'| && Near(eps[cur'[k']].at, eps[queue'[k]].at, tolSq)
    {
      if k < |rest| {
        assert queue'[k] == rest[k];
        var k' :| 0 <= k' < |cur| && Near(eps[cur[k']].at, eps[rest[k]].at, tolSq);
        assert cur'[k'] == cur[k'];
        assert Near(eps[cur'[k']].at, eps[queue'[k]].at, tolSq);
      } else {
        assert cur'[|cur|] == idx;
        assert Near(eps[cur'[|cur|]].at, eps[queue'[k]].at, tolSq);
      }
    }
    assert Parented(eps, cur', queue', tolSq);
  }

  /** Popping the last queued endpoint, adding it to `cur` and scanning it keeps `GrowInv`. */
  lemma GrowStep(eps: seq<Endpoint>, clusters: seq<Cluster>, v0: seq<bool>, i: nat, tolSq: real,
                 cur: seq<nat>, queue: seq<nat>, rest: seq<nat>, idx: nat, v: seq<bool>, queue': seq<nat>, v': seq<bool>)
    requires Closed(eps, clusters, tolSq) && queue == rest + [idx]
    requires GrowInv(eps, multiset(AllMembers(clusters)), v0, i, tolSq, cur, queue, v)
    requires Scanned(eps, idx, tolSq, rest, v, queue', v')
    ensures GrowInv(eps, multiset(AllMembers(clusters)), v0, i, tolSq, cur + [idx], queue', v')
  {
    assert queue[|rest|] == idx;
    forall k | 0 <= k < |rest| ensures rest[k] < |eps| {
      assert rest[k] == queue[k];
    }
    StepCounts(multiset(AllMembers(clusters)), cur, rest, idx, v, queue', v');
    if cur != [] {
      assert exists k' :: 0 <= k' < |cur| && Near(eps[cur[k']].at, eps[queue[|rest|]].at, tolSq);
      forall k | 0 <= k < |rest|
        ensures exists k' :: 0 <= k' < |cur| && Near(eps[cur[k']].at, eps[rest[k]].at, tolSq)
      {
        assert rest[k] == queue[k];
      }
    }
    StepLinked(eps, cur, idx, tolSq);
    StepAbsorbs(eps, clusters, cur, rest, idx, tolSq, queue', v');
    StepParented(eps, cur, rest, idx, tolSq, queue');
  }

  /** A finished scan provides what `GrowStep` needs, and the pass makes progress. */
  lemma ScanDone(eps: seq<Endpoint>, idx: nat, tolSq: real, rest: seq<nat>, v: seq<bool>, queue': seq<nat>, v': seq<bool>)
    requires ScanInv(eps, idx, tolSq, rest, v, queue', v', |eps|)
    ensures Scanned(eps, idx, tolSq, rest, v, queue', v')
    ensures Unvisited(v') < Unvisited(v) || (Unvisited(v') == Unvisited(v) && |queue'| < |rest| + 1)
  {
  }

  /**
   * The `while (queue.length)` loop grown from endpoint `i`: pops the most
   * recently pushed index, adds it to the cluster and scans its neighbours.
   */
  method GrowCluster(eps: seq<Endpoint>, visited: array<bool>, i: nat, tolSq: real, ghost clusters: seq<Cluster>)
    returns (cur: seq<nat>)
    requires visited.Length == |eps| && i < |eps| && !visited[i]
    requires Accounts(multiset(AllMembers(clusters)), visited[..])
    requires Closed(eps, clusters, tolSq)
    modifies visited
    ensures GrowInv(eps, multiset(AllMembers(clusters)), old(visited[..]), i, tolSq, cur, [], visited[..])
  {
    ghost var members := multiset(AllMembers(clusters));
    ghost var v0 := visited[..];
    var queue: seq<nat> := [i];
    visited[i] := true;
    cur := [];
    assert visited[..] == v0[i := true];
    while |queue| > 0
      invariant GrowInv(eps, members, v0, i, tolSq, cur, queue, visited[..])
      decreases Unvisited(visited[..]), |queue|
    {
      cur, queue := PopAndScan(eps, visited, tolSq, clusters, v0, i, cur, queue);
    }
  }

  /** One pass of the `while (queue.length)` loop: pop, add to the cluster, scan the neighbours. */
  method PopAndScan(eps: seq<Endpoint>, visited: array<bool>, tolSq: real, ghost clusters: seq<Cluster>,
                    ghost v0: seq<bool>, ghost i: nat, cur: seq<nat>, queue: seq<nat>)
    returns (cur': seq<nat>, queue': seq<nat>)
    requires visited.Length == |eps| && |queue| > 0 && Closed(eps, clusters, tolSq)
    requires GrowInv(eps, multiset(AllMembers(clusters)), v0, i, tolSq, cur, queue, visited[..])
    modifies visited
    ensures GrowInv(eps, multiset(AllMembers(clusters)), v0, i, tolSq, cur', queue', visited[..])
    ensures Unvisited(visited[..]) < Unvisited(old(visited[..])) ||
            (Unvisited(visited[..]) == Unvisited(old(visited[..])) && |queue'| < |queue|)
  {
    var idx := queue[|queue| - 1];
    var rest := queue[..|queue| - 1];
    assert queue == rest + [idx];
    ghost var w0 := visited[..];
    queue' := ScanNeighbours(eps, visited, idx, tolSq, rest);
    ScanDone(eps, idx, tolSq, rest, w0, queue', visited[..]);
    GrowStep(eps, clusters, v0, i, tolSq, cur, queue, rest, idx, w0, queue', visited[..]);
    cur' := cur + [idx];
  }

  /** A cluster record of `buildEndpointClusters`: non-empty, its centre the mean and its gap the widest pair. */
  ghost predicate Summarises(sqrt: real -> real, eps: seq<Endpoint>, c: Cluster)
  {
    |c.members| > 0 && (forall k :: 0 <= k < |c.members| ==> c.members[k] < |eps|) &&
    c.center == Mean(PointsOf(eps, c.members)) &&
    IsGap(sqrt, PointsOf(eps, c.members), c.maxPairDistance)
  }

  lemma ClosedAppend(eps: seq<Endpoint>, clusters: seq<Cluster>, c: Cluster, tolSq: real)
    requires Closed(eps, clusters, tolSq) && Absorbs(eps, c.members, [], tolSq)
    ensures Closed(eps, clusters + [c], tolSq)
  {
    var cs := clusters + [c];
    forall g, m, j | 0 <= g < |cs| && m in cs[g].members && m < |eps| && 0 <= j < |eps| &&
                     Near(eps[m].at, eps[j].at, tolSq)
      ensures j in cs[g].members
    {
      if g < |clusters| {
        assert cs[g] == clusters[g];
      }
    }
  }

  /** The endpoint list built by the first loop of `buildEndpointClusters`. */
  method CollectEndpoints(lines: seq<Line>) returns (eps: seq<Endpoint>)
    ensures eps == Endpoints(lines)
  {
    eps := [];
    for k := 0 to |lines|
      invariant eps == Endpoints(lines[..k])
    {
      assert lines[..k + 1][..k] == lines[..k];
      eps := eps + [Endpoint(StartOf(lines[k]), lines[k], Start), Endpoint(EndOf(lines[k]), lines[k], End)];
    }
    assert lines[..|lines|] == lines;
  }

  /** The state of the pass once the endpoints below `i` have been tried as seeds. */
  ghost predicate PassInv(sqrt: real -> real, eps: seq<Endpoint>, tolSq: real, clusters: seq<Cluster>,
                          v: seq<bool>, i: nat)
  {
    |v| == |eps| && i <= |eps| &&
    Accounts(multiset(AllMembers(clusters)), v) &&
    (forall x :: 0 <= x < i ==> v[x]) &&
    Closed(eps, clusters, tolSq) &&
    Connected(eps, clusters, tolSq) &&
    (forall g :: 0 <= g < |clusters| ==> Summarises(sqrt, eps, clusters[g]))
  }

  lemma PassSkip(sqrt: real -> real, eps: seq<Endpoint>, tolSq: real, clusters: seq<Cluster>, v: seq<bool>, i: nat)
    requires PassInv(sqrt, eps, tolSq, clusters, v, i) && i < |eps| && v[i]
    ensures PassInv(sqrt, eps, tolSq, clusters, v, i + 1)
  {
  }

  /** Appending the cluster grown from seed `i` keeps `PassInv`. */
  lemma PassStep(sqrt: real -> real, eps: seq<Endpoint>, tolSq: real, clusters: seq<Cluster>,
                 v: seq<bool>, i: nat, cur: seq<nat>, v': seq<bool>, gap: real)
    requires PassInv(sqrt, eps, tolSq, clusters, v, i) && i < |eps| && !v[i]
    requires GrowInv(eps, multiset(AllMembers(clusters)), v, i, tolSq, cur, [], v')
    requires forall k :: 0 <= k < |cur| ==> cur[k] < |eps|
    requires IsGap(sqrt, PointsOf(eps, cur), gap)
    ensures PassInv(sqrt, eps, tolSq, clusters + [Cluster(Mean(PointsOf(eps, cur)), cur, gap)], v', i + 1)
  {
    var c := Cluster(Mean(PointsOf(eps, cur)), cur, gap);
    PassCounts(clusters, c, v, v', i);
    ClosedAppend(eps, clusters, c, tolSq);
    assert Summarises(sqrt, eps, c);
    SummarisedAppend(sqrt, eps, clusters, c);
    ConnectedAppend(eps, clusters, c, tolSq);
  }

  lemma PassCounts(clusters: seq<Cluster>, c: Cluster, v: seq<bool>, v': seq<bool>, i: nat)
    requires |v| == |v'| && i < |v|
    requires forall x :: 0 <= x < i ==> v[x]
    requires forall x :: 0 <= x < |v| && v[x] ==> v'[x]
    requires Accounts(multiset(AllMembers(clusters)) + multiset(c.members) + multiset([]), v')
    requires c.members != [] && c.members[0] == i
    ensures Accounts(multiset(AllMembers(clusters + [c])), v')
    ensures forall x :: 0 <= x < i + 1 ==> v'[x]
  {
    AllMembersAppend(clusters, c);
    assert multiset(c.members) + multiset([]) == multiset(c.members);
    assert i in multiset(c.members);
  }

  lemma SummarisedAppend(sqrt: real -> real, eps: seq<Endpoint>, clusters: seq<Cluster>, c: Cluster)
    requires forall g :: 0 <= g < |clusters| ==> Summarises(sqrt, eps, clusters[g])
    requires Summarises(sqrt, eps, c)
    ensures forall g :: 0 <= g < |clusters + [c]| ==> Summarises(sqrt, eps, (clusters + [c])[g])
  {
    forall g | 0 <= g < |clusters + [c]| ensures Summarises(sqrt, eps, (clusters + [c])[g]) {
      if g < |clusters| {
        assert (clusters + [c])[g] == clusters[g];
      }
    }
  }

  lemma ConnectedAppend(eps: seq<Endpoint>, clusters: seq<Cluster>, c: Cluster, tolSq: real)
    requires Connected(eps, clusters, tolSq) && Linked(eps, c.members, tolSq)
    ensures Connected(eps, clusters + [c], tolSq)
  {
    forall g | 0 <= g < |clusters + [c]| ensures Linked(eps, (clusters + [c])[g].members, tolSq) {
      if g < |clusters| {
        assert (clusters + [c])[g] == clusters[g];
      }
    }
  }

  /**
   * `buildEndpointClusters(lines, tolerance)`: a breadth-first pass over the
   * endpoints with a `visited` array. The clusters partition the endpoints,
   * each endpoint near a member joins its cluster, and every member after the
   * first was reached from an earlier one.
   */
  method BuildEndpointClusters(sqrt: real -> real, lines: seq<Line>, tolerance: real)
    returns (clusters: seq<Cluster>)
    ensures Partitions(clusters, 2 * |lines|)
    ensures Closed(Endpoints(lines), clusters, tolerance * tolerance)
    ensures Connected(Endpoints(lines), clusters, tolerance * tolerance)
    ensures forall g :: 0 <= g < |clusters| ==> Summarises(sqrt, Endpoints(lines), clusters[g])
  {
    var eps := CollectEndpoints(lines);
    var n := |eps|;
    var tolSq := tolerance * tolerance;
    var visited := new bool[n](_ => false);
    clusters := [];
    for i := 0 to n
      invariant PassInv(sqrt, eps, tolSq, clusters, visited[..], i)
    {
      if visited[i] {
        PassSkip(sqrt, eps, tolSq, clusters, visited[..], i);
        continue;
      }
      ghost var v := visited[..];
      var cur := GrowCluster(eps, visited, i, tolSq, clusters);
      var points := PointsOf(eps, cur);
      var gap := MaxPairDistance(sqrt, points);
      PassStep(sqrt, eps, tolSq, clusters, v, i, cur, visited[..], gap);
      clusters := clusters + [Cluster(Mean(points), cur, gap)];
    }
  }

  /** Each endpoint lies in exactly one cluster. */
  lemma EachEndpointInOneCluster(clusters: seq<Cluster>, n: nat, x: nat)
    requires Partitions(clusters, n) && x < n
    ensures exists g :: 0 <= g < |clusters| && x in clusters[g].members
    ensures forall g1, g2 ::
              (0 <= g1 < |clusters| && 0 <= g2 < |clusters| &&
               x in clusters[g1].members && x in clusters[g2].members) ==> g1 == g2
  {
    CountedMember(clusters, x);
    forall g1, g2 | 0 <= g1 < |clusters| && 0 <= g2 < |clusters| &&
                    x in clusters[g1].members && x in clusters[g2].members
      ensures g1 == g2
    {
      if g1 < g2 {
        TwiceCounted(clusters, g1, g2, x);
      } else if g2 < g1 {
        TwiceCounted(clusters, g2, g1, x);
      }
    }
  }

  /** A chain of endpoints, each near the next. */
  ghost predicate Chain(eps: seq<Endpoint>, path: seq<nat>, tolSq: real)
  {
    (forall k :: 0 <= k < |path| ==> path[k] < |eps|) &&
    forall k :: 0 <= k < |path| - 1 ==> Near(eps[path[k]].at, eps[path[k + 1]].at, tolSq)
  }

  /** Endpoints linked by a chain of near steps end up in the same cluster. */
  lemma {:induction false} ChainStaysInCluster(eps: seq<Endpoint>, clusters: seq<Cluster>, tolSq: real,
                                               path: seq<nat>, g: nat)
    requires Closed(eps, clusters, tolSq) && Chain(eps, path, tolSq)
    requires g < |clusters| && |path| > 0 && path[0] in clusters[g].members
    ensures forall k :: 0 <= k < |path| ==> path[k] in clusters[g].members
    decreases |path|
  {
    if |path| > 1 {
      var prefix := path[..|path| - 1];
      assert Chain(eps, prefix, tolSq);
      ChainStaysInCluster(eps, clusters, tolSq, prefix, g);
      assert prefix[|path| - 2] == path[|path| - 2];
    }
  }

  // ------------------------------------------------------------------
  // Misaligned joints
  // ------------------------------------------------------------------

  /** What `recomputeJointIssues` records for a misaligned joint. */
  datatype Issue = Issue(at: Point, offInches: real, members: seq<nat>)

  /** A joint of two or more endpoints spread wider than the threshold; a gap of exactly 0.25 is not flagged. */
  predicate Flagged(c: Cluster)
  {
    |c.members| >= 2 && c.maxPairDistance > JointGapThreshold
  }

  function IssueOf(c: Cluster): Issue
  {
    Issue(c.center, c.maxPairDistance, c.members)
  }

  /** The joint keys of a cluster's endpoints; `keyOf` stands for `jointKeyFromWorld`. */
  function Keys<K(==)>(eps: seq<Endpoint>, keyOf: Point -> K, members: seq<nat>): set<K>
  {
    set m | m in members && m < |eps| :: keyOf(eps[m].at)
  }

  /** The map the loop of `recomputeJointIssues` builds, cluster by cluster, later keys overwriting earlier ones. */
  function JointIssues<K(==)>(eps: seq<Endpoint>, keyOf: Point -> K, clusters: seq<Cluster>): map<K, Issue>
  {
    if clusters == [] then map[]
    else
      var before := JointIssues(eps, keyOf, clusters[..|clusters| - 1]);
      var c := clusters[|clusters| - 1];
      if Flagged(c) then before + map key | key in Keys(eps, keyOf, c.members) :: IssueOf(c)
      else before
  }

  /** Keys every endpoint of one flagged cluster to its issue: the inner loop of `recomputeJointIssues`. */
  method RecordIssue<K(==)>(eps: seq<Endpoint>, keyOf: Point -> K, issues: map<K, Issue>, members: seq<nat>, issue: Issue)
    returns (issues': map<K, Issue>)
    requires forall k :: 0 <= k < |members| ==> members[k] < |eps|
    ensures issues' == issues + map key | key in Keys(eps, keyOf, members) :: issue
  {
    issues' := issues;
    for k := 0 to |members|
      invariant issues' == issues + map key | key in Keys(eps, keyOf, members[..k]) :: issue
    {
      var key := keyOf(eps[members[k]].at);
      KeysStep(eps, keyOf, members, k);
      IssueMapStep(issues, Keys(eps, keyOf, members[..k]), key, issue);
      issues' := issues'[key := issue];
    }
    assert members[..|members|] == members;
  }

  lemma KeysStep<K>(eps: seq<Endpoint>, keyOf: Point -> K, members: seq<nat>, k: nat)
    requires k < |members| && members[k] < |eps|
    ensures Keys(eps, keyOf, members[..k + 1]) == Keys(eps, keyOf, members[..k]) + {keyOf(eps[members[k]].at)}
  {
    assert members[..k + 1] == members[..k] + [members[k]];
  }

  lemma IssueMapStep<K>(issues: map<K, Issue>, keys: set<K>, key: K, issue: Issue)
    ensures (issues + map k | k in keys :: issue)[key := issue] == issues + map k | k in keys + {key} :: issue
  {
  }

  /** `recomputeJointIssues(clusters)`: keys every endpoint of each flagged cluster to that cluster's issue. */
  method RecomputeJointIssues<K(==)>(eps: seq<Endpoint>, keyOf: Point -> K, clusters: seq<Cluster>)
    returns (issues: map<K, Issue>)
    requires MembersBelow(clusters, |eps|)
    ensures issues == JointIssues(eps, keyOf, clusters)
  {
    issues := map[];
    for g := 0 to |clusters|
      invariant issues == JointIssues(eps, keyOf, clusters[..g])
    {
      assert clusters[..g + 1][..g] == clusters[..g];
      var cluster := clusters[g];
      if |cluster.members| < 2 {
        continue;
      }
      var gap := cluster.maxPairDistance;
      if gap <= JointGapThreshold {
        continue;
      }
      var issue := Issue(cluster.center, gap, cluster.members);
      issues := RecordIssue(eps, keyOf, issues, cluster.members, issue);
    }
    assert clusters[..|clusters|] == clusters;
  }

  /** A key has an issue exactly when some flagged cluster has an endpoint with that key. */
  lemma {:induction false} JointIssueKeys<K>(eps: seq<Endpoint>, keyOf: Point -> K, clusters: seq<Cluster>, key: K)
    ensures key in JointIssues(eps, keyOf, clusters) <==>
              exists g :: 0 <= g < |clusters| && Flagged(clusters[g]) && key in Keys(eps, keyOf, clusters[g].members)
    decreases |clusters|
  {
    if clusters != [] {
      var last := |clusters| - 1;
      JointIssueKeys(eps, keyOf, clusters[..last], key);
      if exists g :: 0 <= g < |clusters| && Flagged(clusters[g]) && key in Keys(eps, keyOf, clusters[g].members) {
        var g :| 0 <= g < |clusters| && Flagged(clusters[g]) && key in Keys(eps, keyOf, clusters[g].members);
        if g < last {
          assert clusters[..last][g] == clusters[g];
        }
      }
    }
  }

  /**
   * The issue of a key is the issue of the last flagged cluster with an
   * endpoint of that key.
   */
  lemma {:induction false} JointIssueValue<K>(eps: seq<Endpoint>, keyOf: Point -> K, clusters: seq<Cluster>, key: K)
    requires key in JointIssues(eps, keyOf, clusters)
    ensures exists g :: 0 <= g < |clusters| && Flagged(clusters[g]) && key in Keys(eps, keyOf, clusters[g].members) &&
              JointIssues(eps, keyOf, clusters)[key] == IssueOf(clusters[g]) &&
              forall g' :: g < g' < |clusters| && Flagged(clusters[g']) ==> key !in Keys(eps, keyOf, clusters[g'].members)
    decreases |clusters|
  {
    var last := |clusters| - 1;
    var c := clusters[last];
    if !(Flagged(c) && key in Keys(eps, keyOf, c.members)) {
      JointIssueValue(eps, keyOf, clusters[..last], key);
      var g :| 0 <= g < last && Flagged(clusters[..last][g]) && key in Keys(eps, keyOf, clusters[..last][g].members) &&
               JointIssues(eps, keyOf, clusters[..last])[key] == IssueOf(clusters[..last][g]) &&
               forall g' :: g < g' < last && Flagged(clusters[..last][g']) ==> key !in Keys(eps, keyOf, clusters[..last][g'].members);
      assert clusters[..last][g] == clusters[g];
      forall g' | g < g' < |clusters| && Flagged(clusters[g'])
        ensures key !in Keys(eps, keyOf, clusters[g'].members)
      {
        if g' < last {
          assert clusters[..last][g'] == clusters[g'];
        }
      }
    }
  }

  /**
   * All endpoints of a flagged cluster share its one issue, unless a later
   * flagged cluster records an endpoint with the same key.
   */
  lemma SharedIssue<K>(eps: seq<Endpoint>, keyOf: Point -> K, clusters: seq<Cluster>, g: nat, key: K)
    requires g < |clusters| && Flagged(clusters[g]) && key in Keys(eps, keyOf, clusters[g].members)
    requires forall g' :: g < g' < |clusters| && Flagged(clusters[g']) ==> key !in Keys(eps, keyOf, clusters[g'].members)
    ensures key in JointIssues(eps, keyOf, clusters)
    ensures JointIssues(eps, keyOf, clusters)[key] == IssueOf(clusters[g])
  {
    JointIssueKeys(eps, keyOf, clusters, key);
    JointIssueValue(eps, keyOf, clusters, key);
    var h :| 0 <= h < |clusters| && Flagged(clusters[h]) && key in Keys(eps, keyOf, clusters[h].members) &&
             JointIssues(eps, keyOf, clusters)[key] == IssueOf(clusters[h]) &&
             forall g' :: h < g' < |clusters| && Flagged(clusters[g']) ==> key !in Keys(eps, keyOf, clusters[g'].members);
    assert h == g;
  }

  // ------------------------------------------------------------------
  // Joint polygons
  // ------------------------------------------------------------------

  /** The joints `fillJointPolygons` considers: two or more endpoints, gap within the threshold. */
  predicate PolygonCandidate(c: Cluster)
  {
    !(|c.members| < 2) && !(c.maxPairDistance > JointGapThreshold)
  }

  /** Among joints of two or more endpoints, the polygon candidates are exactly the unflagged ones. */
  lemma CandidatesAreUnflagged(c: Cluster)
    requires |c.members| >= 2
    ensures PolygonCandidate(c) <==> !Flagged(c)
  {
  }

  /** The face and back corners at a wall's two ends. */
  datatype Corners = Corners(startFace: Point, startBack: Point, endFace: Point, endBack: Point)

  /** The endpoint's pair of corners, when its line is a wall whose corners were recorded. */
  function CornerPair(corners: map<int, Corners>, ep: Endpoint): Option<seq<Point>>
  {
    if LineKind(ep.line) != Wall || ep.line.id !in corners then None
    else
      var c := corners[ep.line.id];
      Some(if ep.which == Start then [c.startFace, c.startBack] else [c.endFace, c.endBack])
  }

  /** The corner points gathered for a joint, two per wall endpoint with recorded corners. */
  function GatheredCorners(eps: seq<Endpoint>, corners: map<int, Corners>, members: seq<nat>): (pts: seq<Point>)
    requires forall k :: 0 <= k < |members| ==> members[k] < |eps|
    ensures |pts| == 2 * CorneredCount(eps, corners, members)
  {
    if members == [] then []
    else
      var rest := GatheredCorners(eps, corners, members[..|members| - 1]);
      match CornerPair(corners, eps[members[|members| - 1]])
      case None => rest
      case Some(pair) => rest + pair
  }

  /** How many of the members are wall endpoints with recorded corners. */
  function CorneredCount(eps: seq<Endpoint>, corners: map<int, Corners>, members: seq<nat>): nat
    requires forall k :: 0 <= k < |members| ==> members[k] < |eps|
  {
    if members == [] then 0
    else
      CorneredCount(eps, corners, members[..|members| - 1]) +
      if CornerPair(corners, eps[members[|members| - 1]]).Some? then 1 else 0
  }

  /** The gathering loop of `fillJointPolygons` for one joint. */
  method GatherJointPoints(eps: seq<Endpoint>, corners: map<int, Corners>, c: Cluster) returns (points: seq<Point>)
    requires forall k :: 0 <= k < |c.members| ==> c.members[k] < |eps|
    ensures points == GatheredCorners(eps, corners, c.members)
  {
    points := [];
    for k := 0 to |c.members|
      invariant points == GatheredCorners(eps, corners, c.members[..k])
    {
      assert c.members[..k + 1][..k] == c.members[..k];
      var ep := eps[c.members[k]];
      if LineKind(ep.line) != Wall {
        continue;
      }
      if ep.line.id !in corners {
        continue;
      }
      var wc := corners[ep.line.id];
      var pair := if ep.which == Start then [wc.startFace, wc.startBack] else [wc.endFace, wc.endBack];
      points := points + [pair[0], pair[1]];
    }
    assert c.members[..|c.members|] == c.members;
  }

  /** `fillJointPolygons` draws a joint: a candidate with at least three gathered corner points. */
  predicate DrawsJointPolygon(eps: seq<Endpoint>, corners: map<int, Corners>, c: Cluster)
    requires forall k :: 0 <= k < |c.members| ==> c.members[k] < |eps|
  {
    PolygonCandidate(c) && !(|GatheredCorners(eps, corners, c.members)| < 3)
  }

  /** A joint polygon is drawn exactly for an unflagged joint with two or more wall endpoints that have corners. */
  lemma DrawnJointPolygons(eps: seq<Endpoint>, corners: map<int, Corners>, c: Cluster)
    requires forall k :: 0 <= k < |c.members| ==> c.members[k] < |eps|
    ensures DrawsJointPolygon(eps, corners, c) <==>
              |c.members| >= 2 && !Flagged(c) && CorneredCount(eps, corners, c.members) >= 2
  {
  }

  // ------------------------------------------------------------------
  // Openings on a wall
  // ------------------------------------------------------------------

  /** An opening on a wall and its span `[tStart, tEnd]` measured along the wall from its start. */
  datatype Placement = Placement(element: Line, tStart: real, tEnd: real)

  function Min(a: real, b: real): real
  {
    if a <= b then a else b
  }

  function Max(a: real, b: real): real
  {
    if a >= b then a else b
  }

  /** The wall's unit direction `(dx, dy) / len`. */
  function UnitDirection(sqrt: real -> real, wall: Line): Point
    requires LineLength(sqrt, wall) != 0.0
  {
    var wlen := LineLength(sqrt, wall);
    Point((wall.x2 - wall.x1) / wlen, (wall.y2 - wall.y1) / wlen)
  }

  /** The projection of `p - start` on the direction `u`. */
  function Project(wall: Line, u: Point, p: Point): real
  {
    (p.x - wall.x1) * u.x + (p.y - wall.y1) * u.y
  }

  /** The point at distance `t` from the wall's start along the direction `u`. */
  function Foot(wall: Line, u: Point, t: real): Point
  {
    Point(wall.x1 + u.x * t, wall.y1 + u.y * t)
  }

  /** The position of `p` along `wall`: its projection on the wall's unit direction. */
  function Along(sqrt: real -> real, wall: Line, p: Point): real
    requires LineLength(sqrt, wall) != 0.0
  {
    Project(wall, UnitDirection(sqrt, wall), p)
  }

  /** The element's endpoints projected on the wall, in increasing order. */
  function Span(sqrt: real -> real, wall: Line, el: Line): (r: (real, real))
    requires LineLength(sqrt, wall) != 0.0
    ensures r.0 <= r.1
    ensures var t1, t2 := Along(sqrt, wall, StartOf(el)), Along(sqrt, wall, EndOf(el));
            (r.0 == t1 && r.1 == t2) || (r.0 == t2 && r.1 == t1)
  {
    var t1, t2 := Along(sqrt, wall, StartOf(el)), Along(sqrt, wall, EndOf(el));
    (Min(t1, t2), Max(t1, t2))
  }

  /**
   * `getElementsOnWall`'s test: a door or window whose midpoint projects
   * within 5 of the wall's extent and lies less than 10 from the wall.
   */
  predicate OnWall(sqrt: real -> real, wall: Line, el: Line)
    requires LineLength(sqrt, wall) != 0.0
  {
    var wlen := LineLength(sqrt, wall);
    var mid := Midpoint(el);
    var t := Along(sqrt, wall, mid);
    var closest := Foot(wall, UnitDirection(sqrt, wall), t);
    LineKind(el) != Wall && !(t < -5.0 || t > wlen + 5.0) && Distance(sqrt, mid, closest) < 10.0
  }

  function PlacementOf(sqrt: real -> real, wall: Line, el: Line): Placement
    requires LineLength(sqrt, wall) != 0.0
  {
    var span := Span(sqrt, wall, el);
    Placement(el, span.0, span.1)
  }

  /**
   * The openings on a wall in line order. Each is a door or window of `lines`
   * passing `OnWall`, with its span in increasing order; every line passing
   * `OnWall` is among them.
   */
  function PlacementsOnWall(sqrt: real -> real, wall: Line, lines: seq<Line>): (r: seq<Placement>)
    ensures LineLength(sqrt, wall) == 0.0 ==> r == []
    ensures |r| <= |lines|
    ensures forall e :: e in r ==>
              LineLength(sqrt, wall) != 0.0 && e.element in lines && LineKind(e.element) != Wall &&
              OnWall(sqrt, wall, e.element) && e == PlacementOf(sqrt, wall, e.element) && e.tStart <= e.tEnd
    ensures forall el :: el in lines && LineLength(sqrt, wall) != 0.0 && OnWall(sqrt, wall, el) ==>
              PlacementOf(sqrt, wall, el) in r
  {
    if LineLength(sqrt, wall) == 0.0 || lines == [] then []
    else
      var rest := PlacementsOnWall(sqrt, wall, lines[..|lines| - 1]);
      var el := lines[|lines| - 1];
      assert forall l :: l in lines ==> l in lines[..|lines| - 1] || l == el;
      if OnWall(sqrt, wall, el) then rest + [PlacementOf(sqrt, wall, el)] else rest
  }

  /** One more line extends the placements by that line's placement exactly when it passes `OnWall`. */
  lemma PlacementsStep(sqrt: real -> real, wall: Line, lines: seq<Line>, k: int)
    requires LineLength(sqrt, wall) != 0.0 && 0 <= k < |lines|
    ensures PlacementsOnWall(sqrt, wall, lines[..k + 1]) ==
            PlacementsOnWall(sqrt, wall, lines[..k]) +
            (if OnWall(sqrt, wall, lines[k]) then [PlacementOf(sqrt, wall, lines[k])] else [])
  {
    assert lines[..k + 1][..k] == lines[..k];
  }

  /**
   * The loop body of `getElementsOnWall` for one line, given the wall's
   * length and unit direction: the line's placement when it is on the wall.
   */
  method PlaceOnWall(sqrt: real -> real, wall: Line, wlen: real, wu: Point, el: Line)
    returns (p: Option<Placement>)
    requires wlen == LineLength(sqrt, wall) != 0.0 && wu == UnitDirection(sqrt, wall)
    ensures p == if OnWall(sqrt, wall, el) then Some(PlacementOf(sqrt, wall, el)) else None
  {
    if LineKind(el) == Wall {
      return None;
    }
    var mid := Midpoint(el);
    var t := Project(wall, wu, mid);
    if t < -5.0 || t > wlen + 5.0 {
      return None;
    }
    var closest := Foot(wall, wu, t);
    var dist := Distance(sqrt, mid, closest);
    if dist < 10.0 {
      var t1 := Project(wall, wu, StartOf(el));
      var t2 := Project(wall, wu, EndOf(el));
      return Some(Placement(el, Min(t1, t2), Max(t1, t2)));
    }
    return None;
  }

  /** `getElementsOnWall(wall, lines)` of the 2D view. */
  method ElementsOnWall(sqrt: real -> real, wall: Line, lines: seq<Line>) returns (r: seq<Placement>)
    ensures r == PlacementsOnWall(sqrt, wall, lines)
  {
    r := [];
    var wlen := LineLength(sqrt, wall);
    if wlen == 0.0 {
      return;
    }
    var wu := Point((wall.x2 - wall.x1) / wlen, (wall.y2 - wall.y1) / wlen);
    for k := 0 to |lines|
      invariant r == PlacementsOnWall(sqrt, wall, lines[..k])
    {
      PlacementsStep(sqrt, wall, lines, k);
      var p := PlaceOnWall(sqrt, wall, wlen, wu, lines[k]);
      if p.Some? {
        r := r + [p.value];
      }
    }
    assert lines[..|lines|] == lines;
  }

  // ------------------------------------------------------------------
  // Side of the dimension line
  // ------------------------------------------------------------------

  /** The wall's unit normal `(-dy, dx) / len`. */
  function UnitNormal(sqrt: real -> real, l: Line): Point
    requires LineLength(sqrt, l) != 0.0
  {
    var len := LineLength(sqrt, l);
    Point(-(l.y2 - l.y1) / len, (l.x2 - l.x1) / len)
  }

  /** Length of the probing ray. */
  const RayLength: real := 10000.0

  /** Whether the ray from the wall's midpoint along its normal crosses `other`. */
  predicate NormalRayHits(sqrt: real -> real, wall: Line, other: Line)
    requires LineLength(sqrt, wall) != 0.0
  {
    var mid := Midpoint(wall);
    var n := UnitNormal(sqrt, wall);
    RayIntersectsSegment(mid, Point(mid.x + n.x * RayLength, mid.y + n.y * RayLength), StartOf(other), EndOf(other))
  }

  /** The walls other than `wall` (by id) that the normal ray crosses. */
  function PositiveHits(sqrt: real -> real, wall: Line, lines: seq<Line>): nat
    requires LineLength(sqrt, wall) != 0.0
  {
    if lines == [] then 0
    else
      var other := lines[|lines| - 1];
      PositiveHits(sqrt, wall, lines[..|lines| - 1]) +
      if LineKind(other) == Wall && other.id != wall.id && NormalRayHits(sqrt, wall, other) then 1 else 0
  }

  /**
   * `getWallDimensionOffset(wall, lines)`: the dimension goes to the negative
   * side exactly when the wall carries openings and its normal ray crosses an
   * odd number of other walls, which puts the room's inside on the positive side.
   */
  method WallDimensionOffset(sqrt: real -> real, wall: Line, lines: seq<Line>)
    returns (offsetDirection: int, fallbackDirection: int)
    ensures offsetDirection == 1 || offsetDirection == -1
    ensures fallbackDirection == -offsetDirection
    ensures offsetDirection == -1 <==>
              PlacementsOnWall(sqrt, wall, lines) != [] && PositiveHits(sqrt, wall, lines) % 2 == 1
  {
    var elements := ElementsOnWall(sqrt, wall, lines);
    if |elements| == 0 {
      return 1, -1;
    }
    var mid := Midpoint(wall);
    var n := UnitNormal(sqrt, wall);
    var hitsPositive := 0;
    for k := 0 to |lines|
      invariant hitsPositive == PositiveHits(sqrt, wall, lines[..k])
    {
      assert lines[..k + 1][..k] == lines[..k];
      var other := lines[k];
      if LineKind(other) != Wall || other.id == wall.id {
        continue;
      }
      if RayIntersectsSegment(mid, Point(mid.x + n.x * RayLength, mid.y + n.y * RayLength),
                              StartOf(other), EndOf(other)) {
        hitsPositive := hitsPositive + 1;
      }
    }
    assert lines[..|lines|] == lines;
    if hitsPositive % 2 == 1 {
      return -1, 1;
    } else {
      return 1, -1;
    }
  }

  // ------------------------------------------------------------------
  // The wall an opening belongs to
  // ------------------------------------------------------------------

  /** Where an opening sits on its parent wall. */
  datatype WallOffsets = WallOffsets(fromStart: real, fromEnd: real, parentWall: Line, wallLength: real)

  /** The distance from the element's midpoint to the wall's supporting line. */
  function WallScore(sqrt: real -> real, el: Line, wall: Line): real
    requires IsSqrt(sqrt) && LineLength(sqrt, wall) != 0.0
  {
    ZeroLengthIff(sqrt, wall);
    var mid := Midpoint(el);
    var t := FootParameter(mid, StartOf(wall), EndOf(wall));
    Distance(sqrt, mid, PointAlong(StartOf(wall), EndOf(wall), t))
  }

  /** `|elemU · wallU|`: how parallel the element is to the wall. */
  function Alignment(sqrt: real -> real, el: Line, wall: Line): real
    requires LineLength(sqrt, el) != 0.0 && LineLength(sqrt, wall) != 0.0
  {
    var elen, wlen := LineLength(sqrt, el), LineLength(sqrt, wall);
    Abs((el.x2 - el.x1) / elen * ((wall.x2 - wall.x1) / wlen) + (el.y2 - el.y1) / elen * ((wall.y2 - wall.y1) / wlen))
  }

  /**
   * A wall `getWallOffsetsForElement` may choose: a non-degenerate wall
   * whose extent covers the element's span within 5, close (under 10) and
   * nearly parallel (above 0.9).
   */
  predicate ParentCandidate(sqrt: real -> real, el: Line, wall: Line)
    requires IsSqrt(sqrt) && LineLength(sqrt, el) != 0.0
  {
    LineKind(wall) == Wall && LineLength(sqrt, wall) != 0.0 &&
    var span := Span(sqrt, wall, el);
    !(span.0 < -5.0 || span.1 > LineLength(sqrt, wall) + 5.0) &&
    WallScore(sqrt, el, wall) < 10.0 && Alignment(sqrt, el, wall) > 0.9
  }

  /** Line `i` is the candidate of least score, and the first of those. */
  predicate BestParent(sqrt: real -> real, el: Line, lines: seq<Line>, i: int)
    requires IsSqrt(sqrt) && LineLength(sqrt, el) != 0.0
  {
    0 <= i < |lines| && ParentCandidate(sqrt, el, lines[i]) &&
    (forall j :: 0 <= j < i && ParentCandidate(sqrt, el, lines[j]) ==>
       WallScore(sqrt, el, lines[i]) < WallScore(sqrt, el, lines[j])) &&
    (forall j :: i < j < |lines| && ParentCandidate(sqrt, el, lines[j]) ==>
       WallScore(sqrt, el, lines[i]) <= WallScore(sqrt, el, lines[j]))
  }

  /** The chosen parent is unique. */
  lemma BestParentUnique(sqrt: real -> real, el: Line, lines: seq<Line>, i: int, j: int)
    requires IsSqrt(sqrt) && LineLength(sqrt, el) != 0.0
    requires BestParent(sqrt, el, lines, i) && BestParent(sqrt, el, lines, j)
    ensures i == j
  {
  }

  /** `fromStart = max(0, tMin)`, `fromEnd = max(0, wlen - tMax)` on the chosen wall. */
  function OffsetsOn(sqrt: real -> real, el: Line, wall: Line): WallOffsets
    requires LineLength(sqrt, wall) != 0.0
  {
    var span := Span(sqrt, wall, el);
    var wlen := LineLength(sqrt, wall);
    WallOffsets(Max(0.0, span.0), Max(0.0, wlen - span.1), wall, wlen)
  }

  /**
   * Both offsets are non-negative, and for an opening lying within the wall
   * the two offsets and the opening's span add up to the wall's length.
   */
  lemma OffsetsPartitionWall(sqrt: real -> real, el: Line, wall: Line)
    requires LineLength(sqrt, wall) != 0.0
    ensures OffsetsOn(sqrt, el, wall).fromStart >= 0.0 && OffsetsOn(sqrt, el, wall).fromEnd >= 0.0
    ensures var span := Span(sqrt, wall, el);
            0.0 <= span.0 && span.1 <= LineLength(sqrt, wall) ==>
              OffsetsOn(sqrt, el, wall).fromStart + (span.1 - span.0) + OffsetsOn(sqrt, el, wall).fromEnd
              == LineLength(sqrt, wall)
  {
  }

  /**
   * After the first `k` lines: no candidate yet, or `best` is the first
   * candidate of least score so far and `bestScore` its score.
   */
  ghost predicate ParentScan(sqrt: real -> real, el: Line, lines: seq<Line>, k: int, best: Option<nat>, bestScore: real)
    requires IsSqrt(sqrt) && LineLength(sqrt, el) != 0.0
  {
    0 <= k <= |lines| &&
    (best.None? ==> forall j :: 0 <= j < k ==> !ParentCandidate(sqrt, el, lines[j])) &&
    (best.Some? ==>
       (best.value < k && ParentCandidate(sqrt, el, lines[best.value]) &&
        bestScore == WallScore(sqrt, el, lines[best.value]) &&
        (forall j :: 0 <= j < best.value && ParentCandidate(sqrt, el, lines[j]) ==>
           bestScore < WallScore(sqrt, el, lines[j])) &&
        (forall j :: best.value < j < k && ParentCandidate(sqrt, el, lines[j]) ==>
           bestScore <= WallScore(sqrt, el, lines[j]))))
  }

  /** One wall of the search: taken when it qualifies and scores strictly lower. */
  method ConsiderWall(sqrt: real -> real, lines: seq<Line>, element: Line, k: nat, best: Option<nat>, bestScore: real)
    returns (best': Option<nat>, bestScore': real)
    requires IsSqrt(sqrt) && LineLength(sqrt, element) != 0.0
    requires k < |lines| && ParentScan(sqrt, element, lines, k, best, bestScore)
    ensures ParentScan(sqrt, element, lines, k + 1, best', bestScore')
  {
    best', bestScore' := best, bestScore;
    var wall := lines[k];
    if LineKind(wall) != Wall {
      return;
    }
    var wlen := LineLength(sqrt, wall);
    if wlen == 0.0 {
      return;
    }
    var span := Span(sqrt, wall, element);
    if span.0 < -5.0 || span.1 > wlen + 5.0 {
      return;
    }
    var dist := WallScore(sqrt, element, wall);
    var dot := Alignment(sqrt, element, wall);
    if dist < 10.0 && dot > 0.9 && (best.None? || dist < bestScore) {
      best', bestScore' := Some(k), dist;
    }
  }

  /**
   * `getWallOffsetsForElement(element)` over the plan's `lines`: null for a
   * zero-length element or when no wall qualifies, otherwise the offsets on
   * the closest qualifying wall, the first one found winning ties.
   */
  method WallOffsetsForElement(sqrt: real -> real, lines: seq<Line>, element: Line) returns (r: Option<WallOffsets>)
    requires IsSqrt(sqrt)
    ensures LineLength(sqrt, element) == 0.0 ==> r == None
    ensures LineLength(sqrt, element) != 0.0 ==>
              (r == None <==> forall i :: 0 <= i < |lines| ==> !ParentCandidate(sqrt, element, lines[i]))
    ensures r.Some? ==>
              (LineLength(sqrt, element) != 0.0 &&
               exists i :: BestParent(sqrt, element, lines, i) && r.value == OffsetsOn(sqrt, element, lines[i]))
  {
    if LineLength(sqrt, element) == 0.0 {
      return None;
    }
    var best: Option<nat> := None;
    var bestScore := 0.0;
    for k := 0 to |lines|
      invariant ParentScan(sqrt, element, lines, k, best, bestScore)
    {
      best, bestScore := ConsiderWall(sqrt, lines, element, k, best, bestScore);
    }
    if best.None? {
      return None;
    }
    assert BestParent(sqrt, element, lines, best.value);
    return Some(OffsetsOn(sqrt, element, lines[best.value]));
  }

  // ------------------------------------------------------------------
  // Wall thickness in the 2D view
  // ------------------------------------------------------------------

  /** Sums of the wall endpoints' coordinates and how many endpoints were summed. */
  function WallSums(lines: seq<Line>): (real, real, nat)
  {
    if lines == [] then (0.0, 0.0, 0)
    else
      var (sx, sy, n) := WallSums(lines[..|lines| - 1]);
      var l := lines[|lines| - 1];
      if LineKind(l) != Wall then (sx, sy, n) else (sx + l.x1 + l.x2, sy + l.y1 + l.y2, n + 2)
  }

  /** The mean of all wall endpoints, or the origin when there are no walls. */
  function Centroid(lines: seq<Line>): Point
  {
    var (sx, sy, n) := WallSums(lines);
    if n > 0 then Point(sx / n as real, sy / n as real) else Point(0.0, 0.0)
  }

  /** The centroid loop at the start of the thick-wall pass of `draw`. */
  method WallCentroid(lines: seq<Line>) returns (c: Point)
    ensures c == Centroid(lines)
  {
    var sumX, sumY, count := 0.0, 0.0, 0;
    for k := 0 to |lines|
      invariant (sumX, sumY, count) == WallSums(lines[..k])
    {
      assert lines[..k + 1][..k] == lines[..k];
      var l := lines[k];
      if LineKind(l) != Wall {
        continue;
      }
      sumX := sumX + l.x1 + l.x2;
      sumY := sumY + l.y1 + l.y2;
      count := count + 2;
    }
    assert lines[..|lines|] == lines;
    c := if count > 0 then Point(sumX / count as real, sumY / count as real) else Point(0.0, 0.0);
  }

  function Dot(u: Point, v: Point): real
  {
    u.x * v.x + u.y * v.y
  }

  function Negate(u: Point): Point
  {
    Point(-u.x, -u.y)
  }

  /** The vector from the wall's midpoint to the centroid. */
  function ToCentroid(l: Line, centroid: Point): Point
  {
    Point(centroid.x - Midpoint(l).x, centroid.y - Midpoint(l).y)
  }

  /**
   * The side the thickness goes to: the unit normal turned away from the
   * centroid (negated when it points towards it), then negated again when the
   * wall is flipped.
   */
  function FacingNormal(sqrt: real -> real, l: Line, centroid: Point): Point
    requires LineLength(sqrt, l) != 0.0
  {
    var n := UnitNormal(sqrt, l);
    var away := if Dot(n, ToCentroid(l, centroid)) > 0.0 then Negate(n) else n;
    if l.facingFlipped then Negate(away) else away
  }

  /** An unflipped wall's thickness never points towards the centroid. */
  lemma FacingAwayFromCentroid(sqrt: real -> real, l: Line, centroid: Point)
    requires LineLength(sqrt, l) != 0.0 && !l.facingFlipped
    ensures Dot(FacingNormal(sqrt, l, centroid), ToCentroid(l, centroid)) <= 0.0
  {
    var n := UnitNormal(sqrt, l);
    var v := ToCentroid(l, centroid);
    assert Dot(Negate(n), v) == -Dot(n, v);
  }

  /** Flipping a wall reverses its facing normal. */
  lemma FlipReversesFacing(sqrt: real -> real, l: Line, centroid: Point)
    requires LineLength(sqrt, l) != 0.0
    ensures LineLength(sqrt, l.(facingFlipped := !l.facingFlipped)) == LineLength(sqrt, l)
    ensures FacingNormal(sqrt, l.(facingFlipped := !l.facingFlipped), centroid) == Negate(FacingNormal(sqrt, l, centroid))
  {
  }

  /** The facing normal is one of the two unit normals of the wall. */
  lemma FacingIsNormal(sqrt: real -> real, l: Line, centroid: Point)
    requires LineLength(sqrt, l) != 0.0
    ensures FacingNormal(sqrt, l, centroid) == UnitNormal(sqrt, l) ||
            FacingNormal(sqrt, l, centroid) == Negate(UnitNormal(sqrt, l))
  {
  }

  /** A wall the thick-wall pass draws: a wall of non-zero length. */
  predicate ThickWall(sqrt: real -> real, l: Line)
  {
    LineKind(l) == Wall && LineLength(sqrt, l) != 0.0
  }

  /** The corners recorded for a wall: its face, and the back offset by normal times thickness. */
  function CornersOf(sqrt: real -> real, l: Line, centroid: Point, thickness: real): (c: Corners)
    requires LineLength(sqrt, l) != 0.0
  {
    CornersAlong(l, FacingNormal(sqrt, l, centroid), thickness)
  }

  /** The corners of a wall whose back is offset by `n` times `thickness`. */
  function CornersAlong(l: Line, n: Point, thickness: real): (c: Corners)
    ensures c.startFace == StartOf(l) && c.endFace == EndOf(l)
    ensures c.startBack.x - c.startFace.x == c.endBack.x - c.endFace.x == n.x * thickness
    ensures c.startBack.y - c.startFace.y == c.endBack.y - c.endFace.y == n.y * thickness
  {
    var ox, oy := n.x * thickness, n.y * thickness;
    Corners(StartOf(l), Point(l.x1 + ox, l.y1 + oy), EndOf(l), Point(l.x2 + ox, l.y2 + oy))
  }

  /** No drawn wall among lines `i + 1 .. k - 1` has the same id as line `i`. */
  predicate LastBefore(sqrt: real -> real, lines: seq<Line>, i: int, k: int)
    requires 0 <= i < |lines| && k <= |lines|
  {
    forall j :: i < j < k && ThickWall(sqrt, lines[j]) ==> lines[j].id != lines[i].id
  }

  /** No later drawn wall has the same id as line `i`. */
  predicate LastWithId(sqrt: real -> real, lines: seq<Line>, i: int)
    requires 0 <= i < |lines|
  {
    LastBefore(sqrt, lines, i, |lines|)
  }

  /** The ids in `corners` are those of the drawn walls among the first `k` lines. */
  ghost predicate CornerKeys(sqrt: real -> real, lines: seq<Line>, k: int, corners: map<int, Corners>)
    requires 0 <= k <= |lines|
  {
    forall id :: id in corners <==> exists i :: 0 <= i < k && ThickWall(sqrt, lines[i]) && lines[i].id == id
  }

  /** Each id holds the corners of the last drawn wall with that id among the first `k` lines. */
  ghost predicate CornerValues(sqrt: real -> real, lines: seq<Line>, k: int, centroid: Point, thickness: real,
                               corners: map<int, Corners>)
    requires 0 <= k <= |lines|
  {
    forall i :: 0 <= i < k && ThickWall(sqrt, lines[i]) && LastBefore(sqrt, lines, i, k) ==>
      lines[i].id in corners && corners[lines[i].id] == CornersOf(sqrt, lines[i], centroid, thickness)
  }

  /**
   * After the first `k` lines, `corners` holds an entry for the id of every
   * drawn wall so far, with the corners of the last such wall with that id.
   */
  ghost predicate CornersInv(sqrt: real -> real, lines: seq<Line>, k: int, centroid: Point, thickness: real,
                             corners: map<int, Corners>)
  {
    0 <= k <= |lines| && CornerKeys(sqrt, lines, k, corners) &&
    CornerValues(sqrt, lines, k, centroid, thickness, corners)
  }

  lemma CornersSkip(sqrt: real -> real, lines: seq<Line>, k: int, centroid: Point, thickness: real,
                    corners: map<int, Corners>)
    requires CornersInv(sqrt, lines, k, centroid, thickness, corners) && k < |lines| && !ThickWall(sqrt, lines[k])
    ensures CornersInv(sqrt, lines, k + 1, centroid, thickness, corners)
  {
    forall i | 0 <= i < k + 1 && ThickWall(sqrt, lines[i]) && LastBefore(sqrt, lines, i, k + 1)
      ensures LastBefore(sqrt, lines, i, k)
    {
    }
  }

  lemma CornerKeysStep(sqrt: real -> real, lines: seq<Line>, k: int, corners: map<int, Corners>, c: Corners)
    requires 0 <= k < |lines| && CornerKeys(sqrt, lines, k, corners) && ThickWall(sqrt, lines[k])
    ensures CornerKeys(sqrt, lines, k + 1, corners[lines[k].id := c])
  {
    var corners' := corners[lines[k].id := c];
    forall id
      ensures id in corners' <==> exists i :: 0 <= i < k + 1 && ThickWall(sqrt, lines[i]) && lines[i].id == id
    {
      if id == lines[k].id {
        assert ThickWall(sqrt, lines[k]) && lines[k].id == id;
      }
    }
  }

  lemma CornerValuesStep(sqrt: real -> real, lines: seq<Line>, k: int, centroid: Point, thickness: real,
                   corners: map<int, Corners>, c: Corners)
    requires 0 <= k < |lines| && CornerValues(sqrt, lines, k, centroid, thickness, corners)
    requires ThickWall(sqrt, lines[k]) && c == CornersOf(sqrt, lines[k], centroid, thickness)
    ensures CornerValues(sqrt, lines, k + 1, centroid, thickness, corners[lines[k].id := c])
  {
    var corners' := corners[lines[k].id := c];
    forall i | 0 <= i < k + 1 && ThickWall(sqrt, lines[i]) && LastBefore(sqrt, lines, i, k + 1)
      ensures lines[i].id in corners' && corners'[lines[i].id] == CornersOf(sqrt, lines[i], centroid, thickness)
    {
      if i < k {
        assert lines[k].id != lines[i].id;
        assert LastBefore(sqrt, lines, i, k);
      }
    }
  }

  lemma CornersStep(sqrt: real -> real, lines: seq<Line>, k: int, centroid: Point, thickness: real,
                    corners: map<int, Corners>)
    requires CornersInv(sqrt, lines, k, centroid, thickness, corners) && k < |lines| && ThickWall(sqrt, lines[k])
    ensures CornersInv(sqrt, lines, k + 1, centroid, thickness,
                       corners[lines[k].id := CornersOf(sqrt, lines[k], centroid, thickness)])
  {
    var c := CornersOf(sqrt, lines[k], centroid, thickness);
    CornerKeysStep(sqrt, lines, k, corners, c);
    CornerValuesStep(sqrt, lines, k, centroid, thickness, corners, c);
  }

  /** The loop body of the thick-wall pass of `draw` for one wall of non-zero length. */
  method WallCorners(sqrt: real -> real, l: Line, centroid: Point, thickness: real) returns (c: Corners)
    requires LineLength(sqrt, l) != 0.0
    ensures c == CornersOf(sqrt, l, centroid, thickness)
  {
    var n := UnitNormal(sqrt, l);
    var mid := Midpoint(l);
    var toCentroid := Point(centroid.x - mid.x, centroid.y - mid.y);
    var dot := n.x * toCentroid.x + n.y * toCentroid.y;
    assert toCentroid == ToCentroid(l, centroid) && dot == Dot(n, toCentroid);
    if dot > 0.0 {
      n := Negate(n);
    }
    if l.facingFlipped {
      n := Negate(n);
    }
    assert n == FacingNormal(sqrt, l, centroid);
    c := CornersAlong(l, n, thickness);
  }

  /**
   * The `wallCorners` map of `draw` (lines 415-482): an entry for the id of
   * every drawn wall, holding the corners of the last drawn wall with that id.
   */
  method BuildWallCorners(sqrt: real -> real, lines: seq<Line>, thickness: real) returns (corners: map<int, Corners>)
    ensures forall id :: id in corners <==> exists i :: 0 <= i < |lines| && ThickWall(sqrt, lines[i]) && lines[i].id == id
    ensures forall i :: 0 <= i < |lines| && ThickWall(sqrt, lines[i]) && LastWithId(sqrt, lines, i) ==>
              lines[i].id in corners && corners[lines[i].id] == CornersOf(sqrt, lines[i], Centroid(lines), thickness)
  {
    var centroid := WallCentroid(lines);
    corners := map[];
    for k := 0 to |lines|
      invariant CornersInv(sqrt, lines, k, centroid, thickness, corners)
    {
      var l := lines[k];
      if LineKind(l) != Wall {
        CornersSkip(sqrt, lines, k, centroid, thickness, corners);
        continue;
      }
      var len := LineLength(sqrt, l);
      if len == 0.0 {
        CornersSkip(sqrt, lines, k, centroid, thickness, corners);
        continue;
      }
      var c := WallCorners(sqrt, l, centroid, thickness);
      CornersStep(sqrt, lines, k, centroid, thickness, corners);
      corners := corners[l.id := c];
    }
  }
}
