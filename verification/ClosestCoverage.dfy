/** The iterator over an ordered table yields each Good or Questionable node once, the nearest bucket first. */
module ClosestCoverage {
  import opened NodeIds
  import opened Nodes
  import opened Buckets
  import opened RoutingTables
  import opened RoutingRuns
  import opened Closest

  /** All Good and Questionable nodes of the table, slot by slot. */
  ghost function AllPings(t: Table, now: int): seq<Node> {
    if t == [] then [] else AllPings(t[..|t| - 1], now) + Pings(t[|t| - 1], now)
  }

  /** How often `x` is yielded by the visit to each index. */
  ghost function Times(t: Table, assorted: seq<AssortedNode>, now: int, x: Node): (r: seq<nat>)
    requires Shaped(t)
    ensures |r| == MAX_BUCKETS
    ensures forall i :: 0 <= i < |r| ==> r[i] == multiset(Bundle(t, assorted, i, now))[x]
  {
    seq(MAX_BUCKETS, i requires 0 <= i < MAX_BUCKETS => multiset(Bundle(t, assorted, i, now))[x])
  }

  /** The sum of the numbers whose position is in `s`. */
  ghost function Sum(f: seq<nat>, s: set<nat>): nat {
    if f == [] then 0 else Sum(f[..|f| - 1], s) + (if |f| - 1 in s then f[|f| - 1] else 0)
  }

  lemma {:induction false} SumOfNone(f: seq<nat>)
    ensures Sum(f, {}) == 0
  {
    if f != [] { SumOfNone(f[..|f| - 1]); }
  }

  lemma {:induction false} SumRemove(f: seq<nat>, s: set<nat>, k: nat)
    requires k in s
    ensures Sum(f, s) == Sum(f, s - {k}) + (if k < |f| then f[k] else 0)
  {
    if f != [] { SumRemove(f[..|f| - 1], s, k); }
  }

  /** What follows the current index is what the pending visits yield. */
  lemma {:induction false} LaterSum(t: Table, assorted: seq<AssortedNode>, start: nat, curr: nat, now: int, x: Node)
    requires Shaped(t) && Reachable(MAX_BUCKETS, start, curr)
    ensures multiset(Later(t, assorted, start, curr, now))[x]
         == Sum(Times(t, assorted, now, x), Pending(MAX_BUCKETS, start, curr))
    decreases |Pending(MAX_BUCKETS, start, curr)|
  {
    var pending, times := Pending(MAX_BUCKETS, start, curr), Times(t, assorted, now, x);
    ZigZag(MAX_BUCKETS, start, curr);
    match NextBucketIndex(MAX_BUCKETS, start, curr)
    case None => SumOfNone(times);
    case Some(k) =>
      LaterSum(t, assorted, start, k, now, x);
      SumRemove(times, pending, k);
      assert multiset(Bundle(t, assorted, k, now))[x] == times[k];
  }

  // ---------------------------------------------------------------------------------------------
  // All visits together
  // ---------------------------------------------------------------------------------------------

  ghost function AssortedBelow(assorted: seq<AssortedNode>, n: nat, now: int, x: Node): nat {
    if assorted == [] then 0
    else
      var a := assorted[0];
      AssortedBelow(assorted[1..], n, now, x)
      + (if a.node == x && a.node.Pingable(now) && a.index < n && !a.returned then 1 else 0)
  }

  lemma {:induction false} AssortedStep(assorted: seq<AssortedNode>, n: nat, now: int, x: Node)
    ensures AssortedBelow(assorted, n + 1, now, x)
         == AssortedBelow(assorted, n, now, x) + multiset(AssortedAt(assorted, n, now))[x]
  {
    if assorted != [] { AssortedStep(assorted[1..], n, now, x); }
  }

  lemma {:induction false} AssortedNone(assorted: seq<AssortedNode>, now: int, x: Node)
    ensures AssortedBelow(assorted, 0, now, x) == 0
  {
    if assorted != [] { AssortedNone(assorted[1..], now, x); }
  }

  ghost function Min(a: nat, b: nat): nat {
    if a <= b then a else b
  }

  ghost function SortedBelow(t: Table, n: nat, now: int, x: Node): nat
    requires Shaped(t)
  {
    multiset(AllPings(SortedBuckets(t)[..Min(n, |SortedBuckets(t)|)], now))[x]
  }

  lemma SortedStep(t: Table, n: nat, now: int, x: Node)
    requires Shaped(t)
    ensures SortedBelow(t, n + 1, now, x) == SortedBelow(t, n, now, x) + multiset(BucketPings(t, n, now))[x]
  {
    var sorted := SortedBuckets(t);
    if n < |sorted| {
      assert sorted[..n + 1][..n] == sorted[..n];
    }
  }

  /** Visiting the indices below `n` yields the sorted buckets below `n` and the assorted nodes due there. */
  lemma {:induction false} SumAll(t: Table, assorted: seq<AssortedNode>, s: set<nat>, n: nat, now: int, x: Node)
    requires Shaped(t) && n <= MAX_BUCKETS && forall i: nat :: i < n ==> i in s
    ensures Sum(Times(t, assorted, now, x)[..n], s) == SortedBelow(t, n, now, x) + AssortedBelow(assorted, n, now, x)
  {
    var times := Times(t, assorted, now, x);
    if n == 0 {
      AssortedNone(assorted, now, x);
      assert SortedBuckets(t)[..0] == [];
    } else {
      hide SortedBelow, AssortedBelow, BucketPings, AssortedAt;
      SumAll(t, assorted, s, n - 1, now, x);
      SortedStep(t, n - 1, now, x);
      AssortedStep(assorted, n - 1, now, x);
      assert times[..n][..n - 1] == times[..n - 1];
      assert times[n - 1] == multiset(Bundle(t, assorted, n - 1, now))[x];
    }
  }

  lemma PrecomputeStep(self: NodeId, nodes: seq<Node>)
    requires nodes != []
    ensures var r := PrecomputeAssorted(self, nodes);
            && r != [] && r[0] == AssortedNode(SharedBits(self, nodes[0].id), nodes[0], false)
            && r[1..] == PrecomputeAssorted(self, nodes[1..])
  {
    hide SharedBits;
  }

  /** Every Good or Questionable node of the last bucket is due at some index below 160. */
  lemma {:induction false} AssortedTotal(self: NodeId, nodes: seq<Node>, now: int, x: Node)
    requires forall j :: 0 <= j < |nodes| && nodes[j].Pingable(now) ==> SharedBits(self, nodes[j].id) < MAX_BUCKETS
    ensures AssortedBelow(PrecomputeAssorted(self, nodes), MAX_BUCKETS, now, x) == multiset(Pings(nodes, now))[x]
  {
    hide SharedBits;
    if nodes != [] {
      hide PrecomputeAssorted;
      AssortedTotal(self, nodes[1..], now, x);
      PrecomputeStep(self, nodes);
    }
  }

  lemma LastBucketBelow(self: NodeId, t: Table, now: int, j: nat)
    requires TableInv(self, t) && j < MAX_BUCKET_SIZE && t[|t| - 1][j].Pingable(now)
    ensures SharedBits(self, t[|t| - 1][j].id) < MAX_BUCKETS
  {
    assert BucketInv(self, |t|, |t| - 1, t[|t| - 1]);
    assert Sits(self, |t|, |t| - 1, t[|t| - 1][j]);
  }

  /** Nothing is yielded at index 160, where the iteration for our own id starts. */
  lemma NothingAtOwnId(self: NodeId, t: Table, now: int)
    requires TableInv(self, t)
    ensures Bundle(t, Assorted(self, t), MAX_BUCKETS, now) == []
  {
    var assorted := Assorted(self, t);
    forall k | 0 <= k < |assorted| ensures !Due(assorted[k], MAX_BUCKETS, now) {
      if assorted[k].node.Pingable(now) { LastBucketBelow(self, t, now, k); }
    }
    NothingDue(assorted, MAX_BUCKETS, now);
  }

  /** The visits to all 160 indices yield the table. */
  lemma AllVisits(self: NodeId, t: Table, now: int, x: Node)
    requires TableInv(self, t)
    ensures var assorted := Assorted(self, t);
            SortedBelow(t, MAX_BUCKETS, now, x) + AssortedBelow(assorted, MAX_BUCKETS, now, x) ==
              multiset(AllPings(t, now))[x]
  {
    var sorted, last := SortedBuckets(t), t[|t| - 1];
    assert sorted[..Min(MAX_BUCKETS, |sorted|)] == sorted;
    if |t| < MAX_BUCKETS {
      forall j | 0 <= j < |last| && last[j].Pingable(now) ensures SharedBits(self, last[j].id) < MAX_BUCKETS {
        LastBucketBelow(self, t, now, j);
      }
      AssortedTotal(self, last, now, x);
    }
  }

  /** The visit to the start and the pending ones together yield everything. */
  lemma YieldsSum(self: NodeId, target: NodeId, t: Table, now: int, x: Node)
    requires TableInv(self, t)
    ensures var start := SharedBits(self, target);
            multiset(Yields(self, target, t, now))[x]
            == Sum(Times(t, Assorted(self, t), now, x), Pending(MAX_BUCKETS, start, start) + {start})
  {
    var assorted, start := Assorted(self, t), SharedBits(self, target);
    var pending, times := Pending(MAX_BUCKETS, start, start), Times(t, assorted, now, x);
    LaterSum(t, assorted, start, start, now, x);
    if start == MAX_BUCKETS { NothingAtOwnId(self, t, now); }
    assert start !in pending;
    assert pending + {start} - {start} == pending;
    SumRemove(times, pending + {start}, start);
  }

  lemma YieldsTimes(self: NodeId, target: NodeId, t: Table, now: int, x: Node)
    requires TableInv(self, t)
    ensures multiset(Yields(self, target, t, now))[x] == multiset(AllPings(t, now))[x]
  {
    var assorted, start := Assorted(self, t), SharedBits(self, target);
    var times, visited := Times(t, assorted, now, x), Pending(MAX_BUCKETS, start, start) + {start};
    YieldsSum(self, target, t, now, x);
    ZigZagStart(MAX_BUCKETS, start);
    assert times[..MAX_BUCKETS] == times;
    SumAll(t, assorted, visited, MAX_BUCKETS, now, x);
    AllVisits(self, t, now, x);
  }

  /** For every target, our own id included, each Good or Questionable node is yielded exactly once. */
  lemma YieldsAll(self: NodeId, target: NodeId, t: Table, now: int)
    requires TableInv(self, t)
    ensures multiset(Yields(self, target, t, now)) == multiset(AllPings(t, now))
  {
    forall x ensures multiset(Yields(self, target, t, now))[x] == multiset(AllPings(t, now))[x] {
      YieldsTimes(self, target, t, now, x);
    }
  }

  // ---------------------------------------------------------------------------------------------
  // The nearest bucket comes first
  // ---------------------------------------------------------------------------------------------

  lemma {:induction false} PingsAreNodes(nodes: seq<Node>, now: int, x: Node)
    requires x in Pings(nodes, now)
    ensures x in nodes && x.Pingable(now)
  {
    if !(nodes[0].Pingable(now) && nodes[0] == x) { PingsAreNodes(nodes[1..], now, x); }
  }

  lemma {:induction false} DueAreNodes(assorted: seq<AssortedNode>, index: nat, now: int, x: Node)
    requires x in AssortedAt(assorted, index, now)
    ensures exists k :: 0 <= k < |assorted| && assorted[k].node == x && Due(assorted[k], index, now)
  {
    if Due(assorted[0], index, now) && assorted[0].node == x {
    } else {
      DueAreNodes(assorted[1..], index, now, x);
      var k :| 0 <= k < |assorted[1..]| && assorted[1..][k].node == x && Due(assorted[1..][k], index, now);
      assert assorted[k + 1].node == x;
    }
  }

  /** A visit to index `i` yields nodes that share exactly `i` bits with us. */
  lemma BundleShares(self: NodeId, t: Table, i: nat, now: int, x: Node)
    requires TableInv(self, t) && x in Bundle(t, Assorted(self, t), i, now)
    ensures SharedBits(self, x.id) == i
  {
    if x in BucketPings(t, i, now) {
      PingsAreNodes(t[i], now, x);
      var j :| 0 <= j < |t[i]| && t[i][j] == x;
      assert BucketInv(self, |t|, i, t[i]) && Sits(self, |t|, i, t[i][j]);
    } else {
      DueAreNodes(Assorted(self, t), i, now, x);
    }
  }

  lemma {:induction false} LaterShares(self: NodeId, t: Table, start: nat, curr: nat, now: int, x: Node)
    requires TableInv(self, t) && Reachable(MAX_BUCKETS, start, curr)
    requires x in Later(t, Assorted(self, t), start, curr, now)
    ensures SharedBits(self, x.id) in Pending(MAX_BUCKETS, start, curr)
    decreases |Pending(MAX_BUCKETS, start, curr)|
  {
    ZigZag(MAX_BUCKETS, start, curr);
    var k := NextBucketIndex(MAX_BUCKETS, start, curr).value;
    if x in Bundle(t, Assorted(self, t), k, now) {
      BundleShares(self, t, k, now, x);
    } else {
      LaterShares(self, t, start, k, now, x);
    }
  }

  /** The yields begin with the target's own bucket, and all of that is closer to it than all the rest. */
  lemma NearestBucketFirst(self: NodeId, target: NodeId, t: Table, now: int)
    requires TableInv(self, t)
    ensures var first := Bundle(t, Assorted(self, t), SharedBits(self, target), now);
            var all := Yields(self, target, t, now);
            && first <= all
            && forall x, y :: x in first && y in all[|first|..] ==> Less(Xor(x.id, target), Xor(y.id, target))
  {
    var start := SharedBits(self, target);
    var first := Bundle(t, Assorted(self, t), start, now);
    var all := Yields(self, target, t, now);
    assert all[|first|..] == Later(t, Assorted(self, t), start, start, now);
    forall x, y | x in first && y in all[|first|..] ensures Less(Xor(x.id, target), Xor(y.id, target)) {
      BundleShares(self, t, start, now, x);
      LaterShares(self, t, start, start, now, y);
      ZigZagStart(MAX_BUCKETS, start);
      SameBucketIsCloser(self, target, x.id, y.id);
    }
  }
}
