/** Which nodes a split of the last bucket loses (`bip_dht/src/routing/table.rs`, lines 113-135). */
module RoutingSplits {
  import opened Basics
  import opened NodeIds
  import opened Nodes
  import opened Buckets
  import opened RoutingTables
  import opened RoutingRuns

  // ---------------------------------------------------------------------------------------------
  // Filling an empty bucket
  // ---------------------------------------------------------------------------------------------

  /** An empty bucket after it was offered the nodes in order. */
  ghost function Filled(nodes: seq<Node>, now: int): (r: seq<Node>)
    ensures |r| == MAX_BUCKET_SIZE
  {
    if nodes == [] then EmptyBucket()
    else Place(Filled(nodes[..|nodes| - 1], now), nodes[|nodes| - 1], now).0
  }

  /** Live nodes, no two of them equal. */
  ghost predicate Offerable(nodes: seq<Node>, now: int) {
    && (forall j :: 0 <= j < |nodes| ==> nodes[j].Pingable(now))
    && forall i, j :: 0 <= i < j < |nodes| ==> !nodes[i].Same(nodes[j])
  }

  /** A Good node that no filler is equal to comes after the Questionable node at `i`. */
  ghost predicate ComesAfter(nodes: seq<Node>, i: nat, j: nat, now: int) {
    && i < j < |nodes|
    && nodes[i].Status(now).Questionable?
    && nodes[j].Status(now).Good? && !nodes[j].Same(Placeholder())
  }

  ghost predicate Overtaken(nodes: seq<Node>, now: int) {
    exists i: nat, j: nat :: ComesAfter(nodes, i, j, now)
  }

  lemma OvertakenNeedsTwo(nodes: seq<Node>, now: int)
    requires Overtaken(nodes, now)
    ensures |nodes| >= 2
  {
    var i: nat, j: nat :| ComesAfter(nodes, i, j, now);
  }

  lemma OvertakenOneMore(nodes: seq<Node>, n: Node, now: int)
    ensures Overtaken(nodes + [n], now) <==>
              || Overtaken(nodes, now)
              || (&& n.Status(now).Good? && !n.Same(Placeholder())
                  && exists q :: q in nodes && q.Status(now).Questionable?)
  {
    var all := nodes + [n];
    if Overtaken(nodes, now) {
      var i: nat, j: nat :| ComesAfter(nodes, i, j, now);
      assert ComesAfter(all, i, j, now);
    }
    if n.Status(now).Good? && !n.Same(Placeholder()) && exists q :: q in nodes && q.Status(now).Questionable? {
      var i: nat :| i < |nodes| && nodes[i].Status(now).Questionable?;
      assert ComesAfter(all, i, |nodes|, now);
    }
    if Overtaken(all, now) {
      var i: nat, j: nat :| ComesAfter(all, i, j, now);
      if j < |nodes| {
        assert ComesAfter(nodes, i, j, now);
      } else {
        assert nodes[i] in nodes;
      }
    }
  }

  /** Live nodes at the front of an otherwise empty bucket. */
  ghost function Front(nodes: seq<Node>): (r: seq<Node>)
    requires |nodes| <= MAX_BUCKET_SIZE
    ensures |r| == MAX_BUCKET_SIZE
    ensures forall j :: 0 <= j < |r| ==> r[j] == if j < |nodes| then nodes[j] else Placeholder()
  {
    nodes + seq(MAX_BUCKET_SIZE - |nodes|, _ => Placeholder())
  }

  /** A node goes to the first free slot, unless it is a Good one and a Questionable one stands before. */
  lemma PlaceAtFront(nodes: seq<Node>, n: Node, now: int) returns (p: nat)
    requires |nodes| < MAX_BUCKET_SIZE && Offerable(nodes + [n], now)
    ensures var b := Place(Front(nodes), n, now).0;
            if n.Status(now).Good? && !n.Same(Placeholder()) && exists q :: q in nodes && q.Status(now).Questionable?
            then p < |nodes| && b == Front(nodes)[p := n]
            else b == Front(nodes + [n])
  {
    var all := nodes + [n];
    assert all[|nodes|] == n && forall j :: 0 <= j < |nodes| ==> all[j] == nodes[j];
    var b := Front(nodes);
    assert forall j :: 0 <= j < |nodes| ==> b[j].Status(now).Rank() >= 1 && !b[j].Same(n);
    assert b[|nodes|] == Placeholder() && Placeholder().Status(now).Rank() == 0;
    assert b[|nodes| := n] == Front(all);
    var same, below := FirstSame(b, n), FirstBelow(b, n.Status(now).Rank(), now);
    p := if below.Some? then below.value else 0;
    if n.Same(Placeholder()) {
      assert same == Some(|nodes|);
    } else if q :| q in nodes && q.Status(now).Questionable? && n.Status(now).Good? {
      var i :| 0 <= i < |nodes| && nodes[i] == q;
      assert b[i].Status(now).Rank() < 2;
      assert Place(b, n, now).0 == b[below.value := n];
    } else {
      assert forall j :: 0 <= j < |nodes| ==> nodes[j] in nodes;
      assert below == Some(|nodes|);
    }
  }

  lemma OfferablePrefix(nodes: seq<Node>, n: Node, now: int)
    requires Offerable(nodes + [n], now)
    ensures Offerable(nodes, now) && n.Pingable(now)
    ensures forall k :: k in nodes ==> !k.Same(n)
  {
    var all := nodes + [n];
    assert all[|nodes|] == n && forall j :: 0 <= j < |nodes| ==> all[j] == nodes[j];
  }

  /** If no Questionable node is overtaken, the nodes fill the bucket from the front. */
  lemma {:induction false} FilledInOrder(nodes: seq<Node>, now: int)
    requires |nodes| <= MAX_BUCKET_SIZE && Offerable(nodes, now) && !Overtaken(nodes, now)
    ensures Filled(nodes, now) == Front(nodes)
  {
    hide Place, Offerable, Overtaken;
    if nodes == [] {
      assert Front(nodes) == EmptyBucket();
    } else {
      var init, n := nodes[..|nodes| - 1], nodes[|nodes| - 1];
      assert nodes == init + [n];
      OvertakenOneMore(init, n, now);
      OfferablePrefix(init, n, now);
      FilledInOrder(init, now);
      var _ := PlaceAtFront(init, n, now);
    }
  }

  /** No live node of the bucket is equal to `q`. */
  ghost predicate Lacks(nodes: seq<Node>, q: Node, now: int) {
    forall k :: k in nodes && k.Pingable(now) ==> !k.Same(q)
  }

  lemma LacksAfterPlace(nodes: seq<Node>, n: Node, q: Node, now: int)
    requires Lacks(nodes, q, now) && !n.Same(q)
    ensures Lacks(Place(nodes, n, now).0, q, now)
  {
    PlaceChangesOneSlot(nodes, n, now);
    var r := Place(nodes, n, now).0;
    forall k | k in r && k.Pingable(now) ensures !k.Same(q) {
      var j :| 0 <= j < |r| && r[j] == k;
      if r[j] == nodes[j] { assert k in nodes; }
    }
  }

  lemma LacksAfterUpdate(nodes: seq<Node>, n: Node, p: nat, now: int)
    requires p < |nodes| < MAX_BUCKET_SIZE && Offerable(nodes + [n], now)
    ensures Lacks(Front(nodes)[p := n], nodes[p], now)
  {
    var all, r := nodes + [n], Front(nodes)[p := n];
    assert all[|nodes|] == n && forall j :: 0 <= j < |nodes| ==> all[j] == nodes[j];
    forall k | k in r && k.Pingable(now) ensures !k.Same(nodes[p]) {
      var j :| 0 <= j < |r| && r[j] == k;
    }
  }

  /** If one is overtaken, some live node has no place in the bucket any more. */
  lemma {:induction false} FilledLoses(nodes: seq<Node>, now: int) returns (q: Node)
    requires |nodes| <= MAX_BUCKET_SIZE && Offerable(nodes, now) && Overtaken(nodes, now)
    ensures q in nodes && Lacks(Filled(nodes, now), q, now)
  {
    hide Place, Offerable, Overtaken, Lacks;
    OvertakenNeedsTwo(nodes, now);
    var init, n := nodes[..|nodes| - 1], nodes[|nodes| - 1];
    assert nodes == init + [n];
    OvertakenOneMore(init, n, now);
    OfferablePrefix(init, n, now);
    if Overtaken(init, now) {
      q := FilledLoses(init, now);
      LacksAfterPlace(Filled(init, now), n, q, now);
    } else {
      FilledInOrder(init, now);
      var p := PlaceAtFront(init, n, now);
      LacksAfterUpdate(init, n, p, now);
      q := init[p];
    }
  }

  // ---------------------------------------------------------------------------------------------
  // Sharing out the nodes of the last bucket
  // ---------------------------------------------------------------------------------------------

  /** A live node that goes to bucket `b` of `numBuckets`. */
  ghost predicate GoesTo(self: NodeId, n: Node, b: nat, numBuckets: nat, now: int)
    requires numBuckets > 0
  {
    n.Pingable(now) && BucketPlacement(SharedBits(self, n.id), numBuckets) == b
  }

  /** The nodes that go to bucket `b`, in order. */
  ghost function Going(self: NodeId, nodes: seq<Node>, b: nat, numBuckets: nat, now: int): (r: seq<Node>)
    requires numBuckets > 0
    ensures |r| <= |nodes|
    ensures forall n :: n in r <==> n in nodes && GoesTo(self, n, b, numBuckets, now)
  {
    if nodes == [] then []
    else
      var init, n := nodes[..|nodes| - 1], nodes[|nodes| - 1];
      assert nodes == init + [n];
      Going(self, init, b, numBuckets, now) + if GoesTo(self, n, b, numBuckets, now) then [n] else []
  }

  lemma {:induction false} GoingOfferable(self: NodeId, nodes: seq<Node>, b: nat, numBuckets: nat, now: int)
    requires numBuckets > 0 && DistinctNodes(nodes)
    ensures Offerable(Going(self, nodes, b, numBuckets, now), now)
  {
    hide SharedBits, BucketPlacement;
    if nodes != [] {
      var init, n := nodes[..|nodes| - 1], nodes[|nodes| - 1];
      assert nodes == init + [n];
      GoingOfferable(self, init, b, numBuckets, now);
      var g := Going(self, init, b, numBuckets, now);
      if GoesTo(self, n, b, numBuckets, now) {
        BadUnlessReal(n, now);
        forall k | k in init ensures !k.Same(n) {
          var i :| 0 <= i < |init| && init[i] == k;
          assert nodes[i] == k;
        }
        assert forall j :: 0 <= j < |g| ==> g[j] in g;
      }
    }
  }

  /** In slot order, a Good node no filler is equal to comes after a Questionable one for the same bucket. */
  ghost predicate OvertakesAt(
    self: NodeId, nodes: seq<Node>, i: nat, j: nat, b: nat, numBuckets: nat, now: int)
    requires numBuckets > 0
  {
    && ComesAfter(nodes, i, j, now)
    && GoesTo(self, nodes[i], b, numBuckets, now) && GoesTo(self, nodes[j], b, numBuckets, now)
  }

  ghost predicate Overtakes(self: NodeId, nodes: seq<Node>, b: nat, numBuckets: nat, now: int)
    requires numBuckets > 0
  {
    exists i: nat, j: nat :: OvertakesAt(self, nodes, i, j, b, numBuckets, now)
  }

  lemma {:induction false} GoingOvertaken(self: NodeId, nodes: seq<Node>, b: nat, numBuckets: nat, now: int)
    requires numBuckets > 0
    ensures Overtaken(Going(self, nodes, b, numBuckets, now), now) <==> Overtakes(self, nodes, b, numBuckets, now)
  {
    hide SharedBits, BucketPlacement, GoesTo;
    if nodes == [] {
      assert !Overtakes(self, nodes, b, numBuckets, now);
    } else {
      hide Overtaken, Overtakes;
      var init, n := nodes[..|nodes| - 1], nodes[|nodes| - 1];
      assert nodes == init + [n];
      var g := Going(self, init, b, numBuckets, now);
      GoingOvertaken(self, init, b, numBuckets, now);
      OvertakesOneMore(self, init, n, b, numBuckets, now);
      if GoesTo(self, n, b, numBuckets, now) {
        OvertakenOneMore(g, n, now);
      } else {
        assert g + [] == g;
      }
    }
  }

  lemma OvertakesOneMore(self: NodeId, nodes: seq<Node>, n: Node, b: nat, numBuckets: nat, now: int)
    requires numBuckets > 0
    ensures Overtakes(self, nodes + [n], b, numBuckets, now) <==>
              || Overtakes(self, nodes, b, numBuckets, now)
              || (&& n.Status(now).Good? && !n.Same(Placeholder()) && GoesTo(self, n, b, numBuckets, now)
                  && exists q :: q in Going(self, nodes, b, numBuckets, now) && q.Status(now).Questionable?)
  {
    hide SharedBits, BucketPlacement, Going, GoesTo;
    var all := nodes + [n];
    if Overtakes(self, nodes, b, numBuckets, now) {
      var i: nat, j: nat :| OvertakesAt(self, nodes, i, j, b, numBuckets, now);
      assert OvertakesAt(self, all, i, j, b, numBuckets, now);
    }
    if q :| && n.Status(now).Good? && !n.Same(Placeholder()) && GoesTo(self, n, b, numBuckets, now)
            && q in Going(self, nodes, b, numBuckets, now) && q.Status(now).Questionable?
    {
      var i: nat :| i < |nodes| && nodes[i] == q;
      assert OvertakesAt(self, all, i, |nodes|, b, numBuckets, now);
    }
    if Overtakes(self, all, b, numBuckets, now) {
      var i: nat, j: nat :| OvertakesAt(self, all, i, j, b, numBuckets, now);
      if j < |nodes| {
        assert OvertakesAt(self, nodes, i, j, b, numBuckets, now);
      } else {
        assert nodes[i] in Going(self, nodes, b, numBuckets, now);
      }
    }
  }

  // ---------------------------------------------------------------------------------------------
  // The split
  // ---------------------------------------------------------------------------------------------

  /** The two last buckets of `r` hold what filling them with their share of `nodes` gives. */
  ghost predicate Shared(self: NodeId, t: Table, r: Table, nodes: seq<Node>, now: int)
    requires Shaped(t) && |t| < MAX_BUCKETS
  {
    && |r| == |t| + 1 && r[..|t| - 1] == t[..|t| - 1]
    && r[|t| - 1] == Filled(Going(self, nodes, |t| - 1, |r|, now), now)
    && r[|t|] == Filled(Going(self, nodes, |t|, |r|, now), now)
  }

  lemma SharedOneMore(self: NodeId, t: Table, r: Table, nodes: seq<Node>, n: Node, now: int)
    requires Shaped(t) && |t| < MAX_BUCKETS && TableInv(self, r) && Shared(self, t, r, nodes, now)
    requires Room(r, 1, now)
    requires n.Real() ==> |t| - 1 <= SharedBits(self, n.id) < MAX_BUCKETS
    ensures Shared(self, t, Added(self, r, n, now), nodes + [n], now)
  {
    hide SharedBits, Place, Going, TableInv;
    var all := nodes + [n];
    assert all[..|all| - 1] == nodes && all[|all| - 1] == n;
    GoingOneMore(self, nodes, n, |t| - 1, |r|, now);
    GoingOneMore(self, nodes, n, |t|, |r|, now);
    BadUnlessReal(n, now);
    if n.Pingable(now) {
      AddedIsOffered(self, r, n, now);
    }
  }

  lemma GoingOneMore(self: NodeId, nodes: seq<Node>, n: Node, b: nat, numBuckets: nat, now: int)
    requires numBuckets > 0
    ensures Filled(Going(self, nodes + [n], b, numBuckets, now), now) ==
              var before := Filled(Going(self, nodes, b, numBuckets, now), now);
              if GoesTo(self, n, b, numBuckets, now) then Place(before, n, now).0 else before
  {
    hide SharedBits, Place;
    var all, g := nodes + [n], Going(self, nodes, b, numBuckets, now);
    assert all[..|all| - 1] == nodes && all[|all| - 1] == n;
    assert (g + [n])[..|g|] == g;
    assert g + [] == g;
  }

  lemma {:induction false} AddedAllShares(
    self: NodeId, t: Table, r: Table, nodes: seq<Node>, k: nat, now: int)
    requires Shaped(t) && |t| < MAX_BUCKETS && k <= |nodes|
    requires TableInv(self, r) && Shared(self, t, r, nodes[..k], now) && Room(r, |nodes| - k, now)
    requires forall j :: 0 <= j < |nodes| && nodes[j].Real() ==> |t| - 1 <= SharedBits(self, nodes[j].id) < MAX_BUCKETS
    ensures Shared(self, t, AddedAll(self, r, nodes[k..], now), nodes, now)
    decreases |nodes| - k
  {
    hide SharedBits, Shared, BucketInv;
    if k == |nodes| {
      assert nodes[..k] == nodes;
    } else {
      assert nodes[..k + 1] == nodes[..k] + [nodes[k]];
      assert nodes[k..][1..] == nodes[k + 1..];
      SharedSize(self, t, r, nodes[..k], now);
      AddedWithRoom(self, r, nodes[k], |nodes| - k - 1, now);
      SharedOneMore(self, t, r, nodes[..k], nodes[k], now);
      AddedAllShares(self, t, Added(self, r, nodes[k], now), nodes, k + 1, now);
    }
  }

  lemma SharedSize(self: NodeId, t: Table, r: Table, nodes: seq<Node>, now: int)
    requires Shaped(t) && |t| < MAX_BUCKETS && Shared(self, t, r, nodes, now)
    ensures |r| == |t| + 1
  {
  }

  lemma SplitShares(self: NodeId, t: Table, now: int)
    requires TableInv(self, t) && |t| < MAX_BUCKETS
    ensures Shared(self, t, Split(self, t, now), t[|t| - 1], now)
  {
    hide SharedBits, Added;
    var last := t[|t| - 1];
    OpenedInv(self, t, now);
    forall j | 0 <= j < |last| && last[j].Real()
      ensures |t| - 1 <= SharedBits(self, last[j].id) < MAX_BUCKETS
    {
      assert BucketInv(self, |t|, |t| - 1, last);
      assert Sits(self, |t|, |t| - 1, last[j]);
    }
    assert last[..0] == [] && last[0..] == last;
    AddedAllShares(self, t, Opened(t), last, 0, now);
  }

  /** A live node equal to `n` is in bucket `i`. */
  ghost predicate LiveAt(t: Table, i: nat, n: Node, now: int) {
    i < |t| && exists k :: k in t[i] && k.Same(n) && k.Pingable(now)
  }

  /** Whatever node is live in `t` is live in `t'`, though perhaps elsewhere. */
  ghost predicate LiveKept(t: Table, t': Table, now: int) {
    forall i: nat, n :: LiveAt(t, i, n, now) ==> exists i': nat :: LiveAt(t', i', n, now)
  }

  /** Two nodes of the last bucket stand in the wrong order for the bucket both go to. */
  ghost predicate SplitOvertakes(self: NodeId, t: Table, now: int)
    requires Shaped(t)
  {
    var last, numBuckets := t[|t| - 1], |t| + 1;
    Overtakes(self, last, |t| - 1, numBuckets, now) || Overtakes(self, last, |t|, numBuckets, now)
  }

  /** A split loses a node that is not Bad exactly then. */
  lemma SplitKeepsLive(self: NodeId, t: Table, now: int)
    requires TableInv(self, t) && |t| < MAX_BUCKETS
    ensures LiveKept(t, Split(self, t, now), now) <==> !SplitOvertakes(self, t, now)
  {
    if SplitOvertakes(self, t, now) {
      SplitLoses(self, t, now);
    } else {
      SplitLosesNone(self, t, now);
    }
  }

  lemma SplitLosesNone(self: NodeId, t: Table, now: int)
    requires TableInv(self, t) && |t| < MAX_BUCKETS && !SplitOvertakes(self, t, now)
    ensures LiveKept(t, Split(self, t, now), now)
  {
    hide SharedBits, Split, Overtakes;
    var last, r := t[|t| - 1], Split(self, t, now);
    SplitShares(self, t, now);
    assert BucketInv(self, |t|, |t| - 1, last);
    forall i: nat, n | LiveAt(t, i, n, now) ensures exists i': nat :: LiveAt(r, i', n, now) {
      var k :| k in t[i] && k.Same(n) && k.Pingable(now);
      if i < |t| - 1 {
        assert r[..|t| - 1][i] == t[..|t| - 1][i];
        assert LiveAt(r, i, n, now);
      } else {
        GoesToOneOfTwo(self, t, k, now);
        var b := BucketPlacement(SharedBits(self, k.id), |r|);
        StaysLive(self, last, k, b, |r|, now);
        assert LiveAt(r, b, n, now);
      }
    }
  }

  lemma GoesToOneOfTwo(self: NodeId, t: Table, k: Node, now: int)
    requires TableInv(self, t) && k in t[|t| - 1] && k.Pingable(now)
    ensures |t| - 1 <= BucketPlacement(SharedBits(self, k.id), |t| + 1) <= |t|
  {
    var last := t[|t| - 1];
    BadUnlessReal(k, now);
    assert BucketInv(self, |t|, |t| - 1, last);
    var j :| 0 <= j < |last| && last[j] == k;
    assert Sits(self, |t|, |t| - 1, last[j]);
  }

  lemma StaysLive(self: NodeId, nodes: seq<Node>, k: Node, b: nat, numBuckets: nat, now: int)
    requires numBuckets > 0 && |nodes| == MAX_BUCKET_SIZE && DistinctNodes(nodes)
    requires k in nodes && GoesTo(self, k, b, numBuckets, now)
    requires !Overtakes(self, nodes, b, numBuckets, now)
    ensures k in Filled(Going(self, nodes, b, numBuckets, now), now)
  {
    hide SharedBits, BucketPlacement, Overtakes, Filled;
    var g := Going(self, nodes, b, numBuckets, now);
    GoingOfferable(self, nodes, b, numBuckets, now);
    GoingOvertaken(self, nodes, b, numBuckets, now);
    FilledInOrder(g, now);
    var i :| 0 <= i < |g| && g[i] == k;
    assert Front(g)[i] == k;
  }

  lemma SplitLoses(self: NodeId, t: Table, now: int)
    requires TableInv(self, t) && |t| < MAX_BUCKETS && SplitOvertakes(self, t, now)
    ensures !LiveKept(t, Split(self, t, now), now)
  {
    hide SharedBits, Split, Overtakes, Going, Filled;
    var last, r := t[|t| - 1], Split(self, t, now);
    SplitShares(self, t, now);
    SplitKeeps(self, t, now);
    var b := if Overtakes(self, last, |t|, |r|, now) then |t| else |t| - 1;
    var g := Going(self, last, b, |r|, now);
    assert BucketInv(self, |t|, |t| - 1, last);
    GoingOfferable(self, last, b, |r|, now);
    GoingOvertaken(self, last, b, |r|, now);
    var q := FilledLoses(g, now);
    assert q in last && GoesTo(self, q, b, |r|, now);
    assert LiveAt(t, |t| - 1, q, now);
    forall i': nat ensures !LiveAt(r, i', q, now) {
      if LiveAt(r, i', q, now) {
        LiveSits(self, r, i', q, now);
      }
    }
  }

  /** A live node is in the bucket its id leads to. */
  lemma LiveSits(self: NodeId, r: Table, i: nat, q: Node, now: int)
    requires TableInv(self, r) && LiveAt(r, i, q, now)
    ensures i == BucketPlacement(SharedBits(self, q.id), |r|)
  {
    var k :| k in r[i] && k.Same(q) && k.Pingable(now);
    BadUnlessReal(k, now);
    assert BucketInv(self, |r|, i, r[i]);
    var j :| 0 <= j < |r[i]| && r[i][j] == k;
    assert Sits(self, |r|, i, r[i][j]);
  }
}
