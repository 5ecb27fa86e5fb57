/** What every run of insertions and contacts keeps of the routing table. */
module RoutingRuns {
  import opened NodeIds
  import opened Nodes
  import opened Buckets
  import opened RoutingTables

  /** A real node in bucket `i` shares exactly `i` bits with us; in the last bucket at least as many. */
  ghost predicate Sits(self: NodeId, numBuckets: nat, i: nat, n: Node) {
    n.Real() ==>
      && i <= SharedBits(self, n.id) < MAX_BUCKETS
      && (i < numBuckets - 1 ==> SharedBits(self, n.id) == i)
  }

  ghost predicate BucketInv(self: NodeId, numBuckets: nat, i: nat, nodes: seq<Node>) {
    && DistinctNodes(nodes)
    && forall j :: 0 <= j < |nodes| ==> Sits(self, numBuckets, i, nodes[j])
  }

  ghost predicate TableInv(self: NodeId, t: Table) {
    && Shaped(t)
    && forall i :: 0 <= i < |t| ==> BucketInv(self, |t|, i, t[i])
  }

  ghost predicate InTable(t: Table, g: Node, now: int) {
    exists i :: 0 <= i < |t| && HasGood(t[i], g, now)
  }

  /** Whatever is Good in `t` is Good in `t'`, though perhaps elsewhere. */
  ghost predicate GoodKept(t: Table, t': Table, now: int) {
    forall g :: InTable(t, g, now) ==> InTable(t', g, now)
  }

  // ---------------------------------------------------------------------------------------------
  // Offering a node to its bucket
  // ---------------------------------------------------------------------------------------------

  lemma OfferedKeeps(self: NodeId, t: Table, node: Node, now: int)
    requires TableInv(self, t) && node.Real() && SharedBits(self, node.id) < MAX_BUCKETS
    ensures TableInv(self, Offered(t, node, SharedBits(self, node.id), now))
    ensures GoodKept(t, Offered(t, node, SharedBits(self, node.id), now), now)
  {
    var k := SharedBits(self, node.id);
    var i := BucketPlacement(k, |t|);
    var t' := Offered(t, node, k, now);
    PlaceChangesOneSlot(t[i], node, now);
    PlaceKeepsDistinct(t[i], node, now);
    assert BucketInv(self, |t'|, i, t'[i]);
    forall g | InTable(t, g, now) ensures InTable(t', g, now) {
      var b :| 0 <= b < |t| && HasGood(t[b], g, now);
      if b == i { PlaceKeepsGood(t[i], node, now, g); }
      assert HasGood(t'[b], g, now);
    }
  }

  // ---------------------------------------------------------------------------------------------
  // Splitting
  // ---------------------------------------------------------------------------------------------

  lemma {:induction false} NoneLive(nodes: seq<Node>, now: int)
    requires forall j :: 0 <= j < |nodes| ==> !nodes[j].Pingable(now)
    ensures Live(nodes, now) == 0
  {
    if nodes != [] { NoneLive(nodes[1..], now); }
  }

  lemma OpenedInv(self: NodeId, t: Table, now: int)
    requires TableInv(self, t) && |t| < MAX_BUCKETS
    ensures TableInv(self, Opened(t))
    ensures Live(EmptyBucket(), now) == 0
  {
    NoneLive(EmptyBucket(), now);
    var r := Opened(t);
    forall i | 0 <= i < |r| ensures BucketInv(self, |r|, i, r[i]) {
      if i < |t| - 1 { assert BucketInv(self, |t|, i, t[i]); }
    }
  }

  /** The two buckets a split makes have room for all eight nodes of the bucket it removes. */
  ghost predicate Room(t: Table, count: nat, now: int)
    requires |t| >= 2
  {
    Live(t[|t| - 2], now) + count <= MAX_BUCKET_SIZE && Live(t[|t| - 1], now) + count <= MAX_BUCKET_SIZE
  }

  /** With room in its bucket a node goes in without any further split. */
  lemma AddedIsOffered(self: NodeId, t: Table, node: Node, now: int)
    requires Shaped(t) && node.Pingable(now) && SharedBits(self, node.id) < MAX_BUCKETS
    requires Live(t[BucketPlacement(SharedBits(self, node.id), |t|)], now) < MAX_BUCKET_SIZE
    ensures Added(self, t, node, now) == Offered(t, node, SharedBits(self, node.id), now)
    ensures FindsPlace(t, node, SharedBits(self, node.id), now)
  {
    var i := BucketPlacement(SharedBits(self, node.id), |t|);
    if !FindsPlace(t, node, SharedBits(self, node.id), now) { PlaceRefuses(t[i], node, now); }
  }

  lemma OfferedRoom(t: Table, node: Node, numSameBits: nat, count: nat, now: int)
    requires Shaped(t) && |t| >= 2 && Room(t, count + 1, now)
    ensures Room(Offered(t, node, numSameBits, now), count, now)
  {
    PlaceChangesOneSlot(t[BucketPlacement(numSameBits, |t|)], node, now);
  }

  lemma OfferedGood(t: Table, node: Node, numSameBits: nat, now: int)
    requires Shaped(t) && FindsPlace(t, node, numSameBits, now) && node.Status(now).Good?
    ensures InTable(Offered(t, node, numSameBits, now), node, now)
  {
    var i := BucketPlacement(numSameBits, |t|);
    PlaceAccepts(t[i], node, now);
    assert HasGood(Offered(t, node, numSameBits, now)[i], node, now);
  }

  lemma AddedWithRoom(self: NodeId, t: Table, node: Node, count: nat, now: int)
    requires TableInv(self, t) && |t| >= 2 && Room(t, count + 1, now)
    requires node.Real() ==> |t| - 2 <= SharedBits(self, node.id) < MAX_BUCKETS
    ensures var r := Added(self, t, node, now);
            && |r| == |t| && TableInv(self, r) && Room(r, count, now)
            && GoodKept(t, r, now)
            && (node.Status(now).Good? ==> InTable(r, node, now))
  {
    if node.Pingable(now) {
      var k := SharedBits(self, node.id);
      assert BucketPlacement(k, |t|) == |t| - 2 || BucketPlacement(k, |t|) == |t| - 1;
      AddedIsOffered(self, t, node, now);
      OfferedKeeps(self, t, node, now);
      OfferedRoom(t, node, k, count, now);
      if node.Status(now).Good? { OfferedGood(t, node, k, now); }
    }
  }

  lemma {:induction false} AddedAllWithRoom(self: NodeId, t: Table, nodes: seq<Node>, now: int)
    requires TableInv(self, t) && |t| >= 2 && Room(t, |nodes|, now)
    requires forall j :: 0 <= j < |nodes| && nodes[j].Real() ==> |t| - 2 <= SharedBits(self, nodes[j].id) < MAX_BUCKETS
    ensures var r := AddedAll(self, t, nodes, now);
            && |r| == |t| && TableInv(self, r)
            && GoodKept(t, r, now)
            && forall j :: 0 <= j < |nodes| && nodes[j].Status(now).Good? ==> InTable(r, nodes[j], now)
    decreases |nodes|
  {
    if nodes != [] {
      AddedWithRoom(self, t, nodes[0], |nodes| - 1, now);
      AddedAllWithRoom(self, Added(self, t, nodes[0], now), nodes[1..], now);
      forall j | 0 < j < |nodes| && nodes[j].Status(now).Good?
        ensures InTable(AddedAll(self, t, nodes, now), nodes[j], now)
      {
        assert nodes[j] == nodes[1..][j - 1];
      }
    }
  }

  /** A split adds exactly one bucket, keeps the order of the table and loses no Good node. */
  lemma SplitKeeps(self: NodeId, t: Table, now: int)
    requires TableInv(self, t) && |t| < MAX_BUCKETS
    ensures |Split(self, t, now)| == |t| + 1
    ensures TableInv(self, Split(self, t, now))
    ensures GoodKept(t, Split(self, t, now), now)
  {
    var last := t[|t| - 1];
    OpenedInv(self, t, now);
    forall j | 0 <= j < |last| && last[j].Real()
      ensures |t| - 1 <= SharedBits(self, last[j].id) < MAX_BUCKETS
    {
      assert BucketInv(self, |t|, |t| - 1, last);
      assert Sits(self, |t|, |t| - 1, last[j]);
    }
    AddedAllWithRoom(self, Opened(t), last, now);
    forall g | InTable(t, g, now) ensures InTable(Split(self, t, now), g, now) {
      var b :| 0 <= b < |t| && HasGood(t[b], g, now);
      if b < |t| - 1 {
        assert Opened(t)[b] == t[b];
        assert InTable(Opened(t), g, now);
      } else {
        var j :| 0 <= j < |last| && last[j].Same(g) && last[j].Status(now).Good?;
        SameIsEnough(Split(self, t, now), last[j], g, now);
      }
    }
  }

  lemma SameIsEnough(t: Table, n: Node, g: Node, now: int)
    requires InTable(t, n, now) && n.Same(g)
    ensures InTable(t, g, now)
  {
    var i :| 0 <= i < |t| && HasGood(t[i], n, now);
    assert HasGood(t[i], g, now);
  }

  // ---------------------------------------------------------------------------------------------
  // Insertion
  // ---------------------------------------------------------------------------------------------

  /** The node is in its bucket, or that bucket is at its finest and full of others no worse. */
  ghost predicate AddedOrFull(self: NodeId, t: Table, node: Node, now: int)
    requires Shaped(t)
  {
    var i := BucketPlacement(SharedBits(self, node.id), |t|);
    || Holds(t[i], node, now)
    || (&& !CanSplitBucket(|t|, i)
        && forall n :: n in t[i] ==> n.Status(now).Rank() >= node.Status(now).Rank() && !n.Same(node))
  }

  lemma {:induction false} BucketedKeeps(self: NodeId, t: Table, node: Node, now: int)
    requires TableInv(self, t) && node.Pingable(now) && SharedBits(self, node.id) < MAX_BUCKETS
    ensures var r := Bucketed(self, t, node, SharedBits(self, node.id), now);
            TableInv(self, r) && GoodKept(t, r, now) && AddedOrFull(self, r, node, now)
    decreases MAX_BUCKETS - |t|
  {
    var k := SharedBits(self, node.id);
    var i := BucketPlacement(k, |t|);
    var t' := Offered(t, node, k, now);
    OfferedKeeps(self, t, node, now);
    if FindsPlace(t, node, k, now) {
      PlaceAccepts(t[i], node, now);
    } else {
      PlaceRefuses(t[i], node, now);
      assert t' == t;
      if CanSplitBucket(|t|, i) {
        SplitKeeps(self, t', now);
        BucketedKeeps(self, Split(self, t', now), node, now);
      }
    }
  }

  /** One insertion: the table stays ordered, no Good node is lost, and the node gets in if it can. */
  lemma AddedKeeps(self: NodeId, t: Table, node: Node, now: int)
    requires TableInv(self, t)
    ensures var r := Added(self, t, node, now);
            && TableInv(self, r)
            && GoodKept(t, r, now)
            && (node.Pingable(now) && node.id != self ==> AddedOrFull(self, r, node, now))
            && (!node.Pingable(now) || node.id == self ==> r == t)
  {
    SharedAllIsEqual(self, node.id);
    if node.Pingable(now) && node.id != self { BucketedKeeps(self, t, node, now); }
  }

  // ---------------------------------------------------------------------------------------------
  // Runs
  // ---------------------------------------------------------------------------------------------

  /** Insertions, and messages exchanged with a node that is in the table. */
  datatype Event = Add(node: Node, now: int) | Touch(bucket: nat, slot: nat, contact: Contact, now: int)

  function Touched(t: Table, bucket: nat, slot: nat, contact: Contact, now: int): (r: Table)
    requires Shaped(t)
    ensures Shaped(r) && |r| == |t|
  {
    if bucket < |t| && slot < MAX_BUCKET_SIZE && t[bucket][slot].Pingable(now) then
      t[bucket := t[bucket][slot := Contacted(t[bucket][slot], contact, now)]]
    else t
  }

  function Step(self: NodeId, t: Table, e: Event): (r: Table)
    requires Shaped(t)
    ensures Shaped(r)
  {
    match e
    case Add(node, now) => Added(self, t, node, now)
    case Touch(bucket, slot, contact, now) => Touched(t, bucket, slot, contact, now)
  }

  function Run(self: NodeId, events: seq<Event>): (r: Table)
    ensures Shaped(r)
  {
    if events == [] then [EmptyBucket()] else Step(self, Run(self, events[..|events| - 1]), events[|events| - 1])
  }

  lemma TouchedKeeps(self: NodeId, t: Table, bucket: nat, slot: nat, contact: Contact, now: int)
    requires TableInv(self, t)
    ensures TableInv(self, Touched(t, bucket, slot, contact, now))
  {
    var r := Touched(t, bucket, slot, contact, now);
    if r != t {
      assert BucketInv(self, |t|, bucket, t[bucket]);
      var n := t[bucket][slot];
      assert n.Real() && Contacted(n, contact, now).Real() && Contacted(n, contact, now).Same(n);
      assert BucketInv(self, |r|, bucket, r[bucket]);
    }
  }

  /**
   After any run there are 1 to 160 ordered buckets, no node has our id and no node is there twice;
   and one more insertion, at any time, loses no node that is Good then.
   */
  lemma {:induction false} EveryRunOrdered(self: NodeId, events: seq<Event>)
    ensures TableInv(self, Run(self, events))
    ensures forall node, now :: GoodKept(Run(self, events), Added(self, Run(self, events), node, now), now)
  {
    if events != [] {
      var before := Run(self, events[..|events| - 1]);
      EveryRunOrdered(self, events[..|events| - 1]);
      match events[|events| - 1]
      case Add(node, now) => AddedKeeps(self, before, node, now);
      case Touch(bucket, slot, contact, now) => TouchedKeeps(self, before, bucket, slot, contact, now);
    }
    forall node, now ensures GoodKept(Run(self, events), Added(self, Run(self, events), node, now), now) {
      AddedKeeps(self, Run(self, events), node, now);
    }
  }

  /** Equal nodes never sit in two places of an ordered table. */
  lemma NoNodeTwice(self: NodeId, t: Table, i: nat, j: nat, i': nat, j': nat)
    requires TableInv(self, t)
    requires i < |t| && j < MAX_BUCKET_SIZE && t[i][j].Real()
    requires i' < |t| && j' < MAX_BUCKET_SIZE && t[i'][j'].Real()
    requires t[i][j].Same(t[i'][j'])
    ensures i == i' && j == j'
  {
    assert BucketInv(self, |t|, i, t[i]) && BucketInv(self, |t|, i', t[i']);
    assert Sits(self, |t|, i, t[i][j]) && Sits(self, |t|, i', t[i'][j']);
  }
}
