/**
 The Kademlia routing table (`bip_dht/src/routing/table.rs`, lines 14-176): where a node goes, how the
 last bucket is split, and what every run of insertions keeps.  The clock stands still during one call.
 */
module RoutingTables {
  import opened NodeIds
  import opened Nodes
  import opened Buckets

  const MAX_BUCKETS: nat := SHA_HASH_LEN * 8

  /** The buckets by value. */
  type Table = seq<seq<Node>>

  /** One to 160 buckets of eight slots each. */
  predicate Shaped(t: Table) {
    && 1 <= |t| <= MAX_BUCKETS
    && forall i :: 0 <= i < |t| ==> |t[i]| == MAX_BUCKET_SIZE
  }

  function BucketPlacement(numSameBits: nat, numBuckets: nat): nat
    requires numBuckets > 0
  {
    if numSameBits >= numBuckets then numBuckets - 1 else numSameBits
  }

  predicate CanSplitBucket(numBuckets: nat, bucketIndex: nat) {
    bucketIndex == numBuckets - 1 && bucketIndex != MAX_BUCKETS - 1
  }

  // ---------------------------------------------------------------------------------------------
  // Insertion by value
  // ---------------------------------------------------------------------------------------------

  function Added(self: NodeId, t: Table, node: Node, now: int): (r: Table)
    requires Shaped(t)
    ensures Shaped(r) && |r| >= |t|
    decreases MAX_BUCKETS - |t|, 2, 0
  {
    if node.Status(now).Bad? || SharedBits(self, node.id) == MAX_BUCKETS then t
    else Bucketed(self, t, node, SharedBits(self, node.id), now)
  }

  function Bucketed(self: NodeId, t: Table, node: Node, numSameBits: nat, now: int): (r: Table)
    requires Shaped(t)
    ensures Shaped(r) && |r| >= |t|
    decreases MAX_BUCKETS - |t|, 1, 0
  {
    if FindsPlace(t, node, numSameBits, now) || !CanSplitBucket(|t|, BucketPlacement(numSameBits, |t|)) then
      Offered(t, node, numSameBits, now)
    else
      Bucketed(self, Split(self, Offered(t, node, numSameBits, now), now), node, numSameBits, now)
  }

  /** The table after the bucket for `numSameBits` was offered the node. */
  function Offered(t: Table, node: Node, numSameBits: nat, now: int): (r: Table)
    requires Shaped(t)
    ensures Shaped(r) && |r| == |t|
  {
    var i := BucketPlacement(numSameBits, |t|);
    t[i := Place(t[i], node, now).0]
  }

  predicate FindsPlace(t: Table, node: Node, numSameBits: nat, now: int)
    requires Shaped(t)
  {
    Place(t[BucketPlacement(numSameBits, |t|)], node, now).1
  }

  function Split(self: NodeId, t: Table, now: int): (r: Table)
    requires Shaped(t) && |t| < MAX_BUCKETS
    ensures Shaped(r) && |r| > |t|
    decreases MAX_BUCKETS - |t|, 0, 0
  {
    AddedAll(self, Opened(t), t[|t| - 1], now)
  }

  /** The last bucket replaced by two empty ones. */
  function Opened(t: Table): (r: Table)
    requires Shaped(t) && |t| < MAX_BUCKETS
    ensures Shaped(r) && |r| == |t| + 1
  {
    t[..|t| - 1] + [EmptyBucket(), EmptyBucket()]
  }

  function AddedAll(self: NodeId, t: Table, nodes: seq<Node>, now: int): (r: Table)
    requires Shaped(t)
    ensures Shaped(r) && |r| >= |t|
    decreases MAX_BUCKETS - |t|, 3, |nodes|
  {
    if nodes == [] then t else AddedAll(self, Added(self, t, nodes[0], now), nodes[1..], now)
  }

  // ---------------------------------------------------------------------------------------------
  // The table in place
  // ---------------------------------------------------------------------------------------------

  /** The storage of the given buckets. */
  ghost function Storage(buckets: seq<Bucket>): set<object> {
    set i | 0 <= i < |buckets| :: buckets[i].nodes
  }

  ghost function Contents(buckets: seq<Bucket>): (t: Table)
    reads Storage(buckets)
    ensures |t| == |buckets| && forall i :: 0 <= i < |t| ==> t[i] == buckets[i].nodes[..]
  {
    if buckets == [] then [] else Contents(buckets[..|buckets| - 1]) + [buckets[|buckets| - 1].nodes[..]]
  }

  class RoutingTable {
    var buckets: seq<Bucket>
    const nodeId: NodeId

    ghost predicate Valid()
      reads this
    {
      && 1 <= |buckets| <= MAX_BUCKETS
      && (forall i :: 0 <= i < |buckets| ==> buckets[i].nodes.Length == MAX_BUCKET_SIZE)
      && (forall i, j :: 0 <= i < j < |buckets| ==> buckets[i].nodes != buckets[j].nodes)
    }

    ghost function View(): (t: Table)
      requires Valid()
      reads this, Storage(buckets)
      ensures Shaped(t) && |t| == |buckets|
    {
      Contents(buckets)
    }

    constructor (nodeId: NodeId)
      ensures Valid() && this.nodeId == nodeId && fresh(Storage(buckets))
      ensures View() == [EmptyBucket()]
    {
      this.nodeId := nodeId;
      var bucket := new Bucket();
      buckets := [bucket];
    }

    method AddNode(node: Node, now: int)
      requires Valid()
      modifies this, Storage(buckets)
      ensures Valid() && fresh(Storage(buckets) - old(Storage(buckets)))
      ensures View() == Added(nodeId, old(View()), node, now)
      decreases MAX_BUCKETS - |buckets|, 2, 0
    {
      if node.Status(now).Bad? {
        return;
      }
      var numSameBits := LeadingBitCount(nodeId, node.id);
      if numSameBits != MAX_BUCKETS {
        BucketNode(node, numSameBits, now);
      }
    }

    method BucketNode(node: Node, numSameBits: nat, now: int)
      requires Valid()
      modifies this, Storage(buckets)
      ensures Valid() && fresh(Storage(buckets) - old(Storage(buckets)))
      ensures View() == Bucketed(nodeId, old(View()), node, numSameBits, now)
      decreases MAX_BUCKETS - |buckets|, 1, 0
    {
      hide Split, Contents, Offered, FindsPlace;
      var placed := Offer(node, numSameBits, now);
      if !placed {
        var split := SplitBucket(BucketPlacement(numSameBits, |buckets|), now);
        if split {
          BucketNode(node, numSameBits, now);
        }
      }
    }

    method Offer(node: Node, numSameBits: nat, now: int) returns (placed: bool)
      requires Valid()
      modifies Storage(buckets)
      ensures Valid() && placed == FindsPlace(old(View()), node, numSameBits, now)
      ensures View() == Offered(old(View()), node, numSameBits, now)
    {
      hide Place, Contents;
      var i := BucketPlacement(numSameBits, |buckets|);
      assert buckets[i].nodes in Storage(buckets);
      placed := buckets[i].AddNode(node, now);
    }

    method SplitBucket(bucketIndex: nat, now: int) returns (split: bool)
      requires Valid()
      modifies this, Storage(buckets)
      ensures Valid() && fresh(Storage(buckets) - old(Storage(buckets)))
      ensures split == CanSplitBucket(old(|buckets|), bucketIndex)
      ensures |buckets| >= old(|buckets|) + (if split then 1 else 0)
      ensures View() == if split then Split(nodeId, old(View()), now) else old(View())
      decreases MAX_BUCKETS - |buckets|, 0, 0
    {
      hide Added, Contents, Opened;
      if !CanSplitBucket(|buckets|, bucketIndex) {
        return false;
      }
      var nodes := buckets[|buckets| - 1].nodes[..];
      Open();
      ghost var emptied := View();
      for k := 0 to |nodes|
        invariant Valid() && fresh(Storage(buckets) - old(Storage(buckets)))
        invariant |buckets| > old(|buckets|)
        invariant AddedAll(nodeId, emptied, nodes, now) == AddedAll(nodeId, View(), nodes[k..], now)
      {
        AddNode(nodes[k], now);
        assert nodes[k..][1..] == nodes[k + 1..];
      }
      split := true;
    }

    method Open()
      requires Valid() && |buckets| < MAX_BUCKETS
      modifies this
      ensures Valid() && fresh(Storage(buckets) - old(Storage(buckets)))
      ensures View() == Opened(old(View()))
    {
      hide Contents;
      var low := new Bucket();
      var high := new Bucket();
      buckets := buckets[..|buckets| - 1] + [low, high];
    }
  }
}
