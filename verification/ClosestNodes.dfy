/**
 The iterator over the table's nodes that zig-zags outwards from the target's bucket
 (`bip_dht/src/routing/table.rs`, lines 264-447).  Nodes of the last, unsorted bucket are handed out
 when the bucket they would belong to is visited.  The clock stands still during one iteration.
 */
module Closest {
  import opened Basics
  import opened NodeIds
  import opened Nodes
  import opened RoutingTables

  // ---------------------------------------------------------------------------------------------
  // The order in which buckets are visited
  // ---------------------------------------------------------------------------------------------

  function CheckedSub(a: nat, b: nat): Option<nat> {
    if a >= b then Some(a - b) else None
  }

  predicate IndexIsInBounds(length: nat, index: Option<nat>) {
    index.Some? && index.value < length
  }

  function FirstInBounds(length: nat, preferred: Option<nat>, other: Option<nat>): Option<nat> {
    if IndexIsInBounds(length, preferred) then preferred
    else if IndexIsInBounds(length, other) then other
    else None
  }

  function NextBucketIndex(numBuckets: nat, startIndex: nat, currIndex: nat): Option<nat> {
    if currIndex == startIndex then
      FirstInBounds(numBuckets, Some(startIndex + 1), CheckedSub(startIndex, 1))
    else if currIndex > startIndex then
      FirstInBounds(numBuckets, CheckedSub(startIndex, currIndex - startIndex), Some(currIndex + 1))
    else
      FirstInBounds(numBuckets, Some(startIndex + (startIndex - currIndex) + 1), CheckedSub(currIndex, 1))
  }

  ghost function Offset(startIndex: nat, i: nat): nat {
    if i < startIndex then startIndex - i else i - startIndex
  }

  /** The indices still to be visited: those further out, and the mirror image of one on the right. */
  ghost function Pending(numBuckets: nat, startIndex: nat, currIndex: nat): set<nat> {
    set i: nat | i < numBuckets &&
                 (Offset(startIndex, i) > Offset(startIndex, currIndex)
                  || (i < startIndex < currIndex && Offset(startIndex, i) == Offset(startIndex, currIndex)))
  }

  /** The iterator can be at this index: at its start, which may lie just past the end, or in bounds. */
  ghost predicate Reachable(numBuckets: nat, startIndex: nat, currIndex: nat) {
    startIndex <= numBuckets && (currIndex == startIndex || currIndex < numBuckets)
  }

  /** Each move visits one pending index and leaves the others pending, until none is left. */
  lemma ZigZag(numBuckets: nat, startIndex: nat, currIndex: nat)
    requires Reachable(numBuckets, startIndex, currIndex)
    ensures var pending := Pending(numBuckets, startIndex, currIndex);
            match NextBucketIndex(numBuckets, startIndex, currIndex)
            case None => pending == {}
            case Some(k) => k in pending && Pending(numBuckets, startIndex, k) == pending - {k}
  {
  }

  /** At the start everything but the start is pending. */
  lemma ZigZagStart(numBuckets: nat, startIndex: nat)
    ensures forall i: nat :: i in Pending(numBuckets, startIndex, startIndex) <==> i < numBuckets && i != startIndex
  {
  }

  // ---------------------------------------------------------------------------------------------
  // What each visit yields
  // ---------------------------------------------------------------------------------------------

  /** A node of the last bucket, the bucket it would belong to, and whether it was handed out. */
  datatype AssortedNode = AssortedNode(index: nat, node: Node, returned: bool)

  function SortedBuckets(t: Table): Table
    requires Shaped(t)
  {
    if |t| == MAX_BUCKETS then t else t[..|t| - 1]
  }

  function BucketIterator(t: Table, index: nat): Option<seq<Node>>
    requires Shaped(t)
  {
    if index < |SortedBuckets(t)| then Some(SortedBuckets(t)[index]) else None
  }

  function PrecomputeAssorted(self: NodeId, nodes: seq<Node>): seq<AssortedNode> {
    seq(|nodes|, j requires 0 <= j < |nodes| => AssortedNode(SharedBits(self, nodes[j].id), nodes[j], false))
  }

  /** The Good and Questionable nodes, in order. */
  ghost function Pings(nodes: seq<Node>, now: int): seq<Node> {
    if nodes == [] then []
    else (if nodes[0].Pingable(now) then [nodes[0]] else []) + Pings(nodes[1..], now)
  }

  ghost predicate Due(a: AssortedNode, index: nat, now: int) {
    a.node.Pingable(now) && a.index == index && !a.returned
  }

  ghost function AssortedAt(assorted: seq<AssortedNode>, index: nat, now: int): seq<Node> {
    if assorted == [] then []
    else (if Due(assorted[0], index, now) then [assorted[0].node] else []) + AssortedAt(assorted[1..], index, now)
  }

  ghost function BucketPings(t: Table, index: nat, now: int): seq<Node>
    requires Shaped(t)
  {
    if BucketIterator(t, index).Some? then Pings(BucketIterator(t, index).value, now) else []
  }

  ghost function Bundle(t: Table, assorted: seq<AssortedNode>, index: nat, now: int): seq<Node>
    requires Shaped(t)
  {
    BucketPings(t, index, now) + AssortedAt(assorted, index, now)
  }

  /** Everything yielded after the current index. */
  ghost function Later(t: Table, assorted: seq<AssortedNode>, startIndex: nat, currIndex: nat, now: int): seq<Node>
    requires Shaped(t) && Reachable(MAX_BUCKETS, startIndex, currIndex)
    decreases |Pending(MAX_BUCKETS, startIndex, currIndex)|
  {
    ZigZag(MAX_BUCKETS, startIndex, currIndex);
    match NextBucketIndex(MAX_BUCKETS, startIndex, currIndex)
    case None => []
    case Some(k) => Bundle(t, assorted, k, now) + Later(t, assorted, startIndex, k, now)
  }

  /** All yields for a target. */
  ghost function Yields(self: NodeId, target: NodeId, t: Table, now: int): seq<Node>
    requires Shaped(t)
  {
    var assorted := Assorted(self, t);
    var start := SharedBits(self, target);
    Bundle(t, assorted, start, now) + Later(t, assorted, start, start, now)
  }

  function Assorted(self: NodeId, t: Table): seq<AssortedNode>
    requires Shaped(t)
  {
    if |t| == MAX_BUCKETS then [] else PrecomputeAssorted(self, t[|t| - 1])
  }

  // ---------------------------------------------------------------------------------------------
  // The iterator
  // ---------------------------------------------------------------------------------------------

  class ClosestNodes {
    const buckets: Table
    const now: int
    const startIndex: nat
    var currentIter: seq<Node>
    var currentIndex: nat
    const assortedNodes: array<AssortedNode>

    ghost predicate Valid()
      reads this
    {
      && Shaped(buckets)
      && Reachable(MAX_BUCKETS, startIndex, currentIndex)
    }

    /** What is still to be yielded, in order. */
    ghost function Remaining(): seq<Node>
      requires Valid()
      reads this, assortedNodes
    {
      Pings(currentIter, now)
      + AssortedAt(assortedNodes[..], currentIndex, now)
      + Later(buckets, assortedNodes[..], startIndex, currentIndex, now)
    }

    constructor (buckets: Table, selfNodeId: NodeId, otherNodeId: NodeId, now: int)
      requires Shaped(buckets)
      ensures Valid() && fresh(assortedNodes)
      ensures Remaining() == Yields(selfNodeId, otherNodeId, buckets, now)
    {
      hide SharedBits, Assorted, AssortedAt, Later;
      var start := LeadingBitCount(selfNodeId, otherNodeId);
      this.buckets := buckets;
      this.now := now;
      startIndex := start;
      currentIndex := start;
      currentIter := if BucketIterator(buckets, start).Some? then BucketIterator(buckets, start).value else [];
      var assorted := Assorted(selfNodeId, buckets);
      assortedNodes := new AssortedNode[|assorted|](i requires 0 <= i < |assorted| => assorted[i]);
      new;
      assert assortedNodes[..] == Assorted(selfNodeId, buckets);
    }

    method Next() returns (r: Option<Node>)
      requires Valid()
      modifies this, assortedNodes
      ensures Valid()
      ensures old(Remaining()) == (if r.Some? then [r.value] else []) + Remaining()
      ensures r.None? ==> Remaining() == []
      decreases |Pending(MAX_BUCKETS, startIndex, currentIndex)|
    {
      ghost var sorted, assorted := Pings(currentIter, now), AssortedAt(assortedNodes[..], currentIndex, now);
      ghost var later := Later(buckets, assortedNodes[..], startIndex, currentIndex, now);

      // Nodes left in the current bucket
      r := NextInBucket();
      if r.Some? {
        Regroup([r.value], Pings(currentIter, now), assorted, later);
        return;
      }
      assert sorted == [];

      // Nodes of the assorted bucket that belong here
      r := NextAssorted();
      if r.Some? {
        Regroup([r.value], [], AssortedAt(assortedNodes[..], currentIndex, now), later);
        return;
      }
      assert old(Remaining()) == later;

      // On to the next bucket
      ZigZag(MAX_BUCKETS, startIndex, currentIndex);
      match NextBucketIndex(MAX_BUCKETS, startIndex, currentIndex) {
        case None =>
          r := None;
        case Some(newIndex) =>
          currentIndex := newIndex;
          var bucket := BucketIterator(buckets, newIndex);
          currentIter := if bucket.Some? then bucket.value else [];
          assert later == Remaining();
          r := Next();
      }
    }

    method NextInBucket() returns (r: Option<Node>)
      requires Valid()
      modifies this`currentIter
      ensures old(Pings(currentIter, now)) == (if r.Some? then [r.value] else []) + Pings(currentIter, now)
      ensures r.None? ==> currentIter == []
    {
      while currentIter != []
        invariant Pings(currentIter, now) == old(Pings(currentIter, now))
        decreases |currentIter|
      {
        var node := currentIter[0];
        currentIter := currentIter[1..];
        if node.Pingable(now) { return Some(node); }
      }
      r := None;
    }

    /** Hands out the first assorted node that is due here, and remembers that it did. */
    method NextAssorted() returns (r: Option<Node>)
      requires Valid()
      modifies assortedNodes
      ensures old(AssortedAt(assortedNodes[..], currentIndex, now))
           == (if r.Some? then [r.value] else []) + AssortedAt(assortedNodes[..], currentIndex, now)
      ensures r.None? ==> AssortedAt(assortedNodes[..], currentIndex, now) == []
      ensures Later(buckets, assortedNodes[..], startIndex, currentIndex, now)
           == old(Later(buckets, assortedNodes[..], startIndex, currentIndex, now))
    {
      ghost var before := assortedNodes[..];
      for i := 0 to assortedNodes.Length
        invariant assortedNodes[..] == before
        invariant forall k :: 0 <= k < i ==> !Due(before[k], currentIndex, now)
      {
        var a := assortedNodes[i];
        if a.node.Pingable(now) && a.index == currentIndex && !a.returned {
          assortedNodes[i] := a.(returned := true);
          assert assortedNodes[..] == before[i := a.(returned := true)];
          MarkReturned(before, i, currentIndex, now);
          MarkedElsewhere(buckets, before, i, startIndex, currentIndex, now);
          return Some(a.node);
        }
      }
      NothingDue(before, currentIndex, now);
      r := None;
    }
  }

  lemma Regroup(x: seq<Node>, a: seq<Node>, b: seq<Node>, c: seq<Node>)
    ensures (x + a) + b + c == x + (a + b + c)
    ensures a == [] ==> a + (x + b) + c == x + (a + b + c)
  {
  }

  lemma {:induction false} NothingDue(assorted: seq<AssortedNode>, index: nat, now: int)
    requires forall k :: 0 <= k < |assorted| ==> !Due(assorted[k], index, now)
    ensures AssortedAt(assorted, index, now) == []
  {
    if assorted != [] { NothingDue(assorted[1..], index, now); }
  }

  /** Marking the first node that is due removes exactly it from what is due. */
  lemma {:induction false} MarkReturned(assorted: seq<AssortedNode>, i: nat, index: nat, now: int)
    requires i < |assorted| && Due(assorted[i], index, now)
    requires forall k :: 0 <= k < i ==> !Due(assorted[k], index, now)
    ensures AssortedAt(assorted, index, now)
         == [assorted[i].node] + AssortedAt(assorted[i := assorted[i].(returned := true)], index, now)
  {
    var marked := assorted[i := assorted[i].(returned := true)];
    if i == 0 {
      assert marked[1..] == assorted[1..];
    } else {
      MarkReturned(assorted[1..], i - 1, index, now);
      assert marked[1..] == assorted[1..][i - 1 := assorted[i].(returned := true)];
    }
  }

  lemma {:induction false} MarkedAt(assorted: seq<AssortedNode>, i: nat, index: nat, now: int)
    requires i < |assorted| && assorted[i].index != index
    ensures AssortedAt(assorted[i := assorted[i].(returned := true)], index, now) == AssortedAt(assorted, index, now)
  {
    var marked := assorted[i := assorted[i].(returned := true)];
    if i == 0 {
      assert marked[1..] == assorted[1..];
    } else {
      MarkedAt(assorted[1..], i - 1, index, now);
      assert marked[1..] == assorted[1..][i - 1 := assorted[i].(returned := true)];
    }
  }

  /** Marking a node of the current bucket does not affect what later buckets yield. */
  lemma {:induction false} MarkedElsewhere(
    t: Table, assorted: seq<AssortedNode>, i: nat, startIndex: nat, currIndex: nat, now: int)
    requires Shaped(t) && Reachable(MAX_BUCKETS, startIndex, currIndex)
    requires i < |assorted| && assorted[i].index !in Pending(MAX_BUCKETS, startIndex, currIndex)
    ensures Later(t, assorted[i := assorted[i].(returned := true)], startIndex, currIndex, now)
         == Later(t, assorted, startIndex, currIndex, now)
    decreases |Pending(MAX_BUCKETS, startIndex, currIndex)|
  {
    ZigZag(MAX_BUCKETS, startIndex, currIndex);
    match NextBucketIndex(MAX_BUCKETS, startIndex, currIndex)
    case None =>
    case Some(k) =>
      MarkedAt(assorted, i, k, now);
      MarkedElsewhere(t, assorted, i, startIndex, k, now);
  }
}
