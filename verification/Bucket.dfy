/** A bucket of eight nodes and its replacement policy (`bip_dht/src/routing/bucket.rs`). */
module Buckets {
  import opened Basics
  import opened Nodes

  const MAX_BUCKET_SIZE: nat := 8

  function EmptyBucket(): seq<Node> {
    seq(MAX_BUCKET_SIZE, _ => Placeholder())
  }

  /** The first slot that holds a node equal to the given one. */
  function FirstSame(nodes: seq<Node>, node: Node, from: nat := 0): (r: Option<nat>)
    requires from <= |nodes|
    ensures r.Some? ==> from <= r.value < |nodes| && nodes[r.value].Same(node)
    ensures forall k :: from <= k < (if r.Some? then r.value else |nodes|) ==> !nodes[k].Same(node)
    decreases |nodes| - from
  {
    if from == |nodes| then None
    else if nodes[from].Same(node) then Some(from)
    else FirstSame(nodes, node, from + 1)
  }

  /** The first slot whose node is of lower status than `rank`. */
  function FirstBelow(nodes: seq<Node>, rank: nat, now: int, from: nat := 0): (r: Option<nat>)
    requires from <= |nodes|
    ensures r.Some? ==> from <= r.value < |nodes| && nodes[r.value].Status(now).Rank() < rank
    ensures forall k :: from <= k < (if r.Some? then r.value else |nodes|) ==> nodes[k].Status(now).Rank() >= rank
    decreases |nodes| - from
  {
    if from == |nodes| then None
    else if nodes[from].Status(now).Rank() < rank then Some(from)
    else FirstBelow(nodes, rank, now, from + 1)
  }

  /** The bucket after offering it a node, and whether the node found its place. */
  function Place(nodes: seq<Node>, newNode: Node, now: int): (r: (seq<Node>, bool))
    ensures |r.0| == |nodes|
  {
    var rank := newNode.Status(now).Rank();
    var same := FirstSame(nodes, newNode);
    var below := FirstBelow(nodes, rank, now);
    if rank == 0 then (nodes, true)
    else if same.Some? then
      (if rank >= nodes[same.value].Status(now).Rank() then nodes[same.value := newNode] else nodes, true)
    else if below.Some? then (nodes[below.value := newNode], true)
    else (nodes, false)
  }

  class Bucket {
    const nodes: array<Node>

    ghost predicate Valid() {
      nodes.Length == MAX_BUCKET_SIZE
    }

    constructor ()
      ensures Valid() && fresh(nodes) && nodes[..] == EmptyBucket()
    {
      nodes := new Node[MAX_BUCKET_SIZE](_ => Placeholder());
      new;
      assert nodes[..] == EmptyBucket();
    }

    method AddNode(newNode: Node, now: int) returns (placed: bool)
      requires Valid()
      modifies nodes
      ensures (nodes[..], placed) == Place(old(nodes[..]), newNode, now)
    {
      var newStatus := newNode.Status(now);
      if newStatus.Bad? {
        return true;
      }
      var same := FirstSame(nodes[..], newNode);
      if same.Some? {
        if newStatus.Rank() >= nodes[same.value].Status(now).Rank() {
          nodes[same.value] := newNode;
        }
        return true;
      }
      var lower := FirstBelow(nodes[..], newStatus.Rank(), now);
      if lower.Some? {
        nodes[lower.value] := newNode;
        placed := true;
      } else {
        placed := false;
      }
    }
  }

  // ---------------------------------------------------------------------------------------------
  // What placing a node keeps
  // ---------------------------------------------------------------------------------------------

  /** A Good node equal to `n` is among the nodes. */
  ghost predicate HasGood(nodes: seq<Node>, n: Node, now: int) {
    exists j :: 0 <= j < |nodes| && nodes[j].Same(n) && nodes[j].Status(now).Good?
  }

  /** A node equal to `n` and no worse is among the nodes. */
  ghost predicate Holds(nodes: seq<Node>, n: Node, now: int) {
    exists j :: 0 <= j < |nodes| && nodes[j].Same(n) && nodes[j].Status(now).Rank() >= n.Status(now).Rank()
  }

  /** No two real nodes are equal; nor is a real node preceded by a filler with its id and address. */
  ghost predicate DistinctNodes(nodes: seq<Node>) {
    forall i, j :: 0 <= i < j < |nodes| && nodes[j].Real() ==> !nodes[i].Same(nodes[j])
  }

  /** How many slots are taken by nodes that are not Bad. */
  ghost function Live(nodes: seq<Node>, now: int): nat {
    if nodes == [] then 0 else Live(nodes[1..], now) + (if nodes[0].Pingable(now) then 1 else 0)
  }

  lemma {:induction false} LiveUpdate(nodes: seq<Node>, i: nat, n: Node, now: int)
    requires i < |nodes|
    ensures Live(nodes[i := n], now) <= Live(nodes, now) + 1
  {
    if i == 0 {
      assert nodes[0 := n][1..] == nodes[1..];
    } else {
      assert nodes[i := n][1..] == nodes[1..][i - 1 := n];
      LiveUpdate(nodes[1..], i - 1, n, now);
    }
  }

  lemma {:induction false} LiveFull(nodes: seq<Node>, now: int)
    requires forall j :: 0 <= j < |nodes| ==> nodes[j].Pingable(now)
    ensures Live(nodes, now) == |nodes|
  {
    if nodes != [] { LiveFull(nodes[1..], now); }
  }

  /** At most one slot changes, and what it gets is the new node. */
  lemma PlaceChangesOneSlot(nodes: seq<Node>, newNode: Node, now: int)
    ensures var r := Place(nodes, newNode, now).0;
            && (forall j :: 0 <= j < |nodes| ==> r[j] == nodes[j] || r[j] == newNode)
            && Live(r, now) <= Live(nodes, now) + 1
    ensures !newNode.Pingable(now) ==> Place(nodes, newNode, now) == (nodes, true)
  {
    var same := FirstSame(nodes, newNode);
    var rank := newNode.Status(now).Rank();
    var lower := FirstBelow(nodes, rank, now);
    if same.Some? { LiveUpdate(nodes, same.value, newNode, now); }
    else if lower.Some? { LiveUpdate(nodes, lower.value, newNode, now); }
  }

  /** A node is turned away only by a bucket full of nodes at least as good, none of them equal to it. */
  lemma PlaceRefuses(nodes: seq<Node>, newNode: Node, now: int)
    requires !Place(nodes, newNode, now).1
    ensures newNode.Pingable(now) && Place(nodes, newNode, now).0 == nodes
    ensures forall j :: 0 <= j < |nodes| ==>
              nodes[j].Status(now).Rank() >= newNode.Status(now).Rank() && !nodes[j].Same(newNode)
    ensures Live(nodes, now) == |nodes|
  {
    assert forall j :: 0 <= j < |nodes| ==> nodes[j].Status(now).Rank() >= newNode.Status(now).Rank();
    LiveFull(nodes, now);
  }

  /** A node that is let in is there afterwards, as itself or as an equal node of higher status. */
  lemma PlaceAccepts(nodes: seq<Node>, newNode: Node, now: int)
    requires Place(nodes, newNode, now).1 && newNode.Pingable(now)
    ensures Holds(Place(nodes, newNode, now).0, newNode, now)
  {
    var r := Place(nodes, newNode, now).0;
    var same := FirstSame(nodes, newNode);
    var rank := newNode.Status(now).Rank();
    var lower := FirstBelow(nodes, rank, now);
    var i := if same.Some? then same.value else lower.value;
    assert r[i].Same(newNode);
  }

  /** No Good node is ever dropped for another one. */
  lemma PlaceKeepsGood(nodes: seq<Node>, newNode: Node, now: int, g: Node)
    requires HasGood(nodes, g, now)
    ensures HasGood(Place(nodes, newNode, now).0, g, now)
  {
    var r := Place(nodes, newNode, now);
    var j :| 0 <= j < |nodes| && nodes[j].Same(g) && nodes[j].Status(now).Good?;
    assert r.0[j].Same(g) && r.0[j].Status(now).Good?;
  }

  lemma PlaceKeepsDistinct(nodes: seq<Node>, newNode: Node, now: int)
    requires DistinctNodes(nodes)
    ensures DistinctNodes(Place(nodes, newNode, now).0)
  {
    var same := FirstSame(nodes, newNode);
    if same.Some? { assert nodes[same.value].Same(newNode); }
  }

  /** The first slot with less than a Good node holds a Questionable one, and a Good stranger comes. */
  predicate Displaces(nodes: seq<Node>, newNode: Node, now: int) {
    && newNode.Status(now).Good? && FirstSame(nodes, newNode).None?
    && var lower := FirstBelow(nodes, Good.Rank(), now);
       lower.Some? && nodes[lower.value].Status(now).Questionable?
  }

  /** No node that is not Bad is dropped, except exactly then. */
  lemma PlaceKeepsLive(nodes: seq<Node>, newNode: Node, now: int)
    requires DistinctNodes(nodes)
    ensures (forall n :: n in nodes && n.Pingable(now) ==>
               exists k :: k in Place(nodes, newNode, now).0 && k.Same(n) && k.Pingable(now))
            <==> !Displaces(nodes, newNode, now)
  {
    var r := Place(nodes, newNode, now).0;
    var same, lower := FirstSame(nodes, newNode), FirstBelow(nodes, newNode.Status(now).Rank(), now);
    if Displaces(nodes, newNode, now) {
      var q := nodes[lower.value];
      assert q in nodes && q.Pingable(now);
      forall k | k in r && k.Pingable(now) ensures !k.Same(q) {
        BadUnlessReal(k, now);
        BadUnlessReal(q, now);
        var j :| 0 <= j < |r| && r[j] == k;
      }
    } else {
      forall n | n in nodes && n.Pingable(now) ensures exists k :: k in r && k.Same(n) && k.Pingable(now) {
        var j :| 0 <= j < |nodes| && nodes[j] == n;
        assert r[j] in r && r[j].Same(n) && r[j].Pingable(now);
      }
    }
  }

  /** So a Questionable node can be dropped although a slot is free. */
  lemma QuestionableCanBeLost()
    ensures exists nodes: seq<Node>, q: Node, g: Node, now: int ::
              && |nodes| == MAX_BUCKET_SIZE
              && q in nodes && q.Status(now).Questionable?
              && Placeholder() in nodes
              && Place(nodes, g, now).1
              && forall n :: n in Place(nodes, g, now).0 ==> !n.Same(q)
  {
    var now := MAX_LAST_SEEN;
    var q := Placeholder().(addr := 1, lastResponse := Some(0));
    var g := Placeholder().(addr := 2, lastResponse := Some(now));
    var nodes := EmptyBucket()[0 := q];
    assert q == nodes[0] && Placeholder() == nodes[1];
    assert Place(nodes, g, now) == (nodes[0 := g], true);
  }
}
