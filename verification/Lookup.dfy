/**
 The iterative lookup of the DHT (`bip_dht/src/worker/lookup.rs`).

 The ids of the messages come from an id generator; which id the n-th call during a step returns, and
 whether the timer set and the message sent under that id succeed, are parameters of the step. A step
 that fails has the status `Failed`, upon which the original gives up the lookup.
 */
module Lookups {
  import opened Basics
  import opened NodeIds
  import opened Nodes

  const INITIAL_PICK_NUM: nat := 4
  const ITERATIVE_PICK_NUM: nat := 3
  const ANNOUNCE_PICK_NUM: nat := 8
  const MAX_BUCKET_SIZE: nat := 8

  type TransactionId = nat
  type Distance = NodeId

  /** What the n-th id is that a step draws, and whether its timer and its message go through. */
  datatype Env = Env(draw: nat -> TransactionId, timer: nat -> bool, send: nat -> bool)

  /** A node as others name it to us: its id and its address. */
  datatype Peer = Peer(id: NodeId, addr: SocketAddr)

  datatype Known = Known(dist: Distance, peer: Peer, pinged: bool)

  datatype Slot = Slot(peer: Peer, used: bool)

  datatype Request = Request(peer: Peer, toBeat: Distance)

  datatype Info =
    | OnlyNodes(nodes: seq<Peer>)
    | OnlyValues(values: seq<SocketAddr>)
    | Both(nodes: seq<Peer>, values: seq<SocketAddr>)

  datatype LookupStatus = Searching | Values(values: seq<SocketAddr>) | Completed | Failed

  datatype State = State(
    target: NodeId,
    willAnnounce: bool,
    inEndgame: bool,
    recvValues: bool,
    active: map<TransactionId, Distance>,
    tokens: map<Peer, seq<byte>>,
    requested: set<Peer>,
    sorted: seq<Known>)

  /** The state after a step, and whether the step failed. */
  datatype Result = Result(state: State, failed: bool)

  function Dist(target: NodeId, peer: Peer): Distance {
    Xor(target, peer.id)
  }

  // ---------------------------------------------------------------------------------------------
  // Picking the nodes of a round
  // ---------------------------------------------------------------------------------------------

  function EmptySlot(): Slot {
    Slot(Peer(seq(SHA_HASH_LEN, _ => 0), 0), false)
  }

  function EmptySlots(): (r: seq<Slot>)
    ensures |r| == ITERATIVE_PICK_NUM && forall i :: 0 <= i < |r| ==> !r[i].used
  {
    [EmptySlot(), EmptySlot(), EmptySlot()]
  }

  /** The first slot that is free or holds a node further away takes the node. */
  function Placed(slots: seq<Slot>, target: NodeId, peer: Peer): (r: seq<Slot>)
    ensures |r| == |slots|
  {
    if slots == [] then []
    else if !slots[0].used || Less(Dist(target, peer), Dist(target, slots[0].peer)) then [Slot(peer, true)] + slots[1..]
    else [slots[0]] + Placed(slots[1..], target, peer)
  }

  method InsertClosestNodes(slots: array<Slot>, target: NodeId, peer: Peer)
    modifies slots
    ensures slots[..] == Placed(old(slots[..]), target, peer)
  {
    hide Placed, Less, Dist;
    ghost var was := slots[..];
    PlacedFrom(was, target, peer, 0);
    for i := 0 to slots.Length
      invariant slots[..] == was
      invariant Placed(was, target, peer) == was[..i] + Placed(was[i..], target, peer)
    {
      PlacedFrom(was, target, peer, i);
      if !slots[i].used || Less(Dist(target, peer), Dist(target, slots[i].peer)) {
        slots[i] := Slot(peer, true);
        assert slots[..] == was[..i] + ([Slot(peer, true)] + was[i + 1..]);
        return;
      }
    }
    PlacedFrom(was, target, peer, slots.Length);
  }

  /** The slots before `i` were passed over. */
  lemma PlacedFrom(slots: seq<Slot>, target: NodeId, peer: Peer, i: nat)
    requires i <= |slots|
    ensures slots[..0] + Placed(slots[0..], target, peer) == Placed(slots, target, peer)
    ensures i == |slots| ==> slots[..i] + Placed(slots[i..], target, peer) == slots
    ensures i < |slots| ==>
              if !slots[i].used || Less(Dist(target, peer), Dist(target, slots[i].peer))
              then Placed(slots[i..], target, peer) == [Slot(peer, true)] + slots[i + 1..]
              else slots[..i] + Placed(slots[i..], target, peer) ==
                     slots[..i + 1] + Placed(slots[i + 1..], target, peer)
  {
    hide Less, Dist;
    assert slots[0..] == slots;
    if i < |slots| {
      assert slots[i..][1..] == slots[i + 1..] && slots[i..][0] == slots[i];
      assert slots[..i] + ([slots[i]] + Placed(slots[i + 1..], target, peer)) ==
               slots[..i + 1] + Placed(slots[i + 1..], target, peer);
    }
  }

  function PickAll(slots: seq<Slot>, target: NodeId, peers: seq<Peer>): (r: seq<Slot>)
    ensures |r| == |slots|
    decreases |peers|
  {
    if peers == [] then slots else PickAll(Placed(slots, target, peers[0]), target, peers[1..])
  }

  method PickIterateNodes(peers: seq<Peer>, target: NodeId) returns (r: seq<Slot>)
    ensures r == PickAll(EmptySlots(), target, peers)
  {
    var slots := new Slot[3](_ => EmptySlot());
    assert slots[..] == EmptySlots();
    for i := 0 to |peers|
      invariant PickAll(slots[..], target, peers[i..]) == PickAll(EmptySlots(), target, peers)
    {
      assert peers[i..][1..] == peers[i + 1..];
      InsertClosestNodes(slots, target, peers[i]);
    }
    return slots[..];
  }

  function Used(slots: seq<Slot>): (r: seq<Peer>)
    ensures |r| <= |slots|
  {
    if slots == [] then [] else (if slots[0].used then [slots[0].peer] else []) + Used(slots[1..])
  }

  /** The closest distance among the given one and those of the peers. */
  function Closest(dist: Distance, target: NodeId, peers: seq<Peer>): Distance
    decreases |peers|
  {
    if peers == [] then dist
    else
      var d := Dist(target, peers[0]);
      Closest(if Less(d, dist) then d else dist, target, peers[1..])
  }

  function Unrequested(peers: seq<Peer>, requested: set<Peer>): (r: seq<Peer>)
    ensures |r| <= |peers|
    ensures forall p :: p in r ==> p in peers && p !in requested
  {
    if peers == [] then []
    else (if peers[0] in requested then [] else [peers[0]]) + Unrequested(peers[1..], requested)
  }

  // ---------------------------------------------------------------------------------------------
  // The sorted list of all nodes
  // ---------------------------------------------------------------------------------------------

  /** In the order of their distances to the target, and these are recorded correctly. */
  ghost predicate Ordered(known: seq<Known>, target: NodeId) {
    && (forall i :: 0 <= i < |known| ==> known[i].dist == Dist(target, known[i].peer))
    && (forall i, j :: 0 <= i < j < |known| ==> Value(known[i].dist) <= Value(known[j].dist))
  }

  datatype Found = At(index: nat) | Gap(index: nat)

  /** Everything before position `i` is closer than the distance. */
  ghost predicate Before(known: seq<Known>, i: nat, dist: Distance)
    requires i <= |known|
  {
    forall k :: 0 <= k < i ==> Value(known[k].dist) < Value(dist)
  }

  /** Everything from position `i` on is further than the distance. */
  ghost predicate Behind(known: seq<Known>, i: nat, dist: Distance)
    requires i <= |known|
  {
    forall k :: i <= k < |known| ==> Value(dist) < Value(known[k].dist)
  }

  /** One comparison decides for everything on one side. */
  lemma Halves(known: seq<Known>, dist: Distance, target: NodeId, mid: nat)
    requires Ordered(known, target) && mid < |known|
    ensures Less(known[mid].dist, dist) ==> Before(known, mid + 1, dist)
    ensures !Less(known[mid].dist, dist) && known[mid].dist != dist ==> Behind(known, mid, dist)
  {
    hide Value, Less, Dist;
    LessIsNumeric(known[mid].dist, dist);
  }

  /** Binary search between `lo` and `hi`. */
  function Bisect(known: seq<Known>, dist: Distance, ghost target: NodeId, lo: nat, hi: nat): (r: Found)
    requires Ordered(known, target) && lo <= hi <= |known| && Before(known, lo, dist) && Behind(known, hi, dist)
    ensures r.At? ==> r.index < |known| && known[r.index].dist == dist
    ensures r.Gap? ==> r.index <= |known| && Before(known, r.index, dist) && Behind(known, r.index, dist)
    decreases hi - lo
  {
    if lo == hi then Gap(lo)
    else
      var mid := (lo + hi) / 2;
      Halves(known, dist, target, mid);
      if known[mid].dist == dist then At(mid)
      else if Less(known[mid].dist, dist) then Bisect(known, dist, target, mid + 1, hi)
      else Bisect(known, dist, target, lo, mid)
  }

  /** Where the node goes, unless the entry that is found there is this very node. */
  function InsertSorted(known: seq<Known>, target: NodeId, peer: Peer, pinged: bool): (r: seq<Known>)
    requires Ordered(known, target)
    ensures Ordered(r, target)
    ensures forall k :: k in known ==> k in r
    ensures exists i :: 0 <= i < |r| && r[i].peer == peer
    ensures forall k :: k in r ==> k in known || k == Known(Dist(target, peer), peer, pinged)
  {
    var found := Bisect(known, Dist(target, peer), target, 0, |known|);
    if found.At? && known[found.index].peer == peer then known
    else
      var k := Known(Dist(target, peer), peer, pinged);
      var r := known[..found.index] + [k] + known[found.index..];
      SplicedOrdered(known, target, k, found.index);
      r
  }

  lemma SplicedOrdered(known: seq<Known>, target: NodeId, k: Known, index: nat)
    requires Ordered(known, target) && k.dist == Dist(target, k.peer) && index <= |known|
    requires forall i :: 0 <= i < index ==> Value(known[i].dist) <= Value(k.dist)
    requires forall i :: index <= i < |known| ==> Value(k.dist) <= Value(known[i].dist)
    ensures var r := known[..index] + [k] + known[index..];
            && Ordered(r, target) && r[index] == k
            && (forall x :: x in known ==> x in r) && (forall x :: x in r ==> x in known || x == k)
  {
    hide Value, Dist;
    assert known == known[..index] + known[index..];
  }

  predicate WillPing(slots: seq<Slot>, peer: Peer) {
    exists i :: 0 <= i < |slots| && slots[i].peer == peer
  }

  function InsertAll(known: seq<Known>, target: NodeId, peers: seq<Peer>, slots: seq<Slot>): (r: seq<Known>)
    requires Ordered(known, target)
    ensures Ordered(r, target)
    ensures forall k :: k in known ==> k in r
    decreases |peers|
  {
    if peers == [] then known
    else InsertAll(InsertSorted(known, target, peers[0], WillPing(slots, peers[0])), target, peers[1..], slots)
  }

  // ---------------------------------------------------------------------------------------------
  // Steps
  // ---------------------------------------------------------------------------------------------

  function RequestAll(s: State, round: seq<Request>, env: Env, n: nat): (r: Result)
    ensures r.state == s.(active := r.state.active, requested := r.state.requested)
    decreases |round|
  {
    if round == [] then Result(s, false)
    else if !env.timer(n) then Result(s, true)
    else
      var s' := s.(active := s.active[env.draw(n) := round[0].toBeat]);
      if !env.send(n) then Result(s', true)
      else RequestAll(s'.(requested := s.requested + {round[0].peer}), round[1..], env, n + 1)
  }

  /** `start_request_round`: a round without nodes ends all requests. */
  function StartRound(s: State, round: seq<Request>, env: Env): (r: Result)
    ensures r.state == s.(active := r.state.active, requested := r.state.requested)
  {
    if round == [] then Result(s.(active := map[]), false) else RequestAll(s, round, env, 0)
  }

  /** Requests to every node from position `i` on that was not asked yet, each under a new id. */
  function Sweep(s: State, i: nat, env: Env, n: nat): (r: Result)
    requires i <= |s.sorted|
    ensures r.state == s.(active := r.state.active, sorted := r.state.sorted)
    decreases |s.sorted| - i
  {
    if i == |s.sorted| then Result(s, false)
    else if s.sorted[i].pinged then Sweep(s, i + 1, env, n)
    else
      var s' := s.(active := s.active[env.draw(n) := s.sorted[i].dist]);
      if !env.send(n) then Result(s', true)
      else Sweep(s'.(sorted := s.sorted[i := s.sorted[i].(pinged := true)]), i + 1, env, n + 1)
  }

  /** `start_endgame_round`, whose first id is that of its timer. */
  function StartEndgame(s: State, env: Env, n: nat): (r: Result)
    ensures r.state == s.(inEndgame := true, active := r.state.active, sorted := r.state.sorted)
  {
    var s' := s.(inEndgame := true);
    if !env.timer(n) then Result(s', true)
    else if s.recvValues then Result(s', false)
    else Sweep(s', 0, env, n + 1)
  }

  /** Starts the endgame when no request is left. */
  function Settled(s: State, env: Env, n: nat): Result {
    if !s.inEndgame && s.active == map[] then StartEndgame(s, env, n) else Result(s, false)
  }

  function Round(peers: seq<Peer>, toBeat: Distance): (r: seq<Request>)
    ensures |r| == |peers| && forall i :: 0 <= i < |r| ==> r[i] == Request(peers[i], toBeat)
  {
    if peers == [] then [] else [Request(peers[0], toBeat)] + Round(peers[1..], toBeat)
  }

  /** What a response does to everything but the nodes it names. */
  function Answered(s: State, from: Peer, id: TransactionId, token: Option<seq<byte>>, info: Info): State {
    s.(active := s.active - {id},
       tokens := if token.Some? then s.tokens[from := token.value] else s.tokens,
       recvValues := s.recvValues || info.OnlyValues?)
  }

  function LearnNodes(s: State, dist: Distance, peers: seq<Peer>, env: Env): Result
    requires Ordered(s.sorted, s.target)
  {
    var unrequested := Unrequested(peers, s.requested);
    var next := Closest(dist, s.target, unrequested);
    if Less(next, dist) then
      var slots := PickAll(EmptySlots(), s.target, unrequested);
      var s' := s.(sorted := InsertAll(s.sorted, s.target, peers, slots));
      if s.inEndgame then Result(s', false)
      else
        var r := StartRound(s', Round(Used(slots), next), env);
        if r.failed then r else Settled(r.state, env, |Used(slots)|)
    else
      Settled(s.(sorted := InsertAll(s.sorted, s.target, peers, [])), env, 0)
  }

  function Response(s: State, from: Peer, id: TransactionId, token: Option<seq<byte>>, info: Info, env: Env): Result
    requires Ordered(s.sorted, s.target)
  {
    if id !in s.active then Result(s, false)
    else
      var s' := Answered(s, from, id, token, info);
      if info.OnlyValues? then Settled(s', env, 0) else LearnNodes(s', s.active[id], info.nodes, env)
  }

  function TimedOut(s: State, id: TransactionId, env: Env): Result {
    if id !in s.active then Result(s, false) else Settled(s.(active := s.active - {id}), env, 0)
  }

  function Status(s: State): LookupStatus {
    if s.inEndgame || s.active != map[] then Searching else Completed
  }

  /** The nodes that `recv_finished` announces to: the first ones that gave us a token. */
  function Announced(known: seq<Known>, tokens: map<Peer, seq<byte>>, limit: nat): (r: seq<Known>)
    ensures |r| <= limit && forall k :: k in r ==> k in known && k.peer in tokens
  {
    if known == [] || limit == 0 then []
    else if known[0].peer in tokens then [known[0]] + Announced(known[1..], tokens, limit - 1)
    else Announced(known[1..], tokens, limit)
  }

  /** The first `n` messages of a step went through. */
  ghost predicate AllSent(env: Env, n: nat) {
    forall k: nat :: k < n ==> env.send(k)
  }

  function Finished(s: State): State {
    s.(active := map[], inEndgame := false)
  }

  // ---------------------------------------------------------------------------------------------
  // A new lookup
  // ---------------------------------------------------------------------------------------------

  /** The first nodes of the list are marked as asked. */
  function MarkFirst(known: seq<Known>, n: nat): (r: seq<Known>)
    ensures |r| == |known|
    ensures forall i :: 0 <= i < |r| ==> r[i] == if i < n then known[i].(pinged := true) else known[i]
  {
    if known == [] || n == 0 then known else [known[0].(pinged := true)] + MarkFirst(known[1..], n - 1)
  }

  function InitialRound(known: seq<Known>, target: NodeId, n: nat): (r: seq<Request>)
    ensures |r| == if |known| < n then |known| else n
    ensures forall i :: 0 <= i < |r| ==> r[i] == Request(known[i].peer, Dist(target, known[i].peer))
  {
    if known == [] || n == 0 then []
    else [Request(known[0].peer, Dist(target, known[0].peer))] + InitialRound(known[1..], target, n - 1)
  }

  /** `closest` are the good nodes of the routing table in the order of its iterator. */
  function Begun(target: NodeId, willAnnounce: bool, closest: seq<Peer>, env: Env): Result {
    var picked := if |closest| > MAX_BUCKET_SIZE then closest[..MAX_BUCKET_SIZE] else closest;
    var known := InsertAll([], target, picked, []);
    var s := State(target, willAnnounce, false, false, map[], map[], {}, MarkFirst(known, INITIAL_PICK_NUM));
    StartRound(s, InitialRound(known, target, INITIAL_PICK_NUM), env)
  }

  // ---------------------------------------------------------------------------------------------
  // The object
  // ---------------------------------------------------------------------------------------------

  class TableLookup {
    const target: NodeId
    const willAnnounce: bool
    var inEndgame: bool
    var recvValues: bool
    var active: map<TransactionId, Distance>
    var tokens: map<Peer, seq<byte>>
    var requested: set<Peer>
    var sorted: seq<Known>

    ghost function View(): State
      reads this
    {
      State(target, willAnnounce, inEndgame, recvValues, active, tokens, requested, sorted)
    }

    ghost predicate Valid()
      reads this
    {
      Ordered(sorted, target)
    }

    /** A lookup that knows no node yet. */
    constructor (target: NodeId, willAnnounce: bool)
      ensures Valid() && View() == State(target, willAnnounce, false, false, map[], map[], {}, [])
    {
      this.target, this.willAnnounce := target, willAnnounce;
      inEndgame, recvValues, active, tokens, requested, sorted := false, false, map[], map[], {}, [];
    }

    /** The new lookup, unless its first round fails. */
    static method New(target: NodeId, willAnnounce: bool, closest: seq<Peer>, env: Env) returns (r: Option<TableLookup>)
      ensures r.None? <==> Begun(target, willAnnounce, closest, env).failed
      ensures r.Some? ==> fresh(r.value) && r.value.Valid()
      ensures r.Some? ==> r.value.View() == Begun(target, willAnnounce, closest, env).state
    {
      hide InsertSorted, InitialRound, RequestAll, Ordered;
      var lookup := new TableLookup(target, willAnnounce);
      var picked := if |closest| > MAX_BUCKET_SIZE then closest[..MAX_BUCKET_SIZE] else closest;
      lookup.InsertNodes(picked, []);
      ghost var known := lookup.sorted;
      var round := InitialRound(lookup.sorted, target, INITIAL_PICK_NUM);
      lookup.sorted := MarkFirst(lookup.sorted, INITIAL_PICK_NUM);
      MarkedOrdered(known, target, INITIAL_PICK_NUM);
      var status := lookup.StartRequestRound(round, env);
      r := if status.Failed? then None else Some(lookup);
    }

    method InsertNodes(peers: seq<Peer>, slots: seq<Slot>)
      requires Valid()
      modifies this`sorted
      ensures Valid() && sorted == InsertAll(old(sorted), target, peers, slots)
    {
      hide InsertSorted, Ordered;
      for i := 0 to |peers|
        invariant Valid()
        invariant InsertAll(sorted, target, peers[i..], slots) == InsertAll(old(sorted), target, peers, slots)
      {
        assert peers[i..][1..] == peers[i + 1..];
        sorted := InsertSorted(sorted, target, peers[i], WillPing(slots, peers[i]));
      }
    }

    method StartRequestRound(round: seq<Request>, env: Env) returns (r: LookupStatus)
      modifies this`active, this`requested
      ensures Result(View(), r.Failed?) == StartRound(old(View()), round, env)
      ensures !r.Failed? ==> r == if round == [] then Completed else Searching
    {
      ghost var s := View();
      for n := 0 to |round|
        invariant RequestAll(View(), round[n..], env, n) == RequestAll(s, round, env, 0)
      {
        assert round[n..][1..] == round[n + 1..];
        if !env.timer(n) { return Failed; }
        active := active[env.draw(n) := round[n].toBeat];
        if !env.send(n) { return Failed; }
        requested := requested + {round[n].peer};
      }
      if |round| == 0 {
        active := map[];
        r := Completed;
      } else {
        r := Searching;
      }
    }

    method StartEndgameRound(env: Env, n: nat) returns (r: LookupStatus)
      requires Valid()
      modifies this`inEndgame, this`active, this`sorted
      ensures Valid() && Result(View(), r.Failed?) == StartEndgame(old(View()), env, n)
      ensures !r.Failed? ==> r.Searching?
    {
      hide Ordered;
      inEndgame := true;
      if !env.timer(n) { return Failed; }
      if !recvValues {
        ghost var s := View();
        var drawn: nat := n + 1;
        for i := 0 to |sorted|
          invariant |sorted| == |s.sorted| && Valid()
          invariant Sweep(View(), i, env, drawn) == Sweep(s, 0, env, n + 1)
        {
          if !sorted[i].pinged {
            active := active[env.draw(drawn) := sorted[i].dist];
            if !env.send(drawn) { return Failed; }
            drawn := drawn + 1;
            PingedOrdered(sorted, target, i);
            sorted := sorted[i := sorted[i].(pinged := true)];
          }
        }
      }
      r := Searching;
    }

    method CurrentStatus() returns (r: LookupStatus)
      ensures r == Status(View())
    {
      r := if inEndgame || active != map[] then Searching else Completed;
    }

    method RecvResponse(from: Peer, id: TransactionId, token: Option<seq<byte>>, info: Info, env: Env)
      returns (r: LookupStatus)
      requires Valid()
      modifies this
      ensures Valid() && Result(View(), r.Failed?) == Response(old(View()), from, id, token, info, env)
      ensures !r.Failed? ==>
                r == if old(id in active) && !info.OnlyNodes? then Values(info.values) else Status(View())
    {
      hide Closest, Unrequested, PickAll, InsertAll, StartRound, StartEndgame, Ordered, Less, Used, Round;
      if id !in active {
        r := CurrentStatus();
        return;
      }
      var dist := active[id];
      active := active - {id};
      if token.Some? { tokens := tokens[from := token.value]; }
      if info.OnlyValues? { recvValues := true; }
      assert View() == Answered(old(View()), from, id, token, info);
      r := Searching;
      if info.OnlyValues? {
        r := Settle(env, 0);
      } else {
        r := LearnFrom(dist, info.nodes, env);
      }
      if r.Failed? { return; }
      if info.OnlyNodes? { r := CurrentStatus(); } else { r := Values(info.values); }
    }

    /** What a response's nodes lead to. */
    method LearnFrom(dist: Distance, nodes: seq<Peer>, env: Env) returns (r: LookupStatus)
      requires Valid()
      modifies this
      ensures Valid() && Result(View(), r.Failed?) == LearnNodes(old(View()), dist, nodes, env)
    {
      hide Closest, Unrequested, PickAll, InsertAll, StartRound, Settled, Ordered, Less, Used, Round;
      var unrequested := Unrequested(nodes, requested);
      var next := ClosestDistance(dist, unrequested);
      if Less(next, dist) {
        var slots := PickIterateNodes(unrequested, target);
        InsertNodes(nodes, slots);
        if inEndgame { return Searching; }
        r := StartRequestRound(Round(Used(slots), next), env);
        if r.Failed? { return; }
        r := Settle(env, |Used(slots)|);
      } else {
        InsertNodes(nodes, []);
        r := Settle(env, 0);
      }
    }

    /** If there are no more requests under way, the endgame starts. */
    method Settle(env: Env, n: nat) returns (r: LookupStatus)
      requires Valid()
      modifies this`inEndgame, this`active, this`sorted
      ensures Valid() && Result(View(), r.Failed?) == Settled(old(View()), env, n)
    {
      hide StartEndgame, Ordered;
      r := Searching;
      if !inEndgame && active == map[] { r := StartEndgameRound(env, n); }
    }

    method ClosestDistance(dist: Distance, peers: seq<Peer>) returns (closest: Distance)
      ensures closest == Closest(dist, target, peers)
    {
      closest := dist;
      for i := 0 to |peers|
        invariant Closest(closest, target, peers[i..]) == Closest(dist, target, peers)
      {
        assert peers[i..][1..] == peers[i + 1..];
        var d := Dist(target, peers[i]);
        if Less(d, closest) { closest := d; }
      }
    }

    method RecvTimeout(id: TransactionId, env: Env) returns (r: LookupStatus)
      requires Valid()
      modifies this
      ensures Valid() && Result(View(), r.Failed?) == TimedOut(old(View()), id, env)
      ensures !r.Failed? ==> r == Status(View())
    {
      hide Settled, Ordered;
      if id in active {
        active := active - {id};
        r := Settle(env, 0);
        if r.Failed? { return; }
      }
      r := CurrentStatus();
    }

    /** The nodes announced to, each whether or not its message and those before it went through. */
    method RecvFinished(env: Env) returns (announced: seq<Known>, r: LookupStatus)
      modifies this
      ensures View() == Finished(old(View()))
      ensures announced == if willAnnounce then Announced(old(sorted), old(tokens), ANNOUNCE_PICK_NUM) else []
      ensures r == if AllSent(env, |announced|) then Completed else Failed
    {
      announced := [];
      var fatalError := false;
      if willAnnounce { announced, fatalError := Announce(env); }
      active := map[];
      inEndgame := false;
      if fatalError { r := Failed; } else { r := CurrentStatus(); }
    }

    method Announce(env: Env) returns (announced: seq<Known>, fatalError: bool)
      ensures announced == Announced(sorted, tokens, ANNOUNCE_PICK_NUM)
      ensures fatalError <==> !AllSent(env, |announced|)
    {
      hide Announced;
      announced, fatalError := [], false;
      var i := 0;
      while i < |sorted| && |announced| < ANNOUNCE_PICK_NUM
        invariant i <= |sorted| && |announced| <= ANNOUNCE_PICK_NUM
        invariant announced + Announced(sorted[i..], tokens, ANNOUNCE_PICK_NUM - |announced|)
                  == Announced(sorted, tokens, ANNOUNCE_PICK_NUM)
        invariant fatalError <==> !AllSent(env, |announced|)
      {
        AnnouncedFirst(sorted[i..], tokens, ANNOUNCE_PICK_NUM - |announced|);
        assert sorted[i..][1..] == sorted[i + 1..];
        if sorted[i].peer in tokens {
          Reassociate(announced, sorted[i], Announced(sorted[i + 1..], tokens, ANNOUNCE_PICK_NUM - |announced| - 1));
          if !env.send(|announced|) { fatalError := true; }
          announced := announced + [sorted[i]];
        }
        i := i + 1;
      }
      AnnouncedFirst(sorted[i..], tokens, ANNOUNCE_PICK_NUM - |announced|);
    }
  }

  lemma Reassociate(a: seq<Known>, k: Known, b: seq<Known>)
    ensures a + ([k] + b) == (a + [k]) + b
  {
  }

  lemma AnnouncedFirst(known: seq<Known>, tokens: map<Peer, seq<byte>>, limit: nat)
    ensures Announced(known, tokens, limit) ==
            if known == [] || limit == 0 then []
            else if known[0].peer in tokens then [known[0]] + Announced(known[1..], tokens, limit - 1)
            else Announced(known[1..], tokens, limit)
  {
  }

  lemma NothingOrdered(target: NodeId)
    ensures Ordered([], target)
  {
  }

  lemma PingedOrdered(known: seq<Known>, target: NodeId, i: nat)
    requires Ordered(known, target) && i < |known|
    ensures Ordered(known[i := known[i].(pinged := true)], target)
  {
  }

  lemma MarkedOrdered(known: seq<Known>, target: NodeId, n: nat)
    requires Ordered(known, target)
    ensures Ordered(MarkFirst(known, n), target)
  {
  }
}
