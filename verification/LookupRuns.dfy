/** Every run of a lookup reaches its endgame. */
module LookupRuns {
  import opened Basics
  import opened NodeIds
  import opened Lookups

  // ---------------------------------------------------------------------------------------------
  // The closest node of a round
  // ---------------------------------------------------------------------------------------------

  lemma {:induction false} ClosestIsLeast(dist: Distance, target: NodeId, peers: seq<Peer>)
    ensures var r := Closest(dist, target, peers);
            && Value(r) <= Value(dist)
            && (forall p :: p in peers ==> Value(r) <= Value(Dist(target, p)))
            && (r == dist || exists p :: p in peers && r == Dist(target, p))
    decreases |peers|
  {
    hide Less, Value, Dist;
    if peers != [] {
      var d := Dist(target, peers[0]);
      LessIsNumeric(d, dist);
      var r := Closest(dist, target, peers);
      ClosestIsLeast(if Less(d, dist) then d else dist, target, peers[1..]);
      assert peers == [peers[0]] + peers[1..];
      if r == d { assert peers[0] in peers; }
    }
  }

  /** The first slot sees every node, and keeps the closest. */
  lemma {:induction false} FirstSlot(slots: seq<Slot>, target: NodeId, peers: seq<Peer>)
    requires slots != [] && slots[0].used
    ensures var r := PickAll(slots, target, peers);
            && r[0].used && Dist(target, r[0].peer) == Closest(Dist(target, slots[0].peer), target, peers)
            && (r[0] == slots[0] || r[0].peer in peers)
    decreases |peers|
  {
    hide Less, Dist;
    if peers != [] { FirstSlot(Placed(slots, target, peers[0]), target, peers[1..]); }
  }

  /**
   When a response beats the distance, the first slot holds the closest node that was not asked before:
   its distance is the next one to beat, so the round sends at least one request.
   */
  lemma CloserMeansRequest(dist: Distance, target: NodeId, peers: seq<Peer>)
    requires Less(Closest(dist, target, peers), dist)
    ensures var slot := PickAll(EmptySlots(), target, peers)[0];
            && slot.used && slot.peer in peers && Dist(target, slot.peer) == Closest(dist, target, peers)
            && forall p :: p in peers ==> Value(Dist(target, slot.peer)) <= Value(Dist(target, p))
  {
    hide Dist, Value, Less;
    var next := Closest(dist, target, peers);
    LessIsNumeric(next, dist);
    ClosestIsLeast(dist, target, peers);
    var first := peers[0];
    FirstSlot(Placed(EmptySlots(), target, first), target, peers[1..]);
    ClosestIsLeast(Dist(target, first), target, peers[1..]);
    var slot := PickAll(EmptySlots(), target, peers)[0];
    assert peers == [first] + peers[1..];
    LessIsNumeric(Dist(target, slot.peer), next);
  }

  lemma {:induction false} PlacedKeeps(slots: seq<Slot>, target: NodeId, peer: Peer, i: nat)
    requires i < |slots|
    ensures var r := Placed(slots, target, peer)[i]; r == slots[i] || r == Slot(peer, true)
  {
    if i > 0 { PlacedKeeps(slots[1..], target, peer, i - 1); }
  }

  /** Every slot in use holds a node of the response that was not asked before. */
  lemma {:induction false} PickedFrom(slots: seq<Slot>, target: NodeId, peers: seq<Peer>, i: nat)
    requires i < |slots|
    ensures var r := PickAll(slots, target, peers)[i]; r == slots[i] || (r.used && r.peer in peers)
    decreases |peers|
  {
    if peers != [] {
      PlacedKeeps(slots, target, peers[0], i);
      PickedFrom(Placed(slots, target, peers[0]), target, peers[1..], i);
    }
  }

  // ---------------------------------------------------------------------------------------------
  // The measure
  // ---------------------------------------------------------------------------------------------

  ghost function Power(n: nat): nat
    ensures Power(n) > 0
  {
    if n == 0 then 1 else 4 * Power(n - 1)
  }

  lemma {:induction false} PowerGrows(m: nat, n: nat)
    requires m < n
    ensures 4 * Power(m) <= Power(n)
  {
    if m < n - 1 { PowerGrows(m, n - 1); }
  }

  ghost function Weight(d: Distance): nat
    ensures Weight(d) > 0
  {
    Power(Value(d))
  }

  /** The sum of 4 to the distance, over all requests under way. */
  ghost function Energy(active: map<TransactionId, Distance>): nat
    decreases |active|
  {
    if active == map[] then 0
    else
      var id :| id in active;
      Weight(active[id]) + Energy(active - {id})
  }

  lemma {:induction false} EnergyRemove(active: map<TransactionId, Distance>, id: TransactionId)
    requires id in active
    ensures Energy(active) == Weight(active[id]) + Energy(active - {id})
    decreases |active|
  {
    hide Weight;
    var first :| first in active && Energy(active) == Weight(active[first]) + Energy(active - {first});
    if first != id {
      EnergyRemove(active - {first}, id);
      EnergyRemove(active - {id}, first);
      assert active - {first} - {id} == active - {id} - {first};
    }
  }

  lemma EnergyInsert(active: map<TransactionId, Distance>, id: TransactionId, dist: Distance)
    ensures Energy(active[id := dist]) <= Energy(active) + Weight(dist)
  {
    hide Weight;
    EnergyRemove(active[id := dist], id);
    assert active[id := dist] - {id} == active - {id};
    if id in active { EnergyRemove(active, id); } else { assert active - {id} == active; }
  }

  lemma {:induction false} EnergyOfRequests(s: State, round: seq<Request>, env: Env, n: nat, dist: Distance)
    requires forall i :: 0 <= i < |round| ==> round[i].toBeat == dist
    ensures var r := RequestAll(s, round, env, n);
            && Energy(r.state.active) <= Energy(s.active) + |round| * Weight(dist)
            && (!r.failed && (s.active != map[] || round != []) ==> r.state.active != map[])
    decreases |round|
  {
    hide Weight, Energy;
    if round != [] && env.timer(n) {
      var active' := s.active[env.draw(n) := round[0].toBeat];
      EnergyInsert(s.active, env.draw(n), dist);
      assert env.draw(n) in active';
      var s' := s.(active := active', requested := s.requested + {round[0].peer});
      EnergyOfRequests(s', round[1..], env, n + 1, dist);
    }
  }

  lemma {:induction false} UsedFirst(slots: seq<Slot>)
    requires slots != [] && slots[0].used
    ensures Used(slots) != []
  {
  }

  /** A round that got closer has one to three requests, and they weigh less than the one that was answered. */
  lemma CloserRound(s: State, dist: Distance, peers: seq<Peer>, env: Env)
    requires Less(Closest(dist, s.target, peers), dist)
    ensures var next := Closest(dist, s.target, peers);
            var round := Round(Used(PickAll(EmptySlots(), s.target, peers)), next);
            var r := StartRound(s, round, env);
            && 1 <= |round| <= ITERATIVE_PICK_NUM
            && Energy(r.state.active) < Energy(s.active) + Weight(dist)
            && (!r.failed ==> r.state.active != map[])
  {
    hide Energy, Power, Value, Less, PickAll, Closest, RequestAll, Used;
    var next := Closest(dist, s.target, peers);
    var slots := PickAll(EmptySlots(), s.target, peers);
    var round := Round(Used(slots), next);
    CloserMeansRequest(dist, s.target, peers);
    UsedFirst(slots);
    EnergyOfRequests(s, round, env, 0, next);
    LessIsNumeric(next, dist);
    PowerGrows(Value(next), Value(dist));
    Thrice(|round|, Weight(next));
  }

  lemma Thrice(n: nat, w: nat)
    requires n <= 3
    ensures n * w <= 3 * w
  {
  }

  // ---------------------------------------------------------------------------------------------
  // Steps
  // ---------------------------------------------------------------------------------------------

  /** Failed, in the endgame, or waiting for an answer or a timeout with less energy than before. */
  ghost predicate Progress(r: Result, bound: nat) {
    r.failed || r.state.inEndgame || (r.state.active != map[] && Energy(r.state.active) < bound)
  }

  lemma SettledProgress(s: State, env: Env, n: nat, bound: nat)
    requires Energy(s.active) < bound
    ensures Progress(Settled(s, env, n), bound)
  {
    hide Energy, Sweep;
  }

  lemma LearnNodesProgress(s: State, dist: Distance, peers: seq<Peer>, env: Env)
    requires Ordered(s.sorted, s.target) && !s.inEndgame
    ensures Progress(LearnNodes(s, dist, peers, env), Energy(s.active) + Weight(dist))
  {
    hide Energy, Weight, Ordered, Closest, Unrequested, PickAll, InsertAll, StartRound, StartEndgame, Less, Used, Round;
    var unrequested := Unrequested(peers, s.requested);
    var next := Closest(dist, s.target, unrequested);
    if Less(next, dist) {
      var slots := PickAll(EmptySlots(), s.target, unrequested);
      CloserRound(s.(sorted := InsertAll(s.sorted, s.target, peers, slots)), dist, unrequested, env);
    } else {
      SettledProgress(s.(sorted := InsertAll(s.sorted, s.target, peers, [])), env, 0, Energy(s.active) + Weight(dist));
    }
  }

  /** Every answer to a request of ours makes progress, whatever it says. */
  lemma ResponseProgress(s: State, from: Peer, id: TransactionId, token: Option<seq<byte>>, info: Info, env: Env)
    requires Ordered(s.sorted, s.target) && !s.inEndgame && id in s.active
    ensures Progress(Response(s, from, id, token, info, env), Energy(s.active))
  {
    hide Energy, Weight, Ordered, LearnNodes, Settled, Progress;
    var s' := Answered(s, from, id, token, info);
    EnergyRemove(s.active, id);
    if info.OnlyValues? {
      SettledProgress(s', env, 0, Energy(s.active));
    } else {
      LearnNodesProgress(s', s.active[id], info.nodes, env);
    }
  }

  lemma TimeoutProgress(s: State, id: TransactionId, env: Env)
    requires !s.inEndgame && id in s.active
    ensures Progress(TimedOut(s, id, env), Energy(s.active))
  {
    hide Energy, Weight, Settled, Progress;
    EnergyRemove(s.active, id);
    SettledProgress(s.(active := s.active - {id}), env, 0, Energy(s.active));
  }

  /** The endgame sends nothing more, so it cannot fail: answers and timeouts only take requests away. */
  lemma EndgameOnlyShrinks(s: State, from: Peer, id: TransactionId, token: Option<seq<byte>>, info: Info, env: Env)
    requires Ordered(s.sorted, s.target) && s.inEndgame
    ensures var r := Response(s, from, id, token, info, env);
            !r.failed && r.state.inEndgame && r.state.active == s.active - {id} && r.state.requested == s.requested
    ensures var r := TimedOut(s, id, env);
            !r.failed && r.state.inEndgame && r.state.active == s.active - {id} && r.state.requested == s.requested
  {
    hide Ordered, Closest, Unrequested, PickAll, InsertAll, StartRound, StartEndgame;
    if id !in s.active { assert s.active - {id} == s.active; }
  }

  // ---------------------------------------------------------------------------------------------
  // Runs
  // ---------------------------------------------------------------------------------------------

  datatype Event =
    | Reply(from: Peer, id: TransactionId, token: Option<seq<byte>>, info: Info, env: Env)
    | Timeout(id: TransactionId, env: Env)

  ghost function Step(s: State, e: Event): (r: Result)
    requires Ordered(s.sorted, s.target)
    ensures Ordered(r.state.sorted, r.state.target)
  {
    StepOrdered(s, e);
    match e
    case Reply(from, id, token, info, env) => Response(s, from, id, token, info, env)
    case Timeout(id, env) => TimedOut(s, id, env)
  }

  lemma {:induction false} SweepOrdered(s: State, i: nat, env: Env, n: nat)
    requires Ordered(s.sorted, s.target) && i <= |s.sorted|
    ensures Ordered(Sweep(s, i, env, n).state.sorted, s.target)
    decreases |s.sorted| - i
  {
    hide Ordered;
    if i < |s.sorted| {
      SweepOrdered(s, i + 1, env, n);
      var pinged := s.sorted[i := s.sorted[i].(pinged := true)];
      PingedOrdered(s.sorted, s.target, i);
      SweepOrdered(s.(active := s.active[env.draw(n) := s.sorted[i].dist], sorted := pinged), i + 1, env, n + 1);
    }
  }

  lemma SettledOrdered(s: State, env: Env, n: nat)
    requires Ordered(s.sorted, s.target)
    ensures Ordered(Settled(s, env, n).state.sorted, s.target)
  {
    hide Ordered, Sweep;
    SweepOrdered(s.(inEndgame := true), 0, env, n + 1);
  }

  lemma StepOrdered(s: State, e: Event)
    requires Ordered(s.sorted, s.target)
    ensures var r := match e
                     case Reply(from, id, token, info, env) => Response(s, from, id, token, info, env)
                     case Timeout(id, env) => TimedOut(s, id, env);
            Ordered(r.state.sorted, r.state.target)
  {
    hide Ordered, LearnNodes, StartEndgame;
    if e.id in s.active {
      match e
      case Timeout(id, env) => SettledOrdered(s.(active := s.active - {id}), env, 0);
      case Reply(from, id, token, info, env) =>
        var s' := Answered(s, from, id, token, info);
        if info.OnlyValues? { SettledOrdered(s', env, 0); }
        else { LearnNodesOrdered(s', s.active[id], info.nodes, env); }
    }
  }

  lemma LearnNodesOrdered(s: State, dist: Distance, peers: seq<Peer>, env: Env)
    requires Ordered(s.sorted, s.target)
    ensures var r := LearnNodes(s, dist, peers, env).state; Ordered(r.sorted, r.target)
  {
    hide Ordered, Closest, Unrequested, PickAll, InsertAll, StartRound, StartEndgame, Used, Less, Round;
    var unrequested := Unrequested(peers, s.requested);
    var next := Closest(dist, s.target, unrequested);
    var slots := PickAll(EmptySlots(), s.target, unrequested);
    var s' := s.(sorted := InsertAll(s.sorted, s.target, peers, slots));
    SettledOrdered(StartRound(s', Round(Used(slots), next), env).state, env, |Used(slots)|);
    SettledOrdered(s.(sorted := InsertAll(s.sorted, s.target, peers, [])), env, 0);
  }

  /** The events one after the other, until one fails. */
  ghost function Run(s: State, events: seq<Event>): (r: Result)
    requires Ordered(s.sorted, s.target)
    ensures Ordered(r.state.sorted, r.state.target)
    decreases |events|
  {
    if events == [] then Result(s, false)
    else if Step(s, events[0]).failed then Step(s, events[0])
    else Run(Step(s, events[0]).state, events[1..])
  }

  /** How many of the events answer or give up a request before the endgame begins. */
  ghost function Solicited(s: State, events: seq<Event>): nat
    requires Ordered(s.sorted, s.target)
    decreases |events|
  {
    if events == [] || s.inEndgame then 0
    else
      (if events[0].id in s.active then 1 else 0)
      + (if Step(s, events[0]).failed then 0 else Solicited(Step(s, events[0]).state, events[1..]))
  }

  lemma {:induction false} EndgameStays(s: State, events: seq<Event>)
    requires Ordered(s.sorted, s.target) && s.inEndgame
    ensures Run(s, events).state.inEndgame && !Run(s, events).failed
    decreases |events|
  {
    hide Ordered, Response, TimedOut;
    if events != [] {
      var e := events[0];
      match e {
        case Reply(from, id, token, info, env) => EndgameOnlyShrinks(s, from, id, token, info, env);
        case Timeout(id, env) => EndgameOnlyShrinks(s, Peer(s.target, 0), id, None, OnlyNodes([]), env);
      }
      EndgameStays(Step(s, e).state, events[1..]);
    }
  }

  /**
   A lookup with a request under way that does not fail either is in its endgame or still waits for some
   request, so it never stalls; and it is in its endgame once as many requests as the first energy were
   answered or given up, whatever the answers say and in whatever order they and unsolicited ones arrive.
   */
  lemma {:induction false} ReachesEndgame(s: State, events: seq<Event>)
    requires Ordered(s.sorted, s.target) && !s.inEndgame && s.active != map[]
    ensures Solicited(s, events) <= Energy(s.active)
    ensures Solicited(s, events) == Energy(s.active) ==> Run(s, events).failed || Run(s, events).state.inEndgame
    ensures var r := Run(s, events); r.failed || r.state.inEndgame || r.state.active != map[]
    decreases |events|
  {
    hide Ordered, Response, TimedOut, Energy;
    EnergyPositive(s.active);
    if events != [] {
      var e := events[0];
      var r := Step(s, e);
      if e.id in s.active {
        match e {
          case Reply(from, id, token, info, env) => ResponseProgress(s, from, id, token, info, env);
          case Timeout(id, env) => TimeoutProgress(s, id, env);
        }
      } else {
        StrayChangesNothing(s, e);
      }
      if !r.failed {
        if r.state.inEndgame { EndgameStays(r.state, events[1..]); } else { ReachesEndgame(r.state, events[1..]); }
      }
    }
  }

  lemma EnergyPositive(active: map<TransactionId, Distance>)
    requires active != map[]
    ensures Energy(active) > 0
  {
  }

  /** A response or timeout for an id that is not under way leaves the lookup as it is. */
  lemma StrayChangesNothing(s: State, e: Event)
    requires Ordered(s.sorted, s.target) && e.id !in s.active
    ensures Step(s, e) == Result(s, false)
  {
  }

  /** The nodes announced to hold tokens, and no other node with a token is closer than any of them. */
  lemma {:induction false} AnnouncesClosest(known: seq<Known>, tokens: map<Peer, seq<byte>>, limit: nat, target: NodeId)
    requires Ordered(known, target)
    ensures var r := Announced(known, tokens, limit);
            forall k, a :: k in known && k.peer in tokens && k !in r && a in r ==> Value(a.dist) <= Value(k.dist)
    ensures |Announced(known, tokens, limit)| < limit ==>
              forall k :: k in known && k.peer in tokens ==> k in Announced(known, tokens, limit)
  {
    hide Value, Dist;
    if known != [] && limit > 0 {
      var rest := known[1..];
      assert known == [known[0]] + rest;
      AnnouncesClosest(rest, tokens, if known[0].peer in tokens then limit - 1 else limit, target);
      forall k | k in rest ensures Value(known[0].dist) <= Value(k.dist) {
        var i :| 0 <= i < |rest| && rest[i] == k;
        assert known[i + 1] == k;
      }
    }
  }

  /**
   A new lookup asks the closest of the nodes it takes from the table, four at most, and is under way
   unless there is none.
   */
  lemma NewLookup(target: NodeId, willAnnounce: bool, closest: seq<Peer>, env: Env)
    requires !Begun(target, willAnnounce, closest, env).failed
    ensures var s := Begun(target, willAnnounce, closest, env).state;
            && Ordered(s.sorted, target) && s.target == target && !s.inEndgame
            && (s.active == map[] <==> closest == [])
            && (forall i :: 0 <= i < |s.sorted| && i < INITIAL_PICK_NUM ==>
                  s.sorted[i].peer in s.requested && s.sorted[i].pinged)
            && (forall p :: p in s.requested ==>
                  exists i :: 0 <= i < |s.sorted| && i < INITIAL_PICK_NUM && s.sorted[i].peer == p)
  {
    hide Ordered, RequestAll, InsertAll;
    var picked := if |closest| > MAX_BUCKET_SIZE then closest[..MAX_BUCKET_SIZE] else closest;
    NothingOrdered(target);
    var known := InsertAll([], target, picked, []);
    MarkedOrdered(known, target, INITIAL_PICK_NUM);
    var s := State(target, willAnnounce, false, false, map[], map[], {}, MarkFirst(known, INITIAL_PICK_NUM));
    var round := InitialRound(known, target, INITIAL_PICK_NUM);
    InsertedSome([], target, picked, []);
    if round != [] { RequestedAre(s, round, env, 0); }
  }

  /** A round that does not fail asks its own nodes and no others, and leaves a request under way. */
  lemma {:induction false} RequestedAre(s: State, round: seq<Request>, env: Env, n: nat)
    requires !RequestAll(s, round, env, n).failed
    ensures var r := RequestAll(s, round, env, n).state;
            && (forall i :: 0 <= i < |round| ==> round[i].peer in r.requested) && s.requested <= r.requested
            && (forall p :: p in r.requested ==> p in s.requested || exists i :: 0 <= i < |round| && round[i].peer == p)
            && (round != [] || s.active != map[] ==> r.active != map[])
    decreases |round|
  {
    if round != [] {
      var active' := s.active[env.draw(n) := round[0].toBeat];
      assert env.draw(n) in active';
      RequestedAre(s.(active := active', requested := s.requested + {round[0].peer}), round[1..], env, n + 1);
      assert round == [round[0]] + round[1..];
    }
  }

  lemma {:induction false} InsertedSome(known: seq<Known>, target: NodeId, peers: seq<Peer>, slots: seq<Slot>)
    requires Ordered(known, target)
    ensures |InsertAll(known, target, peers, slots)| == 0 <==> known == [] && peers == []
    decreases |peers|
  {
    hide Ordered;
    if peers != [] {
      var known' := InsertSorted(known, target, peers[0], WillPing(slots, peers[0]));
      InsertedSome(known', target, peers[1..], slots);
    }
  }
}
