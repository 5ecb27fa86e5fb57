/**
 Telling peers which pieces we have (`bip_select/src/revelation/honest.rs`). The order in which the peers
 of a torrent are told of a new piece is a parameter.
 */
module Reveals {
  import opened Basics
  import opened BitFields

  /** Hashes and the identity of a peer only matter up to equality. */
  type InfoHash = nat

  datatype PeerInfo = PeerInfo(id: nat, hash: InfoHash)

  datatype Torrent = Torrent(numPieces: nat, status: seq<bv8>, peers: set<PeerInfo>)

  type State = map<InfoHash, Torrent>

  datatype Message =
    | SendBitField(peer: PeerInfo, field: seq<bv8>)
    | SendHave(peer: PeerInfo, index: nat)

  datatype Outcome =
    | Ready
    | InvalidMetainfoExists(hash: InfoHash)
    | InvalidMetainfoNotExists(hash: InfoHash)
    | InvalidPieceOutOfRange(hash: InfoHash, index: nat)

  datatype Event =
    | AddTorrent(hash: InfoHash, numPieces: nat)
    | RemoveTorrent(hash: InfoHash)
    | PeerConnected(peer: PeerInfo)
    | PeerDisconnected(peer: PeerInfo)
    | FoundGoodPiece(hash: InfoHash, index: nat, order: seq<PeerInfo>)

  /** The state after the event, what it queues and what it answers. */
  datatype Result = Result(state: State, queued: seq<Message>, outcome: Outcome)

  /** The peers of the torrent, in the order of their set. */
  ghost predicate IsOrder(s: State, e: Event) {
    e.FoundGoodPiece? && e.hash in s ==> forall p :: p in e.order <==> p in s[e.hash].peers
  }

  function Haves(order: seq<PeerInfo>, index: nat): (r: seq<Message>)
    ensures |r| == |order| && forall i :: 0 <= i < |r| ==> r[i] == SendHave(order[i], index)
  {
    if order == [] then [] else Haves(order[..|order| - 1], index) + [SendHave(order[|order| - 1], index)]
  }

  function Connect(s: State, peer: PeerInfo): Result {
    if peer.hash !in s then Result(s, [], InvalidMetainfoNotExists(peer.hash))
    else
      var t := s[peer.hash];
      Result(s[peer.hash := t.(peers := t.peers + {peer})],
             if Pieces(t.status) == {} then [] else [SendBitField(peer, Reversed(t.status))],
             Ready)
  }

  function Found(s: State, hash: InfoHash, index: nat, order: seq<PeerInfo>): Result {
    if hash !in s then Result(s, [], InvalidMetainfoNotExists(hash))
    else if index >= s[hash].numPieces then Result(s, [], InvalidPieceOutOfRange(hash, index))
    else
      var t := s[hash];
      Result(s[hash := t.(status := Inserted(t.status, index))], Haves(order, index % INDEX_LIMIT), Ready)
  }

  function Handle(s: State, e: Event): Result {
    match e
    case AddTorrent(h, n) =>
      if h in s then Result(s, [], InvalidMetainfoExists(h)) else Result(s[h := Torrent(n, [], {})], [], Ready)
    case RemoveTorrent(h) =>
      if h in s then Result(s - {h}, [], Ready) else Result(s, [], InvalidMetainfoNotExists(h))
    case PeerConnected(p) => Connect(s, p)
    case PeerDisconnected(p) =>
      if p.hash !in s then Result(s, [], InvalidMetainfoNotExists(p.hash))
      else Result(s[p.hash := s[p.hash].(peers := s[p.hash].peers - {p})], [], Ready)
    case FoundGoodPiece(h, index, order) => Found(s, h, index, order)
  }

  class HonestRevealModule {
    var torrents: State
    var outQueue: seq<Message>

    constructor ()
      ensures torrents == map[] && outQueue == []
    {
      torrents, outQueue := map[], [];
    }

    method StartSend(e: Event) returns (outcome: Outcome)
      requires IsOrder(torrents, e)
      modifies this
      ensures var r := Handle(old(torrents), e);
              torrents == r.state && outQueue == old(outQueue) + r.queued && outcome == r.outcome
    {
      hide Pieces, Reversed, Inserted;
      outcome := Ready;
      match e
      case AddTorrent(h, n) =>
        if h in torrents {
          outcome := InvalidMetainfoExists(h);
        } else {
          torrents := torrents[h := Torrent(n, [], {})];
        }
      case RemoveTorrent(h) =>
        if h in torrents { torrents := torrents - {h}; } else { outcome := InvalidMetainfoNotExists(h); }
      case PeerConnected(p) => outcome := AddPeer(p);
      case PeerDisconnected(p) =>
        if p.hash in torrents {
          var t := torrents[p.hash];
          torrents := torrents[p.hash := t.(peers := t.peers - {p})];
        } else {
          outcome := InvalidMetainfoNotExists(p.hash);
        }
      case FoundGoodPiece(h, index, order) => outcome := InsertPiece(h, index, order);
    }

    method AddPeer(peer: PeerInfo) returns (outcome: Outcome)
      modifies this
      ensures var r := Connect(old(torrents), peer);
              torrents == r.state && outQueue == old(outQueue) + r.queued && outcome == r.outcome
    {
      hide Pieces, Reversed;
      if peer.hash !in torrents { return InvalidMetainfoNotExists(peer.hash); }
      var t := torrents[peer.hash];
      torrents := torrents[peer.hash := t.(peers := t.peers + {peer})];
      if Pieces(t.status) != {} {
        var field := InsertReversedBits(t.status);
        outQueue := outQueue + [SendBitField(peer, field)];
      }
      return Ready;
    }

    method InsertPiece(hash: InfoHash, index: nat, order: seq<PeerInfo>) returns (outcome: Outcome)
      modifies this
      ensures var r := Found(old(torrents), hash, index, order);
              torrents == r.state && outQueue == old(outQueue) + r.queued && outcome == r.outcome
    {
      hide Inserted;
      if hash !in torrents { return InvalidMetainfoNotExists(hash); }
      var t := torrents[hash];
      if index >= t.numPieces { return InvalidPieceOutOfRange(hash, index); }
      for i := 0 to |order|
        invariant torrents == old(torrents) && outQueue == old(outQueue) + Haves(order[..i], index % INDEX_LIMIT)
      {
        assert order[..i + 1][..i] == order[..i];
        outQueue := outQueue + [SendHave(order[i], index % INDEX_LIMIT)];
      }
      assert order[..|order|] == order;
      torrents := torrents[hash := t.(status := Inserted(t.status, index))];
      return Ready;
    }

    method Poll() returns (next: Option<Message>)
      modifies this`outQueue
      ensures old(outQueue) == (if next.Some? then [next.value] else []) + outQueue
      ensures next.None? ==> outQueue == []
    {
      if outQueue == [] { return None; }
      next := Some(outQueue[0]);
      outQueue := outQueue[1..];
    }
  }

  // ---------------------------------------------------------------------------------------------
  // What a peer knows
  // ---------------------------------------------------------------------------------------------

  /** The indices each peer was told of since it connected. */
  type Knowledge = map<PeerInfo, set<nat>>

  /** What reading a message adds. */
  ghost function Told(known: Knowledge, m: Message): Knowledge {
    var before := if m.peer in known then known[m.peer] else {};
    known[m.peer := before + (if m.SendHave? then {m.index} else Truncated(Listed(m.field)))]
  }

  ghost function ToldAll(known: Knowledge, messages: seq<Message>): Knowledge {
    if messages == [] then known
    else Told(ToldAll(known, messages[..|messages| - 1]), messages[|messages| - 1])
  }

  /** A peer that connects knows nothing. */
  ghost function Learned(known: Knowledge, s: State, e: Event): Knowledge {
    ToldAll(if e.PeerConnected? then known[e.peer := {}] else known, Handle(s, e).queued)
  }

  ghost predicate Informed(s: State, known: Knowledge) {
    forall h, p :: h in s && p in s[h].peers ==> p.hash == h && p in known && known[p] == Truncated(Pieces(s[h].status))
  }

  ghost predicate InRange(s: State) {
    forall h, i :: h in s && i in Pieces(s[h].status) ==> i < s[h].numPieces
  }

  lemma {:induction false} HavesTold(known: Knowledge, order: seq<PeerInfo>, index: nat, p: PeerInfo)
    ensures var r := ToldAll(known, Haves(order, index));
            && (p in known ==> p in r && r[p] == if p in order then known[p] + {index} else known[p])
  {
    if order != [] {
      var n := |order| - 1;
      HavesTold(known, order[..n], index, p);
      assert Haves(order, index)[..n] == Haves(order[..n], index);
      assert order == order[..n] + [order[n]];
    }
  }

  lemma ToldOne(known: Knowledge, m: Message)
    ensures ToldAll(known, [m]) == Told(known, m)
  {
    assert [m][..0] == [];
  }

  lemma ConnectInforms(s: State, known: Knowledge, p: PeerInfo)
    requires Informed(s, known) && InRange(s)
    ensures Informed(Connect(s, p).state, Learned(known, s, PeerConnected(p))) && InRange(Connect(s, p).state)
  {
    hide Pieces, Listed, Truncated, Reversed;
    var r := Connect(s, p);
    if p.hash in s {
      var status := s[p.hash].status;
      FieldListsPieces(status);
      NothingTruncated();
      ToldOne(known[p := {}], SendBitField(p, Reversed(status)));
    }
  }

  lemma NothingTruncated()
    ensures Truncated({}) == {}
  {
  }

  lemma FoundInforms(s: State, known: Knowledge, h: InfoHash, index: nat, order: seq<PeerInfo>)
    requires Informed(s, known) && InRange(s) && IsOrder(s, FoundGoodPiece(h, index, order))
    ensures var r := Found(s, h, index, order); Informed(r.state, ToldAll(known, r.queued)) && InRange(r.state)
  {
    hide Pieces, Truncated, Inserted, Haves;
    var r := Found(s, h, index, order);
    if h in s && index < s[h].numPieces {
      var status := s[h].status;
      InsertedPieces(status, index);
      TruncatedAdd(Pieces(status), index);
      var known' := ToldAll(known, r.queued);
      forall g, p | g in r.state && p in r.state[g].peers
        ensures p.hash == g && p in known' && known'[p] == Truncated(Pieces(r.state[g].status))
      {
        HavesTold(known, order, index % INDEX_LIMIT, p);
      }
    }
  }

  lemma HandleInforms(s: State, known: Knowledge, e: Event)
    requires Informed(s, known) && InRange(s) && IsOrder(s, e)
    ensures Informed(Handle(s, e).state, Learned(known, s, e)) && InRange(Handle(s, e).state)
  {
    hide Connect, Found, Truncated;
    match e
    case PeerConnected(p) => ConnectInforms(s, known, p);
    case FoundGoodPiece(h, index, order) => FoundInforms(s, known, h, index, order);
    case AddTorrent(_, _) => assert Pieces([]) == {};
    case _ =>
  }

  // ---------------------------------------------------------------------------------------------
  // Runs
  // ---------------------------------------------------------------------------------------------

  ghost predicate IsRun(s: State, events: seq<Event>)
    decreases |events|
  {
    events == [] || (IsOrder(s, events[0]) && IsRun(Handle(s, events[0]).state, events[1..]))
  }

  ghost function Final(s: State, known: Knowledge, events: seq<Event>): (State, Knowledge)
    decreases |events|
  {
    if events == [] then (s, known) else Final(Handle(s, events[0]).state, Learned(known, s, events[0]), events[1..])
  }

  lemma {:induction false} RunInforms(s: State, known: Knowledge, events: seq<Event>)
    requires Informed(s, known) && InRange(s) && IsRun(s, events)
    ensures var (s', known') := Final(s, known, events); Informed(s', known') && InRange(s')
    decreases |events|
  {
    hide Informed, InRange, Handle, Learned;
    if events != [] {
      HandleInforms(s, known, events[0]);
      RunInforms(Handle(s, events[0]).state, Learned(known, s, events[0]), events[1..]);
    }
  }

  /**
   After every sequence of events, what a connected peer was told since it connected, by bit fields and
   by single pieces, is exactly what we have, as far as indices fit 32 bits; and they all do if and only
   if we have no piece beyond. A torrent of at most 2^32 pieces has none.
   */
  lemma PeersKnowOurPieces(events: seq<Event>, h: InfoHash, p: PeerInfo)
    requires IsRun(map[], events)
    requires var s := Final(map[], map[], events).0; h in s && p in s[h].peers
    ensures var (s, known) := Final(map[], map[], events);
            var pieces := Pieces(s[h].status);
            && p in known && known[p] == Truncated(pieces)
            && (known[p] == pieces <==> forall i :: i in pieces ==> i < INDEX_LIMIT)
            && (s[h].numPieces <= INDEX_LIMIT ==> known[p] == pieces)
  {
    hide Truncated, Pieces, Handle;
    var s := Final(map[], map[], events).0;
    RunInforms(map[], map[], events);
    TruncatedSame(Pieces(s[h].status));
  }

  /** Past 2^32 the index sent is that of another piece. */
  lemma LaterPieceIsMistaken(h: InfoHash, p: PeerInfo)
    requires p.hash == h
    ensures var s := map[h := Torrent(INDEX_LIMIT + 1, [], {p})];
            Handle(s, FoundGoodPiece(h, INDEX_LIMIT, [p])).queued == [SendHave(p, 0)]
  {
    assert [p][..0] == [];
  }
}
