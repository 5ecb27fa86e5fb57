/** What holds in every run of the metadata download, whatever the peers do, and what honest peers add. */
module UtMetadataRuns {
  import opened Basics
  import opened Bencode
  import opened UtMetadata

  // ---------------------------------------------------------------------------------------------
  // Counting
  // ---------------------------------------------------------------------------------------------

  /** How often the piece is among the unsent messages. */
  ghost function Unsent(messages: seq<nat>, piece: nat): nat {
    if messages == [] then 0 else (if messages[0] == piece then 1 else 0) + Unsent(messages[1..], piece)
  }

  /** How many requests for the hash are under way. */
  ghost function Asked(active: seq<ActiveRequest>, h: InfoHash): nat {
    if active == [] then 0 else (if active[0].sentTo.hash == h then 1 else 0) + Asked(active[1..], h)
  }

  /** How many of them are for the piece. */
  ghost function AskedFor(active: seq<ActiveRequest>, h: InfoHash, piece: nat): nat {
    if active == [] then 0
    else (if active[0].sentTo.hash == h && active[0].piece == piece then 1 else 0) + AskedFor(active[1..], h, piece)
  }

  lemma {:induction false} UnsentJoin(a: seq<nat>, b: seq<nat>, piece: nat)
    ensures Unsent(a + b, piece) == Unsent(a, piece) + Unsent(b, piece)
  {
    if a == [] { assert a + b == b; }
    else {
      assert (a + b)[1..] == a[1..] + b;
      UnsentJoin(a[1..], b, piece);
    }
  }

  lemma {:induction false} AskedJoin(a: seq<ActiveRequest>, b: seq<ActiveRequest>, h: InfoHash, piece: nat)
    ensures Asked(a + b, h) == Asked(a, h) + Asked(b, h)
    ensures AskedFor(a + b, h, piece) == AskedFor(a, h, piece) + AskedFor(b, h, piece)
  {
    if a == [] { assert a + b == b; }
    else {
      assert (a + b)[1..] == a[1..] + b;
      AskedJoin(a[1..], b, h, piece);
    }
  }

  lemma {:induction false} AskedBounds(active: seq<ActiveRequest>, h: InfoHash, piece: nat)
    ensures AskedFor(active, h, piece) <= Asked(active, h)
  {
    if active != [] { AskedBounds(active[1..], h, piece); }
  }

  lemma AskedRemoved(active: seq<ActiveRequest>, i: nat, h: InfoHash, piece: nat)
    requires i < |active|
    ensures var one := [active[i]];
            && Asked(active, h) == Asked(SwapRemove(active, i), h) + Asked(one, h)
            && AskedFor(active, h, piece) == AskedFor(SwapRemove(active, i), h, piece) + AskedFor(one, h, piece)
  {
    var n := |active| - 1;
    var front, last, one := active[..i], [active[n]], [active[i]];
    if i == n {
      assert SwapRemove(active, i) == front && active == front + one;
      AskedJoin(front, one, h, piece);
    } else {
      var mid := active[i + 1..n];
      assert active == (front + one) + (mid + last);
      assert SwapRemove(active, i) == (front + last) + mid;
      AskedJoin(front + one, mid + last, h, piece);
      AskedJoin(front, one, h, piece);
      AskedJoin(mid, last, h, piece);
      AskedJoin(front + last, mid, h, piece);
      AskedJoin(front, last, h, piece);
    }
  }

  lemma {:induction false} AskedAged(active: seq<ActiveRequest>, duration: nat, h: InfoHash, piece: nat)
    ensures Asked(Aged(active, duration), h) == Asked(active, h)
    ensures AskedFor(Aged(active, duration), h, piece) == AskedFor(active, h, piece)
  {
    if active != [] { AskedAged(active[1..], duration, h, piece); }
  }

  lemma {:induction false} UnsentIndices(n: nat, piece: nat)
    ensures Unsent(Indices(n), piece) == if piece < n then 1 else 0
  {
    if n > 0 {
      UnsentIndices(n - 1, piece);
      UnsentJoin(Indices(n - 1), [n - 1], piece);
      assert [n - 1][1..] == [];
    }
  }

  // ---------------------------------------------------------------------------------------------
  // The invariant
  // ---------------------------------------------------------------------------------------------

  /** How often the piece is still to come. */
  ghost function Outstanding(p: Pending, active: seq<ActiveRequest>, h: InfoHash, piece: nat): nat {
    Unsent(p.messages, piece) + AskedFor(active, h, piece)
  }

  /**
   `left` counts the unsent pieces and the requests under way, and these are distinct pieces of the
   metadata. Without a started download no request is under way.
   */
  ghost predicate Counted(o: Option<Pending>, active: seq<ActiveRequest>, h: InfoHash) {
    match o
    case None => Asked(active, h) == 0
    case Some(p) =>
      && p.left == |p.messages| + Asked(active, h)
      && forall piece: nat :: Outstanding(p, active, h, piece) <= if piece < NumPieces(|p.bytes|) then 1 else 0
  }

  /** The metadata of those hashes whose peers are honest; nothing is known of the others. */
  type Truth = map<InfoHash, seq<byte>>

  /** What is no longer to come has arrived. */
  ghost predicate Faithful(p: Pending, active: seq<ActiveRequest>, h: InfoHash, data: seq<byte>) {
    && |p.bytes| == |data|
    && forall i: nat :: i < |data| && Outstanding(p, active, h, i / MAX_REQUEST_SIZE) == 0 ==> p.bytes[i] == data[i]
  }

  ghost predicate Tracked(o: Option<Pending>, active: seq<ActiveRequest>, h: InfoHash, truth: Truth) {
    Counted(o, active, h) && (o.Some? && h in truth ==> Faithful(o.value, active, h, truth[h]))
  }

  ghost predicate AllTracked(s: State, truth: Truth) {
    forall h: InfoHash :: Tracked(PendingOf(s, h), s.active, h, truth)
  }

  /** Peers are filed under the hash they announced, and honest ones announced the right size. */
  ghost predicate Filed(s: State, truth: Truth) {
    && (forall h, p :: h in s.peers && p in s.peers[h].peers ==> p.hash == h)
    && (forall h :: h in s.peers && h in truth ==> s.peers[h].size == |truth[h]|)
  }

  /** The bytes an honest peer sends for the piece. */
  function PieceOf(data: seq<byte>, piece: nat): seq<byte>
    requires piece * MAX_REQUEST_SIZE <= |data|
  {
    var start := piece * MAX_REQUEST_SIZE;
    if start + MAX_REQUEST_SIZE <= |data| then data[start..start + MAX_REQUEST_SIZE] else data[start..]
  }

  /** A download that got all it asked for is what was asked for, unless it asked for nothing. */
  ghost predicate Validations(s: State, sha: seq<byte> -> InfoHash) {
    forall h: InfoHash :: PendingOf(s, h).Some? ==> Validation(PendingOf(s, h).value, h, sha)
  }

  ghost predicate Validation(p: Pending, h: InfoHash, sha: seq<byte> -> InfoHash) {
    p.left == 0 ==> sha(p.bytes) == h || p.bytes == []
  }

  ghost predicate Inv(s: State, sha: seq<byte> -> InfoHash, truth: Truth) {
    AllTracked(s, truth) && Filed(s, truth) && Validations(s, sha)
  }

  // ---------------------------------------------------------------------------------------------
  // Steps keep the counts
  // ---------------------------------------------------------------------------------------------

  lemma CountedFromSize(size: nat, active: seq<ActiveRequest>, h: InfoHash, truth: Truth)
    requires Asked(active, h) == 0 && (h in truth ==> size == |truth[h]|)
    ensures Tracked(Some(FromSize(size)), active, h, truth)
  {
    hide Asked, AskedFor, Unsent, Zeros, NumPieces;
    var p := FromSize(size);
    forall piece: nat
      ensures Outstanding(p, active, h, piece) == if piece < NumPieces(size) then 1 else 0
    {
      UnsentIndices(NumPieces(size), piece);
      AskedBounds(active, h, piece);
    }
    forall i: nat | i < size ensures Outstanding(p, active, h, i / MAX_REQUEST_SIZE) == 1 {
      PieceStart(i / MAX_REQUEST_SIZE, size);
    }
  }

  lemma CheckedKeeps(s: State, sha: seq<byte> -> InfoHash, truth: Truth)
    requires AllTracked(s, truth) && Filed(s, truth) && Checked(s, sha).Some?
    ensures Inv(Checked(s, sha).value, sha, truth)
  {
    hide Tracked, FromSize;
    var s' := Checked(s, sha).value;
    forall h: InfoHash
      ensures Tracked(PendingOf(s', h), s'.active, h, truth)
      ensures PendingOf(s', h).Some? ==> Validation(PendingOf(s', h).value, h, sha)
    {
      CheckedOne(s, h, sha, truth);
    }
  }

  /** Checking one download: kept, or given up and perhaps started over. */
  lemma CheckedOne(s: State, h: InfoHash, sha: seq<byte> -> InfoHash, truth: Truth)
    requires AllTracked(s, truth) && Filed(s, truth) && Checked(s, sha).Some?
    ensures var s' := Checked(s, sha).value;
            && s'.active == s.active && s'.peers == s.peers && s'.pending.Keys == s.pending.Keys
            && Tracked(PendingOf(s', h), s'.active, h, truth)
            && (PendingOf(s', h).Some? ==> Validation(PendingOf(s', h).value, h, sha))
            && (PendingOf(s', h).Some? ==>
                  PendingOf(s', h) == PendingOf(s, h)
                  || (h in s.peers && s.peers[h].size >= 0 && PendingOf(s', h).value == FromSize(s.peers[h].size)))
            && (PendingOf(s, h).Some? && (PendingOf(s, h).value.left == 0 ==> sha(PendingOf(s, h).value.bytes) == h) ==>
                  PendingOf(s', h) == PendingOf(s, h))
  {
    hide FromSize;
    var p := PendingOf(s, h);
    assert Tracked(p, s.active, h, truth);
    if h in s.pending {
      var v := ValidatedOne(h, p, sha);
      if v.None? && h in s.peers && s.peers[h].size >= 0 {
        FromSizeStart(s.peers[h].size);
        CountedFromSize(s.peers[h].size, s.active, h, truth);
      }
    }
  }

  lemma FromSizeStart(size: nat)
    ensures var p := FromSize(size); |p.bytes| == size && (p.left == 0 <==> size == 0)
  {
  }

  lemma AskedWithout(a: seq<ActiveRequest>, r: ActiveRequest, b: seq<ActiveRequest>, h: InfoHash, piece: nat)
    ensures Asked(a + [r] + b, h) == Asked(a + b, h) + (if r.sentTo.hash == h then 1 else 0)
    ensures AskedFor(a + [r] + b, h, piece) ==
              AskedFor(a + b, h, piece) + (if r.sentTo.hash == h && r.piece == piece then 1 else 0)
  {
    AskedJoin(a + [r], b, h, piece);
    AskedJoin(a, [r], h, piece);
    AskedJoin(a, b, h, piece);
    AskedOne(r, h, piece);
  }

  lemma UnsentOneMore(messages: seq<nat>, x: nat, piece: nat)
    ensures Unsent(messages + [x], piece) == Unsent(messages, piece) + (if x == piece then 1 else 0)
  {
    UnsentJoin(messages, [x], piece);
    assert [x][1..] == [];
  }

  /** Moving a request between the unsent messages and those under way changes no count. */
  lemma CountedMoves(
    p: Pending, active: seq<ActiveRequest>, h: InfoHash, p': Pending, active': seq<ActiveRequest>, truth: Truth)
    requires Tracked(Some(p), active, h, truth) && p'.left == p.left && p'.bytes == p.bytes
    requires |p'.messages| + Asked(active', h) == |p.messages| + Asked(active, h)
    requires forall piece: nat :: Outstanding(p', active', h, piece) == Outstanding(p, active, h, piece)
    ensures Tracked(Some(p'), active', h, truth)
  {
  }

  lemma RequeuedKeeps(s: State, r: ActiveRequest, rest: seq<ActiveRequest>, h: InfoHash, truth: Truth)
    requires Tracked(PendingOf(s, h), s.active + [r] + rest, h, truth)
    ensures Tracked(PendingOf(Requeued(s, r), h), s.active + rest, h, truth)
  {
    hide Asked, AskedFor, Unsent;
    var p, p' := PendingOf(s, h), PendingOf(Requeued(s, r), h);
    var active, active' := s.active + [r] + rest, s.active + rest;
    AskedWithout(s.active, r, rest, h, 0);
    if p.Some? {
      forall piece: nat
        ensures Outstanding(p'.value, active', h, piece) == Outstanding(p.value, active, h, piece)
      {
        AskedWithout(s.active, r, rest, h, piece);
        UnsentOneMore(p.value.messages, r.piece, piece);
      }
      CountedMoves(p.value, active, h, p'.value, active', truth);
    }
  }

  lemma {:induction false} ExpireKeeps(s: State, todo: seq<ActiveRequest>, duration: nat, truth: Truth)
    requires AllTracked(s.(active := s.active + todo), truth) && Filed(s, truth)
    ensures var s' := Expire(s, todo, duration);
            && AllTracked(s', truth) && Filed(s', truth) && s'.pending.Keys == s.pending.Keys
            && forall h :: h in s'.peers ==> h in s.peers && s'.peers[h].size == s.peers[h].size
    decreases |todo|
  {
    hide Tracked;
    if todo == [] {
      assert s.active + todo == s.active;
    } else {
      var r, rest := todo[0], todo[1..];
      assert s.active + todo == s.active + [r] + rest;
      if r.left < duration {
        var s' := Requeued(s, r);
        forall h: InfoHash ensures Tracked(PendingOf(s', h), s'.active + rest, h, truth) {
          assert PendingOf(s.(active := s.active + todo), h) == PendingOf(s, h);
          RequeuedKeeps(s, r, rest, h, truth);
        }
        assert forall h: InfoHash :: PendingOf(s'.(active := s'.active + rest), h) == PendingOf(s', h);
        ExpireKeeps(s', rest, duration, truth);
      } else {
        ExpireKeeps(s.(active := s.active + [r]), rest, duration, truth);
      }
    }
  }

  lemma AgedKeeps(s: State, duration: nat, truth: Truth)
    requires AllTracked(s, truth)
    ensures AllTracked(s.(active := Aged(s.active, duration)), truth)
  {
    var s' := s.(active := Aged(s.active, duration));
    forall h: InfoHash ensures Tracked(PendingOf(s', h), s'.active, h, truth) {
      assert Tracked(PendingOf(s, h), s.active, h, truth);
      AskedAged(s.active, duration, h, 0);
      if PendingOf(s, h).Some? {
        var p := PendingOf(s, h).value;
        forall piece: nat ensures Outstanding(p, s'.active, h, piece) == Outstanding(p, s.active, h, piece) {
          AskedAged(s.active, duration, h, piece);
        }
        CountedMoves(p, s.active, h, p, s'.active, truth);
      }
    }
  }

  lemma {:induction false} AskedOne(r: ActiveRequest, h: InfoHash, piece: nat)
    ensures Asked([r], h) == if r.sentTo.hash == h then 1 else 0
    ensures AskedFor([r], h, piece) == if r.sentTo.hash == h && r.piece == piece then 1 else 0
  {
    assert [r][1..] == [];
  }

  /** A reply for a request of ours never underflows the count and never starts behind the buffer. */
  lemma ReceivedFits(s: State, i: nat, truth: Truth)
    requires AllTracked(s, truth) && i < |s.active|
    ensures var o := PendingOf(s, s.active[i].sentTo.hash);
            && o.Some? && o.value.left > 0 && s.active[i].piece < NumPieces(|o.value.bytes|)
            && s.active[i].piece * MAX_REQUEST_SIZE < |o.value.bytes|
  {
    var r := s.active[i];
    var h := r.sentTo.hash;
    AskedRemoved(s.active, i, h, r.piece);
    AskedOne(r, h, r.piece);
    assert Tracked(PendingOf(s, h), s.active, h, truth);
    var p := PendingOf(s, h).value;
    assert Outstanding(p, s.active, h, r.piece) <= if r.piece < NumPieces(|p.bytes|) then 1 else 0;
    PieceStart(r.piece, |p.bytes|);
  }

  lemma PieceStart(piece: nat, size: nat)
    ensures piece < NumPieces(size) <==> piece * MAX_REQUEST_SIZE < size
  {
  }

  lemma RecvDataKeeps(s: State, info: PeerInfo, piece: int, data: seq<byte>, truth: Truth)
    requires AllTracked(s, truth) && Filed(s, truth) && HonestData(info.hash, piece, data, truth)
    ensures var s' := WithData(s, info, piece, data);
            && s'.Some? && AllTracked(s'.value, truth)
            && s'.value.pending.Keys == s.pending.Keys && s'.value.peers == s.peers
  {
    hide Tracked, Received;
    var index := FindRequest(s.active, info, piece);
    if index.Some? {
      var i := index.value;
      ReceivedFits(s, i, truth);
      ReceivedSome(PendingOf(s, info.hash).value, piece, data);
      var s' := WithData(s, info, piece, data).value;
      forall h: InfoHash ensures Tracked(PendingOf(s', h), s'.active, h, truth) {
        assert Tracked(PendingOf(s, h), s.active, h, truth);
        if h == info.hash { ReceivedKeeps(PendingOf(s, h).value, s.active, i, h, data, truth); }
        else { RemovedElsewhere(PendingOf(s, h), s.active, i, h, truth); }
      }
    }
  }

  ghost predicate HonestData(h: InfoHash, piece: int, data: seq<byte>, truth: Truth) {
    h in truth && 0 <= piece < NumPieces(|truth[h]|) ==>
      piece * MAX_REQUEST_SIZE <= |truth[h]| && data == PieceOf(truth[h], piece)
  }

  lemma ReceivedSome(p: Pending, piece: nat, data: seq<byte>)
    requires p.left > 0 && piece * MAX_REQUEST_SIZE < |p.bytes|
    ensures var q := Received(p, piece, data);
            && q.Some? && q.value.messages == p.messages && q.value.left == p.left - 1
            && q.value.bytes == Written(p.bytes, piece * MAX_REQUEST_SIZE, data)
  {
  }

  lemma RemovedElsewhere(o: Option<Pending>, active: seq<ActiveRequest>, i: nat, h: InfoHash, truth: Truth)
    requires Tracked(o, active, h, truth) && i < |active| && active[i].sentTo.hash != h
    ensures Tracked(o, SwapRemove(active, i), h, truth)
  {
    hide Asked, AskedFor, Unsent;
    AskedRemoved(active, i, h, 0);
    AskedOne(active[i], h, 0);
    if o.Some? {
      forall piece: nat
        ensures Outstanding(o.value, SwapRemove(active, i), h, piece) == Outstanding(o.value, active, h, piece)
      {
        AskedRemoved(active, i, h, piece);
        AskedOne(active[i], h, piece);
      }
      CountedMoves(o.value, active, h, o.value, SwapRemove(active, i), truth);
    }
  }

  /** An honest piece is written where it belongs, and no other place of the buffer changes. */
  lemma WrittenPiece(bytes: seq<byte>, data: seq<byte>, piece: nat, i: nat)
    requires |bytes| == |data| && piece * MAX_REQUEST_SIZE <= |data| && i < |data|
    ensures var r := Written(bytes, piece * MAX_REQUEST_SIZE, PieceOf(data, piece));
            r[i] == if i / MAX_REQUEST_SIZE == piece then data[i] else bytes[i]
  {
  }

  lemma ReceivedKeeps(p: Pending, active: seq<ActiveRequest>, i: nat, h: InfoHash, data: seq<byte>, truth: Truth)
    requires Tracked(Some(p), active, h, truth) && i < |active| && active[i].sentTo.hash == h
    requires p.left > 0 && active[i].piece < NumPieces(|p.bytes|) && active[i].piece * MAX_REQUEST_SIZE < |p.bytes|
    requires HonestData(h, active[i].piece, data, truth)
    ensures Tracked(Received(p, active[i].piece, data), SwapRemove(active, i), h, truth)
  {
    hide Asked, AskedFor, Unsent, Received, Written;
    var k := active[i].piece;
    var rest := SwapRemove(active, i);
    ReceivedSome(p, k, data);
    var p' := Received(p, k, data).value;
    AskedRemoved(active, i, h, 0);
    AskedOne(active[i], h, 0);
    forall piece: nat
      ensures Outstanding(p', rest, h, piece) == Outstanding(p, active, h, piece) - (if piece == k then 1 else 0)
    {
      AskedRemoved(active, i, h, piece);
      AskedOne(active[i], h, piece);
    }
    if h in truth {
      forall j: nat | j < |truth[h]| && Outstanding(p', rest, h, j / MAX_REQUEST_SIZE) == 0
        ensures p'.bytes[j] == truth[h][j]
      {
        WrittenPiece(p.bytes, truth[h], k, j);
      }
    }
  }

  lemma {:induction false} CompletedKeeps(
    s: State, order: seq<InfoHash>, sha: seq<byte> -> InfoHash, wellFormed: Ref -> bool, truth: Truth)
    requires Inv(s, sha, truth)
    ensures Inv(Completed(s, order, sha, wellFormed).0, sha, truth)
    decreases |order|
  {
    hide InfoFromBytes;
    if order != [] {
      if Complete(s, order[0]) {
        var h0 := order[0];
        var s' := s.(pending := s.pending - {h0}, peers := s.peers - {h0});
        forall h: InfoHash
          ensures Tracked(PendingOf(s', h), s'.active, h, truth)
          ensures h != h0 ==> PendingOf(s', h) == PendingOf(s, h)
        {
          assert Tracked(PendingOf(s, h), s.active, h, truth);
        }
        CompletedKeeps(s', order[1..], sha, wellFormed, truth);
      } else {
        CompletedKeeps(s, order[1..], sha, wellFormed, truth);
      }
    }
  }

  lemma AskKeeps(s: State, h: InfoHash, peer: PeerInfo, sha: seq<byte> -> InfoHash, truth: Truth)
    requires Inv(s, sha, truth) && Ready(s, h) && peer.hash == h
    ensures Inv(Ask(s, h, peer).0, sha, truth)
  {
    hide Asked, AskedFor, Unsent;
    var s' := Ask(s, h, peer).0;
    var p := PendingOf(s, h).value;
    var n := |p.messages| - 1;
    var r := ActiveRequest(REQUEST_TIMEOUT_MILLIS, p.messages[n], peer);
    assert p.messages == p.messages[..n] + [r.piece];
    assert s.active + [r] == s.active + [r] + [] && s.active + [] == s.active;
    forall g: InfoHash
      ensures Tracked(PendingOf(s', g), s'.active, g, truth)
      ensures PendingOf(s', g).Some? ==> Validation(PendingOf(s', g).value, g, sha)
    {
      assert Tracked(PendingOf(s, g), s.active, g, truth);
      AskedWithout(s.active, r, [], g, 0);
      if PendingOf(s, g).Some? {
        var q, q' := PendingOf(s, g).value, PendingOf(s', g).value;
        forall piece: nat ensures Outstanding(q', s'.active, g, piece) == Outstanding(q, s.active, g, piece) {
          AskedWithout(s.active, r, [], g, piece);
          UnsentOneMore(p.messages[..n], r.piece, piece);
        }
        CountedMoves(q, s.active, g, q', s'.active, truth);
      }
    }
  }

  lemma {:induction false} PieceRequestKeeps(
    s: State, order: seq<InfoHash>, choose: set<PeerInfo> -> PeerInfo, sha: seq<byte> -> InfoHash, truth: Truth)
    requires Inv(s, sha, truth) && Chooses(choose)
    ensures Inv(PieceRequest(s, order, choose).0, sha, truth)
  {
    hide AllTracked, Validations, Ask;
    if order != [] {
      if Ready(s, order[0]) {
        var peers := s.peers[order[0]].peers;
        assert choose(peers) in peers;
        AskKeeps(s, order[0], choose(peers), sha, truth);
      } else {
        PieceRequestKeeps(s, order[1..], choose, sha, truth);
      }
    }
  }

  /** A random choice among peers gives one of them. */
  ghost predicate Chooses(choose: set<PeerInfo> -> PeerInfo) {
    forall peers: set<PeerInfo> {:trigger choose(peers)} :: peers != {} ==> choose(peers) in peers
  }

  // ---------------------------------------------------------------------------------------------
  // Runs
  // ---------------------------------------------------------------------------------------------

  datatype Event =
    | PeerAdded(info: PeerInfo, size: Option<int>)
    | PeerRemoved(info: PeerInfo)
    | Ticked(duration: nat)
    | DownloadAsked(hash: InfoHash)
    | DataReceived(info: PeerInfo, piece: int, data: seq<byte>)
    | OtherMessage
    | Polled(order: seq<InfoHash>, choose: set<PeerInfo> -> PeerInfo)

  /** What the event does before the downloads are checked. */
  ghost function Messaged(s: State, e: Event): Option<State> {
    match e
    case PeerAdded(info, size) => Some(WithPeer(s, info, size))
    case PeerRemoved(info) => Some(WithoutPeer(s, info))
    case Ticked(duration) => Some(Tick(s, duration))
    case DownloadAsked(h) => Some(Download(s, h))
    case DataReceived(info, piece, data) => WithData(s, info, piece, data)
    case _ => Some(s)
  }

  ghost function Step(s: State, e: Event, sha: seq<byte> -> InfoHash, wellFormed: Ref -> bool): Option<State> {
    if e.Polled? then Some(Poll(s, e.order, e.choose, sha, wellFormed).0)
    else if Messaged(s, e).None? then None
    else Checked(Messaged(s, e).value, sha)
  }

  ghost function Emits(s: State, e: Event, sha: seq<byte> -> InfoHash, wellFormed: Ref -> bool): seq<Output> {
    if e.Polled? then
      var output := Poll(s, e.order, e.choose, sha, wellFormed).1;
      if output.Some? then [output.value] else []
    else []
  }

  ghost function Run(s: State, events: seq<Event>, sha: seq<byte> -> InfoHash, wellFormed: Ref -> bool): Option<State>
    decreases |events|
  {
    if events == [] then Some(s)
    else if Step(s, events[0], sha, wellFormed).None? then None
    else Run(Step(s, events[0], sha, wellFormed).value, events[1..], sha, wellFormed)
  }

  /** Everything the run hands out. */
  ghost function Outputs(s: State, events: seq<Event>, sha: seq<byte> -> InfoHash, wellFormed: Ref -> bool): seq<Output>
    decreases |events|
  {
    if events == [] then []
    else
      var s' := Step(s, events[0], sha, wellFormed);
      Emits(s, events[0], sha, wellFormed) + (if s'.None? then [] else Outputs(s'.value, events[1..], sha, wellFormed))
  }

  /** Peers of the hashes in `truth` tell the right size and send the right bytes; all others do as they please. */
  ghost predicate Honest(e: Event, truth: Truth) {
    match e
    case PeerAdded(info, size) => size.Some? && info.hash in truth ==> size.value == |truth[info.hash]|
    case DataReceived(info, piece, data) => HonestData(info.hash, piece, data, truth)
    case Polled(_, choose) => Chooses(choose)
    case _ => true
  }

  lemma PeersKeep(s: State, e: Event, truth: Truth)
    requires AllTracked(s, truth) && Filed(s, truth) && Honest(e, truth)
    requires e.PeerAdded? || e.PeerRemoved? || e.DownloadAsked?
    ensures var s' := Messaged(s, e).value; AllTracked(s', truth) && Filed(s', truth)
  {
    hide Tracked;
    var s' := Messaged(s, e).value;
    assert forall h: InfoHash :: PendingOf(s', h) == PendingOf(s, h);
  }

  lemma TickKeeps(s: State, duration: nat, truth: Truth)
    requires AllTracked(s, truth) && Filed(s, truth)
    ensures AllTracked(Tick(s, duration), truth) && Filed(Tick(s, duration), truth)
  {
    hide AllTracked;
    assert s.(active := [] + s.active) == s;
    ExpireKeeps(s.(active := []), s.active, duration, truth);
    AgedKeeps(Expire(s.(active := []), s.active, duration), duration, truth);
  }

  lemma MessagedKeeps(s: State, e: Event, truth: Truth)
    requires AllTracked(s, truth) && Filed(s, truth) && Honest(e, truth)
    ensures var s' := Messaged(s, e); s'.Some? && AllTracked(s'.value, truth) && Filed(s'.value, truth)
  {
    hide AllTracked, WithData, Tick, HonestData;
    match e
    case Ticked(duration) => TickKeeps(s, duration, truth);
    case DataReceived(info, piece, data) => RecvDataKeeps(s, info, piece, data, truth);
    case PeerAdded(_, _) => PeersKeep(s, e, truth);
    case PeerRemoved(_) => PeersKeep(s, e, truth);
    case DownloadAsked(_) => PeersKeep(s, e, truth);
    case _ =>
  }

  lemma StepKeeps(s: State, e: Event, sha: seq<byte> -> InfoHash, wellFormed: Ref -> bool, truth: Truth)
    requires Inv(s, sha, truth) && Honest(e, truth)
    ensures Step(s, e, sha, wellFormed).Some? ==> Inv(Step(s, e, sha, wellFormed).value, sha, truth)
  {
    hide AllTracked, Filed, Validations, Checked, Messaged, Completed, PieceRequest;
    if e.Polled? {
      CompletedKeeps(s, e.order, sha, wellFormed, truth);
      PieceRequestKeeps(Completed(s, e.order, sha, wellFormed).0, e.order, e.choose, sha, truth);
    } else {
      MessagedKeeps(s, e, truth);
      if Step(s, e, sha, wellFormed).Some? { CheckedKeeps(Messaged(s, e).value, sha, truth); }
    }
  }

  lemma {:induction false} RunKeeps(
    s: State, events: seq<Event>, sha: seq<byte> -> InfoHash, wellFormed: Ref -> bool, truth: Truth)
    requires Inv(s, sha, truth) && forall e :: e in events ==> Honest(e, truth)
    ensures Run(s, events, sha, wellFormed).Some? ==> Inv(Run(s, events, sha, wellFormed).value, sha, truth)
    decreases |events|
  {
    hide Inv, Honest, Step;
    if events != [] && Step(s, events[0], sha, wellFormed).Some? {
      StepKeeps(s, events[0], sha, wellFormed, truth);
      RunKeeps(Step(s, events[0], sha, wellFormed).value, events[1..], sha, wellFormed, truth);
    }
  }

  lemma InitInv(sha: seq<byte> -> InfoHash, truth: Truth)
    ensures Inv(Init(), sha, truth)
  {
  }

  /**
   In every run, for every download: `left` is the number of unsent pieces and requests under way, and
   these are distinct pieces. Where the peers of a hash are honest, a download with nothing left has its
   metadata, byte for byte, and passes the check of its hash.
   */
  lemma EveryDownload(
    events: seq<Event>, h: InfoHash, sha: seq<byte> -> InfoHash, wellFormed: Ref -> bool, truth: Truth)
    requires forall e :: e in events ==> Honest(e, truth)
    requires Run(Init(), events, sha, wellFormed).Some?
    ensures var s := Run(Init(), events, sha, wellFormed).value;
            && Counted(PendingOf(s, h), s.active, h)
            && (Complete(s, h) && h in truth ==> PendingOf(s, h).value.bytes == truth[h])
            && (Complete(s, h) && h in truth && sha(truth[h]) == h ==>
                 ValidatedOne(h, PendingOf(s, h), sha) == PendingOf(s, h))
  {
    hide Filed, Validations;
    var s := Run(Init(), events, sha, wellFormed).value;
    InitInv(sha, truth);
    RunKeeps(Init(), events, sha, wellFormed, truth);
    assert Tracked(PendingOf(s, h), s.active, h, truth);
    if Complete(s, h) && h in truth {
      var p, data := PendingOf(s, h).value, truth[h];
      forall i: nat | i < |data| ensures p.bytes[i] == data[i] {
        var piece := i / MAX_REQUEST_SIZE;
        AskedBounds(s.active, h, piece);
        assert Outstanding(p, s.active, h, piece) == 0;
      }
    }
  }

  // ---------------------------------------------------------------------------------------------
  // What is handed out
  // ---------------------------------------------------------------------------------------------

  lemma EmptyIsNoInfo(sha: seq<byte> -> InfoHash, wellFormed: Ref -> bool)
    ensures InfoFromBytes([], sha, wellFormed).None?
  {
  }

  /** The info hash of parsed metadata is the hash of all its bytes. */
  lemma InfoHashOfAll(bytes: seq<byte>, sha: seq<byte> -> InfoHash, wellFormed: Ref -> bool)
    requires InfoFromBytes(bytes, sha, wellFormed).Some?
    ensures InfoFromBytes(bytes, sha, wellFormed).value == sha(bytes)
  {
    hide Decode;
    assert bytes[0..|bytes|] == bytes;
  }

  lemma {:induction false} CompletedEmits(
    s: State, order: seq<InfoHash>, sha: seq<byte> -> InfoHash, wellFormed: Ref -> bool)
    requires Validations(s, sha)
    ensures var output := Completed(s, order, sha, wellFormed).1;
            output.Some? ==> output.value.infoHash == output.value.requested && output.value.requested in s.pending
    decreases |order|
  {
    hide InfoFromBytes;
    if order != [] {
      var h := order[0];
      if Complete(s, h) {
        var p := PendingOf(s, h).value;
        assert Validation(p, h, sha);
        if InfoFromBytes(p.bytes, sha, wellFormed).Some? {
          EmptyIsNoInfo(sha, wellFormed);
          InfoHashOfAll(p.bytes, sha, wellFormed);
        }
        var s' := s.(pending := s.pending - {h}, peers := s.peers - {h});
        assert forall g: InfoHash :: PendingOf(s', g) == if g == h then None else PendingOf(s, g);
        CompletedEmits(s', order[1..], sha, wellFormed);
      } else {
        CompletedEmits(s, order[1..], sha, wellFormed);
      }
    }
  }

  lemma {:induction false} PieceRequestEmits(s: State, order: seq<InfoHash>, choose: set<PeerInfo> -> PeerInfo)
    ensures PieceRequest(s, order, choose).1.Some? ==> PieceRequest(s, order, choose).1.value.Requested?
  {
    if order != [] { PieceRequestEmits(s, order[1..], choose); }
  }

  lemma {:induction false} OutputsFrom(
    s: State, events: seq<Event>, sha: seq<byte> -> InfoHash, wellFormed: Ref -> bool, o: Output)
    requires Inv(s, sha, map[]) && (forall e :: e in events ==> Honest(e, map[]))
    requires o in Outputs(s, events, sha, wellFormed) && o.Downloaded?
    ensures o.infoHash == o.requested
    decreases |events|
  {
    hide Inv, Honest, Step, Completed, PieceRequest;
    var e := events[0];
    StepKeeps(s, e, sha, wellFormed, map[]);
    if o in Emits(s, e, sha, wellFormed) {
      assert Validations(s, sha) by { InvValidations(s, sha); }
      CompletedEmits(s, e.order, sha, wellFormed);
      PieceRequestEmits(Completed(s, e.order, sha, wellFormed).0, e.order, e.choose);
    } else {
      OutputsFrom(Step(s, e, sha, wellFormed).value, events[1..], sha, wellFormed, o);
    }
  }

  lemma InvValidations(s: State, sha: seq<byte> -> InfoHash)
    requires Inv(s, sha, map[])
    ensures Validations(s, sha)
  {
  }

  /**
   In every run, whatever the peers send, each metainfo handed out has the info hash that was asked for,
   although nothing compares the two when it is handed out.
   */
  lemma EveryMetainfoIsRequested(events: seq<Event>, sha: seq<byte> -> InfoHash, wellFormed: Ref -> bool, o: Output)
    requires forall e :: e in events && e.Polled? ==> Chooses(e.choose)
    requires o in Outputs(Init(), events, sha, wellFormed) && o.Downloaded?
    ensures o.infoHash == o.requested
  {
    InitInv(sha, map[]);
    forall e | e in events ensures Honest(e, map[]) {}
    OutputsFrom(Init(), events, sha, wellFormed, o);
  }
}
