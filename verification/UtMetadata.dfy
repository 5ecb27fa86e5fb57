/**
 Downloading metadata from peers (`bip_select/src/discovery/ut_metadata.rs`), as far as it is about
 downloads of our own.

 A panic of the original makes a step undefined (`None`). Iteration orders of hash maps and the random
 choice of a peer are parameters of the steps. Durations are in milliseconds.
 */
module UtMetadata {
  import opened Basics
  import opened Bencode

  const REQUEST_TIMEOUT_MILLIS: nat := 2000
  const MAX_REQUEST_SIZE: nat := 16 * 1024

  /** Hashes and the identity of a peer only matter up to equality. */
  type InfoHash = nat

  datatype PeerInfo = PeerInfo(id: nat, hash: InfoHash)

  datatype Pending = Pending(messages: seq<nat>, left: nat, bytes: seq<byte>)

  datatype ActiveRequest = ActiveRequest(left: nat, piece: nat, sentTo: PeerInfo)

  datatype ActivePeers = ActivePeers(peers: set<PeerInfo>, size: int)

  datatype State = State(
    pending: map<InfoHash, Option<Pending>>,
    peers: map<InfoHash, ActivePeers>,
    active: seq<ActiveRequest>)

  datatype Output =
    | Downloaded(requested: InfoHash, infoHash: InfoHash)
    | Requested(peer: PeerInfo, piece: nat)

  function Init(): State {
    State(map[], map[], [])
  }

  // ---------------------------------------------------------------------------------------------
  // Starting a download
  // ---------------------------------------------------------------------------------------------

  function NumPieces(size: nat): nat {
    if size % MAX_REQUEST_SIZE != 0 then size / MAX_REQUEST_SIZE + 1 else size / MAX_REQUEST_SIZE
  }

  function Indices(n: nat): (r: seq<nat>)
    ensures |r| == n && forall i :: 0 <= i < n ==> r[i] == i
  {
    if n == 0 then [] else Indices(n - 1) + [n - 1]
  }

  function Zeros(n: nat): (r: seq<byte>)
    ensures |r| == n && forall i :: 0 <= i < n ==> r[i] == 0
  {
    seq(n, _ => 0)
  }

  function FromSize(size: nat): Pending {
    Pending(Indices(NumPieces(size)), NumPieces(size), Zeros(size))
  }

  /** A negative size becomes one that no vector can have, which panics. */
  method PendingInfoFromMetadataSize(size: int) returns (r: Option<Pending>)
    ensures r == if size < 0 then None else Some(FromSize(size))
  {
    if size < 0 { return None; }
    var messages: seq<nat> := [];
    for index := 0 to NumPieces(size)
      invariant messages == Indices(index)
    {
      messages := messages + [index];
    }
    r := Some(Pending(messages, NumPieces(size), Zeros(size)));
  }

  function PendingOf(s: State, h: InfoHash): Option<Pending> {
    if h in s.pending then s.pending[h] else None
  }

  /** A download whose data is not what was asked for starts over. */
  function ValidatedOne(h: InfoHash, p: Option<Pending>, sha: seq<byte> -> InfoHash): Option<Pending> {
    if p.Some? && p.value.left == 0 && sha(p.value.bytes) != h then None else p
  }

  function Validated(s: State, sha: seq<byte> -> InfoHash): State {
    s.(pending := map h | h in s.pending :: ValidatedOne(h, s.pending[h], sha))
  }

  function InitializedOne(h: InfoHash, p: Option<Pending>, peers: map<InfoHash, ActivePeers>): Option<Pending> {
    if p.None? && h in peers && peers[h].size >= 0 then Some(FromSize(peers[h].size)) else p
  }

  predicate Unusable(h: InfoHash, p: Option<Pending>, peers: map<InfoHash, ActivePeers>) {
    p.None? && h in peers && peers[h].size < 0
  }

  predicate SizePanics(s: State) {
    exists h :: h in s.pending && Unusable(h, s.pending[h], s.peers)
  }

  predicate HasMessages(p: Option<Pending>) {
    p.Some? && p.value.messages != []
  }

  function Initialized(s: State): Option<State> {
    if SizePanics(s) then None
    else Some(s.(pending := map h | h in s.pending :: InitializedOne(h, s.pending[h], s.peers)))
  }

  /** What is done after every message the module takes. */
  function Checked(s: State, sha: seq<byte> -> InfoHash): Option<State> {
    Initialized(Validated(s, sha))
  }

  // ---------------------------------------------------------------------------------------------
  // Messages
  // ---------------------------------------------------------------------------------------------

  function WithPeer(s: State, info: PeerInfo, size: Option<int>): State {
    if size.None? then s
    else if info.hash in s.peers then
      var known := s.peers[info.hash];
      s.(peers := s.peers[info.hash := known.(peers := known.peers + {info})])
    else s.(peers := s.peers[info.hash := ActivePeers({info}, size.value)])
  }

  function WithoutPeer(s: State, info: PeerInfo): State {
    if info.hash !in s.peers then s
    else
      var rest := s.peers[info.hash].peers - {info};
      if rest == {} then s.(peers := s.peers - {info.hash})
      else s.(peers := s.peers[info.hash := s.peers[info.hash].(peers := rest)])
  }

  /** The peer is dropped, and what it was asked for will be asked of another. */
  function Requeued(s: State, r: ActiveRequest): (s': State)
    ensures s'.active == s.active
  {
    var h := r.sentTo.hash;
    var peers' := if h in s.peers then s.peers[h := s.peers[h].(peers := s.peers[h].peers - {r.sentTo})] else s.peers;
    if PendingOf(s, h).None? then s.(peers := peers')
    else
      var p := PendingOf(s, h).value;
      s.(peers := peers', pending := s.pending[h := Some(p.(messages := p.messages + [r.piece]))])
  }

  /** The requests of `todo` are kept in `s` or, if their time is over, put back. */
  function Expire(s: State, todo: seq<ActiveRequest>, duration: nat): State
    decreases |todo|
  {
    if todo == [] then s
    else if todo[0].left < duration then Expire(Requeued(s, todo[0]), todo[1..], duration)
    else Expire(s.(active := s.active + [todo[0]]), todo[1..], duration)
  }

  /** Their time, or nothing of it where less was left. */
  function Aged(active: seq<ActiveRequest>, duration: nat): (r: seq<ActiveRequest>)
    ensures |r| == |active|
    ensures forall i :: 0 <= i < |r| ==> r[i].piece == active[i].piece && r[i].sentTo == active[i].sentTo
    ensures forall i :: 0 <= i < |r| && duration <= active[i].left ==> r[i].left == active[i].left - duration
  {
    if active == [] then []
    else
      var left := if duration <= active[0].left then active[0].left - duration else 0;
      [active[0].(left := left)] + Aged(active[1..], duration)
  }

  function Tick(s: State, duration: nat): State {
    var s' := Expire(s.(active := []), s.active, duration);
    s'.(active := Aged(s'.active, duration))
  }

  function Download(s: State, h: InfoHash): State {
    if h in s.pending then s else s.(pending := s.pending[h := None])
  }

  /** The position of the first request for the piece that went to the peer. */
  function FindRequest(active: seq<ActiveRequest>, info: PeerInfo, piece: int): (r: Option<nat>)
    ensures r.Some? ==> r.value < |active| && active[r.value].sentTo == info && active[r.value].piece == piece
    ensures r.None? ==> forall i :: 0 <= i < |active| ==> active[i].sentTo != info || active[i].piece != piece
  {
    if active == [] then None
    else if active[0].sentTo == info && active[0].piece == piece then Some(0)
    else
      var rest := FindRequest(active[1..], info, piece);
      assert forall i :: 1 <= i < |active| ==> active[i] == active[1..][i - 1];
      if rest.Some? then Some(rest.value + 1) else None
  }

  function SwapRemove<T>(s: seq<T>, i: nat): (r: seq<T>)
    requires i < |s|
    ensures |r| == |s| - 1
  {
    s[i := s[|s| - 1]][..|s| - 1]
  }

  /** As much of the data as fits behind the offset. */
  function Written(bytes: seq<byte>, offset: nat, data: seq<byte>): (r: seq<byte>)
    requires offset <= |bytes|
    ensures |r| == |bytes|
  {
    var n := if |data| <= |bytes| - offset then |data| else |bytes| - offset;
    bytes[..offset] + data[..n] + bytes[offset + n..]
  }

  function Received(p: Pending, piece: nat, data: seq<byte>): Option<Pending> {
    if p.left == 0 || piece * MAX_REQUEST_SIZE > |p.bytes| then None
    else Some(p.(left := p.left - 1, bytes := Written(p.bytes, piece * MAX_REQUEST_SIZE, data)))
  }

  function WithData(s: State, info: PeerInfo, piece: int, data: seq<byte>): Option<State> {
    var index := FindRequest(s.active, info, piece);
    if index.None? then Some(s)
    else
      var s' := s.(active := SwapRemove(s.active, index.value));
      if PendingOf(s, info.hash).None? then Some(s')
      else
        var p := Received(PendingOf(s, info.hash).value, piece, data);
        if p.None? then None else Some(s'.(pending := s.pending[info.hash := p]))
  }

  // ---------------------------------------------------------------------------------------------
  // Polling
  // ---------------------------------------------------------------------------------------------

  predicate Complete(s: State, h: InfoHash) {
    PendingOf(s, h).Some? && PendingOf(s, h).value.left == 0
  }

  /** The decoding options of `Info::from_bytes`, all at their defaults. */
  function InfoOptions(): DecodeOpt {
    DecodeOpt(50, false, true)
  }

  /**
   The info hash of the parsed metadata. `wellFormed` stands for what is demanded of the dictionary
   beyond being bencoded.
   */
  function InfoFromBytes(bytes: seq<byte>, sha: seq<byte> -> InfoHash, wellFormed: Ref -> bool): Option<InfoHash> {
    match DecodeAll(bytes, InfoOptions())
    case Err(_) => None
    case Ok(r, _) => if wellFormed(r) then Some(sha(r.buffer)) else None
  }

  /** `retrieve_completed_download`, which visits the downloads in the given order. */
  function Completed(
    s: State, order: seq<InfoHash>, sha: seq<byte> -> InfoHash, wellFormed: Ref -> bool)
    : (r: (State, Option<Output>))
    ensures r.1.Some? ==> r.1.value.Downloaded?
    decreases |order|
  {
    if order == [] then (s, None)
    else if !Complete(s, order[0]) then Completed(s, order[1..], sha, wellFormed)
    else
      var h := order[0];
      var s' := s.(pending := s.pending - {h}, peers := s.peers - {h});
      match InfoFromBytes(PendingOf(s, h).value.bytes, sha, wellFormed)
      case Some(infoHash) => (s', Some(Downloaded(h, infoHash)))
      case None => Completed(s', order[1..], sha, wellFormed)
  }

  predicate Ready(s: State, h: InfoHash) {
    && PendingOf(s, h).Some? && PendingOf(s, h).value.messages != []
    && h in s.peers && s.peers[h].peers != {}
  }

  /** The last message of the download becomes a request to the peer. */
  function Ask(s: State, h: InfoHash, peer: PeerInfo): (State, Option<Output>)
    requires Ready(s, h)
  {
    var p := PendingOf(s, h).value;
    var n := |p.messages| - 1;
    var piece := p.messages[n];
    (s.(pending := s.pending[h := Some(p.(messages := p.messages[..n]))],
        active := s.active + [ActiveRequest(REQUEST_TIMEOUT_MILLIS, piece, peer)]),
     Some(Requested(peer, piece)))
  }

  /** `retrieve_piece_request`: the first download that can, asks the peer that `choose` picks. */
  function PieceRequest(s: State, order: seq<InfoHash>, choose: set<PeerInfo> -> PeerInfo): (State, Option<Output>) {
    if order == [] then (s, None)
    else if Ready(s, order[0]) then Ask(s, order[0], choose(s.peers[order[0]].peers))
    else PieceRequest(s, order[1..], choose)
  }

  function Poll(s: State, order: seq<InfoHash>, choose: set<PeerInfo> -> PeerInfo,
                sha: seq<byte> -> InfoHash, wellFormed: Ref -> bool): (State, Option<Output>) {
    var (s', output) := Completed(s, order, sha, wellFormed);
    if output.Some? then (s', output) else PieceRequest(s', order, choose)
  }

  // ---------------------------------------------------------------------------------------------
  // The object
  // ---------------------------------------------------------------------------------------------

  class UtMetadataModule {
    var pending: map<InfoHash, Option<Pending>>
    var peers: map<InfoHash, ActivePeers>
    var active: seq<ActiveRequest>

    ghost function View(): State
      reads this
    {
      State(pending, peers, active)
    }

    constructor ()
      ensures View() == Init()
    {
      pending, peers, active := map[], map[], [];
    }

    method AddPeer(info: PeerInfo, size: Option<int>)
      modifies this`peers
      ensures View() == WithPeer(old(View()), info, size)
    {
      if size.Some? {
        if info.hash !in peers { peers := peers[info.hash := ActivePeers({}, size.value)]; }
        var known := peers[info.hash];
        peers := peers[info.hash := known.(peers := known.peers + {info})];
        assert {} + {info} == {info};
      }
    }

    method RemovePeer(info: PeerInfo)
      modifies this`peers
      ensures View() == WithoutPeer(old(View()), info)
    {
      if info.hash in peers {
        var known := peers[info.hash];
        peers := peers[info.hash := known.(peers := known.peers - {info})];
        if peers[info.hash].peers == {} { peers := peers - {info.hash}; }
      }
    }

    method ApplyTick(duration: nat)
      modifies this
      ensures View() == Tick(old(View()), duration)
    {
      hide Requeued, Aged;
      var requests := active;
      active := [];
      ghost var start := View();
      for i := 0 to |requests|
        invariant Expire(View(), requests[i..], duration) == Expire(start, requests, duration)
        invariant forall k :: 0 <= k < |active| ==> duration <= active[k].left
      {
        assert requests[i..][1..] == requests[i + 1..];
        var request := requests[i];
        if request.left < duration { Requeue(request); } else { active := active + [request]; }
      }
      Age(duration);
    }

    /** No time is over, so none goes below zero. */
    method Age(duration: nat)
      requires forall k :: 0 <= k < |active| ==> duration <= active[k].left
      modifies this`active
      ensures active == Aged(old(active), duration)
    {
      for i := 0 to |active|
        invariant |active| == |old(active)|
        invariant forall k :: 0 <= k < i ==> active[k] == old(active)[k].(left := old(active)[k].left - duration)
        invariant forall k :: i <= k < |active| ==> active[k] == old(active)[k]
      {
        active := active[i := active[i].(left := active[i].left - duration)];
      }
      assert active == Aged(old(active), duration);
    }

    method Requeue(request: ActiveRequest)
      modifies this`peers, this`pending
      ensures View() == Requeued(old(View()), request)
    {
      var h := request.sentTo.hash;
      if h in peers { peers := peers[h := peers[h].(peers := peers[h].peers - {request.sentTo})]; }
      if h in pending && pending[h].Some? {
        var p := pending[h].value;
        pending := pending[h := Some(p.(messages := p.messages + [request.piece]))];
      }
    }

    method DownloadMetainfo(h: InfoHash)
      modifies this`pending
      ensures View() == Download(old(View()), h)
    {
      if h !in pending { pending := pending[h := None]; }
    }

    /** Says whether it went without a panic, which it does in every state that a run can reach. */
    method RecvData(info: PeerInfo, piece: int, data: seq<byte>) returns (ok: bool)
      modifies this
      ensures ok == WithData(old(View()), info, piece, data).Some?
      ensures ok ==> Some(View()) == WithData(old(View()), info, piece, data)
    {
      hide FindRequest, Written, SwapRemove;
      var index := Position(info, piece);
      if index.Some? {
        active := SwapRemove(active, index.value);
        if info.hash in pending && pending[info.hash].Some? {
          var p := pending[info.hash].value;
          var offset := piece * MAX_REQUEST_SIZE;
          if p.left == 0 || offset > |p.bytes| { return false; }
          pending := pending[info.hash := Some(p.(left := p.left - 1, bytes := Written(p.bytes, offset, data)))];
        }
      }
      ok := true;
    }

    method Position(info: PeerInfo, piece: int) returns (r: Option<nat>)
      ensures r == FindRequest(active, info, piece)
    {
      for index := 0 to |active|
        invariant FindRequest(active, info, piece)
                  == match FindRequest(active[index..], info, piece) case None => None case Some(k) => Some(index + k)
      {
        if active[index].sentTo == info && active[index].piece == piece { return Some(index); }
        assert active[index..][1..] == active[index + 1..];
      }
      r := None;
    }

    /** Says whether a download can be handed out. */
    method ValidateDownloaded(sha: seq<byte> -> InfoHash) returns (available: bool)
      modifies this`pending
      ensures View() == Validated(old(View()), sha)
      ensures available <==> exists h :: h in pending && pending[h].Some? && pending[h].value.left == 0
    {
      available := false;
      var todo := pending.Keys;
      while todo != {}
        invariant pending.Keys == old(pending).Keys && todo <= pending.Keys
        invariant forall h :: h in todo ==> pending[h] == old(pending)[h]
        invariant forall h :: h in pending.Keys - todo ==> pending[h] == ValidatedOne(h, old(pending)[h], sha)
        invariant available <==> exists h :: h in pending.Keys - todo && pending[h].Some? && pending[h].value.left == 0
        decreases |todo|
      {
        var h :| h in todo;
        if pending[h].Some? && pending[h].value.left == 0 {
          if sha(pending[h].value.bytes) != h { pending := pending[h := None]; } else { available := true; }
        }
        todo := todo - {h};
      }
    }

    /** Says whether there is something to ask for, unless it panics. */
    method InitializePending() returns (available: Option<bool>)
      modifies this`pending
      ensures available.None? <==> SizePanics(old(View()))
      ensures available.Some? ==> Some(View()) == Initialized(old(View()))
      ensures available.Some? ==>
                (available.value <==> exists h :: h in pending && HasMessages(pending[h]))
    {
      hide FromSize;
      var found := false;
      var todo := pending.Keys;
      while todo != {}
        invariant pending.Keys == old(pending).Keys && todo <= pending.Keys
        invariant forall h :: h in pending ==>
                    if h in todo then pending[h] == old(pending)[h]
                    else pending[h] == InitializedOne(h, old(pending)[h], peers) && !Unusable(h, old(pending)[h], peers)
        invariant found <==> exists h :: h in pending && h !in todo && HasMessages(pending[h])
        decreases |todo|
      {
        var h :| h in todo;
        if pending[h].None? && h in peers {
          var p := PendingInfoFromMetadataSize(peers[h].size);
          if p.None? { return None; }
          pending := pending[h := p];
        }
        if HasMessages(pending[h]) { found := true; }
        todo := todo - {h};
      }
      assert pending == map h | h in old(pending) :: InitializedOne(h, old(pending)[h], peers);
      available := Some(found);
    }

    method RetrieveCompletedDownload(
      order: seq<InfoHash>, sha: seq<byte> -> InfoHash, wellFormed: Ref -> bool)
      returns (r: Option<Output>)
      modifies this`pending, this`peers
      ensures (View(), r) == Completed(old(View()), order, sha, wellFormed)
    {
      hide InfoFromBytes;
      for i := 0 to |order|
        invariant Completed(View(), order[i..], sha, wellFormed) == Completed(old(View()), order, sha, wellFormed)
      {
        assert order[i..][1..] == order[i + 1..];
        var h := order[i];
        if h in pending && pending[h].Some? && pending[h].value.left == 0 {
          var bytes := pending[h].value.bytes;
          pending := pending - {h};
          peers := peers - {h};
          var info := InfoFromBytes(bytes, sha, wellFormed);
          if info.Some? { return Some(Downloaded(h, info.value)); }
        }
      }
      r := None;
    }

    method RetrievePieceRequest(order: seq<InfoHash>, choose: set<PeerInfo> -> PeerInfo) returns (r: Option<Output>)
      modifies this`pending, this`active
      ensures (View(), r) == PieceRequest(old(View()), order, choose)
    {
      for i := 0 to |order|
        invariant unchanged(this)
        invariant PieceRequest(View(), order[i..], choose) == PieceRequest(View(), order, choose)
      {
        assert order[i..][1..] == order[i + 1..];
        var h := order[i];
        var hasReadyRequests := h in pending && pending[h].Some? && pending[h].value.messages != [];
        var hasActivePeers := h in peers && peers[h].peers != {};
        if hasReadyRequests && hasActivePeers {
          var p := pending[h].value;
          var n := |p.messages| - 1;
          var selected := choose(peers[h].peers);
          pending := pending[h := Some(p.(messages := p.messages[..n]))];
          active := active + [ActiveRequest(REQUEST_TIMEOUT_MILLIS, p.messages[n], selected)];
          return Some(Requested(selected, p.messages[n]));
        }
      }
      r := None;
    }
  }
}
