/** Exactly when the metadata download panics. */
module UtMetadataPanics {
  import opened Basics
  import opened Bencode
  import opened UtMetadata
  import opened UtMetadataRuns

  // ---------------------------------------------------------------------------------------------
  // Downloads that start
  // ---------------------------------------------------------------------------------------------

  /** The check after a message starts this download, again or for the first time. */
  predicate Restarts(o: Option<Pending>, h: InfoHash, sha: seq<byte> -> InfoHash) {
    o.None? || (o.value.left == 0 && sha(o.value.bytes) != h)
  }

  predicate NegativeStart(s: State, h: InfoHash, sha: seq<byte> -> InfoHash) {
    h in s.pending && Restarts(s.pending[h], h, sha) && h in s.peers && s.peers[h].size < 0
  }

  /** A download that was not started has no recorded size, and one that is due to start again has a usable one. */
  ghost predicate AllStarted(s: State, sha: seq<byte> -> InfoHash) {
    forall h :: h in s.pending && Restarts(s.pending[h], h, sha) ==>
      if s.pending[h].None? then h !in s.peers else h in s.peers && s.peers[h].size >= 0
  }

  lemma CheckPanics(s: State, sha: seq<byte> -> InfoHash)
    ensures Checked(s, sha).None? <==> exists h :: NegativeStart(s, h, sha)
    ensures Checked(s, sha).Some? ==> AllStarted(Checked(s, sha).value, sha)
  {
    hide FromSize;
    var v := Validated(s, sha);
    if SizePanics(v) {
      var h :| h in v.pending && Unusable(h, v.pending[h], v.peers);
      assert NegativeStart(s, h, sha);
    } else {
      forall h | h in s.pending && Restarts(s.pending[h], h, sha) ensures v.pending[h].None? {}
    }
  }

  lemma {:induction false} CompletedStarted(s: State, order: seq<InfoHash>, sha: seq<byte> -> InfoHash,
                                            wellFormed: Ref -> bool)
    requires AllStarted(s, sha)
    ensures AllStarted(Completed(s, order, sha, wellFormed).0, sha)
    decreases |order|
  {
    hide InfoFromBytes;
    if order != [] {
      var h := order[0];
      CompletedStarted(s, order[1..], sha, wellFormed);
      CompletedStarted(s.(pending := s.pending - {h}, peers := s.peers - {h}), order[1..], sha, wellFormed);
    }
  }

  lemma {:induction false} PieceRequestStarted(s: State, order: seq<InfoHash>, choose: set<PeerInfo> -> PeerInfo,
                                               sha: seq<byte> -> InfoHash)
    requires AllStarted(s, sha)
    ensures AllStarted(PieceRequest(s, order, choose).0, sha)
  {
    if order != [] { PieceRequestStarted(s, order[1..], choose, sha); }
  }

  /** The same bytes, and as many of them to come. */
  ghost predicate SameDownload(o: Option<Pending>, o': Option<Pending>) {
    o.Some? == o'.Some? && (o.Some? ==> o'.value.left == o.value.left && o'.value.bytes == o.value.bytes)
  }

  lemma {:induction false} ExpireDownloads(s: State, todo: seq<ActiveRequest>, duration: nat)
    ensures var s' := Expire(s, todo, duration);
            && s'.pending.Keys == s.pending.Keys && s'.peers.Keys == s.peers.Keys
            && (forall h :: h in s.pending ==> SameDownload(s.pending[h], s'.pending[h]))
            && (forall h :: h in s.peers ==> s'.peers[h].size == s.peers[h].size)
    decreases |todo|
  {
    if todo != [] {
      ExpireDownloads(Requeued(s, todo[0]), todo[1..], duration);
      ExpireDownloads(s.(active := s.active + [todo[0]]), todo[1..], duration);
    }
  }

  // ---------------------------------------------------------------------------------------------
  // The condition
  // ---------------------------------------------------------------------------------------------

  predicate Unstarted(s: State, h: InfoHash) {
    h in s.pending && s.pending[h].None?
  }

  /** The data answer the last request of the download, whose bytes then have another hash. */
  predicate Spoils(s: State, info: PeerInfo, piece: int, data: seq<byte>, sha: seq<byte> -> InfoHash) {
    var o := PendingOf(s, info.hash);
    && FindRequest(s.active, info, piece).Some? && o.Some? && o.value.left == 1
    && 0 <= piece * MAX_REQUEST_SIZE <= |o.value.bytes|
    && sha(Written(o.value.bytes, piece * MAX_REQUEST_SIZE, data)) != info.hash
  }

  /**
   The first size told of a wanted hash is negative; or a hash becomes wanted whose recorded size is; or a
   download turns out wrong whose recorded size has become negative since it started.
   */
  predicate StartsNegative(s: State, e: Event, sha: seq<byte> -> InfoHash) {
    match e
    case PeerAdded(info, size) => size.Some? && size.value < 0 && Unstarted(s, info.hash)
    case DownloadAsked(h) => h !in s.pending && h in s.peers && s.peers[h].size < 0
    case DataReceived(info, piece, data) =>
      info.hash in s.peers && s.peers[info.hash].size < 0 && Spoils(s, info, piece, data, sha)
    case _ => false
  }

  lemma PeersStart(s: State, e: Event, sha: seq<byte> -> InfoHash)
    requires AllStarted(s, sha) && (e.PeerAdded? || e.PeerRemoved? || e.DownloadAsked? || e.OtherMessage?)
    ensures (exists h :: NegativeStart(Messaged(s, e).value, h, sha)) <==> StartsNegative(s, e, sha)
  {
    var s' := Messaged(s, e).value;
    if StartsNegative(s, e, sha) {
      assert NegativeStart(s', if e.PeerAdded? then e.info.hash else e.hash, sha);
    }
  }

  lemma TickStarts(s: State, duration: nat, sha: seq<byte> -> InfoHash)
    requires AllStarted(s, sha)
    ensures forall h :: !NegativeStart(Tick(s, duration), h, sha)
  {
    hide Expire, Aged;
    ExpireDownloads(s.(active := []), s.active, duration);
  }

  lemma DataStarts(s: State, info: PeerInfo, piece: int, data: seq<byte>, sha: seq<byte> -> InfoHash)
    requires AllStarted(s, sha) && WithData(s, info, piece, data).Some?
    ensures var s' := WithData(s, info, piece, data).value;
            (exists h :: NegativeStart(s', h, sha)) <==> StartsNegative(s, DataReceived(info, piece, data), sha)
  {
    hide Written;
    var s' := WithData(s, info, piece, data).value;
    if StartsNegative(s, DataReceived(info, piece, data), sha) { assert NegativeStart(s', info.hash, sha); }
  }

  /**
   A step panics if and only if a download starts with a negative size: no count underflows and no reply is
   written outside its buffer, even if the peers lie.
   */
  lemma StepPanics(s: State, e: Event, sha: seq<byte> -> InfoHash, wellFormed: Ref -> bool, truth: Truth)
    requires Inv(s, sha, truth) && AllStarted(s, sha) && Honest(e, truth)
    ensures Step(s, e, sha, wellFormed).None? <==> StartsNegative(s, e, sha)
    ensures Step(s, e, sha, wellFormed).Some? ==> AllStarted(Step(s, e, sha, wellFormed).value, sha)
  {
    hide AllTracked, Filed, Validations, AllStarted, Checked, Completed, PieceRequest, WithData, Tick, StartsNegative,
         NegativeStart;
    if e.Polled? {
      CompletedStarted(s, e.order, sha, wellFormed);
      PieceRequestStarted(Completed(s, e.order, sha, wellFormed).0, e.order, e.choose, sha);
      OnlyMessagesStart(s, e, sha);
    } else {
      MessagedKeeps(s, e, truth);
      CheckPanics(Messaged(s, e).value, sha);
      match e
      case Ticked(duration) =>
        TickStarts(s, duration, sha);
        OnlyMessagesStart(s, e, sha);
      case DataReceived(info, piece, data) => DataStarts(s, info, piece, data, sha);
      case _ => PeersStart(s, e, sha);
    }
  }

  lemma OnlyMessagesStart(s: State, e: Event, sha: seq<byte> -> InfoHash)
    requires e.Polled? || e.Ticked?
    ensures !StartsNegative(s, e, sha)
  {
  }

  // ---------------------------------------------------------------------------------------------
  // Runs
  // ---------------------------------------------------------------------------------------------

  lemma {:induction false} RunStarted(s: State, events: seq<Event>, sha: seq<byte> -> InfoHash, wellFormed: Ref -> bool)
    requires Inv(s, sha, map[]) && AllStarted(s, sha) && forall e :: e in events ==> Honest(e, map[])
    ensures var r := Run(s, events, sha, wellFormed);
            r.Some? ==> Inv(r.value, sha, map[]) && AllStarted(r.value, sha)
    decreases |events|
  {
    hide Inv, AllStarted, Honest, Step;
    if events != [] && Step(s, events[0], sha, wellFormed).Some? {
      StepKeeps(s, events[0], sha, wellFormed, map[]);
      StepPanics(s, events[0], sha, wellFormed, map[]);
      RunStarted(Step(s, events[0], sha, wellFormed).value, events[1..], sha, wellFormed);
    }
  }

  /** After every run, whatever the peers sent, the next event panics exactly on that condition. */
  lemma EveryPanic(events: seq<Event>, e: Event, sha: seq<byte> -> InfoHash, wellFormed: Ref -> bool)
    requires forall e' :: e' in events + [e] && e'.Polled? ==> Chooses(e'.choose)
    requires Run(Init(), events, sha, wellFormed).Some?
    ensures var s := Run(Init(), events, sha, wellFormed).value;
            Step(s, e, sha, wellFormed).None? <==> StartsNegative(s, e, sha)
  {
    InitInv(sha, map[]);
    forall e' | e' in events ensures Honest(e', map[]) { assert e' in events + [e]; }
    assert e in events + [e] && Honest(e, map[]);
    RunStarted(Init(), events, sha, wellFormed);
    StepPanics(Run(Init(), events, sha, wellFormed).value, e, sha, wellFormed, map[]);
  }

  /** Asking for a download and being told a negative size panics; being told alone does not. */
  lemma NegativeSizePanics(h: InfoHash, id: nat, sha: seq<byte> -> InfoHash, wellFormed: Ref -> bool)
    ensures var told := PeerAdded(PeerInfo(id, h), Some(-1));
            && Run(Init(), [DownloadAsked(h), told], sha, wellFormed).None?
            && Run(Init(), [told], sha, wellFormed).Some?
  {
    var told := PeerAdded(PeerInfo(id, h), Some(-1));
    InitInv(sha, map[]);
    var asked := Download(Init(), h);
    CheckPanics(asked, sha);
    var s := Step(Init(), DownloadAsked(h), sha, wellFormed).value;
    assert s == asked;
    CheckPanics(Messaged(s, told).value, sha);
    assert NegativeStart(Messaged(s, told).value, h, sha);
    CheckPanics(Messaged(Init(), told).value, sha);
    assert [DownloadAsked(h), told][1..] == [told] && [told][1..] == [];
  }

  ghost predicate NonNegative(s: State) {
    forall h :: h in s.peers ==> s.peers[h].size >= 0
  }

  lemma {:induction false} CompletedPeers(s: State, order: seq<InfoHash>, sha: seq<byte> -> InfoHash,
                                          wellFormed: Ref -> bool)
    requires NonNegative(s)
    ensures NonNegative(Completed(s, order, sha, wellFormed).0)
    decreases |order|
  {
    hide InfoFromBytes;
    if order != [] {
      var h := order[0];
      CompletedPeers(s, order[1..], sha, wellFormed);
      CompletedPeers(s.(pending := s.pending - {h}, peers := s.peers - {h}), order[1..], sha, wellFormed);
    }
  }

  lemma {:induction false} PieceRequestPeers(s: State, order: seq<InfoHash>, choose: set<PeerInfo> -> PeerInfo)
    ensures PieceRequest(s, order, choose).0.peers == s.peers
  {
    if order != [] { PieceRequestPeers(s, order[1..], choose); }
  }

  lemma StepNonNegative(s: State, e: Event, sha: seq<byte> -> InfoHash, wellFormed: Ref -> bool)
    requires Step(s, e, sha, wellFormed).Some? && NonNegative(s)
    requires e.PeerAdded? && e.size.Some? ==> e.size.value >= 0
    ensures NonNegative(Step(s, e, sha, wellFormed).value)
  {
    hide Expire, Completed, PieceRequest, ValidatedOne, InitializedOne, Received, FindRequest;
    match e
    case Polled(order, choose) =>
      CompletedPeers(s, order, sha, wellFormed);
      PieceRequestPeers(Completed(s, order, sha, wellFormed).0, order, choose);
    case Ticked(duration) => ExpireDownloads(s.(active := []), s.active, duration);
    case _ =>
  }

  lemma {:induction false} RunNonNegative(s: State, events: seq<Event>, sha: seq<byte> -> InfoHash,
                                          wellFormed: Ref -> bool)
    requires Inv(s, sha, map[]) && AllStarted(s, sha) && NonNegative(s)
    requires forall e :: e in events ==> Honest(e, map[])
    requires forall e :: e in events && e.PeerAdded? && e.size.Some? ==> e.size.value >= 0
    ensures Run(s, events, sha, wellFormed).Some?
    decreases |events|
  {
    hide Inv, AllStarted, Honest, Step;
    if events != [] {
      StepPanics(s, events[0], sha, wellFormed, map[]);
      StepNonNegative(s, events[0], sha, wellFormed);
      StepKeeps(s, events[0], sha, wellFormed, map[]);
      RunNonNegative(Step(s, events[0], sha, wellFormed).value, events[1..], sha, wellFormed);
    }
  }

  /** No run panics, whatever the peers send, if no peer announces a negative size. */
  lemma NeverPanics(events: seq<Event>, sha: seq<byte> -> InfoHash, wellFormed: Ref -> bool)
    requires forall e :: e in events && e.Polled? ==> Chooses(e.choose)
    requires forall e :: e in events && e.PeerAdded? && e.size.Some? ==> e.size.value >= 0
    ensures Run(Init(), events, sha, wellFormed).Some?
  {
    InitInv(sha, map[]);
    forall e | e in events ensures Honest(e, map[]) {}
    RunNonNegative(Init(), events, sha, wellFormed);
  }
}
