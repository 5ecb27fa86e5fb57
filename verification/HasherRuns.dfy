/**
 What every interleaving of the hasher's master and workers keeps, that no interleaving can get stuck
 or go on forever, and that each one that returns hashes returns those of the pieces, in order.
 */
module HasherRuns {
  import opened Basics
  import opened PieceBuffers
  import opened Hasher

  predicate IsPiece(m: WorkerMessage) { m.HashPiece? }
  predicate IsFinish(m: WorkerMessage) { m.Finish? }
  predicate HasBuffer(w: Worker) { w.Hashing? || w.Returning? }
  predicate IsGone(w: Worker) { w.Leaving? || w.Exited? }
  predicate IsExited(w: Worker) { w.Exited? }
  predicate IsFinished(m: MasterMessage) { m.WorkerFinished? }

  /** The master is still inside `access_pieces`. */
  predicate Accessing(m: Master) { m.Between? || m.Waiting? || m.Reading? }

  // ---------------------------------------------------------------------------------------------
  // The invariant
  // ---------------------------------------------------------------------------------------------

  /** The buffer can take something, unless no buffer can take anything. */
  ghost predicate HasSpace(c: Config, filled: seq<byte>) {
    |filled| < c.pieceLength || (c.pieceLength == 0 && filled == [])
  }

  /** No buffer is full when a read starts or when it is carried to the next region. */
  ghost predicate NeverFull(c: Config, m: Master) {
    match m
    case Between(carry) => carry.Some? ==> HasSpace(c, carry.value)
    case Reading(filled, _) => HasSpace(c, filled)
    case Waiting(_, endOfRegion) => endOfRegion ==> c.pieceLength == 0
    case _ => true
  }

  ghost function MasterHolds(m: Master): nat {
    if m.Reading? || (m.Between? && m.carry.Some?) then 1 else 0
  }

  /** No buffer is created or lost while regions are being read. */
  ghost predicate BuffersConserved(c: Config, s: State) {
    Accessing(s.master) ==>
      s.pool + Count(s.work, IsPiece) + Count(s.workers, HasBuffer) + MasterHolds(s.master) ==
        TotalBuffers(c.numWorkers)
  }

  /** How many `Finish` messages the master has pushed. */
  ghost function Dismissed(c: Config, m: Master): int {
    match m
    case Finishing(left) => c.numWorkers - left
    case Collecting(_) => c.numWorkers
    case Done(_) => c.numWorkers
    case _ => 0
  }

  ghost function Gathered(c: Config, m: Master): int {
    match m
    case Collecting(finished) => finished
    case Done(_) => c.numWorkers
    case _ => 0
  }

  ghost predicate FinishesLast(work: seq<WorkerMessage>) {
    forall i, j :: 0 <= i < j < |work| && work[i].Finish? ==> work[j].Finish?
  }

  /** Every hash in the channel lies ahead of some worker's last message. */
  ghost predicate HashesAhead(c: Config, gathered: int, channel: seq<MasterMessage>) {
    forall i :: 0 <= i < |channel| && channel[i].AcceptPiece? ==>
      gathered + Count(channel[..i], IsFinished) < c.numWorkers
  }

  ghost predicate Shutdown(c: Config, s: State) {
    && FinishesLast(s.work)
    && Count(s.work, IsFinish) + Count(s.workers, IsGone) == Dismissed(c, s.master)
    && (Count(s.workers, IsGone) > 0 ==> Count(s.work, IsPiece) == 0)
    && Count(s.channel, IsFinished) + Gathered(c, s.master) == Count(s.workers, IsExited)
    && HashesAhead(c, Gathered(c, s.master), s.channel)
  }

  /** The accesses to come, with the one that the master is reading if no bytes of it are ever taken. */
  ghost function Ahead(c: Config, s: State): seq<Access> {
    if c.pieceLength == 0 && (s.master.Reading? || (s.master.Waiting? && !s.master.endOfRegion))
    then [Compute([])] + s.accesses else s.accesses
  }

  /** The bytes of regions that are read, or about to be, and not hashed. */
  ghost function Unhashed(m: Master): seq<byte> {
    match m
    case Between(carry) => if carry.Some? then carry.value else []
    case Waiting(unread, _) => unread
    case Reading(filled, unread) => filled + unread
    case _ => []
  }

  /** The hashes the rest of the input will add. */
  ghost function ToCome(c: Config, sha: Sha, s: State): seq<Entry> {
    if Accessing(s.master) then Cut(c, sha, Unhashed(s.master), Ahead(c, s), s.pieceIndex) else []
  }

  /** How often the entry `x` is listed, queued, being hashed or under way. */
  ghost function InHand(sha: Sha, s: State, x: Entry): nat {
    multiset(s.pieces)[x] + InWork(sha, s.work, x) + InWorkers(sha, s.workers, x) + InChannel(s.channel, x)
  }

  ghost function Goal(c: Config, sha: Sha, accesses: seq<Access>): seq<Entry> {
    Cut(c, sha, [], accesses, 0)
  }

  /** Every piece is hashed, in some thread's hands or still to come; and none of them twice. */
  ghost predicate HashesConserved(c: Config, sha: Sha, goal: seq<Entry>, s: State) {
    forall x :: InHand(sha, s, x) + multiset(ToCome(c, sha, s))[x] == multiset(goal)[x]
  }

  ghost predicate Inv(c: Config, sha: Sha, goal: seq<Entry>, s: State) {
    && |s.workers| == c.numWorkers
    && (s.master.Failed? || (
      && NeverFull(c, s.master)
      && BuffersConserved(c, s)
      && Shutdown(c, s)
      && HashesConserved(c, sha, goal, s)
      && (s.master.Done? ==> s.master.result == goal)))
  }

  // ---------------------------------------------------------------------------------------------
  // Each step keeps it
  // ---------------------------------------------------------------------------------------------

  /** The access or the read did not fail. */
  predicate Succeeds(e: Event) {
    !e.AccessFails? && !e.ReadFails?
  }

  predicate IsWorkerStep(e: Event) {
    e.WorkerPop? || e.WorkerSend? || e.WorkerCheckin? || e.WorkerLeave?
  }

  lemma NeverFullStep(c: Config, sha: Sha, s: State, e: Event)
    requires NeverFull(c, s.master) && Enabled(c, s, e)
    ensures NeverFull(c, Apply(c, sha, s, e).master)
  {
    hide SortByIndex;
  }

  lemma WorkerKeepsBuffers(c: Config, sha: Sha, s: State, e: Event)
    requires BuffersConserved(c, s) && Enabled(c, s, e) && IsWorkerStep(e)
    ensures BuffersConserved(c, Apply(c, sha, s, e))
  {
    hide Count, SortByIndex;
    var s' := Apply(c, sha, s, e);
    CountUpdate(s.workers, HasBuffer, e.worker, s'.workers[e.worker]);
    if e.WorkerPop? { CountFront(s.work, IsPiece); }
  }

  lemma ReadKeepsBuffers(c: Config, s: State, n: nat)
    requires BuffersConserved(c, s) && Enabled(c, s, Read(n))
    ensures BuffersConserved(c, ReadRegion(c, s, n))
  {
    hide Count;
    CountPushed(s.work, HashPiece(s.pieceIndex, s.master.filled + s.master.unread[..n]), IsPiece);
  }

  lemma CountPushed<T>(s: seq<T>, x: T, p: T -> bool)
    ensures Count(s + [x], p) == Count(s, p) + (if p(x) then 1 else 0)
  {
    assert (s + [x])[..|s|] == s;
  }

  lemma QuietKeepsBuffers(c: Config, sha: Sha, s: State, e: Event)
    requires BuffersConserved(c, s) && Enabled(c, s, e) && !IsWorkerStep(e) && !e.Read?
    ensures BuffersConserved(c, Apply(c, sha, s, e))
  {
    hide Count, SortByIndex;
  }

  lemma BuffersStep(c: Config, sha: Sha, s: State, e: Event)
    requires BuffersConserved(c, s) && Enabled(c, s, e)
    ensures BuffersConserved(c, Apply(c, sha, s, e))
  {
    hide BuffersConserved, Enabled;
    if IsWorkerStep(e) { WorkerKeepsBuffers(c, sha, s, e); }
    else if e.Read? { ReadKeepsBuffers(c, s, e.count); }
    else { QuietKeepsBuffers(c, sha, s, e); }
  }

  /** What one worker's step does to the counts of workers that are gone or have exited. */
  lemma WorkerCounts(s: State, w: nat, x: Worker)
    requires w < |s.workers|
    ensures Count(s.workers[w := x], IsGone) + (if IsGone(s.workers[w]) then 1 else 0)
         == Count(s.workers, IsGone) + (if IsGone(x) then 1 else 0)
    ensures Count(s.workers[w := x], IsExited) + (if IsExited(s.workers[w]) then 1 else 0)
         == Count(s.workers, IsExited) + (if IsExited(x) then 1 else 0)
  {
    CountUpdate(s.workers, IsGone, w, x);
    CountUpdate(s.workers, IsExited, w, x);
  }

  lemma PopKeepsShutdown(c: Config, sha: Sha, s: State, w: nat)
    requires |s.workers| == c.numWorkers && Shutdown(c, s) && Enabled(c, s, WorkerPop(w))
    ensures Shutdown(c, Apply(c, sha, s, WorkerPop(w)))
  {
    hide Count, HashesAhead;
    var s' := Apply(c, sha, s, WorkerPop(w));
    CountFront(s.work, IsPiece);
    CountFront(s.work, IsFinish);
    WorkerCounts(s, w, s'.workers[w]);
    if s.work[0].Finish? {
      CountNone(s'.work, IsPiece);
      forall m | m in s'.work ensures !IsPiece(m) {
        var i :| 0 <= i < |s'.work| && s'.work[i] == m;
        assert s.work[0].Finish? && s.work[i + 1] == m;
      }
    }
  }

  lemma CheckinKeepsShutdown(c: Config, sha: Sha, s: State, w: nat)
    requires |s.workers| == c.numWorkers && Shutdown(c, s) && Enabled(c, s, WorkerCheckin(w))
    ensures Shutdown(c, Apply(c, sha, s, WorkerCheckin(w)))
  {
    hide Count, HashesAhead, FinishesLast;
    WorkerCounts(s, w, Popping);
  }

  lemma {:induction false} SendKeepsShutdown(c: Config, sha: Sha, s: State, w: nat)
    requires |s.workers| == c.numWorkers && Shutdown(c, s) && Enabled(c, s, WorkerSend(w))
    ensures Shutdown(c, Apply(c, sha, s, WorkerSend(w)))
  {
    hide Count, FinishesLast;
    var m := AcceptPiece(s.workers[w].index, sha(s.workers[w].piece));
    WorkerCounts(s, w, Returning);
    CountPushed(s.channel, m, IsFinished);
    CountAll(s.workers, IsExited);
    assert s.workers[w] in s.workers;
    PushedAhead(c, Gathered(c, s.master), s.channel, m);
  }

  lemma LeaveKeepsShutdown(c: Config, sha: Sha, s: State, w: nat)
    requires |s.workers| == c.numWorkers && Shutdown(c, s) && Enabled(c, s, WorkerLeave(w))
    ensures Shutdown(c, Apply(c, sha, s, WorkerLeave(w)))
  {
    hide Count, FinishesLast;
    WorkerCounts(s, w, Exited);
    CountPushed(s.channel, WorkerFinished, IsFinished);
    PushedAhead(c, Gathered(c, s.master), s.channel, WorkerFinished);
  }

  /** One more message in the channel, behind fewer goodbyes than there are workers if it is a hash. */
  lemma PushedAhead(c: Config, gathered: int, channel: seq<MasterMessage>, m: MasterMessage)
    requires HashesAhead(c, gathered, channel)
    requires m.AcceptPiece? ==> gathered + Count(channel, IsFinished) < c.numWorkers
    ensures HashesAhead(c, gathered, channel + [m])
  {
    hide Count;
    var all := channel + [m];
    forall i | 0 <= i < |all| && all[i].AcceptPiece? ensures gathered + Count(all[..i], IsFinished) < c.numWorkers {
      assert all[..i] == channel[..i] && channel[..|channel|] == channel;
    }
  }

  lemma CollectKeepsShutdown(c: Config, sha: Sha, s: State)
    requires |s.workers| == c.numWorkers && Shutdown(c, s) && Enabled(c, s, Collect)
    ensures Shutdown(c, Apply(c, sha, s, Collect))
  {
    hide Count, FinishesLast;
    var s' := Apply(c, sha, s, Collect);
    CountFront(s.channel, IsFinished);
    forall i | 0 <= i < |s'.channel| && s'.channel[i].AcceptPiece?
      ensures Gathered(c, s'.master) + Count(s'.channel[..i], IsFinished) < c.numWorkers
    {
      assert s.channel[i + 1] == s'.channel[i];
      CountFront(s.channel[..i + 1], IsFinished);
      assert s.channel[..i + 1][1..] == s'.channel[..i];
    }
  }

  /** Pushing work while no worker has been dismissed, or pushing a dismissal. */
  lemma PushKeepsShutdown(c: Config, s: State, s': State, m: WorkerMessage)
    requires Shutdown(c, s)
    requires s'.work == s.work + [m] && s'.workers == s.workers && s'.channel == s.channel
    requires Gathered(c, s.master) == Gathered(c, s'.master)
    requires if m.Finish? then Dismissed(c, s'.master) == Dismissed(c, s.master) + 1
             else Dismissed(c, s.master) == Dismissed(c, s'.master) == 0
    ensures Shutdown(c, s')
  {
    hide Count, HashesAhead;
    CountPushed(s.work, m, IsPiece);
    CountPushed(s.work, m, IsFinish);
    if m.HashPiece? {
      CountNone(s.work, IsFinish);
      assert forall i :: 0 <= i < |s.work| ==> s.work[i] in s.work && !IsFinish(s.work[i]);
    }
  }

  lemma FlushKeepsShutdown(c: Config, sha: Sha, s: State)
    requires Shutdown(c, s) && Enabled(c, s, EndOfAccesses)
    ensures Shutdown(c, Apply(c, sha, s, EndOfAccesses))
  {
    hide Count, HashesAhead, FinishesLast;
    var s' := Apply(c, sha, s, EndOfAccesses);
    if s'.work != s.work { PushKeepsShutdown(c, s, s', HashPiece(s.pieceIndex, s.master.carry.value)); }
  }

  lemma ReadKeepsShutdown(c: Config, s: State, n: nat)
    requires Shutdown(c, s) && Enabled(c, s, Read(n))
    ensures Shutdown(c, ReadRegion(c, s, n))
  {
    hide Count, HashesAhead, FinishesLast;
    var s' := ReadRegion(c, s, n);
    var filled := s.master.filled + s.master.unread[..n];
    if |filled| == c.pieceLength { PushKeepsShutdown(c, s, s', HashPiece(s.pieceIndex, filled)); }
  }

  /** The steps of the master that neither push work nor take a message. */
  predicate IsQuiet(e: Event) {
    e.NextAccess? || e.Checkout? || e.StartCollecting? || e.Return?
  }

  lemma QuietKeepsShutdown(c: Config, sha: Sha, s: State, e: Event)
    requires Shutdown(c, s) && Enabled(c, s, e) && IsQuiet(e)
    ensures Shutdown(c, Apply(c, sha, s, e))
  {
    hide Count, HashesAhead, FinishesLast, SortByIndex;
  }

  lemma DismissKeepsShutdown(c: Config, sha: Sha, s: State)
    requires Shutdown(c, s) && Enabled(c, s, PushFinish)
    ensures Shutdown(c, Apply(c, sha, s, PushFinish))
  {
    hide Count, HashesAhead, FinishesLast;
    PushKeepsShutdown(c, s, Apply(c, sha, s, PushFinish), Finish);
  }

  lemma ShutdownStep(c: Config, sha: Sha, s: State, e: Event)
    requires |s.workers| == c.numWorkers && Shutdown(c, s) && Enabled(c, s, e) && Succeeds(e)
    ensures Shutdown(c, Apply(c, sha, s, e))
  {
    hide Shutdown, Enabled;
    match e
    case WorkerPop(w) => PopKeepsShutdown(c, sha, s, w);
    case WorkerSend(w) => SendKeepsShutdown(c, sha, s, w);
    case WorkerLeave(w) => LeaveKeepsShutdown(c, sha, s, w);
    case WorkerCheckin(w) => CheckinKeepsShutdown(c, sha, s, w);
    case Collect => CollectKeepsShutdown(c, sha, s);
    case PushFinish => DismissKeepsShutdown(c, sha, s);
    case EndOfAccesses => FlushKeepsShutdown(c, sha, s);
    case Read(n) => ReadKeepsShutdown(c, s, n);
    case _ => QuietKeepsShutdown(c, sha, s, e);
  }

  /** What is in hand and what is to come stay the same together. */
  lemma SameHashes(c: Config, sha: Sha, goal: seq<Entry>, s: State, s': State)
    requires HashesConserved(c, sha, goal, s)
    requires ToCome(c, sha, s') == ToCome(c, sha, s) && forall x :: InHand(sha, s', x) == InHand(sha, s, x)
    ensures HashesConserved(c, sha, goal, s')
  {
    hide InHand, ToCome;
  }

  lemma CollectKeepsHashes(c: Config, sha: Sha, goal: seq<Entry>, s: State)
    requires HashesConserved(c, sha, goal, s) && Enabled(c, s, Collect)
    ensures HashesConserved(c, sha, goal, Apply(c, sha, s, Collect))
  {
    hide InWork, InWorkers, InChannel, HashesConserved, Cut;
    var s' := Apply(c, sha, s, Collect);
    forall x ensures InHand(sha, s', x) == InHand(sha, s, x) {
      InChannelFront(s.channel, x);
      assert multiset(s'.pieces)[x] == multiset(s.pieces)[x] + Told(s.channel[0], x);
    }
    SameHashes(c, sha, goal, s, s');
  }

  lemma InWorkPushed(sha: Sha, work: seq<WorkerMessage>, m: WorkerMessage, x: Entry)
    ensures InWork(sha, work + [m], x) == InWork(sha, work, x) + Asked(sha, m, x)
  {
    assert (work + [m])[..|work|] == work;
  }

  lemma InChannelPushed(channel: seq<MasterMessage>, m: MasterMessage, x: Entry)
    ensures InChannel(channel + [m], x) == InChannel(channel, x) + Told(m, x)
  {
    assert (channel + [m])[..|channel|] == channel;
  }

  lemma WorkerKeepsHashes(c: Config, sha: Sha, goal: seq<Entry>, s: State, e: Event)
    requires HashesConserved(c, sha, goal, s) && Enabled(c, s, e) && IsWorkerStep(e)
    ensures HashesConserved(c, sha, goal, Apply(c, sha, s, e))
  {
    hide InWork, InWorkers, InChannel, HashesConserved, Cut, SortByIndex;
    var s' := Apply(c, sha, s, e);
    assert ToCome(c, sha, s') == ToCome(c, sha, s);
    forall x ensures InHand(sha, s', x) == InHand(sha, s, x) {
      InWorkersUpdate(sha, s.workers, e.worker, s'.workers[e.worker], x);
      match e
      case WorkerPop(_) => InWorkFront(sha, s.work, x);
      case WorkerSend(w) =>
        InChannelPushed(s.channel, AcceptPiece(s.workers[w].index, sha(s.workers[w].piece)), x);
      case WorkerLeave(_) => InChannelPushed(s.channel, WorkerFinished, x);
      case WorkerCheckin(_) =>
    }
    SameHashes(c, sha, goal, s, s');
  }

  lemma AccessToCome(c: Config, sha: Sha, s: State)
    requires NeverFull(c, s.master) && Enabled(c, s, NextAccess)
    ensures var s' := TakeAccess(s);
            match s.accesses[0]
            case Compute(_) => ToCome(c, sha, s') == ToCome(c, sha, s)
            case PreComputed(hash) => ToCome(c, sha, s) == [(s.pieceIndex, hash)] + ToCome(c, sha, s')
  {
    if s.accesses[0].Compute? {
      assert [] + s.accesses[0].data == s.accesses[0].data;
      if c.pieceLength == 0 { ZeroAhead(c, sha, s); }
    }
  }

  /** Without a piece length only the number of accesses matters. */
  lemma ZeroAhead(c: Config, sha: Sha, s: State)
    requires c.pieceLength == 0 && Enabled(c, s, NextAccess) && s.accesses[0].Compute?
    ensures var s' := TakeAccess(s);
            ToCome(c, sha, s') == [(s.pieceIndex, sha([]))] + Cut(c, sha, [], s'.accesses, s.pieceIndex + 1)
    ensures ToCome(c, sha, s) == [(s.pieceIndex, sha([]))] + Cut(c, sha, [], s.accesses[1..], s.pieceIndex + 1)
  {
    assert ([Compute([])] + s.accesses[1..])[1..] == s.accesses[1..];
  }

  lemma AccessKeepsHashes(c: Config, sha: Sha, goal: seq<Entry>, s: State)
    requires NeverFull(c, s.master) && HashesConserved(c, sha, goal, s) && Enabled(c, s, NextAccess)
    ensures HashesConserved(c, sha, goal, TakeAccess(s))
  {
    hide InWork, InWorkers, InChannel, ToCome;
    var s' := TakeAccess(s);
    AccessToCome(c, sha, s);
    var before, after := ToCome(c, sha, s), ToCome(c, sha, s');
    forall x ensures InHand(sha, s', x) + multiset(after)[x] == multiset(goal)[x] {
      assert InHand(sha, s, x) + multiset(before)[x] == multiset(goal)[x];
    }
  }

  lemma PushMovesHash(c: Config, sha: Sha, goal: seq<Entry>, s: State, s': State, piece: seq<byte>)
    requires HashesConserved(c, sha, goal, s)
    requires s'.work == s.work + [HashPiece(s.pieceIndex, piece)]
    requires s'.pieces == s.pieces && s'.workers == s.workers && s'.channel == s.channel
    requires ToCome(c, sha, s) == [(s.pieceIndex, sha(piece))] + ToCome(c, sha, s')
    ensures HashesConserved(c, sha, goal, s')
  {
    hide InWork, InWorkers, InChannel, ToCome;
    forall x ensures InHand(sha, s', x) + multiset(ToCome(c, sha, s'))[x] == multiset(goal)[x] {
      assert InHand(sha, s, x) + multiset(ToCome(c, sha, s))[x] == multiset(goal)[x];
      InWorkPushed(sha, s.work, HashPiece(s.pieceIndex, piece), x);
    }
  }

  lemma FlushKeepsHashes(c: Config, sha: Sha, goal: seq<Entry>, s: State)
    requires NeverFull(c, s.master) && HashesConserved(c, sha, goal, s) && Enabled(c, s, EndOfAccesses)
    ensures HashesConserved(c, sha, goal, Apply(c, sha, s, EndOfAccesses))
  {
    hide InWork, InWorkers, InChannel, HashesConserved;
    var s' := Apply(c, sha, s, EndOfAccesses);
    assert ToCome(c, sha, s') == [];
    if s.master.carry.Some? && s.master.carry.value != [] {
      var carry := s.master.carry.value;
      assert ToCome(c, sha, s) == [(s.pieceIndex, sha(carry))];
      PushMovesHash(c, sha, goal, s, s', carry);
    } else {
      assert ToCome(c, sha, s) == [];
      SameHashes(c, sha, goal, s, s');
    }
  }

  lemma FullToCome(c: Config, sha: Sha, s: State, n: nat)
    requires NeverFull(c, s.master) && Enabled(c, s, Read(n))
    requires |s.master.filled + s.master.unread[..n]| == c.pieceLength
    ensures var filled := s.master.filled + s.master.unread[..n];
            ToCome(c, sha, s) == [(s.pieceIndex, sha(filled))] + ToCome(c, sha, ReadRegion(c, s, n))
  {
    var filled, unread := s.master.filled + s.master.unread[..n], s.master.unread[n..];
    var all := s.master.filled + s.master.unread;
    if c.pieceLength == 0 {
      assert filled == [] && ([Compute([])] + s.accesses)[1..] == s.accesses;
      ZeroCarry(c, sha, unread, s.accesses, s.pieceIndex + 1);
    } else {
      assert all == filled + unread;
      assert all[..c.pieceLength] == filled && all[c.pieceLength..] == unread;
    }
  }

  lemma ReadKeepsHashes(c: Config, sha: Sha, goal: seq<Entry>, s: State, n: nat)
    requires NeverFull(c, s.master) && HashesConserved(c, sha, goal, s) && Enabled(c, s, Read(n))
    ensures HashesConserved(c, sha, goal, ReadRegion(c, s, n))
  {
    hide InWork, InWorkers, InChannel, HashesConserved, Cut;
    var s' := ReadRegion(c, s, n);
    var filled, unread := s.master.filled + s.master.unread[..n], s.master.unread[n..];
    if |filled| == c.pieceLength {
      FullToCome(c, sha, s, n);
      PushMovesHash(c, sha, goal, s, s', filled);
    } else {
      assert s.master.filled + s.master.unread == filled + unread;
      if n == 0 { assert filled + unread == filled; }
      SameHashes(c, sha, goal, s, s');
    }
  }

  lemma QuietKeepsHashes(c: Config, sha: Sha, goal: seq<Entry>, s: State, e: Event)
    requires NeverFull(c, s.master) && HashesConserved(c, sha, goal, s) && Enabled(c, s, e)
    requires e.Checkout? || e.StartCollecting? || e.Return?
    ensures HashesConserved(c, sha, goal, Apply(c, sha, s, e))
  {
    hide InWork, InWorkers, InChannel, HashesConserved, SortByIndex;
    if e.Checkout? {
      assert [] + s.master.unread == s.master.unread;
      if s.master.endOfRegion { ZeroCarry(c, sha, s.master.unread, s.accesses, s.pieceIndex); }
    }
    SameHashes(c, sha, goal, s, Apply(c, sha, s, e));
  }

  lemma ZeroCarry(c: Config, sha: Sha, carry: seq<byte>, accesses: seq<Access>, index: nat)
    requires c.pieceLength == 0
    ensures Cut(c, sha, carry, accesses, index) == Cut(c, sha, [], accesses, index)
  {
  }

  lemma DismissKeepsHashes(c: Config, sha: Sha, goal: seq<Entry>, s: State)
    requires HashesConserved(c, sha, goal, s) && Enabled(c, s, PushFinish)
    ensures HashesConserved(c, sha, goal, Apply(c, sha, s, PushFinish))
  {
    hide InWork, InWorkers, InChannel, HashesConserved;
    forall x ensures InHand(sha, Apply(c, sha, s, PushFinish), x) == InHand(sha, s, x) {
      InWorkPushed(sha, s.work, Finish, x);
    }
    SameHashes(c, sha, goal, s, Apply(c, sha, s, PushFinish));
  }

  lemma HashesStep(c: Config, sha: Sha, goal: seq<Entry>, s: State, e: Event)
    requires NeverFull(c, s.master) && HashesConserved(c, sha, goal, s) && Enabled(c, s, e) && Succeeds(e)
    ensures HashesConserved(c, sha, goal, Apply(c, sha, s, e))
  {
    hide HashesConserved, NeverFull, Enabled;
    match e
    case NextAccess => AccessKeepsHashes(c, sha, goal, s);
    case EndOfAccesses => FlushKeepsHashes(c, sha, goal, s);
    case Read(n) => ReadKeepsHashes(c, sha, goal, s, n);
    case Collect => CollectKeepsHashes(c, sha, goal, s);
    case PushFinish => DismissKeepsHashes(c, sha, goal, s);
    case Checkout => QuietKeepsHashes(c, sha, goal, s, e);
    case StartCollecting => QuietKeepsHashes(c, sha, goal, s, e);
    case Return => QuietKeepsHashes(c, sha, goal, s, e);
    case _ => WorkerKeepsHashes(c, sha, goal, s, e);
  }

  // ---------------------------------------------------------------------------------------------
  // Returning
  // ---------------------------------------------------------------------------------------------

  lemma {:induction false} NothingHeld(sha: Sha, workers: seq<Worker>, x: Entry)
    requires forall w :: w in workers ==> IsExited(w)
    ensures InWorkers(sha, workers, x) == 0
  {
    if workers != [] {
      assert workers[|workers| - 1] in workers;
      NothingHeld(sha, workers[..|workers| - 1], x);
    }
  }

  lemma {:induction false} NothingAsked(sha: Sha, work: seq<WorkerMessage>, x: Entry)
    requires forall m :: m in work ==> !IsPiece(m)
    ensures InWork(sha, work, x) == 0
  {
    if work != [] {
      assert work[|work| - 1] in work;
      NothingAsked(sha, work[..|work| - 1], x);
    }
  }

  /** Once every worker has said goodbye, all hashes are in the master's list. */
  lemma AllGathered(c: Config, sha: Sha, goal: seq<Entry>, s: State)
    requires c.numWorkers > 0
    requires Inv(c, sha, goal, s) && Enabled(c, s, Return)
    ensures multiset(s.pieces) == multiset(goal)
  {
    CountAll(s.workers, IsExited);
    CountAll(s.workers, IsGone);
    CountNone(s.work, IsPiece);
    CountNone(s.channel, IsFinished);
    assert s.channel == [];
    forall x ensures multiset(s.pieces)[x] == multiset(goal)[x] {
      NothingHeld(sha, s.workers, x);
      NothingAsked(sha, s.work, x);
      assert InHand(sha, s, x) + multiset(ToCome(c, sha, s))[x] == multiset(goal)[x];
    }
  }

  lemma ReturnsGoal(c: Config, sha: Sha, accesses: seq<Access>, s: State)
    requires c.numWorkers > 0
    requires Inv(c, sha, Goal(c, sha, accesses), s) && Enabled(c, s, Return)
    ensures SortByIndex(s.pieces) == Goal(c, sha, accesses)
  {
    AllGathered(c, sha, Goal(c, sha, accesses), s);
    SortSorts(s.pieces);
    AscendingUnique(SortByIndex(s.pieces), Goal(c, sha, accesses));
  }

  lemma InvStep(c: Config, sha: Sha, accesses: seq<Access>, s: State, e: Event)
    requires c.numWorkers > 0
    requires Inv(c, sha, Goal(c, sha, accesses), s) && Enabled(c, s, e)
    ensures Inv(c, sha, Goal(c, sha, accesses), Apply(c, sha, s, e))
  {
    hide NeverFull, BuffersConserved, Shutdown, HashesConserved, SortByIndex, Cut;
    if Succeeds(e) {
      NeverFullStep(c, sha, s, e);
      BuffersStep(c, sha, s, e);
      ShutdownStep(c, sha, s, e);
      HashesStep(c, sha, Goal(c, sha, accesses), s, e);
      if e.Return? { ReturnsGoal(c, sha, accesses, s); }
    }
  }

  lemma {:induction false} CountOfSame<T>(n: nat, x: T, p: T -> bool)
    requires !p(x)
    ensures Count(seq(n, _ => x), p) == 0
  {
    CountNone(seq(n, _ => x), p);
  }

  lemma InvInit(c: Config, sha: Sha, accesses: seq<Access>)
    ensures Inv(c, sha, Goal(c, sha, accesses), Init(c, accesses))
  {
    var s := Init(c, accesses);
    CountOfSame(c.numWorkers, Popping, HasBuffer);
    CountOfSame(c.numWorkers, Popping, IsGone);
    CountOfSame(c.numWorkers, Popping, IsExited);
    forall x ensures InHand(sha, s, x) == 0 { NothingHeldAtFirst(sha, c.numWorkers, x); }
  }

  lemma {:induction false} NothingHeldAtFirst(sha: Sha, n: nat, x: Entry)
    ensures InWorkers(sha, seq(n, _ => Popping), x) == 0
  {
    if n > 0 {
      assert seq(n, _ => Popping)[..n - 1] == seq(n - 1, _ => Popping);
      NothingHeldAtFirst(sha, n - 1, x);
    }
  }

  lemma {:induction false} InvRun(c: Config, sha: Sha, accesses: seq<Access>, s: State, events: seq<Event>)
    requires c.numWorkers > 0
    requires Inv(c, sha, Goal(c, sha, accesses), s) && IsRun(c, sha, s, events)
    ensures Inv(c, sha, Goal(c, sha, accesses), Final(c, sha, s, events))
    decreases |events|
  {
    if events != [] {
      InvStep(c, sha, accesses, s, events[0]);
      InvRun(c, sha, accesses, Apply(c, sha, s, events[0]), events[1..]);
    }
  }

  // ---------------------------------------------------------------------------------------------
  // Progress
  // ---------------------------------------------------------------------------------------------

  ghost function AccessWeight(accesses: seq<Access>): nat {
    if accesses == [] then 0
    else AccessWeight(accesses[1..]) + (if accesses[0].Compute? then 8 + 6 * |accesses[0].data| else 1)
  }

  ghost function MasterWeight(c: Config, m: Master): nat {
    match m
    case Between(_) => 7 + 4 * c.numWorkers
    case Waiting(unread, endOfRegion) =>
      if endOfRegion then 8 + 4 * c.numWorkers else 14 + 4 * c.numWorkers + 6 * |unread|
    case Reading(_, unread) => 13 + 4 * c.numWorkers + 6 * |unread|
    case Finishing(left) => 2 + 4 * left
    case Collecting(_) => 1
    case _ => 0
  }

  /** A bound on the steps still possible: what is queued counts for all it will cause. */
  ghost function Weight(c: Config, s: State): nat {
    AccessWeight(s.accesses) + MasterWeight(c, s.master)
    + 4 * Count(s.work, IsPiece) + 3 * Count(s.work, IsFinish)
    + 3 * Count(s.workers, IsHashing) + Count(s.workers, IsReturning) + 2 * Count(s.workers, IsLeaving)
    + |s.channel|
  }

  predicate IsHashing(w: Worker) { w.Hashing? }
  predicate IsReturning(w: Worker) { w.Returning? }
  predicate IsLeaving(w: Worker) { w.Leaving? }

  lemma WorkerWeight(workers: seq<Worker>, w: nat, x: Worker)
    requires w < |workers|
    ensures Count(workers[w := x], IsHashing) + (if IsHashing(workers[w]) then 1 else 0)
         == Count(workers, IsHashing) + (if IsHashing(x) then 1 else 0)
    ensures Count(workers[w := x], IsReturning) + (if IsReturning(workers[w]) then 1 else 0)
         == Count(workers, IsReturning) + (if IsReturning(x) then 1 else 0)
    ensures Count(workers[w := x], IsLeaving) + (if IsLeaving(workers[w]) then 1 else 0)
         == Count(workers, IsLeaving) + (if IsLeaving(x) then 1 else 0)
  {
    CountUpdate(workers, IsHashing, w, x);
    CountUpdate(workers, IsReturning, w, x);
    CountUpdate(workers, IsLeaving, w, x);
  }

  lemma WorkerLightens(c: Config, sha: Sha, s: State, e: Event)
    requires Enabled(c, s, e) && IsWorkerStep(e)
    ensures Weight(c, Apply(c, sha, s, e)) < Weight(c, s)
  {
    hide Count, AccessWeight, MasterWeight, SortByIndex;
    WorkerWeight(s.workers, e.worker, Apply(c, sha, s, e).workers[e.worker]);
    if e.WorkerPop? {
      CountFront(s.work, IsPiece);
      CountFront(s.work, IsFinish);
    }
  }

  lemma PushLightens(c: Config, sha: Sha, s: State, e: Event)
    requires NeverFull(c, s.master) && Enabled(c, s, e) && (e.EndOfAccesses? || e.Read? || e.PushFinish?)
    ensures Weight(c, Apply(c, sha, s, e)) < Weight(c, s)
  {
    hide Count, AccessWeight, SortByIndex;
    var s' := Apply(c, sha, s, e);
    if |s'.work| > |s.work| {
      var m := s'.work[|s.work|];
      assert s'.work == s.work + [m];
      CountPushed(s.work, m, IsPiece);
      CountPushed(s.work, m, IsFinish);
    }
  }

  lemma OtherLightens(c: Config, sha: Sha, s: State, e: Event)
    requires Enabled(c, s, e) && !IsWorkerStep(e) && !e.EndOfAccesses? && !e.Read? && !e.PushFinish?
    ensures Weight(c, Apply(c, sha, s, e)) < Weight(c, s)
  {
    hide Count, SortByIndex;
  }

  /** Every step makes the weight smaller, so none of them can be repeated forever. */
  lemma WeightFalls(c: Config, sha: Sha, s: State, e: Event)
    requires NeverFull(c, s.master) && Enabled(c, s, e)
    ensures Weight(c, Apply(c, sha, s, e)) < Weight(c, s)
  {
    hide Weight, NeverFull, Enabled, Apply;
    if IsWorkerStep(e) { WorkerLightens(c, sha, s, e); }
    else if e.EndOfAccesses? || e.Read? || e.PushFinish? { PushLightens(c, sha, s, e); }
    else { OtherLightens(c, sha, s, e); }
  }

  /** Some worker that is neither idle nor gone can move. */
  lemma BusyWorkerMoves(c: Config, s: State, p: Worker -> bool)
    requires Running(s) && Count(s.workers, p) > 0
    requires forall w :: p(w) ==> w.Hashing? || w.Returning? || w.Leaving?
    ensures exists e :: Enabled(c, s, e) && (e.WorkerSend? || e.WorkerCheckin? || e.WorkerLeave?)
  {
    CountNone(s.workers, p);
    var x :| x in s.workers && p(x);
    var w: nat :| w < |s.workers| && s.workers[w] == x;
    var e := if x.Hashing? then WorkerSend(w) else if x.Returning? then WorkerCheckin(w) else WorkerLeave(w);
    assert Enabled(c, s, e);
  }

  /** While the master is blocked on an empty pool, a worker can bring a buffer nearer to it. */
  lemma CheckoutNeverStuck(c: Config, sha: Sha, goal: seq<Entry>, s: State)
    requires c.numWorkers > 0
    requires Inv(c, sha, goal, s) && s.master.Waiting? && s.pool == 0
    ensures exists e :: Enabled(c, s, e) && (e.WorkerPop? || e.WorkerSend? || e.WorkerCheckin?)
  {
    if Count(s.workers, HasBuffer) > 0 {
      BusyWorkerMoves(c, s, HasBuffer);
      CountNone(s.workers, IsGone);
      var e :| Enabled(c, s, e) && (e.WorkerSend? || e.WorkerCheckin? || e.WorkerLeave?);
      assert s.workers[e.worker] in s.workers && !IsGone(s.workers[e.worker]);
    } else {
      CountNone(s.workers, HasBuffer);
      CountNone(s.workers, IsGone);
      assert s.work != [];
      assert s.workers[0] in s.workers;
      assert Enabled(c, s, WorkerPop(0));
    }
  }

  lemma CollectingNeverStuck(c: Config, sha: Sha, goal: seq<Entry>, s: State)
    requires c.numWorkers > 0
    requires Inv(c, sha, goal, s) && s.master.Collecting? && s.channel == [] && s.master.finished < c.numWorkers
    ensures exists e :: Enabled(c, s, e) && Succeeds(e)
  {
    CountAll(s.workers, IsExited);
    var x :| x in s.workers && !IsExited(x);
    var w :| 0 <= w < |s.workers| && s.workers[w] == x;
    match x
    case Hashing(_, _) => assert Enabled(c, s, WorkerSend(w));
    case Returning => assert Enabled(c, s, WorkerCheckin(w));
    case Leaving => assert Enabled(c, s, WorkerLeave(w));
    case Popping =>
      CountAll(s.workers, IsGone);
      assert s.work != [];
      assert Enabled(c, s, WorkerPop(w));
  }

  lemma NeverStuck(c: Config, sha: Sha, goal: seq<Entry>, s: State)
    requires c.numWorkers > 0
    requires Inv(c, sha, goal, s) && Running(s)
    ensures exists e :: Enabled(c, s, e) && Succeeds(e)
  {
    match s.master
    case Between(_) => assert Enabled(c, s, if s.accesses == [] then EndOfAccesses else NextAccess);
    case Waiting(_, _) =>
      if s.pool > 0 { assert Enabled(c, s, Checkout); } else { CheckoutNeverStuck(c, sha, goal, s); }
    case Reading(filled, unread) =>
      assert Enabled(c, s, Read(if unread == [] || c.pieceLength == 0 then 0 else 1));
    case Finishing(left) => assert Enabled(c, s, if left > 0 then PushFinish else StartCollecting);
    case Collecting(finished) =>
      if s.channel == [] && finished < c.numWorkers { CollectingNeverStuck(c, sha, goal, s); }
      else {
        CountAll(s.workers, IsExited);
        assert Enabled(c, s, if finished < c.numWorkers then Collect else Return);
      }
  }

  lemma {:induction false} RunIsShort(c: Config, sha: Sha, accesses: seq<Access>, s: State, events: seq<Event>)
    requires c.numWorkers > 0
    requires Inv(c, sha, Goal(c, sha, accesses), s) && IsRun(c, sha, s, events)
    ensures |events| + Weight(c, Final(c, sha, s, events)) <= Weight(c, s)
    decreases |events|
  {
    if events != [] {
      if s.master.Failed? || s.master.Done? { assert false; }
      WeightFalls(c, sha, s, events[0]);
      InvStep(c, sha, accesses, s, events[0]);
      RunIsShort(c, sha, accesses, Apply(c, sha, s, events[0]), events[1..]);
    }
  }

  // ---------------------------------------------------------------------------------------------
  // Main results
  // ---------------------------------------------------------------------------------------------

  /**
   For every input, worker count, sequence of short reads and interleaving: a run that returns hashes
   returns those of all pieces in order; a run that has not ended can go on; and none is longer than
   a bound known at the start.  So every run, however scheduled, ends with the right list or an error.
   */
  lemma EveryRun(c: Config, sha: Sha, accesses: seq<Access>, events: seq<Event>)
    requires c.numWorkers > 0
    requires IsRun(c, sha, Init(c, accesses), events)
    ensures var s := Final(c, sha, Init(c, accesses), events);
            && (s.master.Done? ==> s.master.result == Cut(c, sha, [], accesses, 0))
            && (Running(s) ==> exists e :: Enabled(c, s, e) && Succeeds(e))
    ensures |events| <= Weight(c, Init(c, accesses))
  {
    InvInit(c, sha, accesses);
    InvRun(c, sha, accesses, Init(c, accesses), events);
    RunIsShort(c, sha, accesses, Init(c, accesses), events);
    var s := Final(c, sha, Init(c, accesses), events);
    if Running(s) { NeverStuck(c, sha, Goal(c, sha, accesses), s); }
  }

  /** With regions only, entry `i` is the hash of bytes `i * pieceLength ..` of all regions in a row. */
  lemma RegionsAreChunked(c: Config, sha: Sha, accesses: seq<Access>, events: seq<Event>)
    requires c.pieceLength > 0 && c.numWorkers > 0
    requires forall a :: a in accesses ==> a.Compute?
    requires IsRun(c, sha, Init(c, accesses), events)
    requires Final(c, sha, Init(c, accesses), events).master.Done?
    ensures var result, data := Final(c, sha, Init(c, accesses), events).master.result, Concatenated(accesses);
            var n := c.pieceLength;
            forall i: nat ::
              && (i < |result| <==> i * n < |data|)
              && (i < |result| ==>
                    result[i] == (i, sha(data[i * n .. if (i + 1) * n <= |data| then (i + 1) * n else |data|])))
  {
    EveryRun(c, sha, accesses, events);
    CutIsChunks(c, sha, [], accesses, 0);
    assert [] + Concatenated(accesses) == Concatenated(accesses);
    forall i: nat { ChunksAt(c.pieceLength, Concatenated(accesses), i); }
  }

  lemma {:induction false} ZeroLengthCut(c: Config, sha: Sha, carry: seq<byte>, accesses: seq<Access>, index: nat)
    requires c.pieceLength == 0
    ensures var r := Cut(c, sha, carry, accesses, index);
            |r| == |accesses| && forall i :: 0 <= i < |r| && accesses[i].Compute? ==> r[i].1 == sha([])
    decreases |accesses|
  {
    if accesses != [] { ZeroLengthCut(c, sha, [], accesses[1..], index + 1); }
  }

  /** A piece length of zero, which nothing forbids, gives one hash of nothing for each region. */
  lemma ZeroLengthHashesNothing(c: Config, sha: Sha, accesses: seq<Access>, events: seq<Event>)
    requires c.pieceLength == 0 && c.numWorkers > 0 && IsRun(c, sha, Init(c, accesses), events)
    requires Final(c, sha, Init(c, accesses), events).master.Done?
    ensures var result := Final(c, sha, Init(c, accesses), events).master.result;
            && |result| == |accesses|
            && forall i :: 0 <= i < |result| && accesses[i].Compute? ==> result[i] == (i, sha([]))
  {
    EveryRun(c, sha, accesses, events);
    ZeroLengthCut(c, sha, [], accesses, 0);
  }

  /**
   While regions are read, no buffer is lost and, with any piece length at all, none is full when a read
   starts, so a read of nothing means the region has ended.
   */
  lemma BuffersInEveryRun(c: Config, sha: Sha, accesses: seq<Access>, events: seq<Event>)
    requires c.numWorkers > 0
    requires IsRun(c, sha, Init(c, accesses), events)
    ensures var s := Final(c, sha, Init(c, accesses), events);
            && BuffersConserved(c, s)
            && (s.master.Reading? ==> (|s.master.filled| < c.pieceLength <==> c.pieceLength > 0))
            && (s.master.Reading? ==> (Enabled(c, s, Read(0)) <==> s.master.unread == [] || c.pieceLength == 0))
  {
    InvInit(c, sha, accesses);
    InvRun(c, sha, accesses, Init(c, accesses), events);
  }
}
