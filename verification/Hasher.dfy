/**
 The parallel piece hasher of `bip_metainfo/src/builder/worker.rs`, as the atomic steps its master
 and its workers can take in any order.  A step is one queue, channel, pool or read operation of one
 thread.  Hashing is a parameter, and so is every scheduling choice: which thread moves, and how many
 bytes a read delivers.
 */
module Hasher {
  import opened Basics
  import opened PieceBuffers

  type Hash = seq<byte>
  type Sha = seq<byte> -> Hash

  /** A hash together with the index of its piece. */
  type Entry = (nat, Hash)

  /** What the accessor hands to the master: a region to read, or a hash that is known already. */
  datatype Access = Compute(data: seq<byte>) | PreComputed(hash: Hash)

  datatype WorkerMessage = HashPiece(index: nat, piece: seq<byte>) | Finish

  datatype MasterMessage = AcceptPiece(index: nat, hash: Hash) | WorkerFinished

  /** Where a worker's loop stands; it owns a buffer while `Hashing` and while `Returning`. */
  datatype Worker =
    | Popping
    | Hashing(index: nat, piece: seq<byte>)
    | Returning
    | Leaving
    | Exited

  /** Where the master stands; it owns a buffer in `Between(Some(_))` and in `Reading`. */
  datatype Master =
    | Between(carry: Option<seq<byte>>)              // between two calls of the accessor's callback
    | Waiting(unread: seq<byte>, endOfRegion: bool)  // blocked in `checkout`
    | Reading(filled: seq<byte>, unread: seq<byte>)  // about to read from the region
    | Finishing(left: nat)                           // pushing the remaining `Finish` messages
    | Collecting(finished: nat)                      // draining the channel
    | Done(result: seq<Entry>)
    | Failed

  datatype State = State(
    accesses: seq<Access>,
    master: Master,
    pieceIndex: nat,
    pieces: seq<Entry>,
    work: seq<WorkerMessage>,
    pool: nat,
    workers: seq<Worker>,
    channel: seq<MasterMessage>)

  datatype Event =
    | NextAccess
    | AccessFails
    | EndOfAccesses
    | Checkout
    | Read(count: nat)
    | ReadFails
    | PushFinish
    | StartCollecting
    | Collect
    | Return
    | WorkerPop(worker: nat)
    | WorkerSend(worker: nat)
    | WorkerCheckin(worker: nat)
    | WorkerLeave(worker: nat)

  datatype Config = Config(pieceLength: nat, numWorkers: nat)

  function Init(c: Config, accesses: seq<Access>): State {
    State(accesses, Between(None), 0, [], [], TotalBuffers(c.numWorkers), seq(c.numWorkers, _ => Popping), [])
  }

  // ---------------------------------------------------------------------------------------------
  // Steps
  // ---------------------------------------------------------------------------------------------

  /** A read delivers nothing exactly when the region is at its end or the offered slice is empty. */
  predicate ReadDelivers(c: Config, filled: seq<byte>, unread: seq<byte>, count: nat) {
    && |filled| + count <= c.pieceLength
    && count <= |unread|
    && (count == 0 <==> (unread == [] || |filled| == c.pieceLength))
  }

  predicate Enabled(c: Config, s: State, e: Event) {
    match e
    case NextAccess => s.master.Between? && s.accesses != []
    case AccessFails => s.master.Between?
    case EndOfAccesses => s.master.Between? && s.accesses == []
    case Checkout => s.master.Waiting? && s.pool > 0
    case Read(n) => s.master.Reading? && ReadDelivers(c, s.master.filled, s.master.unread, n)
    case ReadFails => s.master.Reading?
    case PushFinish => s.master.Finishing? && s.master.left > 0
    case StartCollecting => s.master.Finishing? && s.master.left == 0
    case Collect => s.master.Collecting? && s.master.finished < c.numWorkers && s.channel != []
    case Return => s.master.Collecting? && s.master.finished == c.numWorkers
    case WorkerPop(w) => Running(s) && w < |s.workers| && s.workers[w].Popping? && s.work != []
    case WorkerSend(w) => Running(s) && w < |s.workers| && s.workers[w].Hashing?
    case WorkerCheckin(w) => Running(s) && w < |s.workers| && s.workers[w].Returning?
    case WorkerLeave(w) => Running(s) && w < |s.workers| && s.workers[w].Leaving?
  }

  /** The master has neither returned its hashes nor an error. */
  predicate Running(s: State) {
    !s.master.Done? && !s.master.Failed?
  }

  function Apply(c: Config, sha: Sha, s: State, e: Event): State
    requires Enabled(c, s, e)
  {
    match e
    case NextAccess => TakeAccess(s)
    case AccessFails => s.(master := Failed)
    case EndOfAccesses =>
      var flushed := if s.master.carry.Some? && s.master.carry.value != [] then Push(s, s.master.carry.value) else s;
      flushed.(master := Finishing(c.numWorkers))
    case Checkout =>
      s.(pool := s.pool - 1,
         master := if s.master.endOfRegion then Between(Some([])) else Reading([], s.master.unread))
    case Read(n) => ReadRegion(c, s, n)
    case ReadFails => s.(master := Failed)
    case PushFinish => s.(work := s.work + [Finish], master := Finishing(s.master.left - 1))
    case StartCollecting => s.(master := Collecting(0))
    case Collect =>
      var s' := s.(channel := s.channel[1..]);
      (match s.channel[0]
       case AcceptPiece(index, hash) => s'.(pieces := s.pieces + [(index, hash)])
       case WorkerFinished => s'.(master := Collecting(s.master.finished + 1)))
    case Return => s.(master := Done(SortByIndex(s.pieces)))
    case WorkerPop(w) =>
      var next := match s.work[0] case HashPiece(index, piece) => Hashing(index, piece) case Finish => Leaving;
      s.(work := s.work[1..], workers := s.workers[w := next])
    case WorkerSend(w) =>
      s.(channel := s.channel + [AcceptPiece(s.workers[w].index, sha(s.workers[w].piece))],
         workers := s.workers[w := Returning])
    case WorkerCheckin(w) => s.(pool := s.pool + 1, workers := s.workers[w := Popping])
    case WorkerLeave(w) =>
      s.(channel := s.channel + [WorkerFinished], workers := s.workers[w := Exited])
  }

  function TakeAccess(s: State): State
    requires s.master.Between? && s.accesses != []
  {
    var s' := s.(accesses := s.accesses[1..]);
    match s.accesses[0]
    case Compute(data) =>
      s'.(master := if s.master.carry.Some? then Reading(s.master.carry.value, data) else Waiting(data, false))
    case PreComputed(hash) =>
      s'.(pieces := s.pieces + [(s.pieceIndex, hash)], pieceIndex := s.pieceIndex + 1)
  }

  function Push(s: State, piece: seq<byte>): State {
    s.(work := s.work + [HashPiece(s.pieceIndex, piece)], pieceIndex := s.pieceIndex + 1)
  }

  function ReadRegion(c: Config, s: State, count: nat): State
    requires s.master.Reading? && ReadDelivers(c, s.master.filled, s.master.unread, count)
  {
    var filled := s.master.filled + s.master.unread[..count];
    var unread := s.master.unread[count..];
    if |filled| == c.pieceLength then Push(s, filled).(master := Waiting(unread, count == 0))
    else if count == 0 then s.(master := Between(Some(filled)))
    else s.(master := Reading(filled, unread))
  }

  /** The events are a run from `s`; what it leads to is `Final`. */
  predicate IsRun(c: Config, sha: Sha, s: State, events: seq<Event>)
    decreases |events|
  {
    events == [] || (Enabled(c, s, events[0]) && IsRun(c, sha, Apply(c, sha, s, events[0]), events[1..]))
  }

  function Final(c: Config, sha: Sha, s: State, events: seq<Event>): State
    requires IsRun(c, sha, s, events)
    decreases |events|
  {
    if events == [] then s else Final(c, sha, Apply(c, sha, s, events[0]), events[1..])
  }

  // ---------------------------------------------------------------------------------------------
  // Sorting the collected hashes
  // ---------------------------------------------------------------------------------------------

  function InsertByIndex(x: Entry, s: seq<Entry>): seq<Entry> {
    if s == [] || x.0 < s[0].0 then [x] + s else [s[0]] + InsertByIndex(x, s[1..])
  }

  function SortByIndex(s: seq<Entry>): seq<Entry> {
    if s == [] then [] else InsertByIndex(s[|s| - 1], SortByIndex(s[..|s| - 1]))
  }

  ghost predicate Ascending(s: seq<Entry>) {
    forall i, j :: 0 <= i < j < |s| ==> s[i].0 <= s[j].0
  }

  ghost predicate Strict(s: seq<Entry>) {
    forall i, j :: 0 <= i < j < |s| ==> s[i].0 < s[j].0
  }

  lemma {:induction false} InsertMember(x: Entry, s: seq<Entry>, y: Entry)
    ensures y in InsertByIndex(x, s) <==> y == x || y in s
  {
    if s != [] {
      InsertMember(x, s[1..], y);
      assert s == [s[0]] + s[1..];
    }
  }

  lemma {:induction false} InsertKeeps(x: Entry, s: seq<Entry>)
    ensures multiset(InsertByIndex(x, s)) == multiset(s) + multiset{x}
  {
    if s != [] {
      InsertKeeps(x, s[1..]);
      assert s == [s[0]] + s[1..];
    }
  }

  lemma {:induction false} InsertSorts(x: Entry, s: seq<Entry>)
    requires Ascending(s)
    ensures Ascending(InsertByIndex(x, s))
  {
    if s != [] && x.0 >= s[0].0 {
      InsertSorts(x, s[1..]);
      var r := InsertByIndex(x, s[1..]);
      forall j | 0 <= j < |r| ensures s[0].0 <= r[j].0 {
        InsertMember(x, s[1..], r[j]);
        assert r[j] in r;
      }
    }
  }

  lemma {:induction false} SortSorts(s: seq<Entry>)
    ensures Ascending(SortByIndex(s)) && multiset(SortByIndex(s)) == multiset(s)
  {
    if s != [] {
      SortSorts(s[..|s| - 1]);
      InsertSorts(s[|s| - 1], SortByIndex(s[..|s| - 1]));
      InsertKeeps(s[|s| - 1], SortByIndex(s[..|s| - 1]));
      assert s == s[..|s| - 1] + [s[|s| - 1]];
    }
  }

  lemma SameHead(s: seq<Entry>, t: seq<Entry>)
    requires Ascending(s) && Strict(t) && multiset(s) == multiset(t) && s != [] && t != []
    ensures s[0] == t[0]
  {
    assert s[0] in multiset(t) && t[0] in multiset(s);
    var i :| 0 <= i < |t| && t[i] == s[0];
    var j :| 0 <= j < |s| && s[j] == t[0];
  }

  /** A strictly ascending list is the only ascending arrangement of its elements. */
  lemma {:induction false} AscendingUnique(s: seq<Entry>, t: seq<Entry>)
    requires Ascending(s) && Strict(t) && multiset(s) == multiset(t)
    ensures s == t
  {
    assert |s| == |multiset(s)| == |multiset(t)| == |t|;
    if s != [] {
      SameHead(s, t);
      var s', t' := s[1..], t[1..];
      assert s == [s[0]] + s' && t == [t[0]] + t';
      assert multiset(s') == multiset(t') by {
        assert multiset(s') == multiset(s) - multiset{s[0]};
        assert multiset(t') == multiset(t) - multiset{t[0]};
      }
      AscendingUnique(s', t');
    }
  }

  // ---------------------------------------------------------------------------------------------
  // What the hasher is meant to compute
  // ---------------------------------------------------------------------------------------------

  /**
   The hashes still to come when `carry` is unhashed and `accesses` are unread. Without a piece length
   every region makes one piece of nothing.
   */
  ghost function Cut(c: Config, sha: Sha, carry: seq<byte>, accesses: seq<Access>, index: nat): (r: seq<Entry>)
    ensures forall i :: 0 <= i < |r| ==> r[i].0 == index + i
    decreases |accesses|, |carry|
  {
    if c.pieceLength == 0 then
      if accesses == [] then []
      else
        var hash := match accesses[0] case Compute(_) => sha([]) case PreComputed(hash) => hash;
        [(index, hash)] + Cut(c, sha, [], accesses[1..], index + 1)
    else if |carry| >= c.pieceLength then
      [(index, sha(carry[..c.pieceLength]))] + Cut(c, sha, carry[c.pieceLength..], accesses, index + 1)
    else if accesses == [] then
      if carry == [] then [] else [(index, sha(carry))]
    else
      match accesses[0]
      case Compute(data) => Cut(c, sha, carry + data, accesses[1..], index)
      case PreComputed(hash) => [(index, hash)] + Cut(c, sha, carry, accesses[1..], index + 1)
  }

  /** `slice::chunks`: consecutive pieces of the given length, the last one possibly shorter. */
  ghost function Chunks(n: nat, data: seq<byte>): seq<seq<byte>>
    requires n > 0
  {
    if data == [] then []
    else if |data| <= n then [data]
    else [data[..n]] + Chunks(n, data[n..])
  }

  ghost function Concatenated(accesses: seq<Access>): seq<byte>
    requires forall a :: a in accesses ==> a.Compute?
  {
    if accesses == [] then [] else accesses[0].data + Concatenated(accesses[1..])
  }

  /** The i-th entry is the hash of the i-th chunk. */
  ghost predicate HashesOf(sha: Sha, entries: seq<Entry>, chunks: seq<seq<byte>>, index: nat) {
    |entries| == |chunks| && forall i :: 0 <= i < |entries| ==> entries[i] == (index + i, sha(chunks[i]))
  }

  lemma HashesOfOneMore(sha: Sha, entries: seq<Entry>, chunks: seq<seq<byte>>, index: nat, chunk: seq<byte>)
    requires HashesOf(sha, entries, chunks, index + 1)
    ensures HashesOf(sha, [(index, sha(chunk))] + entries, [chunk] + chunks, index)
  {
  }

  lemma ChunksStep(n: nat, data: seq<byte>)
    requires n > 0 && |data| >= n
    ensures Chunks(n, data) == [data[..n]] + Chunks(n, data[n..])
  {
    if |data| == n { assert data[..n] == data && data[n..] == []; }
  }

  lemma {:induction false} CutIsChunks(c: Config, sha: Sha, carry: seq<byte>, accesses: seq<Access>, index: nat)
    requires c.pieceLength > 0
    requires forall a :: a in accesses ==> a.Compute?
    ensures HashesOf(sha, Cut(c, sha, carry, accesses, index),
                     Chunks(c.pieceLength, carry + Concatenated(accesses)), index)
    decreases |accesses|, |carry|
  {
    hide Chunks, HashesOf;
    var n := c.pieceLength;
    var all := carry + Concatenated(accesses);
    if |carry| >= n {
      assert all[..n] == carry[..n] && all[n..] == carry[n..] + Concatenated(accesses);
      ChunksStep(n, all);
      CutIsChunks(c, sha, carry[n..], accesses, index + 1);
      HashesOfOneMore(sha, Cut(c, sha, carry[n..], accesses, index + 1), Chunks(n, all[n..]), index, carry[..n]);
    } else if accesses != [] {
      assert all == (carry + accesses[0].data) + Concatenated(accesses[1..]);
      CutIsChunks(c, sha, carry + accesses[0].data, accesses[1..], index);
    } else {
      assert all == carry;
      LastChunk(c, sha, carry, index);
    }
  }

  lemma LastChunk(c: Config, sha: Sha, carry: seq<byte>, index: nat)
    requires |carry| < c.pieceLength
    ensures HashesOf(sha, Cut(c, sha, carry, [], index), Chunks(c.pieceLength, carry), index)
  {
  }

  /** The chunks by position: `n` bytes each from the front, until the data run out. */
  lemma {:induction false} ChunksAt(n: nat, data: seq<byte>, i: nat)
    requires n > 0
    ensures i < |Chunks(n, data)| <==> i * n < |data|
    ensures i * n < |data| ==>
              Chunks(n, data)[i] == data[i * n .. if (i + 1) * n <= |data| then (i + 1) * n else |data|]
  {
    if data == [] {
      assert i * n >= 0;
    } else if |data| <= n {
      if i > 0 { assert i * n >= n; } else { assert data[..|data|] == data; }
    } else if i > 0 {
      ChunksAt(n, data[n..], i - 1);
      assert (i - 1) * n == i * n - n && (i - 1 + 1) * n == (i + 1) * n - n;
    }
  }

  // ---------------------------------------------------------------------------------------------
  // Counting what is where
  // ---------------------------------------------------------------------------------------------

  ghost function Asked(sha: Sha, m: WorkerMessage, x: Entry): nat {
    if m.HashPiece? && x == (m.index, sha(m.piece)) then 1 else 0
  }

  ghost function Held(sha: Sha, w: Worker, x: Entry): nat {
    if w.Hashing? && x == (w.index, sha(w.piece)) then 1 else 0
  }

  ghost function Told(m: MasterMessage, x: Entry): nat {
    if m.AcceptPiece? && x == (m.index, m.hash) then 1 else 0
  }

  /** How often the entry `x` waits in the work queue. */
  ghost function InWork(sha: Sha, work: seq<WorkerMessage>, x: Entry): nat {
    if work == [] then 0 else InWork(sha, work[..|work| - 1], x) + Asked(sha, work[|work| - 1], x)
  }

  /** How often a worker is hashing the entry `x`. */
  ghost function InWorkers(sha: Sha, workers: seq<Worker>, x: Entry): nat {
    if workers == [] then 0 else InWorkers(sha, workers[..|workers| - 1], x) + Held(sha, workers[|workers| - 1], x)
  }

  /** How often the entry `x` is on its way to the master. */
  ghost function InChannel(channel: seq<MasterMessage>, x: Entry): nat {
    if channel == [] then 0 else InChannel(channel[..|channel| - 1], x) + Told(channel[|channel| - 1], x)
  }

  /** How many elements satisfy `p`. */
  ghost function Count<T>(s: seq<T>, p: T -> bool): nat {
    if s == [] then 0 else Count(s[..|s| - 1], p) + (if p(s[|s| - 1]) then 1 else 0)
  }

  lemma {:induction false} CountFront<T>(s: seq<T>, p: T -> bool)
    requires s != []
    ensures Count(s, p) == (if p(s[0]) then 1 else 0) + Count(s[1..], p)
  {
    if |s| > 1 {
      CountFront(s[..|s| - 1], p);
      assert s[..|s| - 1][1..] == s[1..][..|s| - 2];
    }
  }

  lemma {:induction false} CountUpdate<T>(s: seq<T>, p: T -> bool, i: nat, x: T)
    requires i < |s|
    ensures Count(s[i := x], p) + (if p(s[i]) then 1 else 0) == Count(s, p) + (if p(x) then 1 else 0)
  {
    var front := s[..|s| - 1];
    if i == |s| - 1 {
      assert s[i := x][..i] == front;
    } else {
      CountUpdate(front, p, i, x);
      assert s[i := x][..|s| - 1] == front[i := x];
    }
  }

  lemma {:induction false} CountNone<T>(s: seq<T>, p: T -> bool)
    ensures Count(s, p) == 0 <==> forall x :: x in s ==> !p(x)
  {
    if s != [] {
      CountNone(s[..|s| - 1], p);
      assert s == s[..|s| - 1] + [s[|s| - 1]];
    }
  }

  lemma {:induction false} CountAll<T>(s: seq<T>, p: T -> bool)
    ensures Count(s, p) <= |s|
    ensures Count(s, p) == |s| <==> forall x :: x in s ==> p(x)
  {
    if s != [] {
      CountAll(s[..|s| - 1], p);
      assert s == s[..|s| - 1] + [s[|s| - 1]];
    }
  }

  lemma {:induction false} InWorkFront(sha: Sha, work: seq<WorkerMessage>, x: Entry)
    requires work != []
    ensures InWork(sha, work, x) == Asked(sha, work[0], x) + InWork(sha, work[1..], x)
  {
    if |work| > 1 {
      InWorkFront(sha, work[..|work| - 1], x);
      assert work[..|work| - 1][1..] == work[1..][..|work| - 2];
    }
  }

  lemma {:induction false} InChannelFront(channel: seq<MasterMessage>, x: Entry)
    requires channel != []
    ensures InChannel(channel, x) == Told(channel[0], x) + InChannel(channel[1..], x)
  {
    if |channel| > 1 {
      InChannelFront(channel[..|channel| - 1], x);
      assert channel[..|channel| - 1][1..] == channel[1..][..|channel| - 2];
    }
  }

  lemma {:induction false} InWorkersUpdate(sha: Sha, workers: seq<Worker>, w: nat, to: Worker, x: Entry)
    requires w < |workers|
    ensures InWorkers(sha, workers[w := to], x) + Held(sha, workers[w], x) ==
              InWorkers(sha, workers, x) + Held(sha, to, x)
  {
    var front, updated := workers[..|workers| - 1], workers[w := to];
    if w == |workers| - 1 {
      assert updated[..w] == front;
    } else {
      InWorkersUpdate(sha, front, w, to, x);
      assert updated[..|workers| - 1] == front[w := to];
    }
  }
}
