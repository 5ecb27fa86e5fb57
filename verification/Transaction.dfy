/**
 Transaction ids of the DHT (`bip_dht/src/transaction.rs`). A 64-bit id is a 40-bit action id followed by
 a 24-bit message id; both are drawn from shuffled blocks.

 Numbers are unbounded here, with the bit operations of the original written as arithmetic;
 `BitsAreArithmetic` shows on 64-bit vectors that these agree.
 */
module Transactions {
  import opened Basics
  import opened Shuffles

  const TRANSACTION_ID_BYTES: nat := 8
  const MAX_ACTION_ID: nat := 0x100_0000_0000
  const MAX_MESSAGE_ID: nat := 0x100_0000
  const MAX_TRANSACTION_ID: nat := 0x1_0000_0000_0000_0000
  const PREALLOC_LEN: nat := 2048

  // ---------------------------------------------------------------------------------------------
  // The parts of an id
  // ---------------------------------------------------------------------------------------------

  /** The action id shifted left, and the message id in the bits this makes room for. */
  function Join(action: nat, message: nat): nat {
    action * MAX_MESSAGE_ID + message
  }

  function ActionPart(id: nat): nat {
    id / MAX_MESSAGE_ID
  }

  function MessagePart(id: nat): nat {
    id % MAX_MESSAGE_ID
  }

  lemma BitsAreArithmetic(action: bv64, message: bv64)
    requires action < 0x100_0000_0000 && message < 0x100_0000
    ensures var id := (action << 24) | message;
            && id == action * 0x100_0000 + message
            && id >> 24 == action && id & 0xFF_FFFF == message
  {
  }

  /** An id fits 64 bits, and each of its parts can be read off. */
  lemma PartsOfJoin(action: nat, message: nat)
    requires action < MAX_ACTION_ID && message < MAX_MESSAGE_ID
    ensures Join(action, message) < MAX_TRANSACTION_ID
    ensures ActionPart(Join(action, message)) == action && MessagePart(Join(action, message)) == message
  {
  }

  // ---------------------------------------------------------------------------------------------
  // Bytes
  // ---------------------------------------------------------------------------------------------

  /** The `n` lowest bytes of the id, the highest first. */
  function Bytes(id: nat, n: nat): (r: seq<byte>)
    ensures |r| == n
  {
    if n == 0 then [] else Bytes(id / 256, n - 1) + [id % 256]
  }

  function Number(bytes: seq<byte>): nat {
    if bytes == [] then 0 else Number(bytes[..|bytes| - 1]) * 256 + bytes[|bytes| - 1]
  }

  function Power256(n: nat): nat {
    if n == 0 then 1 else 256 * Power256(n - 1)
  }

  lemma {:induction false} NumberOfBytes(id: nat, n: nat)
    requires id < Power256(n)
    ensures Number(Bytes(id, n)) == id
  {
    if n > 0 {
      NumberOfBytes(id / 256, n - 1);
      assert Bytes(id, n)[..n - 1] == Bytes(id / 256, n - 1);
    }
  }

  lemma {:induction false} BytesOfNumber(bytes: seq<byte>)
    ensures Number(bytes) < Power256(|bytes|)
    ensures Bytes(Number(bytes), |bytes|) == bytes
  {
    if bytes != [] {
      var n := |bytes| - 1;
      BytesOfNumber(bytes[..n]);
      assert bytes == bytes[..n] + [bytes[n]];
    }
  }

  /** `eight_bytes_to_array`. */
  function ToBytes(id: nat): seq<byte> {
    Bytes(id, TRANSACTION_ID_BYTES)
  }

  method FromBytes(bytes: seq<byte>) returns (r: Option<nat>)
    ensures r.Some? <==> |bytes| == TRANSACTION_ID_BYTES
    ensures r.Some? ==> r.value < MAX_TRANSACTION_ID && ToBytes(r.value) == bytes
  {
    if |bytes| != TRANSACTION_ID_BYTES { return None; }
    var id := 0;
    for i := 0 to |bytes|
      invariant id == Number(bytes[..i]) && id < Power256(i)
    {
      BytesOfNumber(bytes[..i + 1]);
      assert bytes[..i + 1][..i] == bytes[..i];
      assert Power256(i + 1) == 256 * Power256(i);
      EightBytes(i);
      id := id * 256 % MAX_TRANSACTION_ID + bytes[i];
    }
    assert bytes[..|bytes|] == bytes;
    BytesOfNumber(bytes);
    EightBytes(7);
    return Some(id);
  }

  /** Shifting an id of less than eight bytes drops no bit. */
  lemma EightBytes(n: nat)
    requires n < 8
    ensures 256 * Power256(n) <= MAX_TRANSACTION_ID && Power256(8) == MAX_TRANSACTION_ID
  {
    assert Power256(1) == 256 && Power256(2) == 0x1_0000 && Power256(3) == 0x100_0000;
    assert Power256(4) == 0x1_0000_0000 && Power256(5) == 0x100_0000_0000;
    assert Power256(6) == 0x1_0000_0000_0000 && Power256(7) == 0x100_0000_0000_0000;
  }

  /** Parsing the bytes of an id gives the id back. */
  lemma ParsedIsSame(id: nat, parsed: nat)
    requires id < MAX_TRANSACTION_ID && parsed < MAX_TRANSACTION_ID && ToBytes(parsed) == ToBytes(id)
    ensures parsed == id
  {
    EightBytes(7);
    NumberOfBytes(id, 8);
    NumberOfBytes(parsed, 8);
  }

  // ---------------------------------------------------------------------------------------------
  // Blocks of ids
  // ---------------------------------------------------------------------------------------------

  /** The ids that were prepared and not drawn, and the first id after them. */
  datatype Pool = Pool(nextAlloc: nat, left: seq<nat>)

  function Start(nextAlloc: nat, max: nat): nat {
    if nextAlloc == max then 0 else nextAlloc
  }

  function Block(start: nat, n: nat): (r: seq<nat>)
    ensures |r| == n && forall i :: 0 <= i < n ==> r[i] == start + i
  {
    if n == 0 then [] else Block(start, n - 1) + [start + n - 1]
  }

  /** `block` is what shuffling the next block may give. */
  ghost predicate IsNextBlock(p: Pool, max: nat, block: seq<nat>) {
    multiset(block) == multiset(Block(Start(p.nextAlloc, max), PREALLOC_LEN))
  }

  lemma NextBlockSize(p: Pool, max: nat, block: seq<nat>)
    requires IsNextBlock(p, max, block)
    ensures |block| == PREALLOC_LEN
  {
    assert |block| == |multiset(block)|;
    assert |Block(Start(p.nextAlloc, max), PREALLOC_LEN)| == |multiset(Block(Start(p.nextAlloc, max), PREALLOC_LEN))|;
  }

  /** One draw; the block is used only if the pool is empty. */
  ghost function Drawn(p: Pool, max: nat, block: seq<nat>): (r: (Pool, nat))
    requires IsNextBlock(p, max, block)
  {
    NextBlockSize(p, max, block);
    if p.left != [] then (p.(left := p.left[1..]), p.left[0])
    else (Pool(Start(p.nextAlloc, max) + PREALLOC_LEN, block[1..]), block[0])
  }

  class IdPool {
    const max: nat
    var nextAlloc: nat
    var currIndex: nat
    var ids: array<nat>

    ghost predicate Valid()
      reads this
    {
      currIndex <= ids.Length
    }

    ghost function View(): Pool
      requires Valid()
      reads this, ids
    {
      Pool(nextAlloc, ids[currIndex..])
    }

    /** A pool that prepares its first block when it is needed. */
    constructor (max: nat)
      ensures Valid() && fresh(ids) && this.max == max && View() == Pool(0, [])
    {
      this.max, nextAlloc, currIndex, ids := max, 0, PREALLOC_LEN, new nat[PREALLOC_LEN](_ => 0);
    }

    method Refill(random: nat -> nat)
      requires Valid()
      modifies this
      ensures Valid() && fresh(ids) && currIndex == 0 && IsNextBlock(old(View()), max, ids[..])
      ensures ids.Length == PREALLOC_LEN
      ensures View() == Pool(Start(old(nextAlloc), max) + PREALLOC_LEN, ids[..])
    {
      hide Block;
      var start := if nextAlloc == max then 0 else nextAlloc;
      var block := new nat[PREALLOC_LEN](_ => 0);
      for index := 0 to PREALLOC_LEN
        invariant forall k :: 0 <= k < index ==> block[k] == start + k
      {
        block[index] := start + index;
      }
      assert block[..] == Block(start, PREALLOC_LEN);
      FisherShuffle(block, random);
      nextAlloc := start + PREALLOC_LEN;
      ids := block;
      currIndex := 0;
    }

    method Generate(random: nat -> nat) returns (id: nat)
      requires Valid()
      modifies this
      ensures Valid() && (ids == old(ids) || fresh(ids))
      ensures exists block :: IsNextBlock(old(View()), max, block) && (View(), id) == Drawn(old(View()), max, block)
    {
      ghost var p := View();
      ghost var block := Block(Start(nextAlloc, max), PREALLOC_LEN);
      if currIndex == ids.Length {
        Refill(random);
        block := ids[..];
      }
      assert IsNextBlock(p, max, block);
      id := ids[currIndex];
      currIndex := currIndex + 1;
      assert (View(), id) == Drawn(p, max, block);
    }
  }

  /** The generator of one action, which keeps the action id shifted. */
  class MIDGenerator {
    const shifted: nat
    const messages: IdPool

    constructor (action: nat)
      ensures shifted == Join(action, 0) && fresh(messages) && fresh(messages.ids)
      ensures messages.Valid() && messages.max == MAX_MESSAGE_ID && messages.View() == Pool(0, [])
    {
      shifted := Join(action, 0);
      messages := new IdPool(MAX_MESSAGE_ID);
    }

    method Generate(random: nat -> nat) returns (id: nat)
      requires messages.Valid()
      modifies messages
      ensures messages.Valid() && (messages.ids == old(messages.ids) || fresh(messages.ids))
      ensures exists block :: IsNextBlock(old(messages.View()), messages.max, block)
                              && (messages.View(), id - shifted) == Drawn(old(messages.View()), messages.max, block)
    {
      var message := messages.Generate(random);
      id := shifted + message;
    }
  }

  class AIDGenerator {
    const actions: IdPool

    constructor (random: nat -> nat)
      ensures fresh(actions) && fresh(actions.ids) && actions.Valid() && actions.max == MAX_ACTION_ID
      ensures IsNextBlock(Pool(0, []), MAX_ACTION_ID, actions.View().left) && actions.View().nextAlloc == PREALLOC_LEN
    {
      actions := new IdPool(MAX_ACTION_ID);
      new;
      actions.Refill(random);
      assert actions.ids[0..] == actions.ids[..];
    }

    method Generate(random: nat -> nat) returns (r: MIDGenerator)
      requires actions.Valid()
      modifies actions
      ensures actions.Valid() && fresh(r) && fresh(r.messages) && r.messages.Valid()
      ensures r.messages.max == MAX_MESSAGE_ID && r.messages.View() == Pool(0, [])
      ensures exists block :: IsNextBlock(old(actions.View()), actions.max, block)
                              && (actions.View(), ActionPart(r.shifted)) ==
                                   Drawn(old(actions.View()), actions.max, block)
    {
      var action := actions.Generate(random);
      r := new MIDGenerator(action);
      assert ActionPart(Join(action, 0)) == action;
    }
  }

  // ---------------------------------------------------------------------------------------------
  // Every id once
  // ---------------------------------------------------------------------------------------------

  ghost function Count(s: seq<nat>, x: nat): nat {
    multiset(s)[x]
  }

  lemma CountJoin(a: seq<nat>, b: seq<nat>, x: nat)
    ensures Count(a + b, x) == Count(a, x) + Count(b, x)
  {
  }

  lemma CountOne(y: nat, x: nat)
    ensures Count([], x) == 0 && Count([y], x) == if x == y then 1 else 0
  {
  }

  lemma CountIn(s: seq<nat>, x: nat)
    ensures x in s <==> Count(s, x) > 0
  {
  }

  lemma CountHead(s: seq<nat>, x: nat)
    requires s != []
    ensures Count(s, x) == (if x == s[0] then 1 else 0) + Count(s[1..], x)
  {
    hide Count;
    assert s == [s[0]] + s[1..];
    CountJoin([s[0]], s[1..], x);
    CountOne(s[0], x);
  }

  lemma {:induction false} BlockCount(start: nat, n: nat, x: nat)
    ensures Count(Block(start, n), x) == if start <= x < start + n then 1 else 0
  {
    hide Count;
    if n == 0 {
      CountOne(0, x);
    } else {
      BlockCount(start, n - 1, x);
      CountJoin(Block(start, n - 1), [start + n - 1], x);
      CountOne(start + n - 1, x);
    }
  }

  lemma NextBlockCount(p: Pool, max: nat, block: seq<nat>, x: nat)
    requires IsNextBlock(p, max, block)
    ensures var start := Start(p.nextAlloc, max);
            Count(block, x) == if start <= x < start + PREALLOC_LEN then 1 else 0
  {
    hide Block;
    BlockCount(Start(p.nextAlloc, max), PREALLOC_LEN, x);
  }

  /** Before the pool wraps around, what was drawn and what is left are all ids below the next block, each once. */
  ghost predicate EachOnce(p: Pool, max: nat, drawn: seq<nat>) {
    && p.nextAlloc <= max && p.nextAlloc % PREALLOC_LEN == 0 && |drawn| + |p.left| == p.nextAlloc
    && forall x: nat :: Count(drawn, x) + Count(p.left, x) == if x < p.nextAlloc then 1 else 0
  }

  /** Taking the first of the ids that are left. */
  lemma HeadOnce(nextAlloc: nat, max: nat, left: seq<nat>, drawn: seq<nat>)
    requires EachOnce(Pool(nextAlloc, left), max, drawn) && left != []
    ensures EachOnce(Pool(nextAlloc, left[1..]), max, drawn + [left[0]]) && left[0] !in drawn && left[0] < max
  {
    hide Count;
    var id := left[0];
    CountHead(left, id);
    CountIn(drawn, id);
    forall x: nat
      ensures Count(drawn + [id], x) + Count(left[1..], x) == if x < nextAlloc then 1 else 0
    {
      assert Count(drawn, x) + Count(left, x) == if x < nextAlloc then 1 else 0;
      CountHead(left, x);
      CountJoin(drawn, [id], x);
      CountOne(id, x);
    }
  }

  /** A new block behind the last one. */
  lemma RefillOnce(p: Pool, max: nat, block: seq<nat>, drawn: seq<nat>)
    requires EachOnce(p, max, drawn) && p.left == [] && IsNextBlock(p, max, block)
    requires |drawn| < max && max % PREALLOC_LEN == 0
    ensures EachOnce(Pool(p.nextAlloc + PREALLOC_LEN, block), max, drawn)
  {
    hide Count, IsNextBlock;
    NextBlockSize(p, max, block);
    forall x: nat
      ensures Count(drawn, x) + Count(block, x) == if x < p.nextAlloc + PREALLOC_LEN then 1 else 0
    {
      assert Count(drawn, x) + Count(p.left, x) == if x < p.nextAlloc then 1 else 0;
      CountOne(0, x);
      NextBlockCount(p, max, block, x);
    }
  }

  /** Until all ids are drawn, every draw is of a new one. */
  lemma DrawnOnce(p: Pool, max: nat, block: seq<nat>, drawn: seq<nat>)
    requires EachOnce(p, max, drawn) && IsNextBlock(p, max, block) && |drawn| < max && max % PREALLOC_LEN == 0
    ensures var (p', id) := Drawn(p, max, block); EachOnce(p', max, drawn + [id]) && id !in drawn && id < max
  {
    hide Count, IsNextBlock;
    NextBlockSize(p, max, block);
    if p.left != [] {
      HeadOnce(p.nextAlloc, max, p.left, drawn);
    } else {
      RefillOnce(p, max, block, drawn);
      HeadOnce(p.nextAlloc + PREALLOC_LEN, max, block, drawn);
    }
  }

  /** Once all ids were drawn, the next one is a repetition. */
  lemma WrapsAround(p: Pool, max: nat, block: seq<nat>, drawn: seq<nat>)
    requires EachOnce(p, max, drawn) && IsNextBlock(p, max, block) && |drawn| == max && max >= PREALLOC_LEN
    ensures Drawn(p, max, block).1 in drawn
  {
    hide Count, IsNextBlock;
    NextBlockSize(p, max, block);
    var id := Drawn(p, max, block).1;
    CountIn(block, id);
    NextBlockCount(p, max, block, id);
    CountOne(0, id);
    CountIn(drawn, id);
    assert Count(drawn, id) + Count(p.left, id) == if id < p.nextAlloc then 1 else 0;
  }

  lemma OnceIsDistinct(p: Pool, max: nat, drawn: seq<nat>)
    requires EachOnce(p, max, drawn)
    ensures forall i, j :: 0 <= i < j < |drawn| ==> drawn[i] != drawn[j]
    ensures forall i :: 0 <= i < |drawn| ==> drawn[i] < max
  {
    hide Count;
    forall i, j | 0 <= i < j < |drawn| ensures drawn[i] != drawn[j] {
      var x := drawn[i];
      assert drawn == drawn[..j] + drawn[j..] && drawn[..j][i] == x && drawn[j..][0] == drawn[j];
      CountJoin(drawn[..j], drawn[j..], x);
      CountIn(drawn[..j], x);
      CountIn(drawn[j..], x);
      assert Count(drawn, x) + Count(p.left, x) <= 1;
    }
    forall i | 0 <= i < |drawn| ensures drawn[i] < max {
      CountIn(drawn, drawn[i]);
    }
  }

  // ---------------------------------------------------------------------------------------------
  // Runs
  // ---------------------------------------------------------------------------------------------

  /** An action with its id and what it has sent so far. */
  datatype Action = Action(id: nat, messages: Pool, sent: seq<nat>)

  datatype State = State(actions: Pool, started: seq<Action>)

  /** A new action, or a new message of one; with the block that a refill would give. */
  datatype Event = Begin(block: seq<nat>) | Send(action: nat, block: seq<nat>)

  ghost function Init(block: seq<nat>): State
    requires IsNextBlock(Pool(0, []), MAX_ACTION_ID, block)
  {
    State(Pool(PREALLOC_LEN, block), [])
  }

  ghost predicate Enabled(s: State, e: Event) {
    match e
    case Begin(block) => IsNextBlock(s.actions, MAX_ACTION_ID, block)
    case Send(i, block) => i < |s.started| && IsNextBlock(s.started[i].messages, MAX_MESSAGE_ID, block)
  }

  ghost function Step(s: State, e: Event): State
    requires Enabled(s, e)
  {
    match e
    case Begin(block) =>
      var (p, id) := Drawn(s.actions, MAX_ACTION_ID, block);
      State(p, s.started + [Action(id, Pool(0, []), [])])
    case Send(i, block) =>
      var a := s.started[i];
      var (p, id) := Drawn(a.messages, MAX_MESSAGE_ID, block);
      s.(started := s.started[i := Action(a.id, p, a.sent + [id])])
  }

  ghost predicate IsRun(s: State, events: seq<Event>)
    decreases |events|
  {
    events == [] || (Enabled(s, events[0]) && IsRun(Step(s, events[0]), events[1..]))
  }

  ghost function Final(s: State, events: seq<Event>): State
    requires IsRun(s, events)
    decreases |events|
  {
    if events == [] then s else Final(Step(s, events[0]), events[1..])
  }

  ghost function ActionIds(started: seq<Action>): (r: seq<nat>)
    ensures |r| == |started| && forall i :: 0 <= i < |r| ==> r[i] == started[i].id
  {
    if started == [] then [] else ActionIds(started[..|started| - 1]) + [started[|started| - 1].id]
  }

  /** At most 2^40 actions, and at most 2^24 messages of each. */
  ghost predicate WithinLimits(s: State) {
    |s.started| <= MAX_ACTION_ID && forall i :: 0 <= i < |s.started| ==> |s.started[i].sent| <= MAX_MESSAGE_ID
  }

  ghost predicate Inv(s: State) {
    && EachOnce(s.actions, MAX_ACTION_ID, ActionIds(s.started))
    && forall i :: 0 <= i < |s.started| ==> EachOnce(s.started[i].messages, MAX_MESSAGE_ID, s.started[i].sent)
  }

  lemma StepGrows(s: State, e: Event)
    requires Enabled(s, e) && WithinLimits(Step(s, e))
    ensures WithinLimits(s)
    ensures e.Begin? ==> |s.started| < MAX_ACTION_ID
    ensures e.Send? ==> |s.started[e.action].sent| < MAX_MESSAGE_ID
  {
    hide Drawn, IsNextBlock;
    var s' := Step(s, e);
    forall i | 0 <= i < |s.started| ensures |s.started[i].sent| <= |s'.started[i].sent| {}
  }

  lemma {:induction false} RunGrows(s: State, events: seq<Event>)
    requires IsRun(s, events) && WithinLimits(Final(s, events))
    ensures WithinLimits(s)
    decreases |events|
  {
    hide WithinLimits, Enabled, Step;
    if events != [] {
      RunGrows(Step(s, events[0]), events[1..]);
      StepGrows(s, events[0]);
    }
  }

  lemma StepKeeps(s: State, e: Event)
    requires Inv(s) && Enabled(s, e) && WithinLimits(Step(s, e))
    ensures Inv(Step(s, e))
  {
    hide EachOnce, Drawn, IsNextBlock, WithinLimits;
    StepGrows(s, e);
    var s' := Step(s, e);
    match e
    case Begin(block) =>
      DrawnOnce(s.actions, MAX_ACTION_ID, block, ActionIds(s.started));
      assert s'.started[..|s.started|] == s.started;
      EmptyPool(MAX_MESSAGE_ID);
    case Send(i, block) =>
      DrawnOnce(s.started[i].messages, MAX_MESSAGE_ID, block, s.started[i].sent);
      assert ActionIds(s'.started) == ActionIds(s.started);
  }

  lemma EmptyPool(max: nat)
    ensures EachOnce(Pool(0, []), max, [])
  {
  }

  lemma {:induction false} RunKeeps(s: State, events: seq<Event>)
    requires Inv(s) && IsRun(s, events) && WithinLimits(Final(s, events))
    ensures Inv(Final(s, events))
    decreases |events|
  {
    hide Inv, WithinLimits, Enabled, Step;
    if events != [] {
      RunGrows(Step(s, events[0]), events[1..]);
      StepKeeps(s, events[0]);
      RunKeeps(Step(s, events[0]), events[1..]);
    }
  }

  lemma InitInv(block: seq<nat>)
    requires IsNextBlock(Pool(0, []), MAX_ACTION_ID, block)
    ensures Inv(Init(block))
  {
    hide Count;
    EmptyPool(MAX_ACTION_ID);
    RefillOnce(Pool(0, []), MAX_ACTION_ID, block, []);
  }

  /**
   In every run within the limits, whatever the shuffles, no two transaction ids are equal, and each
   maps back to the action it was generated for.
   */
  lemma IdsAreUnique(block: seq<nat>, events: seq<Event>, i: nat, k: nat, j: nat, l: nat)
    requires IsNextBlock(Pool(0, []), MAX_ACTION_ID, block) && IsRun(Init(block), events)
    requires WithinLimits(Final(Init(block), events))
    requires var s := Final(Init(block), events);
             i < |s.started| && k < |s.started[i].sent| && j < |s.started| && l < |s.started[j].sent|
    ensures var s := Final(Init(block), events);
            var id := Join(s.started[i].id, s.started[i].sent[k]);
            && ActionPart(id) == s.started[i].id && id < MAX_TRANSACTION_ID
            && (id == Join(s.started[j].id, s.started[j].sent[l]) <==> i == j && k == l)
  {
    hide EachOnce, WithinLimits, IsRun;
    var s := Final(Init(block), events);
    InitInv(block);
    RunKeeps(Init(block), events);
    var a, b := s.started[i], s.started[j];
    OnceIsDistinct(s.actions, MAX_ACTION_ID, ActionIds(s.started));
    OnceIsDistinct(a.messages, MAX_MESSAGE_ID, a.sent);
    OnceIsDistinct(b.messages, MAX_MESSAGE_ID, b.sent);
    assert ActionIds(s.started)[i] == a.id && ActionIds(s.started)[j] == b.id;
    PartsOfJoin(a.id, a.sent[k]);
    PartsOfJoin(b.id, b.sent[l]);
  }
}
