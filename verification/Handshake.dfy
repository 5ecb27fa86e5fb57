/**
 The BitTorrent handshake: its message (`bip_handshake/src/bittorrent/message.rs` and
 `bip_handshake/src/message/protocol.rs`) and the reader that takes it from a socket
 (`bip_handshake/src/bittorrent/framed.rs`).
 */
module Handshakes {
  import opened Basics

  const BT_PROTOCOL_LEN: byte := 19
  const NUM_EXTENSION_BYTES: nat := 8
  const INFO_HASH_LEN: nat := 20
  const PEER_ID_LEN: nat := 20

  /** "BitTorrent protocol" */
  function BtProtocol(): (r: seq<byte>)
    ensures |r| == BT_PROTOCOL_LEN
  {
    [66, 105, 116, 84, 111, 114, 114, 101, 110, 116, 32, 112, 114, 111, 116, 111, 99, 111, 108]
  }

  datatype Protocol = BitTorrent | Custom(name: seq<byte>)

  datatype HandshakeMessage = HandshakeMessage(prot: Protocol, ext: seq<byte>, hash: seq<byte>, pid: seq<byte>) {
    /** Fields of fixed size, and a protocol whose length fits a byte, which `from_parts` insists on. */
    predicate Valid() {
      && |ext| == NUM_EXTENSION_BYTES && |hash| == INFO_HASH_LEN && |pid| == PEER_ID_LEN
      && (prot.Custom? ==> |prot.name| <= 255)
    }
  }

  // ---------------------------------------------------------------------------------------------
  // The message
  // ---------------------------------------------------------------------------------------------

  function Name(p: Protocol): seq<byte> {
    if p.BitTorrent? then BtProtocol() else p.name
  }

  function WriteLen(protocolLen: byte): nat {
    1 + protocolLen + NUM_EXTENSION_BYTES + INFO_HASH_LEN + PEER_ID_LEN
  }

  function Written(m: HandshakeMessage): (r: seq<byte>)
    requires m.Valid()
    ensures |r| == WriteLen(|Name(m.prot)|)
  {
    [|Name(m.prot)|] + Name(m.prot) + m.ext + m.hash + m.pid
  }

  method WriteBytes(m: HandshakeMessage) returns (out: seq<byte>)
    requires m.Valid()
    ensures out == Written(m)
  {
    var name: seq<byte> := match m.prot case BitTorrent => BtProtocol() case Custom(name) => name;
    out := [|name|];
    out := out + name;
    out := out + m.ext;
    out := out + m.hash;
    out := out + m.pid;
  }

  datatype Parsed<+T> = Done(rest: seq<byte>, value: T) | Incomplete

  function Take(bytes: seq<byte>, n: nat): Parsed<seq<byte>> {
    if |bytes| < n then Incomplete else Done(bytes[n..], bytes[..n])
  }

  function ParseProtocol(bytes: seq<byte>): Parsed<Protocol> {
    if bytes == [] then Incomplete
    else
      match Take(bytes[1..], bytes[0])
      case Incomplete => Incomplete
      case Done(rest, name) => Done(rest, if name == BtProtocol() then BitTorrent else Custom(name))
  }

  function Parse(bytes: seq<byte>): Parsed<HandshakeMessage> {
    match ParseProtocol(bytes)
    case Incomplete => Incomplete
    case Done(rest, prot) =>
      match Take(rest, NUM_EXTENSION_BYTES)
      case Incomplete => Incomplete
      case Done(rest, ext) =>
        match Take(rest, INFO_HASH_LEN)
        case Incomplete => Incomplete
        case Done(rest, hash) =>
          match Take(rest, PEER_ID_LEN)
          case Incomplete => Incomplete
          case Done(rest, pid) => Done(rest, HandshakeMessage(prot, ext, hash, pid))
  }

  lemma TakeFrom(bytes: seq<byte>, from: nat, n: nat)
    requires from + n <= |bytes|
    ensures Take(bytes[from..], n) == Done(bytes[from + n..], bytes[from..from + n])
  {
    assert bytes[from..][n..] == bytes[from + n..] && bytes[from..][..n] == bytes[from..from + n];
  }

  /** The fields lie one behind the other. */
  lemma ParseFields(bytes: seq<byte>)
    requires bytes != [] && |bytes| >= WriteLen(bytes[0])
    ensures var n := bytes[0];
            var name := bytes[1..n + 1];
            Parse(bytes) == Done(bytes[n + 49..],
                                 HandshakeMessage(if name == BtProtocol() then BitTorrent else Custom(name),
                                                  bytes[n + 1..n + 9], bytes[n + 9..n + 29], bytes[n + 29..n + 49]))
  {
    hide Take, BtProtocol;
    var n: nat := bytes[0];
    TakeFrom(bytes, 1, n);
    TakeFrom(bytes, n + 1, NUM_EXTENSION_BYTES);
    TakeFrom(bytes, n + 9, INFO_HASH_LEN);
    TakeFrom(bytes, n + 29, PEER_ID_LEN);
  }

  /** Parsing takes exactly the length that the first byte announces, and what it took is what writing gives. */
  lemma ParseExact(bytes: seq<byte>)
    requires bytes != []
    ensures Parse(bytes).Done? <==> |bytes| >= WriteLen(bytes[0])
    ensures Parse(bytes).Done? ==>
              && Parse(bytes).rest == bytes[WriteLen(bytes[0])..] && Parse(bytes).value.Valid()
              && Written(Parse(bytes).value) == bytes[..WriteLen(bytes[0])]
  {
    hide BtProtocol;
    if |bytes| >= WriteLen(bytes[0]) {
      ParseFields(bytes);
      FieldsWritten(bytes);
    }
  }

  lemma FieldsWritten(bytes: seq<byte>)
    requires bytes != [] && |bytes| >= WriteLen(bytes[0])
    ensures var n := bytes[0];
            bytes[..WriteLen(n)]
            == [n] + bytes[1..n + 1] + bytes[n + 1..n + 9] + bytes[n + 9..n + 29] + bytes[n + 29..n + 49]
  {
  }

  /** A custom protocol that is spelled like the standard one. */
  predicate Disguised(m: HandshakeMessage) {
    m.prot == Custom(BtProtocol())
  }

  /** A written message is parsed to itself alone, unless its protocol is the standard one in disguise. */
  lemma RoundTrip(m: HandshakeMessage, rest: seq<byte>)
    requires m.Valid()
    ensures var r := Parse(Written(m) + rest);
            && r.Done? && r.rest == rest && r.value == m.(prot := if Disguised(m) then BitTorrent else m.prot)
            && (r.value == m <==> !Disguised(m))
  {
    var name := Name(m.prot);
    var bytes := Written(m) + rest;
    var b := bytes[1..];
    assert b == name + m.ext + m.hash + m.pid + rest;
    var n := |name|;
    assert b[..n] == name && b[n..] == m.ext + m.hash + m.pid + rest;
    assert b[n..][..8] == m.ext && b[n..][8..] == m.hash + m.pid + rest;
    assert b[n..][8..][..20] == m.hash && b[n..][8..][20..] == m.pid + rest;
    assert b[n..][8..][20..][..20] == m.pid && b[n..][8..][20..][20..] == rest;
  }

  /** For instance, a message of zeros that names its protocol so. */
  lemma DisguiseIsLost()
    ensures var m := HandshakeMessage(Custom(BtProtocol()), Zeros(8), Zeros(20), Zeros(20));
            m.Valid() && Parse(Written(m)) == Done([], m.(prot := BitTorrent))
  {
    var m := HandshakeMessage(Custom(BtProtocol()), Zeros(8), Zeros(20), Zeros(20));
    RoundTrip(m, []);
    assert Written(m) + [] == Written(m);
  }

  function Zeros(n: nat): seq<byte> {
    seq(n, _ => 0)
  }

  // ---------------------------------------------------------------------------------------------
  // The reader
  // ---------------------------------------------------------------------------------------------

  datatype Phase = Waiting | Length(length: byte) | Finished

  datatype Outcome = Item(message: HandshakeMessage) | End | Pending | IoError

  /** How much of the buffer is filled, and the buffer. */
  datatype Reader = Reader(phase: Phase, buffer: seq<byte>, pos: nat)

  /** What the socket answers to a read: nothing yet, an error, or at most so many bytes. */
  datatype Answer = NotReady | Broken | Offer(bytes: nat)

  /** The answers to the reads of one poll. After the last one it has nothing yet. */
  type Script = seq<Answer>

  function New(): Reader {
    Reader(Waiting, [0], 0)
  }

  function Min(a: nat, b: nat): nat {
    if a <= b then a else b
  }

  /** How many bytes a read into a buffer with the given room yields. */
  function Yield(offer: nat, room: nat, incoming: seq<byte>): (n: nat)
    ensures n <= room && n <= |incoming|
  {
    Min(offer, Min(room, |incoming|))
  }

  /** The reader after a read of at least one byte. */
  function Fed(r: Reader, bytes: seq<byte>): (r': Reader)
    requires bytes != [] && !r.phase.Finished? && r.pos + |bytes| <= |r.buffer|
  {
    if r.phase.Waiting? then
      var length := bytes[0];
      Reader(Length(length), [length] + seq(WriteLen(length) - 1, _ => 0), 1)
    else r.(buffer := r.buffer[..r.pos] + bytes + r.buffer[r.pos + |bytes|..], pos := r.pos + |bytes|)
  }

  ghost predicate Shaped(r: Reader) {
    match r.phase
    case Waiting => |r.buffer| == 1 && r.pos == 0
    case Length(n) => |r.buffer| == WriteLen(n) && 1 <= r.pos <= |r.buffer|
    case Finished => true
  }

  predicate Full(r: Reader) {
    r.phase.Length? && r.pos == WriteLen(r.phase.length)
  }

  /**
   One poll. The answers are the reader and the socket's remaining bytes afterwards and what is returned;
   the panics of the original are absent, since `PollKeeps` finds no way to them.
   */
  ghost function Poll(r: Reader, incoming: seq<byte>, script: Script): (Reader, seq<byte>, Option<Outcome>)
    requires Shaped(r)
    decreases |script|
  {
    if r.phase.Finished? then (r, incoming, Some(End))
    else if Full(r) then
      match Parse(r.buffer)
      case Done(_, m) => (r.(phase := Finished), incoming, Some(Item(m)))
      case Incomplete => (r, incoming, None)
    else if script == [] || script[0].NotReady? then (r, incoming, Some(Pending))
    else if script[0].Broken? then (r, incoming, Some(IoError))
    else
      var n := Yield(script[0].bytes, |r.buffer| - r.pos, incoming);
      if n == 0 then (r, incoming, Some(End))
      else Poll(Fed(r, incoming[..n]), incoming[n..], script[1..])
  }

  lemma PollCases(r: Reader, incoming: seq<byte>, script: Script)
    requires Shaped(r)
    ensures Poll(r, incoming, script) ==
            if r.phase.Finished? then (r, incoming, Some(End))
            else if Full(r) then
              if Parse(r.buffer).Done? then (r.(phase := Finished), incoming, Some(Item(Parse(r.buffer).value)))
              else (r, incoming, None)
            else if script == [] || script[0].NotReady? then (r, incoming, Some(Pending))
            else if script[0].Broken? then (r, incoming, Some(IoError))
            else
              var n := Yield(script[0].bytes, |r.buffer| - r.pos, incoming);
              if n == 0 then (r, incoming, Some(End))
              else Poll(Fed(r, incoming[..n]), incoming[n..], script[1..])
  {
    hide Parse, Yield;
  }

  lemma FedCases(r: Reader, bytes: seq<byte>)
    requires bytes != [] && !r.phase.Finished? && r.pos + |bytes| <= |r.buffer| && Shaped(r)
    ensures r.phase.Waiting? ==>
              Fed(r, bytes) == Reader(Length(bytes[0]), [bytes[0]] + seq(WriteLen(bytes[0]) - 1, _ => 0), 1)
    ensures r.phase.Length? ==>
              Fed(r, bytes) ==
                r.(buffer := r.buffer[..r.pos] + bytes + r.buffer[r.pos + |bytes|..], pos := r.pos + |bytes|)
    ensures Shaped(Fed(r, bytes))
  {
  }

  class Socket {
    var incoming: seq<byte>
    var script: Script

    constructor (incoming: seq<byte>, script: Script)
      ensures this.incoming == incoming && this.script == script
    {
      this.incoming, this.script := incoming, script;
    }

    /** Reads into the buffer from the given position on; how many bytes, if there is an offer. */
    method ReadBuf(buffer: array<byte>, from: nat) returns (r: Answer)
      requires from <= buffer.Length
      modifies this, buffer
      ensures old(script) == [] || old(script)[0].NotReady? ==> r.NotReady?
      ensures old(script) != [] && old(script)[0].Broken? ==> r.Broken?
      ensures !r.Offer? ==> incoming == old(incoming) && buffer[..] == old(buffer[..])
      ensures old(script) != [] && old(script)[0].Offer? ==>
                && r == Offer(Yield(old(script)[0].bytes, buffer.Length - from, old(incoming)))
                && script == old(script)[1..] && incoming == old(incoming)[r.bytes..]
                && buffer[..] == old(buffer[..from]) + old(incoming)[..r.bytes] + old(buffer[from + r.bytes..])
    {
      if script == [] { return NotReady; }
      var answer := script[0];
      script := script[1..];
      if !answer.Offer? { return answer; }
      var n := Yield(answer.bytes, buffer.Length - from, incoming);
      ghost var was := buffer[..];
      for i := 0 to n
        invariant incoming == old(incoming) && script == old(script)[1..]
        invariant buffer[..] == was[..from] + incoming[..i] + was[from + i..]
      {
        buffer[from + i] := incoming[i];
      }
      incoming := incoming[n..];
      return Offer(n);
    }
  }

  class FramedHandshake {
    const sock: Socket
    var readBuffer: array<byte>
    var readPos: nat
    var phase: Phase

    ghost function View(): Reader
      reads this, readBuffer
    {
      Reader(phase, readBuffer[..], readPos)
    }

    constructor (sock: Socket)
      ensures this.sock == sock && fresh(readBuffer) && View() == New()
    {
      this.sock := sock;
      readBuffer := new byte[1](_ => 0);
      readPos, phase := 0, Waiting;
      new;
      assert readBuffer[..] == [0];
    }

    method PollNext() returns (outcome: Option<Outcome>)
      requires Shaped(View())
      modifies this, readBuffer, sock
      ensures readBuffer == old(readBuffer) || fresh(readBuffer)
      ensures Shaped(View())
      ensures (View(), sock.incoming, outcome) == Poll(old(View()), old(sock.incoming), old(sock.script))
    {
      hide Parse, Yield, Poll, Fed;
      while true
        invariant readBuffer == old(readBuffer) || fresh(readBuffer)
        invariant Shaped(View())
        invariant Poll(View(), sock.incoming, sock.script) ==
                    Poll(old(View()), old(sock.incoming), old(sock.script))
        decreases |sock.script|
      {
        PollCases(View(), sock.incoming, sock.script);
        if phase.Finished? { return Some(End); }
        if phase.Length? && readPos == WriteLen(phase.length) {
          var parsed := Parse(readBuffer[..]);
          if parsed.Incomplete? { return None; }
          phase := Finished;
          return Some(Item(parsed.value));
        }
        var read := ReadMore();
        if read.NotReady? { return Some(Pending); }
        if read.Broken? { return Some(IoError); }
        if read.bytes == 0 { return Some(End); }
      }
    }

    /** One read of the socket, and what the reader makes of it. */
    method ReadMore() returns (read: Answer)
      requires Shaped(View()) && !phase.Finished? && !Full(View())
      modifies this, readBuffer, sock
      ensures readBuffer == old(readBuffer) || fresh(readBuffer)
      ensures old(sock.script) == [] || old(sock.script)[0].NotReady? ==> read.NotReady?
      ensures old(sock.script) != [] && old(sock.script)[0].Broken? ==> read.Broken?
      ensures !read.Offer? || read.bytes == 0 ==> View() == old(View()) && sock.incoming == old(sock.incoming)
      ensures old(sock.script) != [] && old(sock.script)[0].Offer? ==>
                && read ==
                     Offer(Yield(old(sock.script)[0].bytes, |old(View()).buffer| - old(readPos), old(sock.incoming)))
                && sock.script == old(sock.script)[1..] && sock.incoming == old(sock.incoming)[read.bytes..]
                && (read.bytes > 0 ==> Shaped(View()) && View() == Fed(old(View()), old(sock.incoming)[..read.bytes]))
    {
      hide Yield, Fed;
      ghost var r, incoming := View(), sock.incoming;
      read := sock.ReadBuf(readBuffer, readPos);
      if !read.Offer? || read.bytes == 0 {
        assert readBuffer[..] == r.buffer;
        return;
      }
      FedCases(r, incoming[..read.bytes]);
      if phase.Waiting? {
        var length := readBuffer[0];
        phase := Length(length);
        readPos := 1;
        readBuffer := new byte[WriteLen(length)](_ => 0);
        readBuffer[0] := length;
        assert readBuffer[..] == [length] + seq(WriteLen(length) - 1, _ => 0);
      } else {
        readPos := readPos + read.bytes;
      }
    }
  }

  // ---------------------------------------------------------------------------------------------
  // Exactly the handshake is read
  // ---------------------------------------------------------------------------------------------

  /** How many bytes of the stream the handshake takes. */
  function HandshakeLen(stream: seq<byte>): nat
    requires stream != []
  {
    WriteLen(stream[0])
  }

  /** The reader has taken the first bytes of the stream, and the socket has all the others. */
  ghost predicate Consistent(r: Reader, stream: seq<byte>, incoming: seq<byte>) {
    && Shaped(r)
    && match r.phase
       case Waiting => incoming == stream
       case Length(n) =>
         && r.pos <= |stream| && incoming == stream[r.pos..] && n == stream[0]
         && r.buffer[..r.pos] == stream[..r.pos]
       case Finished => stream != [] && HandshakeLen(stream) <= |stream| && incoming == stream[HandshakeLen(stream)..]
  }

  lemma FedConsistent(r: Reader, stream: seq<byte>, incoming: seq<byte>, n: nat)
    requires Consistent(r, stream, incoming) && !r.phase.Finished? && !Full(r)
    requires 1 <= n <= |incoming| && n <= |r.buffer| - r.pos
    ensures Consistent(Fed(r, incoming[..n]), stream, incoming[n..])
  {
    var r' := Fed(r, incoming[..n]);
    if r.phase.Waiting? {
      assert r'.buffer[..1] == stream[..1];
    } else {
      assert r'.buffer[..r'.pos] == r.buffer[..r.pos] + incoming[..n] == stream[..r'.pos];
      assert stream[r.pos..][n..] == stream[r.pos + n..];
    }
  }

  /** What one poll does: keeps the reader consistent, never panics, and yields only the whole handshake. */
  lemma {:induction false} PollKeeps(r: Reader, stream: seq<byte>, incoming: seq<byte>, script: Script)
    requires Consistent(r, stream, incoming)
    ensures var (r', incoming', outcome) := Poll(r, incoming, script);
            && Consistent(r', stream, incoming') && outcome.Some?
            && (r.phase.Finished? ==> r' == r && incoming' == incoming && outcome == Some(End))
            && (r'.phase.Finished? && !r.phase.Finished? <==> outcome.value.Item?)
            && (outcome.value.Item? ==> Parse(stream) == Done(incoming', outcome.value.message))
    decreases |script|
  {
    hide Fed, Parse;
    if r.phase.Finished? {
    } else if Full(r) {
      FullParses(r, stream, incoming);
    } else if script != [] && script[0].Offer? {
      var n := Yield(script[0].bytes, |r.buffer| - r.pos, incoming);
      if n > 0 {
        FedConsistent(r, stream, incoming, n);
        FedUnfinished(r, incoming[..n]);
        PollKeeps(Fed(r, incoming[..n]), stream, incoming[n..], script[1..]);
      }
    }
  }

  lemma FedUnfinished(r: Reader, bytes: seq<byte>)
    requires bytes != [] && !r.phase.Finished? && r.pos + |bytes| <= |r.buffer|
    ensures Fed(r, bytes).phase.Length?
  {
  }

  lemma FullParses(r: Reader, stream: seq<byte>, incoming: seq<byte>)
    requires Consistent(r, stream, incoming) && Full(r)
    ensures Parse(r.buffer).Done? && Parse(stream) == Done(incoming, Parse(r.buffer).value)
    ensures stream != [] && HandshakeLen(stream) <= |stream| && incoming == stream[HandshakeLen(stream)..]
  {
    hide Parse, Written;
    var n := WriteLen(r.phase.length);
    assert r.buffer == r.buffer[..n] == stream[..n];
    ParseExact(r.buffer);
    ParseExact(stream);
    var m := Parse(r.buffer).value;
    assert r.buffer[..n] == r.buffer && r.buffer[n..] == [];
    assert stream == stream[..n] + incoming;
    RoundTrip(m, []);
    RoundTrip(m, incoming);
    assert Written(m) + [] == r.buffer && Written(m) + incoming == stream;
  }

  /** Polling again and again, with any answers of the socket. */
  ghost function Polls(r: Reader, incoming: seq<byte>, scripts: seq<Script>): (Reader, seq<byte>, seq<Option<Outcome>>)
    requires Shaped(r)
    decreases |scripts|
  {
    if scripts == [] then (r, incoming, [])
    else
      var (r', incoming', outcome) := Poll(r, incoming, scripts[0]);
      PollShaped(r, incoming, scripts[0]);
      var (r'', incoming'', outcomes) := Polls(r', incoming', scripts[1..]);
      (r'', incoming'', [outcome] + outcomes)
  }

  lemma {:induction false} PollShaped(r: Reader, incoming: seq<byte>, script: Script)
    requires Shaped(r)
    ensures Shaped(Poll(r, incoming, script).0)
    decreases |script|
  {
    hide Parse;
    if !r.phase.Finished? && !Full(r) && script != [] && script[0].Offer? {
      var n := Yield(script[0].bytes, |r.buffer| - r.pos, incoming);
      if n > 0 { PollShaped(Fed(r, incoming[..n]), incoming[n..], script[1..]); }
    }
  }

  /**
   For every fragmentation of the stream over any number of polls: no poll panics; no byte behind the
   handshake is ever taken from the socket; and whatever message is yielded is the one the stream begins
   with, all of its bytes having been taken.
   */
  lemma {:induction false} EveryFragmentation(r: Reader, stream: seq<byte>, incoming: seq<byte>, scripts: seq<Script>)
    requires Consistent(r, stream, incoming)
    ensures var (r', incoming', outcomes) := Polls(r, incoming, scripts);
            && Consistent(r', stream, incoming')
            && (stream != [] ==> |stream| - |incoming'| <= HandshakeLen(stream))
            && forall i :: 0 <= i < |outcomes| ==>
                 && outcomes[i].Some?
                 && (outcomes[i].value.Item? ==>
                       && !r.phase.Finished? && r'.phase.Finished?
                       && Parse(stream) == Done(incoming', outcomes[i].value.message))
    decreases |scripts|
  {
    hide Poll, Parse;
    if scripts != [] {
      PollKeeps(r, stream, incoming, scripts[0]);
      var (r1, incoming1, outcome) := Poll(r, incoming, scripts[0]);
      EveryFragmentation(r1, stream, incoming1, scripts[1..]);
      if outcome.value.Item? { FinishedStays(r1, incoming1, scripts[1..]); }
    }
  }

  lemma {:induction false} FinishedStays(r: Reader, incoming: seq<byte>, scripts: seq<Script>)
    requires r.phase.Finished?
    ensures Polls(r, incoming, scripts).0 == r && Polls(r, incoming, scripts).1 == incoming
    decreases |scripts|
  {
    if scripts != [] { FinishedStays(r, incoming, scripts[1..]); }
  }

  /** Who reads what was written gets the message, and the socket still has all that follows it. */
  lemma WrittenIsRead(m: HandshakeMessage, rest: seq<byte>, scripts: seq<Script>, i: nat)
    requires m.Valid()
    requires var outcomes := Polls(New(), Written(m) + rest, scripts).2;
             i < |outcomes| && outcomes[i].Some? && outcomes[i].value.Item?
    ensures var (r, incoming, outcomes) := Polls(New(), Written(m) + rest, scripts);
            && incoming == rest && (outcomes[i].value.message == m <==> !Disguised(m))
  {
    hide Parse, Polls;
    EveryFragmentation(New(), Written(m) + rest, Written(m) + rest, scripts);
    RoundTrip(m, rest);
  }

  /** As long as the socket gives something at every read, a poll with enough reads yields the message. */
  lemma {:induction false} EnoughReadsYield(r: Reader, stream: seq<byte>, incoming: seq<byte>, script: Script)
    requires Consistent(r, stream, incoming) && !r.phase.Finished? && stream != [] && HandshakeLen(stream) <= |stream|
    requires forall i :: 0 <= i < |script| ==> script[i].Offer? && script[i].bytes > 0
    requires |script| >= HandshakeLen(stream) - r.pos
    ensures var outcome := Poll(r, incoming, script).2; outcome.Some? && outcome.value.Item?
    decreases |script|
  {
    hide Parse;
    if Full(r) {
      FullParses(r, stream, incoming);
    } else {
      var n := Yield(script[0].bytes, |r.buffer| - r.pos, incoming);
      FedConsistent(r, stream, incoming, n);
      EnoughReadsYield(Fed(r, incoming[..n]), stream, incoming[n..], script[1..]);
    }
  }
}
