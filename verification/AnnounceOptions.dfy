/** The options of a UDP tracker announce (`bip_utracker/src/option.rs`, BEP 41). */
module AnnounceOptions {
  import opened Basics

  const END_OF_OPTIONS: byte := 0
  const NO_OPERATION: byte := 1
  const MAX_CHUNK: nat := 255

  type RawOptions = map<byte, seq<byte>>

  // ---------------------------------------------------------------------------------------------
  // Writing
  // ---------------------------------------------------------------------------------------------

  /** The contents in chunks of at most 255 bytes, each behind the option byte and its length. */
  function WriteChunks(option: byte, contents: seq<byte>): (r: seq<byte>)
    decreases |contents|
  {
    if contents == [] then []
    else
      var n := if |contents| < MAX_CHUNK then |contents| else MAX_CHUNK;
      [option, n] + contents[..n] + WriteChunks(option, contents[n..])
  }

  /** All options, in the order in which the map is iterated. */
  function Body(options: RawOptions, order: seq<byte>): (r: seq<byte>)
    requires forall k :: k in order ==> k in options
  {
    if order == [] then [] else WriteChunks(order[0], options[order[0]]) + Body(options, order[1..])
  }

  /** The keys of the map, each once. */
  ghost predicate IsOrder(options: RawOptions, order: seq<byte>) {
    && (forall k :: k in order <==> k in options)
    && (forall i, j :: 0 <= i < j < |order| ==> order[i] != order[j])
  }

  /**
   Writes to a buffer with the given room. The end mark is left out where there is no room for it; an
   error means that the options did not fit.
   */
  method WriteBytes(options: RawOptions, order: seq<byte>, room: nat) returns (written: Option<seq<byte>>)
    requires IsOrder(options, order)
    ensures var body := Body(options, order);
            written == if |body| > room then None else Some(if |body| < room then body + [END_OF_OPTIONS] else body)
  {
    hide Body, WriteChunks, IsOrder;
    var out: seq<byte> := [];
    WholeBody(options, order);
    for i := 0 to |order|
      invariant out == Body(options, order[..i]) && |out| <= room
    {
      BodyNext(options, order, i);
      var more := WriteOption(out, order[i], options[order[i]], room);
      if more.None? { return None; }
      out := more.value;
    }
    if |out| < room { out := out + [END_OF_OPTIONS]; }
    return Some(out);
  }

  lemma WholeBody(options: RawOptions, order: seq<byte>)
    requires IsOrder(options, order)
    ensures forall k :: k in order ==> k in options
    ensures Body(options, order[..0]) == [] && order[..|order|] == order
  {
  }

  lemma {:induction false} BodyJoin(options: RawOptions, a: seq<byte>, b: seq<byte>)
    requires forall k :: k in a + b ==> k in options
    ensures (forall k :: k in a ==> k in options) && (forall k :: k in b ==> k in options)
    ensures Body(options, a + b) == Body(options, a) + Body(options, b)
  {
    hide WriteChunks;
    assert forall k :: k in b ==> k in a + b;
    assert forall k :: k in a ==> k in a + b;
    if a == [] {
      assert a + b == b && [] + Body(options, b) == Body(options, b);
    } else {
      assert (a + b)[1..] == a[1..] + b;
      BodyJoin(options, a[1..], b);
      OutGrows(WriteChunks(a[0], options[a[0]]), Body(options, a[1..]), Body(options, b));
    }
  }

  /** Writing one option more, and what is written is never longer than the whole. */
  lemma BodyNext(options: RawOptions, order: seq<byte>, i: nat)
    requires i < |order| && forall k :: k in order ==> k in options
    ensures order[i] in options
    ensures Body(options, order[..i + 1]) == Body(options, order[..i]) + WriteChunks(order[i], options[order[i]])
    ensures |Body(options, order[..i + 1])| <= |Body(options, order)|
  {
    hide WriteChunks;
    assert order[..i + 1] == order[..i] + [order[i]];
    BodyJoin(options, order[..i], [order[i]]);
    assert [order[i]][1..] == [];
    assert WriteChunks(order[i], options[order[i]]) + [] == WriteChunks(order[i], options[order[i]]);
    assert order == order[..i + 1] + order[i + 1..];
    BodyJoin(options, order[..i + 1], order[i + 1..]);
  }

  /** The inner loop: the chunks of one option behind what is written already. */
  method WriteOption(before: seq<byte>, option: byte, contents: seq<byte>, room: nat) returns (r: Option<seq<byte>>)
    requires |before| <= room
    ensures var after := before + WriteChunks(option, contents); r == if |after| > room then None else Some(after)
  {
    hide WriteChunks;
    var out: seq<byte> := before;
    var pos := 0;
    ghost var all := before + WriteChunks(option, contents);
    assert contents[0..] == contents;
    while pos < |contents|
      invariant pos <= |contents| && |out| <= room
      invariant out + WriteChunks(option, contents[pos..]) == all
    {
      var n := if |contents| - pos < MAX_CHUNK then |contents| - pos else MAX_CHUNK;
      var chunk := contents[pos..pos + n];
      NextChunk(option, contents, pos);
      OutGrows(out, [option, n] + chunk, WriteChunks(option, contents[pos + n..]));
      if |out| + 2 + n > room { return None; }
      out := out + ([option, n] + chunk);
      pos := pos + n;
    }
    WriteNothing(option);
    assert contents[pos..] == [] && out + [] == out;
    return Some(out);
  }

  lemma OutGrows(out: seq<byte>, a: seq<byte>, b: seq<byte>)
    ensures out + (a + b) == (out + a) + b
  {
  }

  lemma NextChunk(option: byte, contents: seq<byte>, pos: nat)
    requires pos < |contents|
    ensures var n := if |contents| - pos < MAX_CHUNK then |contents| - pos else MAX_CHUNK;
            WriteChunks(option, contents[pos..]) ==
              ([option, n] + contents[pos..pos + n]) + WriteChunks(option, contents[pos + n..])
  {
    var n := if |contents| - pos < MAX_CHUNK then |contents| - pos else MAX_CHUNK;
    assert contents[pos..][..n] == contents[pos..pos + n] && contents[pos..][n..] == contents[pos + n..];
  }

  // ---------------------------------------------------------------------------------------------
  // Parsing
  // ---------------------------------------------------------------------------------------------

  datatype Parsed = Done(rest: seq<byte>, options: RawOptions) | Incomplete

  /** Contents found under an option are appended to those found before. */
  function Merged(options: RawOptions, option: byte, contents: seq<byte>): RawOptions {
    options[option := (if option in options then options[option] else []) + contents]
  }

  function Parse(bytes: seq<byte>, options: RawOptions): Parsed
    decreases |bytes|
  {
    if bytes == [] then Done([], options)
    else if bytes[0] == END_OF_OPTIONS then Done(bytes[1..], options)
    else if bytes[0] == NO_OPERATION then Parse(bytes[1..], options)
    else if |bytes| < 2 || |bytes| - 2 < bytes[1] then Incomplete
    else Parse(bytes[2 + bytes[1]..], Merged(options, bytes[0], bytes[2..2 + bytes[1]]))
  }

  method ParseOptions(bytes: seq<byte>) returns (r: Parsed)
    ensures r == Parse(bytes, map[])
  {
    var curr := bytes;
    var options: RawOptions := map[];
    while curr != [] && curr[0] != END_OF_OPTIONS
      invariant Parse(curr, options) == Parse(bytes, map[])
      decreases |curr|
    {
      if curr[0] == NO_OPERATION {
        curr := curr[1..];
      } else {
        if |curr| < 2 || |curr| - 2 < curr[1] { return Incomplete; }
        options := Merged(options, curr[0], curr[2..2 + curr[1]]);
        curr := curr[2 + curr[1]..];
      }
    }
    r := if curr == [] then Done([], options) else Done(curr[1..], options);
  }

  // ---------------------------------------------------------------------------------------------
  // What was written is parsed
  // ---------------------------------------------------------------------------------------------

  lemma ParseChunk(option: byte, chunk: seq<byte>, rest: seq<byte>, options: RawOptions)
    requires option > NO_OPERATION && |chunk| <= MAX_CHUNK
    ensures Parse(([option, |chunk|] + chunk) + rest, options) == Parse(rest, Merged(options, option, chunk))
  {
    var bytes := ([option, |chunk|] + chunk) + rest;
    assert bytes[2..2 + |chunk|] == chunk && bytes[2 + |chunk|..] == rest;
  }

  lemma MergedTwice(options: RawOptions, option: byte, a: seq<byte>, b: seq<byte>)
    ensures Merged(Merged(options, option, a), option, b) == Merged(options, option, a + b)
  {
    var c := if option in options then options[option] else [];
    assert (c + a) + b == c + (a + b);
  }

  /** The chunks of one option are joined again. */
  lemma {:induction false} ParseChunks(option: byte, contents: seq<byte>, rest: seq<byte>, options: RawOptions)
    requires option > NO_OPERATION && contents != []
    ensures Parse(WriteChunks(option, contents) + rest, options) == Parse(rest, Merged(options, option, contents))
    decreases |contents|
  {
    hide Parse, Merged;
    var n := if |contents| < MAX_CHUNK then |contents| else MAX_CHUNK;
    var chunk, later := contents[..n], contents[n..];
    var head, tail := [option, n] + chunk, WriteChunks(option, later);
    assert WriteChunks(option, contents) + rest == head + (tail + rest);
    ParseChunk(option, chunk, tail + rest, options);
    if later == [] {
      assert tail + rest == rest && contents == chunk;
    } else {
      ParseChunks(option, later, rest, Merged(options, option, chunk));
      MergedTwice(options, option, chunk, later);
      assert contents == chunk + later;
    }
  }

  /** What survives of the options whose keys come in the given order. */
  ghost function Kept(options: RawOptions, order: seq<byte>): RawOptions
    requires forall k :: k in order ==> k in options
  {
    map k | k in order && options[k] != [] :: options[k]
  }

  lemma MergedNew(options: RawOptions, option: byte, contents: seq<byte>)
    requires option !in options
    ensures Merged(options, option, contents) == options[option := contents]
  {
    assert [] + contents == contents;
  }

  lemma KeptSteps(options: RawOptions, order: seq<byte>, parsed: RawOptions)
    requires forall k :: k in order ==> k in options && k !in parsed
    requires forall i, j :: 0 <= i < j < |order| ==> order[i] != order[j]
    ensures order == [] ==> parsed + Kept(options, order) == parsed
    ensures order != [] ==>
              var k, later := order[0], order[1..];
              if options[k] == [] then Kept(options, order) == Kept(options, later)
              else parsed[k := options[k]] + Kept(options, later) == parsed + Kept(options, order)
  {
    if order != [] { assert order == [order[0]] + order[1..]; }
  }

  lemma {:induction false} ParseBody(options: RawOptions, order: seq<byte>, rest: seq<byte>, parsed: RawOptions)
    requires forall k :: k in order ==> k in options && k > NO_OPERATION && k !in parsed
    requires forall i, j :: 0 <= i < j < |order| ==> order[i] != order[j]
    ensures Parse(Body(options, order) + rest, parsed) == Parse(rest, parsed + Kept(options, order))
    decreases |order|
  {
    hide Parse, WriteChunks, Kept, Merged;
    KeptSteps(options, order, parsed);
    if order == [] {
      assert Body(options, order) + rest == rest;
    } else {
      var k, later := order[0], order[1..];
      var contents, body := options[k], Body(options, later);
      assert order == [k] + later;
      if contents == [] {
        WriteNothing(k);
        assert Body(options, order) == body;
        ParseBody(options, later, rest, parsed);
      } else {
        OutGrows(WriteChunks(k, contents), body, rest);
        ParseChunks(k, contents, body + rest, parsed);
        var parsed' := parsed[k := contents];
        MergedNew(parsed, k, contents);
        ParseBody(options, later, rest, parsed');
      }
    }
  }

  lemma WriteNothing(option: byte)
    ensures WriteChunks(option, []) == []
  {
  }

  /** No parsed map has the keys that mean something else. */
  lemma {:induction false} NoReservedKeys(bytes: seq<byte>, options: RawOptions)
    requires forall k :: k in options ==> k > NO_OPERATION
    ensures var r := Parse(bytes, options); r.Done? ==> forall k :: k in r.options ==> k > NO_OPERATION
    decreases |bytes|
  {
    if bytes != [] && bytes[0] != END_OF_OPTIONS {
      if bytes[0] == NO_OPERATION {
        NoReservedKeys(bytes[1..], options);
      } else if |bytes| >= 2 && |bytes| - 2 >= bytes[1] {
        NoReservedKeys(bytes[2 + bytes[1]..], Merged(options, bytes[0], bytes[2..2 + bytes[1]]));
      }
    }
  }

  /** No reserved option byte, and nothing empty. */
  predicate Writable(options: RawOptions) {
    forall k :: k in options ==> k > NO_OPERATION && options[k] != []
  }

  /**
   Whatever the order of iteration and wherever the buffer ends, what is written parses to the same
   options if and only if all their keys are at least 2 and none is empty. With an end mark, whatever
   follows it is left over.
   */
  lemma RoundTrip(options: RawOptions, order: seq<byte>, tail: seq<byte>)
    requires IsOrder(options, order)
    ensures var body := Body(options, order);
            && (Parse(body, map[]) == Done([], options) <==> Writable(options))
            && (Parse(body + ([END_OF_OPTIONS] + tail), map[]) == Done(tail, options) <==> Writable(options))
  {
    var body := Body(options, order);
    NoReservedKeys(body, map[]);
    NoReservedKeys(body + ([END_OF_OPTIONS] + tail), map[]);
    if forall k :: k in options ==> k > NO_OPERATION {
      WriteAll(options, order, tail);
    }
  }

  /** For instance an empty option, an option 0 or an option 1. */
  lemma SomeOptionsAreLost()
    ensures Parse(Body(map[2 := []], [2]), map[]) == Done([], map[])
    ensures Parse(Body(map[0 := [7]], [0]), map[]) == Done([1, 7], map[])
    ensures Parse(Body(map[1 := [7]], [1]), map[]).Incomplete?
  {
    BodyOfOne(2, []);
    BodyOfOne(0, [7]);
    BodyOfOne(1, [7]);
    assert [0, 1, 7][1..] == [1, 7];
    assert [1, 1, 7][1..] == [1, 7] && [1, 7][1..] == [7];
  }

  lemma BodyOfOne(option: byte, contents: seq<byte>)
    requires |contents| <= 1
    ensures Body(map[option := contents], [option]) == if contents == [] then [] else [option, 1, contents[0]]
  {
    var options := map[option := contents];
    assert [option][1..] == [] && Body(options, []) == [];
    if contents != [] {
      assert contents[..1] == contents && contents[1..] == [];
      assert WriteChunks(option, contents) == [option, 1] + contents + WriteChunks(option, []);
      assert WriteChunks(option, contents) + [] == [option, 1, contents[0]];
    }
  }

  lemma KeptAll(options: RawOptions, order: seq<byte>)
    requires IsOrder(options, order)
    ensures map[] + Kept(options, order) == map k | k in options && options[k] != [] :: options[k]
    ensures (forall k :: k in options ==> options[k] != []) <==>
              options == map k | k in options && options[k] != [] :: options[k]
  {
    if exists k :: k in options && options[k] == [] {
      var k :| k in options && options[k] == [];
      assert k !in Kept(options, order);
    }
  }

  /** With keys of at least 2, exactly the empty options are lost. */
  lemma WriteAll(options: RawOptions, order: seq<byte>, tail: seq<byte>)
    requires IsOrder(options, order) && forall k :: k in options ==> k > NO_OPERATION
    ensures var body := Body(options, order);
            var kept := map k | k in options && options[k] != [] :: options[k];
            && Parse(body, map[]) == Done([], kept)
            && Parse(body + ([END_OF_OPTIONS] + tail), map[]) == Done(tail, kept)
            && (kept == options <==> Writable(options))
  {
    hide Body, Kept;
    var body := Body(options, order);
    ParseBody(options, order, [], map[]);
    assert body + [] == body;
    ParseBody(options, order, [END_OF_OPTIONS] + tail, map[]);
    KeptAll(options, order);
    assert ([END_OF_OPTIONS] + tail)[1..] == tail;
  }
}
