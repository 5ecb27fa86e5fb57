/**
 The loops of the decoder and the encoder: `decode_list` and `decode_dict` fill a vector and a map
 step by step, and the encoder appends to a byte vector. Each is proved against the function that
 the properties are stated about.
 */
module BencodeLoops {
  import opened Basics
  import opened Decimal
  import opened Bencode
  import opened BencodeRoundTrip

  // ---------------------------------------------------------------------------------------------
  // Decoding
  // ---------------------------------------------------------------------------------------------

  method DecodeValue(bytes: seq<byte>, pos: nat, opts: DecodeOpt, depth: nat) returns (r: Result<Ref>)
    requires pos <= |bytes|
    ensures r == Decode(bytes, pos, opts, depth)
    decreases |bytes| - pos, 0
  {
    hide DecodeInt, DecodeBytes, DecodeList, DecodeDict;
    if depth >= opts.maxRecursion { return Err(InvalidRecursionExceeded(pos, depth)); }
    if pos == |bytes| { return Err(BytesEmpty(pos)); }
    if bytes[pos] == INT_START {
      var n := DecodeInt(bytes, pos + 1, BEN_END);
      r := if n.Ok? then Ok(IntRef(n.value, bytes[pos..n.next]), n.next) else Err(n.error);
    } else if bytes[pos] == LIST_START {
      var items := FillList(bytes, pos + 1, opts, depth);
      r := if items.Ok? then Ok(ListRef(items.value, bytes[pos..items.next]), items.next) else Err(items.error);
    } else if bytes[pos] == DICT_START {
      var dict := FillDict(bytes, pos + 1, opts, depth);
      r := if dict.Ok? then Ok(DictRef(dict.value, bytes[pos..dict.next]), dict.next) else Err(dict.error);
    } else if IsDigit(bytes[pos]) {
      var b := DecodeBytes(bytes, pos);
      r := if b.Ok? then Ok(BytesRef(b.value, bytes[pos..b.next]), b.next) else Err(b.error);
    } else {
      r := Err(InvalidByte(pos));
    }
  }

  /** What decoding a list gives when the items in `done` come before those still to be read. */
  ghost function After(done: seq<Ref>, rest: Result<seq<Ref>>): Result<seq<Ref>> {
    match rest
    case Err(e) => Err(e)
    case Ok(items, next) => Ok(done + items, next)
  }

  method FillList(bytes: seq<byte>, pos: nat, opts: DecodeOpt, depth: nat) returns (r: Result<seq<Ref>>)
    requires pos <= |bytes|
    ensures r == DecodeList(bytes, pos, opts, depth)
    decreases |bytes| - pos, 1
  {
    hide Decode;
    var list: seq<Ref> := [];
    var curr := pos;
    assert forall items: seq<Ref> {:trigger list + items} :: list + items == items;
    while curr < |bytes| && bytes[curr] != BEN_END
      invariant pos <= curr <= |bytes|
      invariant DecodeList(bytes, pos, opts, depth) == After(list, DecodeList(bytes, curr, opts, depth))
      decreases |bytes| - curr
    {
      var item := DecodeValue(bytes, curr, opts, depth + 1);
      if item.Err? { return Err(item.error); }
      ghost var rest := DecodeList(bytes, item.next, opts, depth);
      if rest.Ok? { Regroup(list, [item.value], rest.value); }
      list := list + [item.value];
      curr := item.next;
    }
    if curr == |bytes| { return Err(BytesEmpty(curr)); }
    assert list + [] == list;
    return Ok(list, curr + 1);
  }

  method FillDict(bytes: seq<byte>, pos: nat, opts: DecodeOpt, depth: nat) returns (r: Result<seq<RefEntry>>)
    requires pos <= |bytes|
    ensures r == DecodeDict(bytes, pos, opts, depth, [])
    decreases |bytes| - pos, 1
  {
    hide Decode, DecodeBytes, MapInsert;
    var dict: seq<RefEntry> := [];
    var curr := pos;
    while curr < |bytes| && bytes[curr] != BEN_END
      invariant pos <= curr <= |bytes|
      invariant DecodeDict(bytes, pos, opts, depth, []) == DecodeDict(bytes, curr, opts, depth, dict)
      decreases |bytes| - curr
    {
      var key := DecodeBytes(bytes, curr);
      if key.Err? { return Err(key.error); }
      if opts.checkKeySort && dict != [] && KeyLess(key.value, dict[|dict| - 1].key) {
        return Err(InvalidKeyOrdering(curr, key.value));
      }
      var value := DecodeValue(bytes, key.next, opts, depth + 1);
      if value.Err? { return Err(value.error); }
      if HasKey(dict, key.value) { return Err(InvalidKeyDuplicates(key.next, key.value)); }
      dict := MapInsert(dict, RefEntry(key.value, value.value));
      curr := value.next;
    }
    if curr == |bytes| { return Err(BytesEmpty(curr)); }
    return Ok(dict, curr + 1);
  }

  // ---------------------------------------------------------------------------------------------
  // Encoding
  // ---------------------------------------------------------------------------------------------

  /** A vector of bytes that is only ever appended to. */
  class ByteVec {
    var data: seq<byte>

    method EncodeInt(n: int)
      modifies this
      ensures data == old(data) + Encode(Int(n))
    {
      data := data + [INT_START];
      data := data + ToString(n);
      data := data + [BEN_END];
    }

    method EncodeBytes(b: seq<byte>)
      modifies this
      ensures data == old(data) + Bencode.EncodeBytes(b)
    {
      data := data + Digits(|b|);
      data := data + [BYTE_LEN_END];
      data := data + b;
    }

    method EncodeValue(v: Value)
      modifies this
      ensures data == old(data) + Encode(v)
      decreases Size(v), 1
    {
      match v
      case Int(n) => EncodeInt(n);
      case Bytes(b) => EncodeBytes(b);
      case List(items) => EncodeList(items);
      case Dict(entries) => EncodeDict(entries);
    }

    method EncodeList(items: seq<Value>)
      modifies this
      ensures data == old(data) + Encode(List(items))
      decreases Size(List(items)), 0
    {
      hide Encode, EncodeItems;
      ListParts(items);
      ghost var start := data + [LIST_START];
      data := data + [LIST_START];
      for i := 0 to |items|
        invariant data == start + EncodeItems(items[..i])
      {
        ItemSmaller(items, i);
        EncodeOneMoreItem(items, i);
        Regroup(start, EncodeItems(items[..i]), Encode(items[i]));
        EncodeValue(items[i]);
      }
      data := data + [BEN_END];
      Join(old(data), LIST_START, EncodeItems(items));
    }

    method EncodeDict(entries: seq<Entry>)
      modifies this
      ensures data == old(data) + Encode(Dict(entries))
      decreases Size(Dict(entries)), 0
    {
      hide Encode, Bencode.EncodeBytes, EncodeEntries, SortEntries;
      var sorted := SortEntries(entries);
      DictParts(entries);
      ghost var start := data + [DICT_START];
      data := data + [DICT_START];
      for i := 0 to |sorted|
        invariant data == start + EncodeEntries(sorted[..i])
      {
        ghost var k, v := Bencode.EncodeBytes(sorted[i].key), Encode(sorted[i].value);
        EntrySmaller(sorted, i);
        EncodeOneMoreEntry(sorted, i);
        Regroup(start, EncodeEntries(sorted[..i]), k);
        Regroup(start, EncodeEntries(sorted[..i]) + k, v);
        EncodeBytes(sorted[i].key);
        EncodeValue(sorted[i].value);
      }
      data := data + [BEN_END];
      Join(old(data), DICT_START, EncodeEntries(sorted));
    }
  }

  lemma ListParts(items: seq<Value>)
    ensures EncodeItems(items[..0]) == [] && items[..|items|] == items
    ensures Encode(List(items)) == [LIST_START] + EncodeItems(items) + [BEN_END]
  {
  }

  lemma DictParts(entries: seq<Entry>)
    ensures var sorted := SortEntries(entries);
            && EncodeEntries(sorted[..0]) == [] && sorted[..|sorted|] == sorted
            && Encode(Dict(entries)) == [DICT_START] + EncodeEntries(sorted) + [BEN_END]
  {
  }

  lemma Join(before: seq<byte>, mark: byte, body: seq<byte>)
    ensures ((before + [mark]) + body) + [BEN_END] == before + (([mark] + body) + [BEN_END])
  {
  }

  lemma {:induction false} ItemSmaller(items: seq<Value>, i: nat)
    requires i < |items|
    ensures Size(items[i]) < ItemsSize(items)
  {
    if i > 0 { ItemSmaller(items[1..], i - 1); }
  }

  lemma {:induction false} EntrySmaller(entries: seq<Entry>, i: nat)
    requires i < |entries|
    ensures Size(entries[i].value) < EntriesSize(entries)
  {
    if i > 0 { EntrySmaller(entries[1..], i - 1); }
  }

  lemma {:induction false} EncodeOneMoreItem(items: seq<Value>, i: nat)
    requires i < |items|
    ensures EncodeItems(items[..i + 1]) == EncodeItems(items[..i]) + Encode(items[i])
    decreases i
  {
    hide Encode;
    if i == 0 {
      assert items[..1][1..] == [] && items[..0] == [];
      assert Encode(items[0]) + [] == [] + Encode(items[0]);
    } else {
      var rest := items[1..];
      EncodeOneMoreItem(rest, i - 1);
      assert items[..i + 1][1..] == rest[..i] && items[..i][1..] == rest[..i - 1];
      Regroup(Encode(items[0]), EncodeItems(rest[..i - 1]), Encode(items[i]));
    }
  }

  lemma {:induction false} EncodeOneMoreEntry(entries: seq<Entry>, i: nat)
    requires i < |entries|
    ensures EncodeEntries(entries[..i + 1])
            == EncodeEntries(entries[..i]) + Bencode.EncodeBytes(entries[i].key) + Encode(entries[i].value)
    decreases i
  {
    hide Encode, Bencode.EncodeBytes;
    var k, v := Bencode.EncodeBytes(entries[i].key), Encode(entries[i].value);
    if i == 0 {
      assert entries[..1][1..] == [] && entries[..0] == [];
      assert (k + v) + [] == ([] + k) + v;
    } else {
      var rest := entries[1..];
      EncodeOneMoreEntry(rest, i - 1);
      assert entries[..i + 1][1..] == rest[..i] && entries[..i][1..] == rest[..i - 1];
      var first, others := Bencode.EncodeBytes(entries[0].key) + Encode(entries[0].value), EncodeEntries(rest[..i - 1]);
      Regroup(first, others + k, v);
      Regroup(first, others, k);
    }
  }
}
