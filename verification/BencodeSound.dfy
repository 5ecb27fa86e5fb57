/** Whatever the decoder accepts, under any options, is a value that the encoder and the decoder agree on. */
module BencodeSound {
  import opened Basics
  import opened Decimal
  import opened Bencode
  import opened BencodeRoundTrip
  import opened BencodeExact

  // ---------------------------------------------------------------------------------------------
  // Maps in key order
  // ---------------------------------------------------------------------------------------------

  /** Entries that came out of a map: in key order, with values at most `depth` deep. */
  ghost predicate SoundEntries(dict: seq<RefEntry>, depth: int) {
    && AscendingRefs(dict)
    && EntriesWellFormed(ToEntries(dict)) && EntriesSorted(ToEntries(dict)) && EntriesDepth(ToEntries(dict)) <= depth
  }

  ghost predicate Sound(v: Value, depth: int) {
    WellFormed(v) && KeysSorted(v) && Depth(v) <= depth
  }

  /** Insertion keeps a map in key order, unless the key is there already. */
  lemma {:induction false} MapInsertAscends(dict: seq<RefEntry>, e: RefEntry)
    requires AscendingRefs(dict) && !HasKey(dict, e.key)
    ensures AscendingRefs(MapInsert(dict, e))
  {
    hide KeyLess;
    if dict != [] {
      var first := dict[0];
      KeyOrder(e.key, first.key);
      if KeyLess(e.key, first.key) {
        forall j | 0 <= j < |dict| ensures KeyLess(e.key, dict[j].key) {
          if j > 0 { KeyTransitive(e.key, first.key, dict[j].key); }
        }
      } else {
        var rest := MapInsert(dict[1..], e);
        MapInsertAscends(dict[1..], e);
        forall j | 0 <= j < |rest| ensures KeyLess(first.key, rest[j].key) {
          assert rest[j] in rest;
          MapInsertMember(dict[1..], e, rest[j]);
        }
      }
    }
  }

  lemma ToEntriesStep(e: RefEntry, rest: seq<RefEntry>)
    ensures ToEntries([e] + rest) == [Entry(e.key, ToValue(e.value))] + ToEntries(rest)
    ensures ([Entry(e.key, ToValue(e.value))] + ToEntries(rest))[1..] == ToEntries(rest)
  {
    assert ([e] + rest)[1..] == rest;
  }

  /** What every entry of the map has, inserted ones have too. */
  lemma {:induction false} MapInsertSound(dict: seq<RefEntry>, e: RefEntry, depth: int)
    requires |e.key| <= I64_MAX && Sound(ToValue(e.value), depth)
    requires EntriesWellFormed(ToEntries(dict)) && EntriesSorted(ToEntries(dict))
    requires EntriesDepth(ToEntries(dict)) <= depth
    ensures var r := ToEntries(MapInsert(dict, e)); EntriesWellFormed(r) && EntriesSorted(r) && EntriesDepth(r) <= depth
  {
    hide KeyLess, WellFormed, KeysSorted, ToEntries, ToValue;
    if dict == [] || KeyLess(e.key, dict[0].key) {
      ToEntriesStep(e, dict);
    } else {
      assert dict == [dict[0]] + dict[1..];
      ToEntriesStep(dict[0], dict[1..]);
      MapInsertSound(dict[1..], e, depth);
      ToEntriesStep(dict[0], MapInsert(dict[1..], e));
    }
  }

  // ---------------------------------------------------------------------------------------------
  // Decoded values
  // ---------------------------------------------------------------------------------------------

  lemma BytesShort(bytes: seq<byte>, pos: nat)
    requires pos <= |bytes| && DecodeBytes(bytes, pos).Ok?
    ensures |DecodeBytes(bytes, pos).value| <= I64_MAX
  {
  }

  lemma IntInRange(bytes: seq<byte>, pos: nat, delim: byte)
    requires pos <= |bytes| && DecodeInt(bytes, pos, delim).Ok?
    ensures I64_MIN <= DecodeInt(bytes, pos, delim).value <= I64_MAX
  {
  }

  lemma AscendingIsDistinct(entries: seq<Entry>)
    requires Ascending(entries)
    ensures DistinctKeys(entries)
  {
    forall i, j | 0 <= i < j < |entries| ensures entries[i].key != entries[j].key {
      KeyOrder(entries[i].key, entries[j].key);
    }
  }

  lemma DictIsSound(dict: seq<RefEntry>, depth: int)
    requires SoundEntries(dict, depth)
    ensures Sound(Dict(ToEntries(dict)), depth + 1)
  {
    hide KeyLess;
    var entries := ToEntries(dict);
    assert Ascending(entries);
    AscendingIsDistinct(entries);
  }

  lemma {:induction false} ValueIsSound(bytes: seq<byte>, pos: nat, opts: DecodeOpt, depth: nat)
    requires pos <= |bytes| && Decode(bytes, pos, opts, depth).Ok?
    ensures Sound(ToValue(Decode(bytes, pos, opts, depth).value), opts.maxRecursion - depth)
    decreases |bytes| - pos, 0
  {
    hide DecodeInt, DecodeBytes, DecodeList, DecodeDict, SoundEntries, ToEntries, ToValues;
    if bytes[pos] == INT_START { IntInRange(bytes, pos + 1, BEN_END); }
    else if bytes[pos] == LIST_START { ItemsAreSound(bytes, pos + 1, opts, depth); }
    else if bytes[pos] == DICT_START {
      NoEntriesSound(opts.maxRecursion - depth - 1);
      EntriesAreSound(bytes, pos + 1, opts, depth, []);
      DictIsSound(DecodeDict(bytes, pos + 1, opts, depth, []).value, opts.maxRecursion - depth - 1);
    } else { BytesShort(bytes, pos); }
  }

  lemma NoEntriesSound(depth: int)
    requires depth >= 0
    ensures SoundEntries([], depth)
  {
  }

  lemma {:induction false} ItemsAreSound(bytes: seq<byte>, pos: nat, opts: DecodeOpt, depth: nat)
    requires pos <= |bytes| && DecodeList(bytes, pos, opts, depth).Ok? && depth < opts.maxRecursion
    ensures var items := ToValues(DecodeList(bytes, pos, opts, depth).value);
            ItemsWellFormed(items) && ItemsSorted(items) && ItemsDepth(items) <= opts.maxRecursion - depth - 1
    decreases |bytes| - pos, 1
  {
    hide Decode, WellFormed, KeysSorted;
    if bytes[pos] != BEN_END {
      var x := Decode(bytes, pos, opts, depth + 1);
      var xs := DecodeList(bytes, x.next, opts, depth);
      ListStep(bytes, pos, opts, depth, x, xs);
      ValueIsSound(bytes, pos, opts, depth + 1);
      ItemsAreSound(bytes, x.next, opts, depth);
      assert ([x.value] + xs.value)[1..] == xs.value;
      assert ([ToValue(x.value)] + ToValues(xs.value))[1..] == ToValues(xs.value);
    }
  }

  lemma {:induction false} EntriesAreSound(bytes: seq<byte>, pos: nat, opts: DecodeOpt, depth: nat, dict: seq<RefEntry>)
    requires pos <= |bytes| && DecodeDict(bytes, pos, opts, depth, dict).Ok? && depth < opts.maxRecursion
    requires SoundEntries(dict, opts.maxRecursion - depth - 1)
    ensures SoundEntries(DecodeDict(bytes, pos, opts, depth, dict).value, opts.maxRecursion - depth - 1)
    decreases |bytes| - pos, 1
  {
    hide Decode, DecodeBytes, MapInsert, Sound, WellFormed, KeysSorted;
    if bytes[pos] != BEN_END {
      var k := DecodeBytes(bytes, pos);
      var v := Decode(bytes, k.next, opts, depth + 1);
      var e := RefEntry(k.value, v.value);
      BytesShort(bytes, pos);
      ValueIsSound(bytes, k.next, opts, depth + 1);
      MapInsertAscends(dict, e);
      MapInsertSound(dict, e, opts.maxRecursion - depth - 1);
      EntriesAreSound(bytes, v.next, opts, depth, MapInsert(dict, e));
    }
  }

  /**
   Whatever was accepted, in whatever key order and with whatever signs, encodes to bytes that are
   accepted under the same options, to their end, as the same value, and that encode to themselves.
   */
  lemma AcceptedNormalizes(bytes: seq<byte>, opts: DecodeOpt)
    requires DecodeAll(bytes, opts).Ok?
    ensures var v := ToValue(DecodeAll(bytes, opts).value);
            var again := DecodeAll(Encode(v), opts);
            && again.Ok? && ToValue(again.value) == v && again.next == |Encode(v)|
            && Encode(ToValue(again.value)) == Encode(v)
  {
    hide Decode, Encode;
    ValueIsSound(bytes, 0, opts, 0);
    var v := ToValue(DecodeAll(bytes, opts).value);
    RoundTrip(v, opts);
    SortedIsCanonical(v);
  }
}
