/** Decoding what was encoded. */
module BencodeRoundTrip {
  import opened Basics
  import opened Decimal
  import opened Bencode

  // ---------------------------------------------------------------------------------------------
  // Keys
  // ---------------------------------------------------------------------------------------------

  lemma {:induction false} KeyOrder(a: Key, b: Key)
    ensures !KeyLess(a, a)
    ensures KeyLess(a, b) ==> !KeyLess(b, a)
    ensures a == b || KeyLess(a, b) || KeyLess(b, a)
  {
    if a != [] { KeyOrder(a[1..], if b == [] then [] else b[1..]); }
    if a != [] && b != [] {
      assert a == [a[0]] + a[1..] && b == [b[0]] + b[1..];
    }
  }

  lemma {:induction false} KeyTransitive(a: Key, b: Key, c: Key)
    requires KeyLess(a, b) && KeyLess(b, c)
    ensures KeyLess(a, c)
  {
    if a != [] && a[0] == b[0] == c[0] { KeyTransitive(a[1..], b[1..], c[1..]); }
  }

  ghost predicate Ascending(entries: seq<Entry>) {
    forall i, j :: 0 <= i < j < |entries| ==> KeyLess(entries[i].key, entries[j].key)
  }

  ghost predicate DistinctKeys(entries: seq<Entry>) {
    forall i, j :: 0 <= i < j < |entries| ==> entries[i].key != entries[j].key
  }

  lemma {:induction false} InsertedAscends(e: Entry, entries: seq<Entry>)
    requires Ascending(entries) && forall x :: x in entries ==> x.key != e.key
    ensures Ascending(Inserted(e, entries))
  {
    if entries != [] {
      var first := entries[0];
      KeyOrder(e.key, first.key);
      if KeyLess(e.key, first.key) {
        forall j | 0 <= j < |entries| ensures KeyLess(e.key, entries[j].key) {
          if j > 0 { KeyTransitive(e.key, first.key, entries[j].key); }
        }
      } else {
        var rest := Inserted(e, entries[1..]);
        InsertedAscends(e, entries[1..]);
        forall j | 0 <= j < |rest| ensures KeyLess(first.key, rest[j].key) {
          assert rest[j] in rest;
        }
      }
    }
  }

  lemma {:induction false} SortAscends(entries: seq<Entry>)
    requires DistinctKeys(entries)
    ensures Ascending(SortEntries(entries))
  {
    if entries != [] {
      SortAscends(entries[1..]);
      InsertedAscends(entries[0], SortEntries(entries[1..]));
    }
  }

  lemma {:induction false} SortOfAscending(entries: seq<Entry>)
    requires Ascending(entries)
    ensures SortEntries(entries) == entries
  {
    if entries != [] {
      SortOfAscending(entries[1..]);
      assert entries == [entries[0]] + entries[1..];
    }
  }

  // ---------------------------------------------------------------------------------------------
  // Values
  // ---------------------------------------------------------------------------------------------

  /** Integers and lengths that fit 64 bits, and no key twice: what the types of the library ensure. */
  ghost predicate WellFormed(v: Value)
    decreases Size(v)
  {
    match v
    case Int(n) => I64_MIN <= n <= I64_MAX
    case Bytes(b) => |b| <= I64_MAX
    case List(items) => ItemsWellFormed(items)
    case Dict(entries) => DistinctKeys(entries) && EntriesWellFormed(entries)
  }

  ghost predicate ItemsWellFormed(items: seq<Value>)
    decreases ItemsSize(items)
  {
    items == [] || (WellFormed(items[0]) && ItemsWellFormed(items[1..]))
  }

  ghost predicate EntriesWellFormed(entries: seq<Entry>)
    decreases EntriesSize(entries)
  {
    entries == [] ||
    (|entries[0].key| <= I64_MAX && WellFormed(entries[0].value) && EntriesWellFormed(entries[1..]))
  }

  /** The same value with every dictionary in key order. */
  ghost function Canonical(v: Value): Value
    decreases Size(v)
  {
    match v
    case List(items) => List(CanonicalItems(items))
    case Dict(entries) => Dict(CanonicalEntries(SortEntries(entries)))
    case _ => v
  }

  ghost function CanonicalItems(items: seq<Value>): (r: seq<Value>)
    ensures |r| == |items|
    decreases ItemsSize(items)
  {
    if items == [] then [] else [Canonical(items[0])] + CanonicalItems(items[1..])
  }

  ghost function CanonicalEntries(entries: seq<Entry>): (r: seq<Entry>)
    ensures |r| == |entries| && forall i :: 0 <= i < |r| ==> r[i].key == entries[i].key
    decreases EntriesSize(entries)
  {
    if entries == [] then []
    else [Entry(entries[0].key, Canonical(entries[0].value))] + CanonicalEntries(entries[1..])
  }

  lemma {:induction false} InsertedWellFormed(e: Entry, entries: seq<Entry>)
    requires |e.key| <= I64_MAX && WellFormed(e.value) && EntriesWellFormed(entries)
    ensures EntriesWellFormed(Inserted(e, entries))
  {
    var r := Inserted(e, entries);
    if entries == [] || KeyLess(e.key, entries[0].key) {
      assert r[1..] == entries;
    } else {
      InsertedWellFormed(e, entries[1..]);
      assert r[1..] == Inserted(e, entries[1..]);
    }
  }

  lemma {:induction false} SortWellFormed(entries: seq<Entry>)
    requires EntriesWellFormed(entries)
    ensures EntriesWellFormed(SortEntries(entries))
  {
    if entries != [] {
      SortWellFormed(entries[1..]);
      InsertedWellFormed(entries[0], SortEntries(entries[1..]));
    }
  }

  // ---------------------------------------------------------------------------------------------
  // Scalars at a position
  // ---------------------------------------------------------------------------------------------

  /** The bytes from `pos` on begin with `s`. */
  ghost predicate At(bytes: seq<byte>, pos: nat, s: seq<byte>) {
    pos + |s| <= |bytes| && bytes[pos..pos + |s|] == s
  }

  lemma AtSplit(bytes: seq<byte>, pos: nat, a: seq<byte>, b: seq<byte>)
    requires At(bytes, pos, a + b)
    ensures At(bytes, pos, a) && At(bytes, pos + |a|, b)
  {
    var all := bytes[pos..pos + |a + b|];
    assert bytes[pos..pos + |a|] == all[..|a|] == a;
    assert bytes[pos + |a|..pos + |a| + |b|] == all[|a|..] == b;
  }

  lemma AtFirst(bytes: seq<byte>, pos: nat, s: seq<byte>)
    requires At(bytes, pos, s) && s != []
    ensures pos < |bytes| && bytes[pos] == s[0]
  {
    assert bytes[pos] == bytes[pos..pos + |s|][0];
  }

  lemma AtSplit3(bytes: seq<byte>, pos: nat, a: seq<byte>, b: seq<byte>, c: seq<byte>)
    requires At(bytes, pos, (a + b) + c)
    ensures At(bytes, pos, a) && At(bytes, pos + |a|, b) && At(bytes, pos + |a| + |b|, c)
  {
    AtSplit(bytes, pos, a + b, c);
    AtSplit(bytes, pos, a, b);
  }

  lemma {:induction false} FindAt(bytes: seq<byte>, pos: nat, text: seq<byte>, delim: byte)
    requires At(bytes, pos, text + [delim]) && delim !in text
    ensures Find(bytes, pos, delim) == Some(pos + |text|)
    decreases |text|
  {
    assert bytes[pos..pos + |text| + 1] == text + [delim];
    if text == [] {
      assert bytes[pos] == delim;
    } else {
      assert bytes[pos] == text[0] && text[0] in text;
      assert bytes[pos + 1..pos + |text| + 1] == bytes[pos..pos + |text| + 1][1..] == text[1..] + [delim];
      FindAt(bytes, pos + 1, text[1..], delim);
    }
  }

  lemma IntAt(bytes: seq<byte>, pos: nat, n: int, delim: byte)
    requires I64_MIN <= n <= I64_MAX && !IsDigit(delim) && delim != MINUS
    requires At(bytes, pos, ToString(n) + [delim])
    ensures DecodeInt(bytes, pos, delim) == Ok(n, pos + |ToString(n)| + 1)
  {
    hide ToString, ParseI64;
    var text := ToString(n);
    PrintedIsPlain(n);
    assert delim !in text;
    FindAt(bytes, pos, text, delim);
    AtSplit(bytes, pos, text, [delim]);
    ParsePrinted(n);
  }

  lemma BytesAt(bytes: seq<byte>, pos: nat, b: seq<byte>)
    requires |b| <= I64_MAX && At(bytes, pos, EncodeBytes(b))
    ensures DecodeBytes(bytes, pos) == Ok(b, pos + |EncodeBytes(b)|)
  {
    AtSplit(bytes, pos, Digits(|b|) + [BYTE_LEN_END], b);
    IntAt(bytes, pos, |b|, BYTE_LEN_END);
  }

  // ---------------------------------------------------------------------------------------------
  // Values at a position
  // ---------------------------------------------------------------------------------------------

  lemma FirstByte(v: Value)
    ensures var b := Encode(v)[0];
            match v
            case Int(_) => b == INT_START
            case Bytes(_) => IsDigit(b)
            case List(_) => b == LIST_START
            case Dict(_) => b == DICT_START
  {
  }

  /** What decoding the encoding of `v` at the given depth gives. */
  ghost predicate Decodes(r: Result<Ref>, v: Value, next: nat, opts: DecodeOpt, depth: nat)
  {
    if depth + Depth(v) <= opts.maxRecursion
    then r.Ok? && r.next == next && ToValue(r.value) == Canonical(v)
    else r.Err? && r.error.InvalidRecursionExceeded?
  }

  /** An encoded value decodes to its canonical form, unless it nests too deeply. */
  lemma {:induction false} ValueAt(bytes: seq<byte>, pos: nat, v: Value, opts: DecodeOpt, depth: nat)
    requires WellFormed(v) && At(bytes, pos, Encode(v))
    ensures Decodes(Decode(bytes, pos, opts, depth), v, pos + |Encode(v)|, opts, depth)
    decreases Size(v), 1
  {
    hide DecodeInt, DecodeBytes, DecodeList, DecodeDict, EncodeBytes, EncodeItems, EncodeEntries, ToString, At;
    AtFirst(bytes, pos, Encode(v));
    FirstByte(v);
    if depth < opts.maxRecursion {
      match v
      case Int(n) =>
        Regroup([INT_START], ToString(n), [BEN_END]);
        AtSplit(bytes, pos, [INT_START], ToString(n) + [BEN_END]);
        IntAt(bytes, pos + 1, n, BEN_END);
      case Bytes(b) => BytesAt(bytes, pos, b);
      case List(items) => ListAt(bytes, pos, items, opts, depth);
      case Dict(entries) => DictAt(bytes, pos, entries, opts, depth);
    }
  }

  lemma {:induction false} ListAt(bytes: seq<byte>, pos: nat, items: seq<Value>, opts: DecodeOpt, depth: nat)
    requires ItemsWellFormed(items) && At(bytes, pos, Encode(List(items))) && depth < opts.maxRecursion
    requires bytes[pos] == LIST_START
    ensures Decodes(Decode(bytes, pos, opts, depth), List(items), pos + |Encode(List(items))|, opts, depth)
    decreases Size(List(items)), 0
  {
    Regroup([LIST_START], EncodeItems(items), [BEN_END]);
    AtSplit(bytes, pos, [LIST_START], EncodeItems(items) + [BEN_END]);
    ItemsAt(bytes, pos + 1, items, opts, depth);
  }

  lemma {:induction false} DictAt(bytes: seq<byte>, pos: nat, entries: seq<Entry>, opts: DecodeOpt, depth: nat)
    requires DistinctKeys(entries) && EntriesWellFormed(entries)
    requires At(bytes, pos, Encode(Dict(entries))) && depth < opts.maxRecursion
    requires bytes[pos] == DICT_START
    ensures Decodes(Decode(bytes, pos, opts, depth), Dict(entries), pos + |Encode(Dict(entries))|, opts, depth)
    decreases Size(Dict(entries)), 0
  {
    hide Decode, DecodeDict, EncodeEntries, SortEntries, CanonicalEntries, ToEntries, Depth, At;
    var sorted := SortEntries(entries);
    Regroup([DICT_START], EncodeEntries(sorted), [BEN_END]);
    AtSplit(bytes, pos, [DICT_START], EncodeEntries(sorted) + [BEN_END]);
    SortAscends(entries);
    SortWellFormed(entries);
    EntriesAt(bytes, pos + 1, sorted, opts, depth, []);
    DictFromEntries(bytes, pos, entries, opts, depth);
  }

  lemma DictFromEntries(bytes: seq<byte>, pos: nat, entries: seq<Entry>, opts: DecodeOpt, depth: nat)
    requires pos < |bytes| && bytes[pos] == DICT_START && depth < opts.maxRecursion
    requires var sorted := SortEntries(entries);
             DecodesEntries(DecodeDict(bytes, pos + 1, opts, depth, []), [], sorted,
                            pos + 1 + |EncodeEntries(sorted)| + 1, opts, depth)
    ensures Decodes(Decode(bytes, pos, opts, depth), Dict(entries), pos + |Encode(Dict(entries))|, opts, depth)
  {
    hide DecodeDict, EncodeEntries, SortEntries, CanonicalEntries;
    var sorted := SortEntries(entries);
    assert ToEntries([]) + CanonicalEntries(sorted) == CanonicalEntries(sorted);
  }

  lemma ItemsLayout(bytes: seq<byte>, pos: nat, items: seq<Value>)
    requires At(bytes, pos, EncodeItems(items) + [BEN_END])
    ensures pos < |bytes| && (bytes[pos] == BEN_END <==> items == [])
    ensures items != [] ==>
              var first := Encode(items[0]);
              && |EncodeItems(items)| == |first| + |EncodeItems(items[1..])|
              && At(bytes, pos, first)
              && At(bytes, pos + |first|, EncodeItems(items[1..]) + [BEN_END])
  {
    hide Encode, At;
    if items == [] {
      AtSplit(bytes, pos, [], [BEN_END]);
      AtFirst(bytes, pos, [BEN_END]);
    } else {
      var first, rest := Encode(items[0]), EncodeItems(items[1..]);
      assert EncodeItems(items) + [BEN_END] == first + (rest + [BEN_END]);
      AtSplit(bytes, pos, first, rest + [BEN_END]);
      FirstByte(items[0]);
      AtFirst(bytes, pos, first);
    }
  }

  lemma {:induction false} ItemsAt(bytes: seq<byte>, pos: nat, items: seq<Value>, opts: DecodeOpt, depth: nat)
    requires ItemsWellFormed(items) && At(bytes, pos, EncodeItems(items) + [BEN_END]) && depth < opts.maxRecursion
    ensures var r := DecodeList(bytes, pos, opts, depth);
            if depth + 1 + ItemsDepth(items) <= opts.maxRecursion
            then r.Ok? && r.next == pos + |EncodeItems(items)| + 1 && ToValues(r.value) == CanonicalItems(items)
            else r.Err? && r.error.InvalidRecursionExceeded?
    decreases ItemsSize(items), 2
  {
    hide Decode, Encode, At;
    ItemsLayout(bytes, pos, items);
    if items != [] {
      var next := pos + |Encode(items[0])|;
      ValueAt(bytes, pos, items[0], opts, depth + 1);
      ItemsAt(bytes, next, items[1..], opts, depth);
      var r := DecodeList(bytes, pos, opts, depth);
      if r.Ok? {
        assert r.value == [Decode(bytes, pos, opts, depth + 1).value] + DecodeList(bytes, next, opts, depth).value;
        assert r.value[1..] == DecodeList(bytes, next, opts, depth).value;
      }
    }
  }

  /** Every key of the map comes before `key`. */
  ghost predicate Below(dict: seq<RefEntry>, key: Key) {
    forall i :: 0 <= i < |dict| ==> KeyLess(dict[i].key, key)
  }

  lemma {:induction false} MapAppend(dict: seq<RefEntry>, e: RefEntry)
    requires Below(dict, e.key)
    ensures MapInsert(dict, e) == dict + [e]
    ensures !HasKey(dict, e.key)
    ensures dict != [] ==> !KeyLess(e.key, dict[|dict| - 1].key)
  {
    if dict != [] {
      KeyOrder(dict[0].key, e.key);
      KeyOrder(dict[|dict| - 1].key, e.key);
      MapAppend(dict[1..], e);
      assert dict == [dict[0]] + dict[1..];
      forall i | 0 <= i < |dict| ensures dict[i].key != e.key { KeyOrder(dict[i].key, e.key); }
    }
  }

  lemma {:induction false} ToEntriesAppend(dict: seq<RefEntry>, e: RefEntry)
    ensures ToEntries(dict + [e]) == ToEntries(dict) + [Entry(e.key, ToValue(e.value))]
  {
    if dict != [] {
      assert (dict + [e])[1..] == dict[1..] + [e];
      ToEntriesAppend(dict[1..], e);
    }
  }

  lemma Regroup<T>(a: seq<T>, b: seq<T>, c: seq<T>)
    ensures (a + b) + c == a + (b + c)
  {
  }

  lemma KeyStart(bytes: seq<byte>, pos: nat, key: Key)
    requires At(bytes, pos, EncodeBytes(key))
    ensures pos < |bytes| && bytes[pos] != BEN_END
  {
    AtFirst(bytes, pos, EncodeBytes(key));
    assert IsDigit(EncodeBytes(key)[0]);
  }

  lemma EntriesLayout(bytes: seq<byte>, pos: nat, entries: seq<Entry>)
    requires At(bytes, pos, EncodeEntries(entries) + [BEN_END])
    ensures pos < |bytes| && (bytes[pos] == BEN_END <==> entries == [])
    ensures entries != [] ==>
              var k, v := EncodeBytes(entries[0].key), Encode(entries[0].value);
              && |EncodeEntries(entries)| == |k| + |v| + |EncodeEntries(entries[1..])|
              && At(bytes, pos, k) && At(bytes, pos + |k|, v)
              && At(bytes, pos + |k| + |v|, EncodeEntries(entries[1..]) + [BEN_END])
  {
    hide Encode, EncodeBytes, At;
    if entries == [] {
      AtSplit(bytes, pos, [], [BEN_END]);
      AtFirst(bytes, pos, [BEN_END]);
    } else {
      var k, v, rest := EncodeBytes(entries[0].key), Encode(entries[0].value), EncodeEntries(entries[1..]);
      Regroup(k + v, rest, [BEN_END]);
      AtSplit3(bytes, pos, k, v, rest + [BEN_END]);
      KeyStart(bytes, pos, entries[0].key);
    }
  }

  /** An entry whose key comes after all keys of the map is appended to it. */
  lemma DictStep(bytes: seq<byte>, pos: nat, opts: DecodeOpt, depth: nat, dict: seq<RefEntry>, key: Key, valuePos: nat)
    requires pos < |bytes| && bytes[pos] != BEN_END && Below(dict, key)
    requires DecodeBytes(bytes, pos) == Ok(key, valuePos)
    ensures var v := Decode(bytes, valuePos, opts, depth + 1);
            DecodeDict(bytes, pos, opts, depth, dict)
            == if v.Ok? then DecodeDict(bytes, v.next, opts, depth, dict + [RefEntry(key, v.value)]) else Err(v.error)
  {
    var v := Decode(bytes, valuePos, opts, depth + 1);
    MapAppend(dict, RefEntry(key, if v.Ok? then v.value else IntRef(0, [])));
  }

  lemma StillBelow(dict: seq<RefEntry>, e: RefEntry, entries: seq<Entry>)
    requires Ascending(entries) && entries != [] && e.key == entries[0].key && Below(dict, e.key)
    ensures |entries| > 1 ==> Below(dict + [e], entries[1].key)
  {
    if |entries| > 1 {
      forall i | 0 <= i < |dict + [e]| ensures KeyLess((dict + [e])[i].key, entries[1].key) {
        if i < |dict| { KeyTransitive(dict[i].key, e.key, entries[1].key); }
      }
    }
  }

  ghost predicate DecodesEntries(
    r: Result<seq<RefEntry>>, dict: seq<RefEntry>, entries: seq<Entry>, next: nat, opts: DecodeOpt, depth: nat)
  {
    if depth + 1 + EntriesDepth(entries) <= opts.maxRecursion
    then r.Ok? && r.next == next && ToEntries(r.value) == ToEntries(dict) + CanonicalEntries(entries)
    else r.Err? && r.error.InvalidRecursionExceeded?
  }

  /** Decoding the first entry and then the others decodes them all. */
  lemma DecodesOneMore(r: Result<seq<RefEntry>>, v: Result<Ref>, r': Result<seq<RefEntry>>,
                       dict: seq<RefEntry>, entries: seq<Entry>, mid: nat, next: nat, opts: DecodeOpt, depth: nat)
    requires entries != [] && Decodes(v, entries[0].value, mid, opts, depth + 1)
    requires v.Ok? ==>
               && r == r'
               && DecodesEntries(r', dict + [RefEntry(entries[0].key, v.value)], entries[1..], next, opts, depth)
    requires v.Err? ==> r == Err(v.error)
    ensures DecodesEntries(r, dict, entries, next, opts, depth)
  {
    if v.Ok? {
      var e, x := RefEntry(entries[0].key, v.value), Entry(entries[0].key, ToValue(v.value));
      ToEntriesAppend(dict, e);
      assert CanonicalEntries(entries) == [x] + CanonicalEntries(entries[1..]);
      Regroup(ToEntries(dict), [x], CanonicalEntries(entries[1..]));
    }
  }

  lemma {:induction false} EntriesAt(
    bytes: seq<byte>, pos: nat, entries: seq<Entry>, opts: DecodeOpt, depth: nat, dict: seq<RefEntry>)
    requires EntriesWellFormed(entries) && Ascending(entries) && (entries != [] ==> Below(dict, entries[0].key))
    requires At(bytes, pos, EncodeEntries(entries) + [BEN_END]) && depth < opts.maxRecursion
    ensures DecodesEntries(DecodeDict(bytes, pos, opts, depth, dict), dict, entries,
                           pos + |EncodeEntries(entries)| + 1, opts, depth)
    decreases EntriesSize(entries), 2
  {
    hide Decode, DecodeBytes, Encode, EncodeBytes, At;
    EntriesLayout(bytes, pos, entries);
    if entries == [] {
      assert ToEntries(dict) + [] == ToEntries(dict);
    } else {
      FirstEntryAt(bytes, pos, entries, opts, depth, dict);
    }
  }

  lemma {:induction false} FirstEntryAt(
    bytes: seq<byte>, pos: nat, entries: seq<Entry>, opts: DecodeOpt, depth: nat, dict: seq<RefEntry>)
    requires EntriesWellFormed(entries) && Ascending(entries) && entries != [] && Below(dict, entries[0].key)
    requires pos < |bytes| && bytes[pos] != BEN_END && depth < opts.maxRecursion
    requires var k, v := EncodeBytes(entries[0].key), Encode(entries[0].value);
             && |EncodeEntries(entries)| == |k| + |v| + |EncodeEntries(entries[1..])|
             && At(bytes, pos, k) && At(bytes, pos + |k|, v)
             && At(bytes, pos + |k| + |v|, EncodeEntries(entries[1..]) + [BEN_END])
    ensures DecodesEntries(DecodeDict(bytes, pos, opts, depth, dict), dict, entries,
                           pos + |EncodeEntries(entries)| + 1, opts, depth)
    decreases EntriesSize(entries), 1
  {
    hide Decode, DecodeBytes, DecodeDict, Encode, EncodeBytes, EncodeEntries, DecodesEntries;
    var key, valuePos := entries[0].key, pos + |EncodeBytes(entries[0].key)|;
    var mid, end := valuePos + |Encode(entries[0].value)|, pos + |EncodeEntries(entries)| + 1;
    BytesAt(bytes, pos, key);
    DictStep(bytes, pos, opts, depth, dict, key, valuePos);
    ValueAt(bytes, valuePos, entries[0].value, opts, depth + 1);
    var v := Decode(bytes, valuePos, opts, depth + 1);
    if v.Ok? {
      var dict' := dict + [RefEntry(key, v.value)];
      StillBelow(dict, RefEntry(key, v.value), entries);
      EntriesAt(bytes, mid, entries[1..], opts, depth, dict');
      DecodesOneMore(DecodeDict(bytes, pos, opts, depth, dict), v, DecodeDict(bytes, mid, opts, depth, dict'),
                     dict, entries, mid, end, opts, depth);
    } else {
      var r := DecodeDict(bytes, pos, opts, depth, dict);
      DecodesOneMore(r, v, r, dict, entries, mid, end, opts, depth);
    }
  }

  // ---------------------------------------------------------------------------------------------
  // Main results
  // ---------------------------------------------------------------------------------------------

  /** Every value is decoded from its encoding, whatever the options, if and only if it is not too deep. */
  lemma RoundTrip(v: Value, opts: DecodeOpt)
    requires WellFormed(v)
    ensures var r := DecodeAll(Encode(v), opts);
            && (r.Ok? <==> Depth(v) <= opts.maxRecursion)
            && (r.Ok? ==> ToValue(r.value) == Canonical(v) && r.next == |Encode(v)| && r.value.buffer == Encode(v))
  {
    hide Decode, Encode;
    var bytes := Encode(v);
    assert bytes[0..|bytes|] == bytes;
    ValueAt(bytes, 0, v, opts, 0);
  }

  /** All dictionaries are in key order already, as those of the library's map type are. */
  ghost predicate KeysSorted(v: Value)
    decreases Size(v)
  {
    match v
    case List(items) => ItemsSorted(items)
    case Dict(entries) => Ascending(entries) && EntriesSorted(entries)
    case _ => true
  }

  ghost predicate ItemsSorted(items: seq<Value>)
    decreases ItemsSize(items)
  {
    items == [] || (KeysSorted(items[0]) && ItemsSorted(items[1..]))
  }

  ghost predicate EntriesSorted(entries: seq<Entry>)
    decreases EntriesSize(entries)
  {
    entries == [] || (KeysSorted(entries[0].value) && EntriesSorted(entries[1..]))
  }

  lemma {:induction false} SortedIsCanonical(v: Value)
    requires KeysSorted(v)
    ensures Canonical(v) == v
    decreases Size(v)
  {
    match v
    case List(items) => ItemsCanonical(items);
    case Dict(entries) =>
      SortOfAscending(entries);
      EntriesCanonical(entries);
    case _ =>
  }

  lemma {:induction false} ItemsCanonical(items: seq<Value>)
    requires ItemsSorted(items)
    ensures CanonicalItems(items) == items
    decreases ItemsSize(items)
  {
    if items != [] {
      SortedIsCanonical(items[0]);
      ItemsCanonical(items[1..]);
      assert items == [items[0]] + items[1..];
    }
  }

  lemma {:induction false} EntriesCanonical(entries: seq<Entry>)
    requires EntriesSorted(entries)
    ensures CanonicalEntries(entries) == entries
    decreases EntriesSize(entries)
  {
    if entries != [] {
      SortedIsCanonical(entries[0].value);
      EntriesCanonical(entries[1..]);
      assert entries == [entries[0]] + entries[1..];
    }
  }

  /** So a value of the library is decoded from its encoding exactly. */
  lemma RoundTripSorted(v: Value, opts: DecodeOpt)
    requires WellFormed(v) && KeysSorted(v) && Depth(v) <= opts.maxRecursion
    ensures DecodeAll(Encode(v), opts).Ok? && ToValue(DecodeAll(Encode(v), opts).value) == v
  {
    RoundTrip(v, opts);
    SortedIsCanonical(v);
  }
}
