/** What the decoder's buffers are, and which inputs are encoded again byte for byte. */
module BencodeExact {
  import opened Basics
  import opened Decimal
  import opened Bencode
  import opened BencodeRoundTrip

  // ---------------------------------------------------------------------------------------------
  // Decoding depends on nothing but the bytes of the value
  // ---------------------------------------------------------------------------------------------

  /** The bytes of `a` from `lo` to `hi` lie `shift` further on in `b`. */
  ghost predicate Copied(a: seq<byte>, lo: nat, hi: nat, b: seq<byte>, shift: int) {
    && lo <= hi <= |a| && 0 <= lo + shift && hi + shift <= |b|
    && forall i {:trigger a[i]} :: lo <= i < hi ==> b[i + shift] == a[i]
  }

  lemma CopiedSlice(a: seq<byte>, lo: nat, hi: nat, b: seq<byte>, shift: int)
    requires Copied(a, lo, hi, b, shift)
    ensures b[lo + shift..hi + shift] == a[lo..hi]
  {
    var s, t := a[lo..hi], b[lo + shift..hi + shift];
    forall j | 0 <= j < |s| ensures s[j] == t[j] { assert s[j] == a[lo + j]; }
  }

  lemma {:induction false} FindLocal(a: seq<byte>, pos: nat, b: seq<byte>, shift: int, delim: byte)
    requires pos <= |a| && Find(a, pos, delim).Some? && Copied(a, pos, Find(a, pos, delim).value + 1, b, shift)
    ensures Find(b, pos + shift, delim) == Some(Find(a, pos, delim).value + shift)
    decreases |a| - pos
  {
    assert b[pos + shift] == a[pos];
    if a[pos] != delim { FindLocal(a, pos + 1, b, shift, delim); }
  }

  lemma IntLocal(a: seq<byte>, pos: nat, b: seq<byte>, shift: int, delim: byte)
    requires pos <= |a| && DecodeInt(a, pos, delim).Ok? && Copied(a, pos, DecodeInt(a, pos, delim).next, b, shift)
    ensures var r := DecodeInt(a, pos, delim); DecodeInt(b, pos + shift, delim) == Ok(r.value, r.next + shift)
  {
    FindLocal(a, pos, b, shift, delim);
    var end := Find(a, pos, delim).value;
    CopiedSlice(a, pos, end, b, shift);
  }

  lemma BytesLocal(a: seq<byte>, pos: nat, b: seq<byte>, shift: int)
    requires pos <= |a| && DecodeBytes(a, pos).Ok? && Copied(a, pos, DecodeBytes(a, pos).next, b, shift)
    ensures var r := DecodeBytes(a, pos); DecodeBytes(b, pos + shift) == Ok(r.value, r.next + shift)
  {
    hide DecodeInt;
    var start, next := DecodeInt(a, pos, BYTE_LEN_END).next, DecodeBytes(a, pos).next;
    IntLocal(a, pos, b, shift, BYTE_LEN_END);
    CopiedSlice(a, start, next, b, shift);
  }

  /** The same bytes elsewhere decode to the same value, whatever surrounds them. */
  lemma {:induction false} DecodeLocal(a: seq<byte>, pos: nat, b: seq<byte>, shift: int, opts: DecodeOpt, depth: nat)
    requires pos <= |a| && Decode(a, pos, opts, depth).Ok? && Copied(a, pos, Decode(a, pos, opts, depth).next, b, shift)
    ensures var r := Decode(a, pos, opts, depth); Decode(b, pos + shift, opts, depth) == Ok(r.value, r.next + shift)
    decreases |a| - pos, 2
  {
    hide DecodeInt, DecodeBytes, DecodeList, DecodeDict;
    CopiedSlice(a, pos, Decode(a, pos, opts, depth).next, b, shift);
    assert b[pos + shift] == a[pos];
    if a[pos] == INT_START { IntLocal(a, pos + 1, b, shift, BEN_END); }
    else if a[pos] == LIST_START { ListLocal(a, pos + 1, b, shift, opts, depth); }
    else if a[pos] == DICT_START { DictLocal(a, pos + 1, b, shift, opts, depth, []); }
    else { BytesLocal(a, pos, b, shift); }
  }

  lemma {:induction false} ListLocal(a: seq<byte>, pos: nat, b: seq<byte>, shift: int, opts: DecodeOpt, depth: nat)
    requires pos <= |a| && DecodeList(a, pos, opts, depth).Ok?
    requires Copied(a, pos, DecodeList(a, pos, opts, depth).next, b, shift)
    ensures var r := DecodeList(a, pos, opts, depth);
            DecodeList(b, pos + shift, opts, depth) == Ok(r.value, r.next + shift)
    decreases |a| - pos, 3
  {
    hide Decode;
    assert b[pos + shift] == a[pos];
    if a[pos] != BEN_END {
      var x := Decode(a, pos, opts, depth + 1);
      var xs := DecodeList(a, x.next, opts, depth);
      DecodeLocal(a, pos, b, shift, opts, depth + 1);
      ListLocal(a, x.next, b, shift, opts, depth);
      ListStep(a, pos, opts, depth, x, xs);
      ListStep(b, pos + shift, opts, depth, Ok(x.value, x.next + shift), Ok(xs.value, xs.next + shift));
    }
  }

  lemma ListStep(bytes: seq<byte>, pos: nat, opts: DecodeOpt, depth: nat, x: Result<Ref>, xs: Result<seq<Ref>>)
    requires pos < |bytes| && bytes[pos] != BEN_END
    requires Decode(bytes, pos, opts, depth + 1) == x && x.Ok?
    requires DecodeList(bytes, x.next, opts, depth) == xs && xs.Ok?
    ensures DecodeList(bytes, pos, opts, depth) == Ok([x.value] + xs.value, xs.next)
  {
  }

  lemma {:induction false} DictLocal(
    a: seq<byte>, pos: nat, b: seq<byte>, shift: int, opts: DecodeOpt, depth: nat, dict: seq<RefEntry>)
    requires pos <= |a| && DecodeDict(a, pos, opts, depth, dict).Ok?
    requires Copied(a, pos, DecodeDict(a, pos, opts, depth, dict).next, b, shift)
    ensures var r := DecodeDict(a, pos, opts, depth, dict);
            DecodeDict(b, pos + shift, opts, depth, dict) == Ok(r.value, r.next + shift)
    decreases |a| - pos, 3
  {
    hide DecodeBytes, Decode, MapInsert;
    assert b[pos + shift] == a[pos];
    if a[pos] != BEN_END {
      var k := DecodeBytes(a, pos);
      var v := Decode(a, k.next, opts, depth + 1);
      BytesLocal(a, pos, b, shift);
      DecodeLocal(a, k.next, b, shift, opts, depth + 1);
      DictLocal(a, v.next, b, shift, opts, depth, MapInsert(dict, RefEntry(k.value, v.value)));
    }
  }

  // ---------------------------------------------------------------------------------------------
  // Buffers
  // ---------------------------------------------------------------------------------------------

  /** The buffer of this value, and of every value inside it, alone decodes to that value. */
  ghost predicate BuffersExact(r: Ref, opts: DecodeOpt, depth: nat) {
    && Decode(r.buffer, 0, opts, depth) == Ok(r, |r.buffer|)
    && match r
       case ListRef(items, _) => forall i :: 0 <= i < |items| ==> BuffersExact(items[i], opts, depth + 1)
       case DictRef(entries, _) => forall i :: 0 <= i < |entries| ==> BuffersExact(entries[i].value, opts, depth + 1)
       case _ => true
  }

  lemma {:induction false} EveryBufferExact(bytes: seq<byte>, pos: nat, opts: DecodeOpt, depth: nat)
    requires pos <= |bytes| && Decode(bytes, pos, opts, depth).Ok?
    ensures BuffersExact(Decode(bytes, pos, opts, depth).value, opts, depth)
    decreases |bytes| - pos, 0
  {
    hide DecodeInt, DecodeBytes, DecodeList, DecodeDict;
    var r := Decode(bytes, pos, opts, depth);
    DecodeLocal(bytes, pos, r.value.buffer, 0 - pos, opts, depth);
    if r.value.ListRef? {
      ItemBuffersExact(bytes, pos + 1, opts, depth);
      assert forall i :: 0 <= i < |r.value.items| ==> r.value.items[i] in r.value.items;
    }
    if r.value.DictRef? {
      EntryBuffersExact(bytes, pos + 1, opts, depth, []);
      assert forall i :: 0 <= i < |r.value.entries| ==> r.value.entries[i] in r.value.entries;
    }
  }

  lemma {:induction false} ItemBuffersExact(bytes: seq<byte>, pos: nat, opts: DecodeOpt, depth: nat)
    requires pos <= |bytes| && DecodeList(bytes, pos, opts, depth).Ok?
    ensures forall r :: r in DecodeList(bytes, pos, opts, depth).value ==> BuffersExact(r, opts, depth + 1)
    decreases |bytes| - pos, 1
  {
    if bytes[pos] != BEN_END {
      EveryBufferExact(bytes, pos, opts, depth + 1);
      ItemBuffersExact(bytes, Decode(bytes, pos, opts, depth + 1).next, opts, depth);
    }
  }

  lemma {:induction false} MapInsertMember(dict: seq<RefEntry>, e: RefEntry, x: RefEntry)
    ensures x in MapInsert(dict, e) <==> x == e || x in dict
  {
    if dict != [] {
      MapInsertMember(dict[1..], e, x);
      assert dict == [dict[0]] + dict[1..];
    }
  }

  lemma {:induction false} EntryBuffersExact(
    bytes: seq<byte>, pos: nat, opts: DecodeOpt, depth: nat, dict: seq<RefEntry>)
    requires pos <= |bytes| && DecodeDict(bytes, pos, opts, depth, dict).Ok?
    requires forall e :: e in dict ==> BuffersExact(e.value, opts, depth + 1)
    ensures forall e :: e in DecodeDict(bytes, pos, opts, depth, dict).value ==> BuffersExact(e.value, opts, depth + 1)
    decreases |bytes| - pos, 1
  {
    if bytes[pos] != BEN_END {
      var k := DecodeBytes(bytes, pos);
      var v := Decode(bytes, k.next, opts, depth + 1);
      var e := RefEntry(k.value, v.value);
      EveryBufferExact(bytes, k.next, opts, depth + 1);
      forall x | x in MapInsert(dict, e) ensures BuffersExact(x.value, opts, depth + 1) { MapInsertMember(dict, e, x); }
      EntryBuffersExact(bytes, v.next, opts, depth, MapInsert(dict, e));
    }
  }

  // ---------------------------------------------------------------------------------------------
  // Encoding again
  // ---------------------------------------------------------------------------------------------

  /**
   Walks over the tokens from `pos` to the end of the input and says whether no number among them,
   be it an integer or a length, is written with a plus sign. Stops where it finds no token.
   */
  predicate PlusFree(bytes: seq<byte>, pos: nat)
    requires pos <= |bytes|
    decreases |bytes| - pos
  {
    if pos == |bytes| then true
    else if bytes[pos] in [LIST_START, DICT_START, BEN_END] then PlusFree(bytes, pos + 1)
    else if bytes[pos] == INT_START then
      var r := DecodeInt(bytes, pos + 1, BEN_END);
      r.Ok? ==> bytes[pos + 1] != PLUS && PlusFree(bytes, r.next)
    else
      var r := DecodeBytes(bytes, pos);
      r.Ok? ==> bytes[pos] != PLUS && PlusFree(bytes, r.next)
  }

  /**
   `enc`, the encoding of what was decoded from `pos` to `next`, is not longer than those bytes.
   It is as long only if it equals them, and that is so if and only if they have no plus sign.
   */
  ghost predicate Fits(bytes: seq<byte>, pos: nat, next: nat, enc: seq<byte>) {
    && pos <= next <= |bytes| && |enc| <= next - pos
    && (|enc| == next - pos ==> enc == bytes[pos..next])
    && (PlusFree(bytes, pos) <==> |enc| == next - pos && PlusFree(bytes, next))
  }

  lemma FitsBoth(bytes: seq<byte>, pos: nat, mid: nat, next: nat, a: seq<byte>, b: seq<byte>)
    requires Fits(bytes, pos, mid, a) && Fits(bytes, mid, next, b)
    ensures Fits(bytes, pos, next, a + b)
  {
    hide PlusFree;
    assert bytes[pos..next] == bytes[pos..mid] + bytes[mid..next];
  }

  lemma FitsMark(bytes: seq<byte>, pos: nat)
    requires pos < |bytes| && bytes[pos] in [LIST_START, DICT_START, BEN_END]
    ensures Fits(bytes, pos, pos + 1, [bytes[pos]])
  {
    assert bytes[pos..pos + 1] == [bytes[pos]];
  }

  lemma {:induction false} DigitsShort(s: seq<byte>)
    requires s != [] && AllDigits(s)
    ensures |Digits(DigitsValue(s))| <= |s|
  {
    var front := s[..|s| - 1];
    if front != [] { DigitsShort(front); }
  }

  /** The text of a number, read and printed again. */
  lemma NumberFits(bytes: seq<byte>, pos: nat, delim: byte)
    requires pos <= |bytes| && DecodeInt(bytes, pos, delim).Ok?
    ensures var r := DecodeInt(bytes, pos, delim);
            var text := ToString(r.value);
            && pos + 1 < r.next && bytes[r.next - 1] == delim
            && (bytes[pos] == PLUS || bytes[pos] == MINUS || IsDigit(bytes[pos]))
            && (bytes[pos] == MINUS ==> r.value < 0)
            && (bytes[pos] == PLUS ==> |text| < r.next - 1 - pos)
            && (bytes[pos] != PLUS ==> text == bytes[pos..r.next - 1])
  {
    var r := DecodeInt(bytes, pos, delim);
    var text := bytes[pos..r.next - 1];
    assert text[0] == bytes[pos];
    if bytes[pos] == PLUS {
      DigitsShort(text[1..]);
    } else {
      PrintParsed(text);
      if bytes[pos] == MINUS { DigitsOfValue(text[1..]); }
    }
  }

  lemma IntFits(bytes: seq<byte>, pos: nat)
    requires pos < |bytes| && bytes[pos] == INT_START && DecodeInt(bytes, pos + 1, BEN_END).Ok?
    ensures var r := DecodeInt(bytes, pos + 1, BEN_END); Fits(bytes, pos, r.next, Encode(Int(r.value)))
  {
    hide DecodeInt, ToString;
    NumberFits(bytes, pos + 1, BEN_END);
    var next := DecodeInt(bytes, pos + 1, BEN_END).next;
    assert bytes[pos..next] == [INT_START] + bytes[pos + 1..next - 1] + [BEN_END];
  }

  lemma BytesFits(bytes: seq<byte>, pos: nat)
    requires pos <= |bytes| && DecodeBytes(bytes, pos).Ok?
    ensures var r := DecodeBytes(bytes, pos); Fits(bytes, pos, r.next, EncodeBytes(r.value))
  {
    hide DecodeInt;
    NumberFits(bytes, pos, BYTE_LEN_END);
    var start := DecodeInt(bytes, pos, BYTE_LEN_END).next;
    var r := DecodeBytes(bytes, pos);
    assert bytes[pos..r.next] == bytes[pos..start - 1] + [BYTE_LEN_END] + bytes[start..r.next];
  }

  lemma {:induction false} ValueFits(bytes: seq<byte>, pos: nat, opts: DecodeOpt, depth: nat)
    requires pos <= |bytes| && Decode(bytes, pos, opts, depth).Ok? && opts.checkKeySort
    ensures var r := Decode(bytes, pos, opts, depth); Fits(bytes, pos, r.next, Encode(ToValue(r.value)))
    decreases |bytes| - pos, 0
  {
    hide DecodeInt, DecodeBytes, DecodeList, DecodeDict, Fits, PlusFree;
    var next := Decode(bytes, pos, opts, depth).next;
    if bytes[pos] == INT_START { IntFits(bytes, pos); }
    else if bytes[pos] == LIST_START {
      var items := DecodeList(bytes, pos + 1, opts, depth).value;
      ItemsFit(bytes, pos + 1, opts, depth);
      FitsMark(bytes, pos);
      FitsBoth(bytes, pos, pos + 1, next, [LIST_START], EncodeItems(ToValues(items)) + [BEN_END]);
      Regroup([LIST_START], EncodeItems(ToValues(items)), [BEN_END]);
    } else if bytes[pos] == DICT_START {
      var entries := DecodeDict(bytes, pos + 1, opts, depth, []).value;
      EntriesFit(bytes, pos + 1, opts, depth, []);
      assert entries[0..] == entries;
      FitsMark(bytes, pos);
      FitsBoth(bytes, pos, pos + 1, next, [DICT_START], EncodeEntries(ToEntries(entries)) + [BEN_END]);
      Regroup([DICT_START], EncodeEntries(ToEntries(entries)), [BEN_END]);
      SortOfAscending(ToEntries(entries));
    } else { BytesFits(bytes, pos); }
  }

  lemma {:induction false} ItemsFit(bytes: seq<byte>, pos: nat, opts: DecodeOpt, depth: nat)
    requires pos <= |bytes| && DecodeList(bytes, pos, opts, depth).Ok? && opts.checkKeySort
    ensures var r := DecodeList(bytes, pos, opts, depth);
            Fits(bytes, pos, r.next, EncodeItems(ToValues(r.value)) + [BEN_END])
    decreases |bytes| - pos, 1
  {
    hide Decode, Fits, PlusFree, Encode;
    if bytes[pos] == BEN_END {
      FitsMark(bytes, pos);
      assert EncodeItems([]) + [BEN_END] == [BEN_END];
    } else {
      var x := Decode(bytes, pos, opts, depth + 1);
      var xs := DecodeList(bytes, x.next, opts, depth);
      ListStep(bytes, pos, opts, depth, x, xs);
      ValueFits(bytes, pos, opts, depth + 1);
      ItemsFit(bytes, x.next, opts, depth);
      var head, rest := Encode(ToValue(x.value)), EncodeItems(ToValues(xs.value));
      FitsBoth(bytes, pos, x.next, xs.next, head, rest + [BEN_END]);
      Regroup(head, rest, [BEN_END]);
      assert ToValues([x.value] + xs.value) == [ToValue(x.value)] + ToValues(xs.value) by {
        assert ([x.value] + xs.value)[1..] == xs.value;
      }
      assert ([ToValue(x.value)] + ToValues(xs.value))[1..] == ToValues(xs.value);
    }
  }

  ghost predicate AscendingRefs(dict: seq<RefEntry>) {
    forall i, j :: 0 <= i < j < |dict| ==> KeyLess(dict[i].key, dict[j].key)
  }

  /** A key that passes the order check and the duplicate check comes after all others. */
  lemma NextKeyIsAbove(dict: seq<RefEntry>, key: Key)
    requires AscendingRefs(dict) && !HasKey(dict, key) && (dict != [] ==> !KeyLess(key, dict[|dict| - 1].key))
    ensures Below(dict, key)
  {
    forall i | 0 <= i < |dict| ensures KeyLess(dict[i].key, key) {
      var last := dict[|dict| - 1];
      KeyOrder(last.key, key);
      if i < |dict| - 1 { KeyTransitive(dict[i].key, last.key, key); }
    }
  }

  lemma {:induction false} EntriesFit(bytes: seq<byte>, pos: nat, opts: DecodeOpt, depth: nat, dict: seq<RefEntry>)
    requires pos <= |bytes| && DecodeDict(bytes, pos, opts, depth, dict).Ok? && opts.checkKeySort && AscendingRefs(dict)
    ensures var r := DecodeDict(bytes, pos, opts, depth, dict);
            && AscendingRefs(r.value) && dict <= r.value
            && Fits(bytes, pos, r.next, EncodeEntries(ToEntries(r.value[|dict|..])) + [BEN_END])
    decreases |bytes| - pos, 1
  {
    hide Decode, DecodeBytes, Fits, PlusFree, Encode, EncodeBytes, MapInsert;
    if bytes[pos] == BEN_END {
      FitsMark(bytes, pos);
      assert dict[|dict|..] == [];
      assert EncodeEntries([]) + [BEN_END] == [BEN_END];
    } else {
      var k := DecodeBytes(bytes, pos);
      var v := Decode(bytes, k.next, opts, depth + 1);
      NextKeyIsAbove(dict, k.value);
      DictStep(bytes, pos, opts, depth, dict, k.value, k.next);
      var e := RefEntry(k.value, v.value);
      var r := DecodeDict(bytes, v.next, opts, depth, dict + [e]);
      BytesFits(bytes, pos);
      ValueFits(bytes, k.next, opts, depth + 1);
      EntriesFit(bytes, v.next, opts, depth, dict + [e]);
      EntryFits(bytes, pos, k.next, v.next, r.next, e, r.value[|dict| + 1..]);
      assert r.value[|dict|..] == [e] + r.value[|dict| + 1..];
    }
  }

  lemma EntryFits(bytes: seq<byte>, pos: nat, valuePos: nat, mid: nat, next: nat, e: RefEntry, rest: seq<RefEntry>)
    requires Fits(bytes, pos, valuePos, EncodeBytes(e.key)) && Fits(bytes, valuePos, mid, Encode(ToValue(e.value)))
    requires Fits(bytes, mid, next, EncodeEntries(ToEntries(rest)) + [BEN_END])
    ensures Fits(bytes, pos, next, EncodeEntries(ToEntries([e] + rest)) + [BEN_END])
  {
    hide Fits, PlusFree, Encode, EncodeBytes;
    var k, v, others := EncodeBytes(e.key), Encode(ToValue(e.value)), EncodeEntries(ToEntries(rest));
    FitsBoth(bytes, pos, valuePos, mid, k, v);
    FitsBoth(bytes, pos, mid, next, k + v, others + [BEN_END]);
    Regroup(k + v, others, [BEN_END]);
    assert ToEntries([e] + rest) == [Entry(e.key, ToValue(e.value))] + ToEntries(rest) by {
      assert ([e] + rest)[1..] == rest;
    }
    assert ([Entry(e.key, ToValue(e.value))] + ToEntries(rest))[1..] == ToEntries(rest);
  }

  /** What was accepted in key order and to its end is encoded to the same bytes if and only if it has no plus sign. */
  lemma EncodedAgain(bytes: seq<byte>, opts: DecodeOpt)
    requires opts.checkKeySort && opts.enforceFullDecode && DecodeAll(bytes, opts).Ok?
    ensures Encode(ToValue(DecodeAll(bytes, opts).value)) == bytes <==> PlusFree(bytes, 0)
  {
    ValueFits(bytes, 0, opts, 0);
    assert bytes[0..|bytes|] == bytes;
  }

  /** `i+1e` is accepted under every option and becomes `i1e`. */
  lemma PlusIsLost(opts: DecodeOpt)
    requires opts.maxRecursion > 0
    ensures var bytes := [INT_START, PLUS, ZERO + 1, BEN_END];
            && DecodeAll(bytes, opts).Ok? && !PlusFree(bytes, 0)
            && Encode(ToValue(DecodeAll(bytes, opts).value)) == [INT_START, ZERO + 1, BEN_END]
  {
    var bytes := [INT_START, PLUS, ZERO + 1, BEN_END];
    assert Find(bytes, 3, BEN_END) == Some(3);
    assert Find(bytes, 2, BEN_END) == Some(3);
    var text := bytes[1..3];
    assert text == [PLUS, ZERO + 1] && text[1..] == [ZERO + 1];
    assert DigitsValue([ZERO + 1]) == 1 by { assert [ZERO + 1][..0] == []; }
  }
}
