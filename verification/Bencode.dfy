/**
 Bencode values, the encoder (`bip_bencode/src/mutable/encode.rs`) and the decoder
 (`bip_bencode/src/reference/decode.rs` and `bencode_ref.rs`) as functions.
 */
module Bencode {
  import opened Basics
  import opened Decimal

  const BEN_END: byte := 101       // 'e'
  const DICT_START: byte := 100    // 'd'
  const LIST_START: byte := 108    // 'l'
  const INT_START: byte := 105     // 'i'
  const BYTE_LEN_END: byte := 58   // ':'

  type Key = seq<byte>

  // ---------------------------------------------------------------------------------------------
  // Values
  // ---------------------------------------------------------------------------------------------

  datatype Value =
    | Int(n: int)
    | Bytes(bytes: seq<byte>)
    | List(items: seq<Value>)
    | Dict(entries: seq<Entry>)     // in any order

  datatype Entry = Entry(key: Key, value: Value)

  /** The order of byte slices: the first difference decides, and a prefix comes first. */
  predicate KeyLess(a: Key, b: Key) {
    b != [] && (a == [] || a[0] < b[0] || (a[0] == b[0] && KeyLess(a[1..], b[1..])))
  }

  ghost function Size(v: Value): nat {
    match v
    case List(items) => 1 + ItemsSize(items)
    case Dict(entries) => 1 + EntriesSize(entries)
    case _ => 1
  }

  ghost function ItemsSize(items: seq<Value>): nat {
    if items == [] then 0 else 1 + Size(items[0]) + ItemsSize(items[1..])
  }

  ghost function EntriesSize(entries: seq<Entry>): nat {
    if entries == [] then 0 else 1 + Size(entries[0].value) + EntriesSize(entries[1..])
  }

  /** How deeply the value nests; a scalar and an empty list or dictionary count one. */
  ghost function Depth(v: Value): nat {
    match v
    case List(items) => 1 + ItemsDepth(items)
    case Dict(entries) => 1 + EntriesDepth(entries)
    case _ => 1
  }

  ghost function Max(a: nat, b: nat): nat {
    if a >= b then a else b
  }

  ghost function ItemsDepth(items: seq<Value>): nat {
    if items == [] then 0 else Max(Depth(items[0]), ItemsDepth(items[1..]))
  }

  ghost function EntriesDepth(entries: seq<Entry>): nat {
    if entries == [] then 0 else Max(Depth(entries[0].value), EntriesDepth(entries[1..]))
  }

  // ---------------------------------------------------------------------------------------------
  // Sorting by key
  // ---------------------------------------------------------------------------------------------

  /** Puts the entry behind all entries whose keys are not greater. */
  function Inserted(e: Entry, entries: seq<Entry>): (r: seq<Entry>)
    ensures |r| == |entries| + 1
    ensures EntriesSize(r) == EntriesSize(entries) + 1 + Size(e.value)
    ensures EntriesDepth(r) == Max(EntriesDepth(entries), Depth(e.value))
    ensures forall x :: x in r <==> x == e || x in entries
  {
    if entries == [] || KeyLess(e.key, entries[0].key) then
      var r := [e] + entries;
      assert r[1..] == entries;
      r
    else
      var r := [entries[0]] + Inserted(e, entries[1..]);
      assert r[1..] == Inserted(e, entries[1..]);
      assert entries == [entries[0]] + entries[1..];
      r
  }

  /** A stable sort by key. */
  function SortEntries(entries: seq<Entry>): (r: seq<Entry>)
    ensures |r| == |entries|
    ensures EntriesSize(r) == EntriesSize(entries)
    ensures EntriesDepth(r) == EntriesDepth(entries)
    ensures forall x :: x in r <==> x in entries
  {
    if entries == [] then []
    else
      var rest := SortEntries(entries[1..]);
      assert entries == [entries[0]] + entries[1..];
      Inserted(entries[0], rest)
  }

  // ---------------------------------------------------------------------------------------------
  // Encoding
  // ---------------------------------------------------------------------------------------------

  function EncodeBytes(b: seq<byte>): (r: seq<byte>)
    ensures r != []
  {
    Digits(|b|) + [BYTE_LEN_END] + b
  }

  function Encode(v: Value): (r: seq<byte>)
    ensures r != []
    decreases Size(v)
  {
    match v
    case Int(n) => [INT_START] + ToString(n) + [BEN_END]
    case Bytes(b) => EncodeBytes(b)
    case List(items) => [LIST_START] + EncodeItems(items) + [BEN_END]
    case Dict(entries) => [DICT_START] + EncodeEntries(SortEntries(entries)) + [BEN_END]
  }

  function EncodeItems(items: seq<Value>): seq<byte>
    decreases ItemsSize(items)
  {
    if items == [] then [] else Encode(items[0]) + EncodeItems(items[1..])
  }

  function EncodeEntries(entries: seq<Entry>): seq<byte>
    decreases EntriesSize(entries)
  {
    if entries == [] then []
    else EncodeBytes(entries[0].key) + Encode(entries[0].value) + EncodeEntries(entries[1..])
  }

  // ---------------------------------------------------------------------------------------------
  // Decoding
  // ---------------------------------------------------------------------------------------------

  /** A decoded value that remembers the bytes it was decoded from. */
  datatype Ref =
    | IntRef(n: int, buffer: seq<byte>)
    | BytesRef(bytes: seq<byte>, buffer: seq<byte>)
    | ListRef(items: seq<Ref>, buffer: seq<byte>)
    | DictRef(entries: seq<RefEntry>, buffer: seq<byte>)   // in the order of their keys

  datatype RefEntry = RefEntry(key: Key, value: Ref)

  function ToValue(r: Ref): Value {
    match r
    case IntRef(n, _) => Int(n)
    case BytesRef(b, _) => Bytes(b)
    case ListRef(items, _) => List(ToValues(items))
    case DictRef(entries, _) => Dict(ToEntries(entries))
  }

  function ToValues(items: seq<Ref>): (r: seq<Value>)
    ensures |r| == |items|
  {
    if items == [] then [] else [ToValue(items[0])] + ToValues(items[1..])
  }

  function ToEntries(entries: seq<RefEntry>): (r: seq<Entry>)
    ensures |r| == |entries| && forall i :: 0 <= i < |r| ==> r[i].key == entries[i].key
  {
    if entries == [] then [] else [Entry(entries[0].key, ToValue(entries[0].value))] + ToEntries(entries[1..])
  }

  datatype ParseError =
    | BytesEmpty(pos: nat)
    | InvalidByte(pos: nat)
    | InvalidIntNoDelimiter(pos: nat)
    | InvalidIntNegativeZero(pos: nat)
    | InvalidIntZeroPadding(pos: nat)
    | InvalidIntParseError(pos: nat)
    | InvalidLengthNegative(pos: nat)
    | InvalidLengthOverflow(pos: nat)
    | InvalidKeyOrdering(pos: nat, key: Key)
    | InvalidKeyDuplicates(pos: nat, key: Key)
    | InvalidRecursionExceeded(pos: nat, max: nat)

  /** What was parsed together with the position behind it. */
  datatype Result<+T> = Ok(value: T, next: nat) | Err(error: ParseError)

  datatype DecodeOpt = DecodeOpt(maxRecursion: nat, checkKeySort: bool, enforceFullDecode: bool)

  /** The first position from `pos` on that holds the delimiter. */
  function Find(bytes: seq<byte>, pos: nat, delim: byte): (r: Option<nat>)
    requires pos <= |bytes|
    ensures r.Some? ==> pos <= r.value < |bytes| && bytes[r.value] == delim
    decreases |bytes| - pos
  {
    if pos == |bytes| then None
    else if bytes[pos] == delim then Some(pos)
    else Find(bytes, pos + 1, delim)
  }

  function DecodeInt(bytes: seq<byte>, pos: nat, delim: byte): (r: Result<int>)
    requires pos <= |bytes|
    ensures r.Ok? ==> pos < r.next <= |bytes|
  {
    match Find(bytes, pos, delim)
    case None => Err(InvalidIntNoDelimiter(pos))
    case Some(end) =>
      var text := bytes[pos..end];
      if |text| > 1 && text[0] == MINUS && text[1] == ZERO then Err(InvalidIntNegativeZero(pos))
      else if |text| > 1 && text[0] == ZERO then Err(InvalidIntZeroPadding(pos))
      else
        match ParseI64(text)
        case Some(n) => Ok(n, end + 1)
        case None => Err(InvalidIntParseError(pos))
  }

  function DecodeBytes(bytes: seq<byte>, pos: nat): (r: Result<seq<byte>>)
    requires pos <= |bytes|
    ensures r.Ok? ==> pos < r.next <= |bytes|
  {
    match DecodeInt(bytes, pos, BYTE_LEN_END)
    case Err(e) => Err(e)
    case Ok(numBytes, start) =>
      if numBytes < 0 then Err(InvalidLengthNegative(pos))
      else if numBytes > |bytes| - start then Err(InvalidLengthOverflow(pos))
      else Ok(bytes[start..start + numBytes], start + numBytes)
  }

  function Decode(bytes: seq<byte>, pos: nat, opts: DecodeOpt, depth: nat): (r: Result<Ref>)
    requires pos <= |bytes|
    ensures r.Ok? ==> pos < r.next <= |bytes| && r.value.buffer == bytes[pos..r.next]
    decreases |bytes| - pos, 0
  {
    if depth >= opts.maxRecursion then Err(InvalidRecursionExceeded(pos, depth))
    else if pos == |bytes| then Err(BytesEmpty(pos))
    else if bytes[pos] == INT_START then
      match DecodeInt(bytes, pos + 1, BEN_END)
      case Err(e) => Err(e)
      case Ok(n, next) => Ok(IntRef(n, bytes[pos..next]), next)
    else if bytes[pos] == LIST_START then
      match DecodeList(bytes, pos + 1, opts, depth)
      case Err(e) => Err(e)
      case Ok(items, next) => Ok(ListRef(items, bytes[pos..next]), next)
    else if bytes[pos] == DICT_START then
      match DecodeDict(bytes, pos + 1, opts, depth, [])
      case Err(e) => Err(e)
      case Ok(entries, next) => Ok(DictRef(entries, bytes[pos..next]), next)
    else if IsDigit(bytes[pos]) then
      match DecodeBytes(bytes, pos)
      case Err(e) => Err(e)
      case Ok(b, next) => Ok(BytesRef(b, bytes[pos..next]), next)
    else Err(InvalidByte(pos))
  }

  /** The items from `pos` up to and including the end mark. */
  function DecodeList(bytes: seq<byte>, pos: nat, opts: DecodeOpt, depth: nat): (r: Result<seq<Ref>>)
    requires pos <= |bytes|
    ensures r.Ok? ==> pos < r.next <= |bytes|
    decreases |bytes| - pos, 1
  {
    if pos == |bytes| then Err(BytesEmpty(pos))
    else if bytes[pos] == BEN_END then Ok([], pos + 1)
    else
      match Decode(bytes, pos, opts, depth + 1)
      case Err(e) => Err(e)
      case Ok(item, next) =>
        match DecodeList(bytes, next, opts, depth)
        case Err(e) => Err(e)
        case Ok(items, end) => Ok([item] + items, end)
  }

  /** The entries from `pos` on, added to a map that already holds `dict`. */
  function DecodeDict(
    bytes: seq<byte>, pos: nat, opts: DecodeOpt, depth: nat, dict: seq<RefEntry>): (r: Result<seq<RefEntry>>)
    requires pos <= |bytes|
    ensures r.Ok? ==> pos < r.next <= |bytes|
    decreases |bytes| - pos, 1
  {
    if pos == |bytes| then Err(BytesEmpty(pos))
    else if bytes[pos] == BEN_END then Ok(dict, pos + 1)
    else
      match DecodeBytes(bytes, pos)
      case Err(e) => Err(e)
      case Ok(key, valuePos) =>
        if opts.checkKeySort && dict != [] && KeyLess(key, dict[|dict| - 1].key) then Err(InvalidKeyOrdering(pos, key))
        else
          match Decode(bytes, valuePos, opts, depth + 1)
          case Err(e) => Err(e)
          case Ok(value, next) =>
            if HasKey(dict, key) then Err(InvalidKeyDuplicates(valuePos, key))
            else DecodeDict(bytes, next, opts, depth, MapInsert(dict, RefEntry(key, value)))
  }

  predicate HasKey(dict: seq<RefEntry>, key: Key) {
    exists i :: 0 <= i < |dict| && dict[i].key == key
  }

  /** Insertion into a map kept in key order. */
  function MapInsert(dict: seq<RefEntry>, e: RefEntry): (r: seq<RefEntry>)
    ensures |r| == |dict| + 1
  {
    if dict == [] || KeyLess(e.key, dict[0].key) then [e] + dict else [dict[0]] + MapInsert(dict[1..], e)
  }

  /** `BencodeRef::decode`: one value, and nothing behind it if that is asked for. */
  function DecodeAll(bytes: seq<byte>, opts: DecodeOpt): Result<Ref> {
    match Decode(bytes, 0, opts, 0)
    case Err(e) => Err(e)
    case Ok(r, end) => if end != |bytes| && opts.enforceFullDecode then Err(BytesEmpty(end)) else Ok(r, end)
  }
}
