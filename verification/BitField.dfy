/**
 Sets of pieces as bits: the bit set that the module keeps, the bit field it sends
 (`insert_reversed_bits` in `bip_select/src/revelation/honest.rs`) and the iterator that reads one
 (`BitFieldIter` in `bip_peer/src/message/standard.rs`).
 */
module BitFields {
  import opened Basics

  /** Piece indices travel as 32-bit numbers. */
  const INDEX_LIMIT: nat := 0x1_0000_0000

  // ---------------------------------------------------------------------------------------------
  // The bit set, whose bytes hold the lowest index in the lowest bit
  // ---------------------------------------------------------------------------------------------

  predicate LowBit(b: bv8, i: nat)
    requires i < 8
  {
    (b >> i) & 1 == 1
  }

  predicate Has(storage: seq<bv8>, i: nat) {
    i / 8 < |storage| && LowBit(storage[i / 8], i % 8)
  }

  function Pieces(storage: seq<bv8>): set<nat> {
    set i | 0 <= i < 8 * |storage| && Has(storage, i)
  }

  /** The bytes as they are, and zeros behind them up to the given number. */
  function Grown(storage: seq<bv8>, n: nat): (r: seq<bv8>)
    ensures |r| == if |storage| < n then n else |storage|
    ensures forall k :: 0 <= k < |r| ==> r[k] == if k < |storage| then storage[k] else 0
  {
    if |storage| < n then storage + seq(n - |storage|, _ => 0) else storage
  }

  /** Insertion grows the storage as far as the index needs. */
  function Inserted(storage: seq<bv8>, i: nat): seq<bv8> {
    var grown := Grown(storage, i / 8 + 1);
    grown[i / 8 := grown[i / 8] | (1 << (i % 8))]
  }

  lemma SetBit(b: bv8, i: nat, k: nat)
    requires i < 8 && k < 8
    ensures LowBit(b | (1 << i), k) <==> LowBit(b, k) || k == i
  {
    if k == i {
    } else if k < i {
    }
  }

  lemma NoBit(k: nat)
    requires k < 8
    ensures !LowBit(0, k)
  {
  }

  lemma InsertedHas(storage: seq<bv8>, i: nat, k: nat)
    ensures Has(Inserted(storage, i), k) <==> Has(storage, k) || k == i
  {
    hide LowBit;
    NoBit(k % 8);
    var grown := Grown(storage, i / 8 + 1);
    SetBit(grown[i / 8], i % 8, k % 8);
    if k / 8 == i / 8 && k % 8 == i % 8 { assert k == i; }
  }

  /** Insertion adds the index and nothing else. */
  lemma InsertedPieces(storage: seq<bv8>, i: nat)
    ensures Pieces(Inserted(storage, i)) == Pieces(storage) + {i}
  {
    hide Has;
    forall k ensures k in Pieces(Inserted(storage, i)) <==> k in Pieces(storage) || k == i {
      if k >= 0 {
        InsertedHas(storage, i, k);
        HasInside(Inserted(storage, i), k);
        HasInside(storage, k);
      }
    }
  }

  lemma HasInside(storage: seq<bv8>, k: nat)
    ensures Has(storage, k) ==> k < 8 * |storage|
  {
  }

  // ---------------------------------------------------------------------------------------------
  // The bit field, whose bytes hold the lowest index in the highest bit
  // ---------------------------------------------------------------------------------------------

  predicate HighBit(b: bv8, i: nat)
    requires i < 8
  {
    (b << i) >> 7 == 1
  }

  predicate Marked(field: seq<bv8>, i: nat) {
    i / 8 < |field| && HighBit(field[i / 8], i % 8)
  }

  function Listed(field: seq<bv8>): set<nat> {
    set i | 0 <= i < 8 * |field| && Marked(field, i)
  }

  /** The lowest `n` bits of `b`, pushed one after the other into `into`. */
  function PushedBits(b: bv8, into: bv8, n: nat): bv8
    decreases n
  {
    if n == 0 then into else PushedBits(b >> 1, (into << 1) | (b & 1), n - 1)
  }

  /** The byte with its bits in the opposite order. */
  function Mirrored(b: bv8): bv8 {
    ((b & 0x01) << 7) | ((b & 0x02) << 5) | ((b & 0x04) << 3) | ((b & 0x08) << 1) |
    ((b & 0x10) >> 1) | ((b & 0x20) >> 3) | ((b & 0x40) >> 5) | ((b & 0x80) >> 7)
  }

  lemma PushedIsMirrored(b: bv8)
    ensures PushedBits(b, 0, 8) == Mirrored(b)
  {
    hide PushedBits, Mirrored;
    var b1, r1 := b >> 1, (0 << 1) | (b & 1);
    PushOne(b, 0, 8);
    var b2, r2 := b1 >> 1, (r1 << 1) | (b1 & 1);
    PushOne(b1, r1, 7);
    var b3, r3 := b2 >> 1, (r2 << 1) | (b2 & 1);
    PushOne(b2, r2, 6);
    var b4, r4 := b3 >> 1, (r3 << 1) | (b3 & 1);
    PushOne(b3, r3, 5);
    var b5, r5 := b4 >> 1, (r4 << 1) | (b4 & 1);
    PushOne(b4, r4, 4);
    var b6, r6 := b5 >> 1, (r5 << 1) | (b5 & 1);
    PushOne(b5, r5, 3);
    var b7, r7 := b6 >> 1, (r6 << 1) | (b6 & 1);
    PushOne(b6, r6, 2);
    PushOne(b7, r7, 1);
    PushNone(b7 >> 1, (r7 << 1) | (b7 & 1));
    PushedInto(b);
  }

  lemma PushedInto(b: bv8)
    ensures var b1, r1 := b >> 1, (0 << 1) | (b & 1);
            var b2, r2 := b1 >> 1, (r1 << 1) | (b1 & 1);
            var b3, r3 := b2 >> 1, (r2 << 1) | (b2 & 1);
            var b4, r4 := b3 >> 1, (r3 << 1) | (b3 & 1);
            var b5, r5 := b4 >> 1, (r4 << 1) | (b4 & 1);
            var b6, r6 := b5 >> 1, (r5 << 1) | (b5 & 1);
            var b7, r7 := b6 >> 1, (r6 << 1) | (b6 & 1);
            (r7 << 1) | (b7 & 1) == Mirrored(b)
  {
  }

  lemma MirroredBit(b: bv8, i: nat)
    requires i < 8
    ensures HighBit(Mirrored(b), i) <==> LowBit(b, i)
  {
  }

  function Reversed(storage: seq<bv8>): (r: seq<bv8>)
    ensures |r| == |storage| && forall i :: 0 <= i < |r| ==> r[i] == Mirrored(storage[i])
  {
    if storage == [] then [] else Reversed(storage[..|storage| - 1]) + [Mirrored(storage[|storage| - 1])]
  }

  method InsertReversedBits(storage: seq<bv8>) returns (field: seq<bv8>)
    ensures field == Reversed(storage)
  {
    hide Mirrored, PushedBits;
    field := [];
    for k := 0 to |storage|
      invariant field == Reversed(storage[..k])
    {
      var byte, reversed: bv8 := storage[k], 0;
      for n := 0 to 8
        invariant PushedBits(byte, reversed, 8 - n) == PushedBits(storage[k], 0, 8)
      {
        PushOne(byte, reversed, 8 - n);
        reversed := reversed << 1;
        reversed := reversed | (byte & 1);
        byte := byte >> 1;
      }
      PushNone(byte, reversed);
      PushedIsMirrored(storage[k]);
      assert storage[..k + 1][..k] == storage[..k];
      field := field + [reversed];
    }
    assert storage[..|storage|] == storage;
  }

  lemma PushOne(b: bv8, into: bv8, n: nat)
    requires n > 0
    ensures PushedBits(b, into, n) == PushedBits(b >> 1, (into << 1) | (b & 1), n - 1)
  {
  }

  lemma PushNone(b: bv8, into: bv8)
    ensures PushedBits(b, into, 0) == into
  {
  }

  /** The bit field lists the pieces of the bit set. */
  lemma FieldListsPieces(storage: seq<bv8>)
    ensures Listed(Reversed(storage)) == Pieces(storage)
  {
    hide LowBit, HighBit, Mirrored;
    var field := Reversed(storage);
    forall i: nat | i < 8 * |storage| ensures Marked(field, i) <==> Has(storage, i) {
      MirroredBit(storage[i / 8], i % 8);
    }
  }

  // ---------------------------------------------------------------------------------------------
  // Reading a bit field
  // ---------------------------------------------------------------------------------------------

  /** What 32 bits hold of the indices. */
  function Truncated(s: set<nat>): set<nat> {
    set i | i in s :: i % INDEX_LIMIT
  }

  class BitFieldIter {
    const bytes: seq<bv8>
    var curBit: nat

    constructor (bytes: seq<bv8>)
      ensures this.bytes == bytes && curBit == 0
    {
      this.bytes, curBit := bytes, 0;
    }

    /** The next marked index, in 32 bits. */
    method Next() returns (r: Option<nat>)
      modifies this
      ensures old(curBit) <= curBit
      ensures r.Some? ==> curBit > old(curBit) && Marked(bytes, curBit - 1) && r.value == (curBit - 1) % INDEX_LIMIT
      ensures forall i: nat :: old(curBit) <= i < (if r.Some? then curBit - 1 else 8 * |bytes|) ==> !Marked(bytes, i)
      decreases 8 * |bytes| - curBit
    {
      var byteInBytes, bitInByte := curBit / 8, curBit % 8;
      if byteInBytes >= |bytes| { return None; }
      var b := bytes[byteInBytes];
      var index := curBit % INDEX_LIMIT;
      curBit := curBit + 1;
      if (b << bitInByte) >> 7 == 1 {
        r := Some(index);
      } else {
        r := Next();
      }
    }
  }

  /** Reading a bit field to its end gives every marked index, in 32 bits. */
  method ReadField(field: seq<bv8>) returns (indices: set<nat>)
    ensures indices == Truncated(Listed(field))
  {
    hide Marked;
    var iter := new BitFieldIter(field);
    indices := {};
    ghost var seen: set<nat> := {};
    var next := iter.Next();
    InsideField(field);
    while next.Some?
      invariant iter.bytes == field
      invariant next.Some? ==>
                  0 < iter.curBit && Marked(field, iter.curBit - 1) && next.value == (iter.curBit - 1) % INDEX_LIMIT
      invariant forall i :: i in seen <==>
                  0 <= i < (if next.Some? then iter.curBit - 1 else 8 * |field|) && Marked(field, i)
      invariant indices == Truncated(seen)
      decreases 8 * |field| - iter.curBit, next.Some?
    {
      TruncatedAdd(seen, iter.curBit - 1);
      indices := indices + {next.value};
      seen := seen + {iter.curBit - 1};
      next := iter.Next();
    }
    assert seen == Listed(field);
  }

  lemma InsideField(field: seq<bv8>)
    ensures forall i: nat :: Marked(field, i) ==> i < 8 * |field|
  {
  }

  lemma TruncatedAdd(s: set<nat>, i: nat)
    ensures Truncated(s + {i}) == Truncated(s) + {i % INDEX_LIMIT}
  {
    assert forall x :: x in Truncated(s + {i}) ==> x in Truncated(s) + {i % INDEX_LIMIT};
    assert i in s + {i};
    forall x | x in Truncated(s) ensures x in Truncated(s + {i}) {
      var k :| k in s && x == k % INDEX_LIMIT;
      assert k in s + {i};
    }
  }

  /** Nothing is lost exactly when all indices fit. */
  lemma TruncatedSame(s: set<nat>)
    ensures Truncated(s) == s <==> forall i :: i in s ==> i < INDEX_LIMIT
  {
    if forall i :: i in s ==> i < INDEX_LIMIT {
      forall i: nat | i in s ensures i % INDEX_LIMIT == i && i in Truncated(s) {}
      assert forall x :: x in Truncated(s) ==> x in s;
    } else {
      var i :| i in s && i >= INDEX_LIMIT;
      assert i !in Truncated(s);
    }
  }
}
