/**
 Node ids, their XOR distance and the bit iterator behind it (`bip_util/src/sha/mod.rs`), and the
 number of leading bits two ids share (`leading_bit_count` in `bip_dht/src/routing/table.rs`).
 */
module NodeIds {
  import opened Basics

  const SHA_HASH_LEN: nat := 20
  const ID_BITS: nat := 160

  type NodeId = s: seq<bv8> | |s| == SHA_HASH_LEN witness seq(SHA_HASH_LEN, _ => 0)

  // ---------------------------------------------------------------------------------------------
  // Distance
  // ---------------------------------------------------------------------------------------------

  function Xor(a: NodeId, b: NodeId): NodeId {
    seq(SHA_HASH_LEN, i requires 0 <= i < SHA_HASH_LEN => a[i] ^ b[i])
  }

  method BitXor(lhs: NodeId, rhs: NodeId) returns (r: NodeId)
    ensures r == Xor(lhs, rhs)
  {
    r := lhs;
    for i := 0 to SHA_HASH_LEN
      invariant forall k :: 0 <= k < SHA_HASH_LEN ==> r[k] == if k < i then lhs[k] ^ rhs[k] else lhs[k]
    {
      r := r[i := rhs[i] ^ r[i]];
    }
  }

  /** The order of two hashes: the first byte in which they differ decides. */
  predicate Less(a: seq<bv8>, b: seq<bv8>)
    requires |a| == |b|
  {
    a != [] && (a[0] < b[0] || (a[0] == b[0] && Less(a[1..], b[1..])))
  }

  /** The hash as the number its bytes spell. */
  ghost function Value(a: seq<bv8>): nat {
    if a == [] then 0 else Value(a[..|a| - 1]) * 256 + a[|a| - 1] as int
  }

  lemma ByteOrder(a: bv8, b: bv8)
    ensures a < b <==> (a as int) < (b as int)
    ensures a == b <==> (a as int) == (b as int)
    ensures 0 <= a as int < 256
  {
  }

  lemma ValueSnoc(a: seq<bv8>)
    requires a != []
    ensures Value(a) == Value(a[..|a| - 1]) * 256 + a[|a| - 1] as int
  {
  }

  lemma {:induction false} LessSnoc(a: seq<bv8>, b: seq<bv8>)
    requires |a| == |b| > 0
    ensures Less(a, b) <==>
              Less(a[..|a| - 1], b[..|a| - 1]) || (a[..|a| - 1] == b[..|a| - 1] && a[|a| - 1] < b[|a| - 1])
  {
    var n := |a| - 1;
    if n > 0 {
      LessSnoc(a[1..], b[1..]);
      assert a[1..][..n - 1] == a[..n][1..] && b[1..][..n - 1] == b[..n][1..];
      assert a[..n] == [a[0]] + a[..n][1..] && b[..n] == [b[0]] + b[..n][1..];
    }
  }

  lemma LessNothing(a: seq<bv8>, b: seq<bv8>)
    requires |a| == |b| == 0
    ensures !Less(a, b)
  {
  }

  lemma Digits256(x: nat, c: nat, y: nat, d: nat)
    requires c < 256 && d < 256
    ensures x * 256 + c < y * 256 + d <==> x < y || (x == y && c < d)
    ensures x * 256 + c == y * 256 + d <==> x == y && c == d
  {
  }

  /** Byte-by-byte comparison orders hashes as the numbers they spell. */
  lemma {:induction false} LessIsNumeric(a: seq<bv8>, b: seq<bv8>)
    requires |a| == |b|
    ensures Less(a, b) <==> Value(a) < Value(b)
    ensures a == b <==> Value(a) == Value(b)
  {
    hide Less, Value;
    if a == [] {
      assert a == b;
      LessNothing(a, b);
    } else {
      var n := |a| - 1;
      LessSnoc(a, b);
      LessIsNumeric(a[..n], b[..n]);
      ByteOrder(a[n], b[n]);
      ByteOrder(b[n], a[n]);
      ValueSnoc(a);
      ValueSnoc(b);
      Digits256(Value(a[..n]), a[n] as int, Value(b[..n]), b[n] as int);
      SameLast(a, b);
    }
  }

  lemma SameLast(a: seq<bv8>, b: seq<bv8>)
    requires |a| == |b| > 0
    ensures a == b <==> a[..|a| - 1] == b[..|a| - 1] && a[|a| - 1] == b[|a| - 1]
  {
    assert a == a[..|a| - 1] + [a[|a| - 1]] && b == b[..|a| - 1] + [b[|a| - 1]];
  }

  // ---------------------------------------------------------------------------------------------
  // Bits
  // ---------------------------------------------------------------------------------------------

  /** Bit `i` of a byte, counted from the most significant one. */
  predicate ByteBit(b: bv8, i: nat)
    requires i < 8
  {
    (b >> (7 - i)) & 1 == 1
  }

  predicate Bit(id: NodeId, i: nat)
    requires i < ID_BITS
  {
    ByteBit(id[i / 8], i % 8)
  }

  datatype BitRep = Set | Unset

  /** The iterator over the bits of a hash, which compares the shifted byte without masking it. */
  class Bits {
    const bytes: NodeId
    var bitPos: nat

    constructor (bytes: NodeId)
      ensures this.bytes == bytes && bitPos == 0
    {
      this.bytes := bytes;
      bitPos := 0;
    }

    method Next() returns (r: Option<BitRep>)
      modifies this
      ensures bitPos == old(bitPos) + (if r.Some? then 1 else 0)
      ensures r.Some? <==> old(bitPos) < ID_BITS
      ensures r.Some? ==> (r.value.Set? <==> ShiftedIsOne(bytes, old(bitPos)))
    {
      if bitPos < |bytes| * 8 {
        var bitValue := bytes[bitPos / 8] >> (7 - bitPos % 8);
        bitPos := bitPos + 1;
        r := Some(if bitValue == 1 then Set else Unset);
      } else {
        r := None;
      }
    }
  }

  predicate ShiftedIsOne(id: NodeId, i: nat)
    requires i < ID_BITS
  {
    id[i / 8] >> (7 - i % 8) == 1
  }

  /** No bit of the byte above position `s` is set. */
  predicate NoneAbove(b: bv8, s: bv8) {
    && (s < 1 ==> (b >> 1) & 1 == 0) && (s < 2 ==> (b >> 2) & 1 == 0) && (s < 3 ==> (b >> 3) & 1 == 0)
    && (s < 4 ==> (b >> 4) & 1 == 0) && (s < 5 ==> (b >> 5) & 1 == 0) && (s < 6 ==> (b >> 6) & 1 == 0)
    && (s < 7 ==> (b >> 7) & 1 == 0)
  }

  lemma ShiftedAlone(b: bv8, s: bv8)
    requires s < 8
    ensures b >> s == 1 <==> (b >> s) & 1 == 1 && NoneAbove(b, s)
  {
  }

  lemma NotAbove(b: bv8, s: bv8, t: bv8)
    requires NoneAbove(b, s) && s < t < 8
    ensures (b >> t) & 1 == 0
  {
  }

  lemma SomeAbove(b: bv8, s: bv8) returns (t: bv8)
    requires !NoneAbove(b, s)
    ensures s < t < 8 && (b >> t) & 1 == 1
  {
    t := if s < 1 && (b >> 1) & 1 != 0 then 1 else if s < 2 && (b >> 2) & 1 != 0 then 2
         else if s < 3 && (b >> 3) & 1 != 0 then 3 else if s < 4 && (b >> 4) & 1 != 0 then 4
         else if s < 5 && (b >> 5) & 1 != 0 then 5 else if s < 6 && (b >> 6) & 1 != 0 then 6 else 7;
  }

  lemma ShiftOrder(i: nat, k: nat)
    requires k < 8 && i < 8
    ensures Shift(i) < 8 && (k < i <==> Shift(i) < Shift(k))
  {
  }

  lemma ShiftOnto(t: bv8) returns (k: nat)
    requires t < 8
    ensures k < 8 && Shift(k) == t
  {
    k := if t == 0 then 7 else if t == 1 then 6 else if t == 2 then 5 else if t == 3 then 4
         else if t == 4 then 3 else if t == 5 then 2 else if t == 6 then 1 else 0;
  }

  lemma ShiftedByShift(b: bv8, i: nat)
    requires i < 8
    ensures b >> (7 - i) == b >> Shift(i)
  {
  }

  /** The shifted byte is one exactly if its bit is set and none before it. */
  lemma ShiftedByte(b: bv8, i: nat)
    requires i < 8
    ensures b >> (7 - i) == 1 <==> ByteBit(b, i) && forall k: nat :: k < i ==> !ByteBit(b, k)
  {
    hide ByteBit, Shift, NoneAbove;
    ShiftOrder(i, i);
    ShiftedByShift(b, i);
    ShiftedAlone(b, Shift(i));
    ByteBitShifted(b, i);
    if NoneAbove(b, Shift(i)) {
      forall k: nat | k < i ensures !ByteBit(b, k) {
        ByteBitShifted(b, k);
        ShiftOrder(i, k);
        NotAbove(b, Shift(i), Shift(k));
      }
    } else {
      var t := SomeAbove(b, Shift(i));
      var k := ShiftOnto(t);
      ByteBitShifted(b, k);
      ShiftOrder(i, k);
    }
  }

  /** Up to the first set bit of each byte, the unmasked iterator and the bits agree. */
  lemma UnmaskedIsExact(id: NodeId, i: nat)
    requires i < ID_BITS
    ensures (ShiftedIsOne(id, i) <==> Bit(id, i)) <==>
              (Bit(id, i) ==> forall k: nat :: i - i % 8 <= k < i ==> !Bit(id, k))
  {
    hide ByteBit;
    ShiftedByte(id[i / 8], i % 8);
    var first := i - i % 8;
    forall k: nat | k < i % 8 ensures ByteBit(id[i / 8], k) <==> Bit(id, first + k) {
      assert (first + k) / 8 == i / 8 && (first + k) % 8 == k;
    }
    forall k: nat | first <= k < i ensures Bit(id, k) <==> ByteBit(id[i / 8], k - first) {
      assert k / 8 == i / 8 && k % 8 == k - first;
    }
  }

  /** Past it they need not: the second bit of a byte with two leading ones is reported unset. */
  lemma UnmaskedIsWrongLater()
    ensures exists id: NodeId, i: nat :: i < ID_BITS && Bit(id, i) && !ShiftedIsOne(id, i)
  {
    var id: NodeId := [0xC0] + seq(19, _ => 0);
    assert Bit(id, 1) && !ShiftedIsOne(id, 1);
  }

  lemma XorShifted(a: bv8, b: bv8, s: bv8)
    requires s < 8
    ensures ((a ^ b) >> s) & 1 == 1 <==> (a >> s) & 1 != (b >> s) & 1
    ensures (a >> s) & 1 == 0 || (a >> s) & 1 == 1
    ensures (b >> s) & 1 == 0 || (b >> s) & 1 == 1
  {
  }

  function Shift(i: nat): bv8
    requires i < 8
  {
    match i case 0 => 7 case 1 => 6 case 2 => 5 case 3 => 4 case 4 => 3 case 5 => 2 case 6 => 1 case _ => 0
  }

  lemma ByteBitShifted(b: bv8, i: nat)
    requires i < 8
    ensures Shift(i) < 8
    ensures ByteBit(b, i) <==> (b >> Shift(i)) & 1 == 1
  {
    assert b >> (7 - i) == b >> Shift(i);
  }

  lemma ByteXorBit(a: bv8, b: bv8, i: nat)
    requires i < 8
    ensures ByteBit(a ^ b, i) <==> ByteBit(a, i) != ByteBit(b, i)
  {
    hide ByteBit, Shift;
    ByteBitShifted(a, i);
    ByteBitShifted(b, i);
    ByteBitShifted(a ^ b, i);
    XorShifted(a, b, Shift(i));
  }

  lemma XorBit(a: NodeId, b: NodeId, i: nat)
    requires i < ID_BITS
    ensures Bit(Xor(a, b), i) <==> Bit(a, i) != Bit(b, i)
  {
    ByteXorBit(a[i / 8], b[i / 8], i % 8);
  }

  // ---------------------------------------------------------------------------------------------
  // Shared prefixes
  // ---------------------------------------------------------------------------------------------

  function SharedFrom(a: NodeId, b: NodeId, i: nat): (n: nat)
    requires i <= ID_BITS
    ensures i <= n <= ID_BITS
    ensures forall k :: i <= k < n ==> Bit(a, k) == Bit(b, k)
    ensures n < ID_BITS ==> Bit(a, n) != Bit(b, n)
    decreases ID_BITS - i
  {
    if i == ID_BITS || Bit(a, i) != Bit(b, i) then i else SharedFrom(a, b, i + 1)
  }

  /** The length of the common bit prefix of two ids. */
  function SharedBits(a: NodeId, b: NodeId): (n: nat)
    ensures n <= ID_BITS
    ensures forall k :: 0 <= k < n ==> Bit(a, k) == Bit(b, k)
    ensures n < ID_BITS ==> Bit(a, n) != Bit(b, n)
  {
    SharedFrom(a, b, 0)
  }

  /** Counting the iterator's leading unset bits gives the common prefix, although it never masks. */
  method LeadingBitCount(localNode: NodeId, remoteNode: NodeId) returns (count: nat)
    ensures count == SharedBits(localNode, remoteNode)
  {
    var diffId := BitXor(localNode, remoteNode);
    var bits := new Bits(diffId);
    count := 0;
    while true
      invariant count == bits.bitPos <= ID_BITS
      invariant bits.bytes == diffId
      invariant forall k :: 0 <= k < count ==> !Bit(diffId, k)
      decreases ID_BITS - count
    {
      var i := count;
      if i < ID_BITS { UnmaskedIsExact(diffId, i); }
      var next := bits.Next();
      if next != Some(Unset) { break; }
      count := count + 1;
    }
    forall k: nat | k < ID_BITS { XorBit(localNode, remoteNode, k); }
    assert count < ID_BITS ==> Bit(diffId, count);
  }

  /** Equal prefixes all the way mean equal ids. */
  lemma SharedAllIsEqual(a: NodeId, b: NodeId)
    ensures SharedBits(a, b) == ID_BITS <==> a == b
  {
    if SharedBits(a, b) == ID_BITS {
      forall i | 0 <= i < SHA_HASH_LEN ensures a[i] == b[i] {
        forall k: nat | k < 8 ensures ByteBit(a[i], k) == ByteBit(b[i], k) {
          assert (i * 8 + k) / 8 == i && (i * 8 + k) % 8 == k;
          assert Bit(a, i * 8 + k) == Bit(b, i * 8 + k);
        }
        SameBits(a[i], b[i]);
      }
    }
  }

  lemma SameBits(a: bv8, b: bv8)
    requires forall k: nat :: k < 8 ==> ByteBit(a, k) == ByteBit(b, k)
    ensures a == b
  {
    assert ByteBit(a, 0) == ByteBit(b, 0) && ByteBit(a, 1) == ByteBit(b, 1);
    assert ByteBit(a, 2) == ByteBit(b, 2) && ByteBit(a, 3) == ByteBit(b, 3);
    assert ByteBit(a, 4) == ByteBit(b, 4) && ByteBit(a, 5) == ByteBit(b, 5);
    assert ByteBit(a, 6) == ByteBit(b, 6) && ByteBit(a, 7) == ByteBit(b, 7);
  }

  // ---------------------------------------------------------------------------------------------
  // Prefixes and distance
  // ---------------------------------------------------------------------------------------------

  lemma ByteLess(x: bv8, y: bv8, i: nat)
    requires i < 8
    requires forall k: nat :: k <= i ==> !ByteBit(x, k)
    requires ByteBit(y, i)
    ensures x < y
  {
    assert !ByteBit(x, i);
    if i > 0 { assert !ByteBit(x, 0); }
    if i > 1 { assert !ByteBit(x, 1); }
    if i > 2 { assert !ByteBit(x, 2); }
    if i > 3 { assert !ByteBit(x, 3); }
    if i > 4 { assert !ByteBit(x, 4); }
    if i > 5 { assert !ByteBit(x, 5); }
    if i > 6 { assert !ByteBit(x, 6); }
  }

  lemma {:induction false} LessAt(x: seq<bv8>, y: seq<bv8>, q: nat)
    requires |x| == |y| && q < |x| && x[..q] == y[..q] && x[q] < y[q]
    ensures Less(x, y)
  {
    if q > 0 {
      assert x[0] == x[..q][0] == y[..q][0] == y[0];
      assert x[1..][..q - 1] == x[..q][1..] && y[1..][..q - 1] == y[..q][1..];
      LessAt(x[1..], y[1..], q - 1);
    }
  }

  /** A distance whose first set bit comes later is smaller. */
  lemma LaterFirstBitIsLess(x: NodeId, y: NodeId, b: nat)
    requires b < ID_BITS
    requires forall k :: 0 <= k <= b ==> !Bit(x, k)
    requires forall k :: 0 <= k < b ==> !Bit(y, k)
    requires Bit(y, b)
    ensures Less(x, y)
  {
    var q := b / 8;
    forall i | 0 <= i < q ensures x[i] == y[i] {
      forall k: nat | k < 8 ensures ByteBit(x[i], k) == ByteBit(y[i], k) {
        assert (i * 8 + k) / 8 == i && (i * 8 + k) % 8 == k;
        assert !Bit(x, i * 8 + k) && !Bit(y, i * 8 + k);
      }
      SameBits(x[i], y[i]);
    }
    forall k: nat | k <= b % 8 ensures !ByteBit(x[q], k) {
      assert (q * 8 + k) / 8 == q && (q * 8 + k) % 8 == k;
      assert !Bit(x, q * 8 + k);
    }
    ByteLess(x[q], y[q], b % 8);
    assert x[..q] == y[..q];
    LessAt(x, y, q);
  }

  /** Sharing a longer prefix with the target is being closer to it. */
  lemma LongerPrefixIsCloser(target: NodeId, near: NodeId, far: NodeId)
    requires SharedBits(far, target) < SharedBits(near, target)
    ensures Less(Xor(near, target), Xor(far, target))
  {
    var b := SharedBits(far, target);
    forall k: nat | k <= b { XorBit(near, target, k); }
    forall k: nat | k <= b { XorBit(far, target, k); }
    LaterFirstBitIsLess(Xor(near, target), Xor(far, target), b);
  }

  lemma AgreeBefore(a: NodeId, b: NodeId, q: nat)
    requires q <= ID_BITS && forall k: nat :: k < q ==> Bit(a, k) == Bit(b, k)
    ensures SharedBits(a, b) >= q
  {
  }

  lemma DifferAt(a: NodeId, b: NodeId, q: nat)
    requires q < ID_BITS && Bit(a, q) != Bit(b, q)
    ensures SharedBits(a, b) <= q
  {
  }

  /** Nodes that share with us what the target shares with us are closer to it than all others. */
  lemma SameBucketIsCloser(self: NodeId, target: NodeId, near: NodeId, far: NodeId)
    requires SharedBits(self, near) == SharedBits(self, target)
    requires SharedBits(self, far) != SharedBits(self, target)
    ensures Less(Xor(near, target), Xor(far, target))
    ensures Value(Xor(near, target)) < Value(Xor(far, target))
  {
    hide Less, Value, Xor, Bit, SharedBits;
    var s, j := SharedBits(self, target), SharedBits(self, far);
    var b := if j < s then j else s;
    DifferAt(far, target, b);
    if s < ID_BITS {
      forall k: nat | k <= s ensures Bit(near, k) == Bit(target, k) {
        assert k < s ==> Bit(self, k) == Bit(near, k) && Bit(self, k) == Bit(target, k);
      }
      AgreeBefore(near, target, s + 1);
    } else {
      SharedAllIsEqual(self, near);
      SharedAllIsEqual(self, target);
      SharedAllIsEqual(near, target);
    }
    LongerPrefixIsCloser(target, near, far);
    LessIsNumeric(Xor(near, target), Xor(far, target));
  }
}
