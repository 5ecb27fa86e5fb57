/** The Fisher-Yates shuffle of `bip_util/src/lib.rs`; its random numbers are a parameter. */
module Shuffles {

  function Swapped(s: seq<nat>, i: nat, j: nat): (r: seq<nat>)
    requires i < |s| && j < |s|
    ensures |r| == |s|
  {
    s[i := s[j]][j := s[i]]
  }

  /** From position `i` on, each element changes places with one that is not before it. */
  function Shuffled(s: seq<nat>, random: nat -> nat, i: nat): (r: seq<nat>)
    requires i <= |s|
    decreases |s| - i
  {
    if i == |s| then s else Shuffled(Swapped(s, i, random(i) % (|s| - i) + i), random, i + 1)
  }

  lemma SwappedKeeps(s: seq<nat>, i: nat, j: nat)
    requires i < |s| && j < |s|
    ensures multiset(Swapped(s, i, j)) == multiset(s)
  {
  }

  /** Whatever the random numbers, the elements are the same ones, each as often as before. */
  lemma {:induction false} ShuffledKeeps(s: seq<nat>, random: nat -> nat, i: nat)
    requires i <= |s|
    ensures multiset(Shuffled(s, random, i)) == multiset(s)
    decreases |s| - i
  {
    hide Swapped;
    if i < |s| {
      var j := random(i) % (|s| - i) + i;
      SwappedKeeps(s, i, j);
      ShuffledKeeps(Swapped(s, i, j), random, i + 1);
    }
  }

  lemma ShuffledStep(s: seq<nat>, random: nat -> nat, i: nat)
    requires i < |s|
    ensures var j := random(i) % (|s| - i) + i;
            var x := if j == i then 0 else s[j];
            Shuffled(s, random, i) == Shuffled(s[i := x][j := s[i]], random, i + 1)
  {
    var j := random(i) % (|s| - i) + i;
    var x := if j == i then 0 else s[j];
    assert s[i := x][j := s[i]] == Swapped(s, i, j);
  }

  lemma ShuffledEnd(s: seq<nat>, random: nat -> nat)
    ensures Shuffled(s, random, |s|) == s
  {
  }

  method FisherShuffle(list: array<nat>, random: nat -> nat)
    modifies list
    ensures list[..] == Shuffled(old(list[..]), random, 0)
    ensures multiset(list[..]) == old(multiset(list[..]))
  {
    hide Shuffled, Swapped;
    for i := 0 to list.Length
      invariant Shuffled(list[..], random, i) == Shuffled(old(list[..]), random, 0)
    {
      var swapIndex := random(i) % (list.Length - i) + i;
      ghost var was := list[..];
      var srcVal := list[i];
      list[i] := 0;
      var dstVal := list[swapIndex];
      list[swapIndex] := 0;
      list[i] := dstVal;
      list[swapIndex] := srcVal;
      assert list[..] == was[i := dstVal][swapIndex := srcVal];
      ShuffledStep(was, random, i);
    }
    ShuffledEnd(list[..], random);
    ShuffledKeeps(old(list[..]), random, 0);
  }

  // ---------------------------------------------------------------------------------------------
  // Every order can come out
  // ---------------------------------------------------------------------------------------------

  lemma {:induction false} LaterNumbersDecide(s: seq<nat>, random: nat -> nat, other: nat -> nat, i: nat)
    requires i <= |s| && forall k :: i <= k < |s| ==> random(k) == other(k)
    ensures Shuffled(s, random, i) == Shuffled(s, other, i)
    decreases |s| - i
  {
    hide Swapped;
    if i < |s| { LaterNumbersDecide(Swapped(s, i, random(i) % (|s| - i) + i), random, other, i + 1); }
  }

  lemma SplitCount(a: seq<nat>, b: seq<nat>, x: nat)
    ensures multiset(a + b)[x] == multiset(a)[x] + multiset(b)[x]
  {
  }

  /** An element of the wanted order is still among those not yet placed. */
  lemma StillThere(s: seq<nat>, t: seq<nat>, i: nat) returns (j: nat)
    requires i < |s| == |t| && s[..i] == t[..i] && multiset(s) == multiset(t)
    ensures i <= j < |s| && s[j] == t[i]
  {
    assert s == s[..i] + s[i..] && t == t[..i] + t[i..];
    assert t[i..][0] == t[i] && t[i] in multiset(t[i..]);
    SplitCount(s[..i], s[i..], t[i]);
    SplitCount(t[..i], t[i..], t[i]);
    assert multiset(s[i..])[t[i]] == multiset(t[i..])[t[i]];
    assert t[i] in s[i..];
    var k :| 0 <= k < |s[i..]| && s[i..][k] == t[i];
    j := i + k;
  }

  lemma SwappedInPlace(s: seq<nat>, t: seq<nat>, i: nat, j: nat)
    requires i <= j < |s| == |t| && s[..i] == t[..i] && s[j] == t[i]
    ensures Swapped(s, i, j)[..i + 1] == t[..i + 1]
  {
    assert Swapped(s, i, j)[..i + 1] == s[..i] + [t[i]] && t[..i + 1] == t[..i] + [t[i]];
  }

  lemma SmallModulo(a: nat, b: nat)
    requires a < b
    ensures a % b == a
  {
  }

  /** For every order of the elements there are random numbers that lead to it. */
  lemma {:induction false} EveryOrder(s: seq<nat>, t: seq<nat>, i: nat) returns (random: nat -> nat)
    requires i <= |s| == |t| && s[..i] == t[..i] && multiset(s) == multiset(t)
    ensures Shuffled(s, random, i) == t
    decreases |s| - i
  {
    hide Swapped;
    if i == |s| {
      assert s == s[..i] && t == t[..i];
      random := (_: nat) => 0;
    } else {
      var j := StillThere(s, t, i);
      var s' := Swapped(s, i, j);
      SwappedKeeps(s, i, j);
      SwappedInPlace(s, t, i, j);
      var later := EveryOrder(s', t, i + 1);
      var gap: nat := j - i;
      random := (k: nat) => if k == i then gap else later(k);
      SmallModulo(gap, |s| - i);
      LaterNumbersDecide(s', random, later, i + 1);
    }
  }
}
