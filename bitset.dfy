/** A `u64` used as a set of 64 buckets, given by its 64 bits: element `i`
    of the sequence is bit `i` of the word (bit 0 least significant). */
module Bitset {

  /** A 64-bit word as its 64 bits. */
  type Bitset64 = s: seq<bool> | |s| == 64 witness Empty()

  /** The word 0: no bit set. */
  function Empty(): (s: seq<bool>)
    ensures |s| == 64
    ensures forall i :: 0 <= i < 64 ==> !s[i]
  {
    seq(64, i => false)
  }

  /** `x | (1 << k)`: bit `k` set, every other bit as in `x`. */
  function SetBit(x: Bitset64, k: nat): (y: Bitset64)
    requires k < 64
    ensures y[k]
    ensures forall i :: 0 <= i < 64 && i != k ==> y[i] == x[i]
  {
    x[k := true]
  }

  /** `a & !b == 0`: every bit set in `a` is set in `b`. */
  predicate Subset(a: Bitset64, b: Bitset64) {
    forall i :: 0 <= i < 64 ==> a[i] ==> b[i]
  }

  /** Number of `true` elements of `s`. */
  function Count(s: seq<bool>): nat
  {
    if |s| == 0 then 0 else Count(s[..|s| - 1]) + (if s[|s| - 1] then 1 else 0)
  }

  /** `u64::count_ones`: the number of set bits. */
  function CountOnes(x: Bitset64): (c: nat)
    ensures c <= 64
  {
    CountBound(x);
    Count(x)
  }

  lemma {:induction false} CountBound(s: seq<bool>)
    ensures Count(s) <= |s|
  {
    if |s| > 0 {
      CountBound(s[..|s| - 1]);
    }
  }

  /** No element is `true` exactly when the count is zero. */
  lemma {:induction false} CountZeroIff(s: seq<bool>)
    ensures Count(s) == 0 <==> forall i :: 0 <= i < |s| ==> !s[i]
  {
    if |s| > 0 {
      var t := s[..|s| - 1];
      CountZeroIff(t);
      assert forall i :: 0 <= i < |t| ==> t[i] == s[i];
    }
  }

  /** `count_ones` is zero exactly for the word 0. */
  lemma CountOnesZeroIff(x: Bitset64)
    ensures CountOnes(x) == 0 <==> x == Empty()
  {
    CountZeroIff(x);
    if forall i :: 0 <= i < 64 ==> !x[i] {
      assert x == Empty();
    }
  }

  /** Elementwise implication between equally long sequences bounds their counts. */
  lemma {:induction false} CountMonotone(a: seq<bool>, b: seq<bool>)
    requires |a| == |b|
    requires forall i :: 0 <= i < |a| ==> a[i] ==> b[i]
    ensures Count(a) <= Count(b)
  {
    if |a| > 0 {
      var a', b' := a[..|a| - 1], b[..|b| - 1];
      assert forall i :: 0 <= i < |a'| ==> a'[i] == a[i] && b'[i] == b[i];
      CountMonotone(a', b');
    }
  }

  /** `count_ones` is monotone in the subset order. */
  lemma CountOnesSubset(a: Bitset64, b: Bitset64)
    requires Subset(a, b)
    ensures CountOnes(a) <= CountOnes(b)
  {
    CountMonotone(a, b);
  }

  /** Setting element `k` to `true` adds one when it was `false`, nothing otherwise. */
  lemma {:induction false} CountUpdate(s: seq<bool>, k: nat)
    requires k < |s|
    ensures Count(s[k := true]) == Count(s) + (if s[k] then 0 else 1)
  {
    var t := s[k := true];
    var n := |s| - 1;
    if k < n {
      CountUpdate(s[..n], k);
      assert t[..n] == s[..n][k := true];
    } else {
      assert t[..n] == s[..n];
    }
  }

  /** Setting bit `k` adds one set bit when it was clear and none when it was set. */
  lemma CountOnesSetBit(x: Bitset64, k: nat)
    requires k < 64
    ensures CountOnes(SetBit(x, k)) == CountOnes(x) + (if x[k] then 0 else 1)
  {
    CountUpdate(x, k);
  }
}
