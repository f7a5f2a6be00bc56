/** Sedgewick's HyperBitBit cardinality sketch: a scale `lgn` and two 64-bucket
    bitsets, updated by one insert per observed hash. */
module HyperBitBit {
  import opened Bits64
  import opened Bitset

  /** `u8`. */
  newtype u8 = x: int | 0 <= x < 256

  /** `u8` addition of one with wrap-around. */
  function WrappingIncrement(x: u8): (y: u8)
    ensures y as int == (x as int + 1) % 256
  {
    if x == 255 then 0 else x + 1
  }

  /** The three fields of the sketch. */
  datatype State = State(lgn: u8, sketch1: Bitset64, sketch2: Bitset64)

  /** `Default::default` and `new`: scale 5, both bitsets empty. */
  function Default(): (s: State)
    ensures s.lgn == 5
    ensures CountOnes(s.sketch1) == 0 && CountOnes(s.sketch2) == 0
  {
    CountOnesZeroIff(Empty());
    State(5, Empty(), Empty())
  }

  /** `(h << 58) >> 58`: the low six bits of the hash, as a word. */
  function BucketWord(h: bv64): (k: bv64)
    ensures k == h % 64
    ensures k < 64
  {
    (h << 58) >> 58
  }

  /** The bucket index `k` of a hash, a valid bit position of a `u64`. */
  function Bucket(h: bv64): (k: nat)
    ensures k == (h % 64) as int
    ensures k < 64
  {
    BucketWord(h) as int
  }

  /** `(h >> 6).leading_zeros() - 6`: the rank of a hash, read off the 58 bits
      above the bucket. The `u32` subtraction cannot underflow. */
  function Rank(h: bv64): (r: nat)
    ensures r + 6 == LeadingZeros(h >> 6)
    ensures r <= 58
    ensures h >> 6 == 0 ==> r == 58
  {
    assert (h >> 6) >> 58 == 0;
    LeadingZerosTopSixClear(h >> 6);
    LeadingZerosOfZero();
    LeadingZeros(h >> 6) - 6
  }

  /** A hash with its top bit set has rank 0: the `- 6` discounts exactly the
      six bits the shift `h >> 6` clears. */
  lemma RankOfTopBit(h: bv64)
    requires h & TopBit != 0
    ensures Rank(h) == 0
  {
    assert (h >> 6) >> 57 == 1;
    LeadingZerosSeventhBit(h >> 6);
  }

  /** The bit setting of `insert`: bit `k` of `sketch1` when the rank exceeds
      `lgn`, bit `k` of `sketch2` when it exceeds `lgn + 1`. */
  function Mark(s: State, h: bv64): (t: State)
    ensures t.lgn == s.lgn
    ensures t.sketch1[Bucket(h)] <==> s.sketch1[Bucket(h)] || Rank(h) > s.lgn as int
    ensures t.sketch2[Bucket(h)] <==> s.sketch2[Bucket(h)] || Rank(h) > WrappingIncrement(s.lgn) as int
    ensures forall i :: 0 <= i < 64 && i != Bucket(h) ==> t.sketch1[i] == s.sketch1[i] && t.sketch2[i] == s.sketch2[i]
    ensures Subset(s.sketch1, t.sketch1) && Subset(s.sketch2, t.sketch2)
    ensures s.lgn < 255 && t.sketch2[Bucket(h)] && !s.sketch2[Bucket(h)] ==> t.sketch1[Bucket(h)]
  {
    var k := Bucket(h);
    var r := Rank(h);
    var s1 := if r > s.lgn as int then SetBit(s.sketch1, k) else s.sketch1;
    var s2 := if r > WrappingIncrement(s.lgn) as int then SetBit(s.sketch2, k) else s.sketch2;
    State(s.lgn, s1, s2)
  }

  /** The bit setting adds at most one bit to `sketch1`. */
  lemma MarkCountOnes(s: State, h: bv64)
    ensures CountOnes(s.sketch1) <= CountOnes(Mark(s, h).sketch1) <= CountOnes(s.sketch1) + 1
  {
    if Rank(h) > s.lgn as int {
      CountOnesSetBit(s.sketch1, Bucket(h));
    } else {
      assert Mark(s, h).sketch1 == s.sketch1;
    }
  }

  /** Whether the bit setting leaves more than 31 bits in `sketch1`: it does
      whenever `sketch1` already holds 32 bits, and never below 31. */
  predicate Rescales(s: State, h: bv64)
    ensures Rescales(s, h) ==> CountOnes(s.sketch1) >= 31
    ensures CountOnes(s.sketch1) >= 32 ==> Rescales(s, h)
  {
    MarkCountOnes(s, h);
    CountOnes(Mark(s, h).sketch1) > 31
  }

  /** `insert` given the hash of the inserted value. Without a rescale it only
      adds bits; a rescale empties `sketch2`. */
  function Step(s: State, h: bv64): (t: State)
    ensures !Rescales(s, h) ==> t.lgn == s.lgn && Subset(s.sketch1, t.sketch1) && Subset(s.sketch2, t.sketch2)
    ensures Rescales(s, h) ==> t.lgn == WrappingIncrement(s.lgn) && t.sketch2 == Empty()
  {
    var m := Mark(s, h);
    if Rescales(s, h) then State(WrappingIncrement(m.lgn), m.sketch2, Empty()) else m
  }

  /** The state after inserting the hashes `hs` in order. */
  function Run(s: State, hs: seq<bv64>): State
  {
    if |hs| == 0 then s else Step(Run(s, hs[..|hs| - 1]), hs[|hs| - 1])
  }

  /** Inserting one more hash after a sequence is one more step. */
  lemma RunSnoc(s: State, hs: seq<bv64>, h: bv64)
    ensures Run(s, hs + [h]) == Step(Run(s, hs), h)
  {
    assert (hs + [h])[..|hs|] == hs;
  }

  /** What every state reachable from `Default()` satisfies. */
  predicate Inv(s: State) {
    && 5 <= s.lgn <= 58
    && Subset(s.sketch2, s.sketch1)
    && CountOnes(s.sketch1) <= 32
    && (CountOnes(s.sketch1) == 32 ==> s.sketch2 == Empty())
    && (s.lgn >= 57 ==> s.sketch2 == Empty())
    && (s.lgn == 58 ==> s.sketch1 == Empty())
  }

  /** The scale moves only by the rescale: it grows by exactly one when the
      bit setting leaves more than 31 bits in `sketch1`, and then the new
      `sketch1` is the `sketch2` before the rescale and `sketch2` is empty;
      otherwise only the bit setting happens. */
  lemma StepRescale(s: State, h: bv64)
    requires s.lgn < 255
    ensures Rescales(s, h) ==> Step(s, h) == State(s.lgn + 1, Mark(s, h).sketch2, Empty())
    ensures !Rescales(s, h) ==> Step(s, h) == Mark(s, h)
    ensures Step(s, h).lgn as int == s.lgn as int + (if Rescales(s, h) then 1 else 0)
  {
  }

  /** The default state satisfies the invariant. */
  lemma DefaultInv()
    ensures Inv(Default())
  {
  }

  /** Every insert preserves the invariant. */
  lemma StepPreservesInv(s: State, h: bv64)
    requires Inv(s)
    ensures Inv(Step(s, h))
  {
    var k, r := Bucket(h), Rank(h);
    var m := Mark(s, h);
    assert WrappingIncrement(s.lgn) as int == s.lgn as int + 1;
    assert Subset(m.sketch2, m.sketch1);
    if r > s.lgn as int {
      CountOnesSetBit(s.sketch1, k);
    } else {
      assert m.sketch1 == s.sketch1;
    }
    assert CountOnes(m.sketch1) <= CountOnes(s.sketch1) + 1;
    CountOnesZeroIff(Empty());
    if s.lgn >= 57 {
      assert m.sketch2 == s.sketch2;
    }
    if s.lgn == 58 {
      assert m.sketch1 == s.sketch1;
    }
    if CountOnes(m.sketch1) > 31 {
      CountOnesSubset(m.sketch2, m.sketch1);
      if CountOnes(s.sketch1) == 32 {
        if r > WrappingIncrement(s.lgn) as int {
          CountOnesSetBit(s.sketch2, k);
        } else {
          assert m.sketch2 == s.sketch2;
        }
        assert CountOnes(m.sketch2) <= 1;
      }
    }
  }

  /** Every insert sequence preserves the invariant. */
  lemma {:induction false} RunPreservesInv(s: State, hs: seq<bv64>)
    requires Inv(s)
    ensures Inv(Run(s, hs))
  {
    if |hs| > 0 {
      RunPreservesInv(s, hs[..|hs| - 1]);
      StepPreservesInv(Run(s, hs[..|hs| - 1]), hs[|hs| - 1]);
    }
  }

  /** From the default state, after any inserts: `sketch2 ⊆ sketch1`, at most
      32 bits in `sketch1` and none in `sketch2` when there are 32, and a scale
      between 5 and 58. */
  lemma ReachableInv(hs: seq<bv64>)
    ensures Inv(Run(Default(), hs))
  {
    DefaultInv();
    RunPreservesInv(Default(), hs);
  }

  /** A state satisfying the invariant never overflows the `u8` scale, either
      in `lgn + 1` or in `lgn += 1`: the scale grows by at most one and never
      shrinks. */
  lemma NoOverflow(s: State, h: bv64)
    requires Inv(s)
    ensures WrappingIncrement(s.lgn) as int == s.lgn as int + 1
    ensures s.lgn <= Step(s, h).lgn <= s.lgn + 1
  {
  }

  /** Insert `i + 1` of a sequence, from a state satisfying the invariant,
      raises the scale by zero or one. */
  lemma RunLgnStep(s: State, hs: seq<bv64>, i: nat)
    requires Inv(s) && i < |hs|
    ensures Run(s, hs[..i]).lgn <= Run(s, hs[..i + 1]).lgn
    ensures Run(s, hs[..i + 1]).lgn as int <= Run(s, hs[..i]).lgn as int + 1
  {
    var p := hs[..i];
    assert hs[..i + 1] == p + [hs[i]];
    RunSnoc(s, p, hs[i]);
    RunPreservesInv(s, p);
    NoOverflow(Run(s, p), hs[i]);
  }

  /** Along any insert sequence from a state satisfying the invariant, the
      scale never decreases and grows by at most one per insert, so it ends
      at most `|hs|` above where it started. */
  lemma {:induction false} RunLgnMonotone(s: State, hs: seq<bv64>)
    requires Inv(s)
    ensures forall i :: 0 <= i < |hs| ==>
      Run(s, hs[..i]).lgn <= Run(s, hs[..i + 1]).lgn &&
      Run(s, hs[..i + 1]).lgn as int <= Run(s, hs[..i]).lgn as int + 1
    ensures s.lgn <= Run(s, hs).lgn
    ensures Run(s, hs).lgn as int <= s.lgn as int + |hs|
  {
    forall i | 0 <= i < |hs| {
      RunLgnStep(s, hs, i);
    }
    if |hs| > 0 {
      var p := hs[..|hs| - 1];
      RunLgnMonotone(s, p);
      RunPreservesInv(s, p);
      NoOverflow(Run(s, p), hs[|hs| - 1]);
    }
  }

  /** Setting bits that are already set changes nothing. */
  lemma MarkIdempotent(s: State, h: bv64)
    ensures Mark(Mark(s, h), h) == Mark(s, h)
  {
    var t, u := Mark(s, h), Mark(Mark(s, h), h);
    assert u.sketch1 == t.sketch1;
    assert u.sketch2 == t.sketch2;
  }

  /** Re-inserting a hash straight after an insert of it that did not rescale
      leaves all three fields unchanged. */
  lemma StepDuplicate(s: State, h: bv64)
    requires !Rescales(s, h)
    ensures Step(Step(s, h), h) == Step(s, h)
  {
    MarkIdempotent(s, h);
  }

  /** Re-inserting after an insert that rescaled does change the state when
      the rank clears the raised threshold: duplicates are absorbed only
      between rescales. */
  lemma DuplicateAfterRescale(s: State, h: bv64)
    requires s.lgn < 254
    requires Rescales(s, h)
    requires Rank(h) > s.lgn as int + 2
    ensures Step(Step(s, h), h) != Step(s, h)
  {
    var t := Step(s, h);
    assert t.sketch2 == Empty();
    var u := Mark(t, h);
    assert u.sketch2[Bucket(h)];
    if Rescales(t, h) {
      assert Step(t, h).lgn != t.lgn;
    } else {
      assert Step(t, h).sketch2 != t.sketch2;
    }
  }

  /** `sketch1` may end an insert with 32 bits set: one rescale hands over a
      full `sketch2`. */
  lemma StepReaches32(s: State, h: bv64)
    requires Inv(s)
    requires CountOnes(s.sketch1) == 31 && s.sketch2 == s.sketch1
    requires !s.sketch1[Bucket(h)] && Rank(h) > s.lgn as int + 1
    ensures CountOnes(Step(s, h).sketch1) == 32
  {
    var k := Bucket(h);
    CountOnesSetBit(s.sketch1, k);
    CountOnesSetBit(s.sketch2, k);
  }

  /** The hashes `0, 1, ..., n - 1`, in that order. */
  function Hashes(n: bv64): (hs: seq<bv64>)
    requires n <= 32
    ensures |hs| == n as int
    decreases n
  {
    if n == 0 then [] else Hashes(n - 1) + [n - 1]
  }

  /** Buckets `0, ..., n - 1` set. */
  function Prefix(n: nat): (x: Bitset64)
    ensures forall i :: 0 <= i < 64 ==> (x[i] <==> i < n)
  {
    seq(64, i => i < n)
  }

  /** A hash below 64 is its own bucket and has the largest rank. */
  lemma SmallHash(w: bv64)
    requires w < 64
    ensures Bucket(w) == w as int
    ensures Rank(w) == 58
  {
    assert w % 64 == w && w >> 6 == 0;
  }

  /** Buckets `0, ..., n - 1` are `n` set bits. */
  lemma {:induction false} CountPrefix(n: nat)
    requires n <= 64
    ensures CountOnes(Prefix(n)) == n
  {
    if n == 0 {
      assert Prefix(0) == Empty();
      CountOnesZeroIff(Empty());
    } else {
      CountPrefix(n - 1);
      assert Prefix(n) == SetBit(Prefix(n - 1), n - 1);
      CountOnesSetBit(Prefix(n - 1), n - 1);
    }
  }

  /** Inserting hash `i` into a default-scale sketch holding buckets
      `0, ..., i - 1` in both bitsets adds bucket `i` to both, without a
      rescale while fewer than 31 buckets were set. */
  // The hash is passed both as the word `w` and as its value `i`, so that the
  // solver never has to convert between the two.
  lemma StepPrefix(w: bv64, i: nat)
    requires w < 31 && i == w as int
    ensures Step(State(5, Prefix(i), Prefix(i)), w) == State(5, Prefix(i + 1), Prefix(i + 1))
  {
    SmallHash(w);
    var p, q := Prefix(i), Prefix(i + 1);
    assert q == SetBit(p, i);
    CountPrefix(i + 1);
    assert Mark(State(5, p, p), w) == State(5, q, q);
  }

  /** Inserting `0, ..., n - 1` with `n <= 31` into the default sketch sets
      buckets `0, ..., n - 1` in both bitsets and never rescales. */
  // As in `StepPrefix`, `i` is the value of the word `n`.
  lemma {:induction false} RunHashes(n: bv64, i: nat)
    requires n <= 31 && i == n as int
    ensures Run(Default(), Hashes(n)) == State(5, Prefix(i), Prefix(i))
  {
    if n == 0 {
      assert Prefix(0) == Empty();
    } else {
      var m := n - 1;
      assert m as int == i - 1;
      calc {
        Run(Default(), Hashes(n));
        { assert Hashes(n) == Hashes(m) + [m]; }
        Run(Default(), Hashes(m) + [m]);
        { RunSnoc(Default(), Hashes(m), m); }
        Step(Run(Default(), Hashes(m)), m);
        { RunHashes(m, i - 1); }
        Step(State(5, Prefix(i - 1), Prefix(i - 1)), m);
        { StepPrefix(m, i - 1); }
        State(5, Prefix(i), Prefix(i));
      }
    }
  }

  /** From the default sketch, inserting the hashes `0, ..., 31` leaves 32
      bits set in `sketch1`: the bound 32 of `Inv` is reached. */
  lemma Reaches32()
    ensures CountOnes(Run(Default(), Hashes(32)).sketch1) == 32
  {
    RunHashes(31, 31);
    CountPrefix(31);
    RunSnoc(Default(), Hashes(31), 31);
    ReachableInv(Hashes(31));
    SmallHash(31);
    StepReaches32(Run(Default(), Hashes(31)), 31);
  }

  /** The exponent of `cardinality`: the estimate is two to this power. It
      lies between `lgn + 5.4` and `lgn + 7.4`. */
  function Exponent(s: State): (e: real)
    ensures s.lgn as real + 5.4 <= e <= s.lgn as real + 7.4
  {
    s.lgn as real + 5.4 + CountOnes(s.sketch1) as real / 32.0
  }

  /** The default state's exponent is 10.4, the estimate of an empty sketch. */
  lemma DefaultExponent()
    ensures Exponent(Default()) == 10.4
  {
  }

  /** Under the invariant the exponent lies in [10.4, 63.4], so the estimate
      `2^exponent` fits in a `u64`. */
  lemma ExponentBounds(s: State)
    requires Inv(s)
    ensures 10.4 <= Exponent(s) <= 63.4
  {
    if s.lgn == 58 {
      CountOnesZeroIff(s.sketch1);
    }
  }

  /** An insert never lowers the exponent, hence never lowers the estimate. */
  lemma ExponentMonotone(s: State, h: bv64)
    requires Inv(s)
    ensures Exponent(s) <= Exponent(Step(s, h))
  {
    var m := Mark(s, h);
    CountOnesSubset(s.sketch1, m.sketch1);
  }

  /** The sketch as the object `insert` updates in place. */
  class HyperBitBit {
    var lgn: u8
    var sketch1: Bitset64
    var sketch2: Bitset64

    /** The fields as a value. */
    function Value(): State
      reads this
    {
      State(lgn, sketch1, sketch2)
    }

    /** `new`: the default state. */
    constructor ()
      ensures Value() == Default()
      ensures Inv(Value())
    {
      lgn := 5;
      sketch1 := Empty();
      sketch2 := Empty();
      DefaultInv();
    }

    /** `insert` of a value whose hash is `h`. */
    method Insert(h: bv64)
      modifies this
      ensures Value() == Step(old(Value()), h)
      ensures old(Inv(Value())) ==> Inv(Value())
    {
      ghost var s := Value();
      var k := Bucket(h);
      var r := Rank(h);
      if r > lgn as int {
        sketch1 := SetBit(sketch1, k);
      }
      if r > WrappingIncrement(lgn) as int {
        sketch2 := SetBit(sketch2, k);
      }
      assert Value() == Mark(s, h);
      assert CountOnes(sketch1) > 31 <==> Rescales(s, h);
      if CountOnes(sketch1) > 31 {
        sketch1 := sketch2;
        sketch2 := Empty();
        lgn := WrappingIncrement(lgn);
      }
      if Inv(s) {
        StepPreservesInv(s, h);
      }
    }
  }
}
