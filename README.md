# HyperBitBit in Dafny

A model of the `HyperBitBit` cardinality sketch of the `hyperbitbit` crate
(Sedgewick's HyperBitBit). The sketch has three fields: a scale `lgn: u8` and
two 64-bucket bitsets `sketch1: u64` and `sketch2: u64`. Each value is
inserted through its 64-bit hash:

- the low six bits of the hash pick a bucket `k`;
- the leading-zero count of the remaining 58 bits gives a rank `r`;
- bit `k` of `sketch1` is set when `r > lgn`, and bit `k` of `sketch2` when
  `r > lgn + 1`;
- when more than 31 bits of `sketch1` are then set, the sketch rescales:
  `sketch1 := sketch2`, `sketch2 := 0`, `lgn += 1`.

The estimate is `2^(lgn + 5.4 + popcount(sketch1) / 32)`.

Files:

- `bits.dfy` (module `Bits64`): `u64::leading_zeros` on `bv64`, and the fact
  that a word whose top six bits are clear has at least six leading zeros.
- `bitset.dfy` (module `Bitset`): a `u64` used as a bitset, as its 64 bits
  (`seq<bool>` of length 64, element `i` is bit `i`). It gives `x | (1 << k)`,
  `count_ones`, and the subset order `a & !b == 0`, with the counting lemmas.
- `hyperbitbit.dfy` (module `HyperBitBit`), in two forms:
  - the sketch as a value: `State`, `Default`, `Bucket`, `Rank`, `Mark` (the
    bit setting), `Step` (one `insert`), `Run` (a sequence of inserts),
    the invariant `Inv`, and the exponent of `cardinality`;
  - the class `HyperBitBit`, whose `Insert` updates the three fields in
    place, as the source does, and is proved equal to `Step`.

Modelling decisions:

- **The hash is an input.** `insert` takes the already computed 64-bit hash
  `h: bv64`, not the string.
- **`lgn` is a `u8` that wraps.** `self.lgn + 1` and `self.lgn += 1` are
  modelled as wrap-around at 256, as in a release build; a debug build would
  panic instead. `NoOverflow` and `ReachableInv` show that from the default
  state `lgn` stays at or below 58, so neither behaviour is ever reached.
- **The `u32` rank is a `nat`.** `leading_zeros()` returns a `u32`; it is
  modelled as a `nat`, and `Rank` proves the subtraction of 6 never goes
  below zero.
- **Popcount bound: the code allows 32, not 31.** One might expect
  popcount(`sketch1`) to be at most 31 after every insert. The code does not
  guarantee it: it rescales at most once per insert, and a rescale can hand
  over a `sketch2` with 32 bits set. The model follows the code:
  - `Inv` bounds the count by 32, and 32 bits imply an empty `sketch2`;
  - `Reaches32` shows 32 is reached from the default state by the hashes
    `0, ..., 31`.
- **Duplicates: absorbed for sure only without a rescale.** Inserting a hash
  twice is not always the same as inserting it once. It is when the first
  insert did not rescale (`StepDuplicate`). After a rescale, a re-insert can
  change the state: `DuplicateAfterRescale` shows it does whenever the rank
  is above `lgn + 2`, since the bucket's `sketch2` bit was just cleared.

## Model

| member | source | states |
|---|---|---|
| HyperBitBit.Default | src/lib.rs:90-97 | the default sketch has `lgn == 5` and no bit set in either bitset |
| HyperBitBit.HyperBitBit.constructor | src/lib.rs:108-110 | `new()` yields the default state, which satisfies the invariant |
| HyperBitBit.BucketWord | src/lib.rs:139 | `(h << 58) >> 58` equals `h % 64` and is below 64 |
| HyperBitBit.Bucket | src/lib.rs:139 | the bucket index is `h mod 64`, a valid bit position of a `u64` (0..63) |
| Bits64.LeadingZerosTopSixClear | src/lib.rs:140 | a word with its top six bits clear, such as `h >> 6`, has at least six leading zeros |
| Bits64.LeadingZeros | src/lib.rs:140 | `u64::leading_zeros`, the count of zero bits above the highest set bit, is at most 64 |
| Bits64.LeadingZerosSeventhBit | src/lib.rs:140 | a word whose top six bits are clear and whose seventh bit is set has exactly six leading zeros |
| Bits64.LeadingZerosOfZero | src/lib.rs:140 | `leading_zeros(0) == 64` |
| HyperBitBit.Rank | src/lib.rs:140 | `leading_zeros(h >> 6) - 6` does not underflow; the rank lies in 0..58 and is 58 when `h >> 6 == 0` |
| HyperBitBit.RankOfTopBit | src/lib.rs:140 | a hash with its top bit set has rank 0, so the `- 6` discounts exactly the six bits `h >> 6` clears |
| HyperBitBit.WrappingIncrement | src/lib.rs:146 | `u8` increment with wrap-around: the result is `(x + 1) mod 256` |
| HyperBitBit.Mark | src/lib.rs:142-148 | bit setting keeps `lgn`, changes only bit `k` of each bitset and only sets bits; bit `k` of `sketch1` is set iff it was or `r > lgn`, of `sketch2` iff it was or `r > lgn+1`; a new `sketch2` bit comes with the `sketch1` bit |
| HyperBitBit.MarkCountOnes | src/lib.rs:142-149 | the bit setting adds at most one bit to `sketch1` and removes none |
| HyperBitBit.Rescales | src/lib.rs:149 | the `count_ones() > 31` test after bit setting: it holds whenever `sketch1` already has 32 bits, and never when it has fewer than 31 |
| HyperBitBit.Step | src/lib.rs:142-153 | one insert: without a rescale `lgn` is kept and bits are only added; with one, `lgn` is incremented and `sketch2` emptied (`StepRescale` gives the whole new state) |
| Bitset.SetBit | src/lib.rs:143 | `x \| (1 << k)` sets bit `k` and leaves every other bit unchanged |
| Bitset.CountOnes | src/lib.rs:149 | `count_ones` is at most 64 |
| Bitset.CountOnesZeroIff | src/lib.rs:149-151 | `count_ones` is zero exactly for the word 0 |
| Bitset.CountOnesSubset | src/lib.rs:149-150 | `count_ones` is monotone in the subset order |
| Bitset.CountOnesSetBit | src/lib.rs:143-149 | setting bit `k` adds one to `count_ones` when the bit was clear, nothing when it was set |
| HyperBitBit.StepRescale | src/lib.rs:149-153 | `lgn` grows by exactly one when `sketch1` has more than 31 bits after bit setting; then `sketch1` becomes the pre-rescale `sketch2` and `sketch2` becomes 0; otherwise only the bit setting happens |
| HyperBitBit.RunSnoc | src/lib.rs:134-154 | inserting one more hash after a sequence is one more `insert` |
| HyperBitBit.DefaultInv | src/lib.rs:92-96 | the default state satisfies the invariant |
| HyperBitBit.StepPreservesInv | src/lib.rs:139-153 | `insert` preserves: `5 <= lgn <= 58`, `sketch2 ⊆ sketch1`, `popcount(sketch1) <= 32`, 32 bits imply `sketch2 == 0`, `lgn >= 57` implies `sketch2 == 0`, `lgn == 58` implies `sketch1 == 0` |
| HyperBitBit.RunPreservesInv | src/lib.rs:134-154 | any sequence of inserts preserves the invariant |
| HyperBitBit.ReachableInv | src/lib.rs:134-154 | from the default state, after any inserts, the invariant holds (`sketch2 ⊆ sketch1`, popcount at most 32 and 32 only with empty `sketch2`, `lgn` in 5..58) |
| HyperBitBit.NoOverflow | src/lib.rs:146-152 | under the invariant `lgn + 1` does not wrap and one insert moves `lgn` up by 0 or 1 |
| HyperBitBit.RunLgnMonotone | src/lib.rs:152 | under the invariant (so for every state reachable from the default): along any inserts, between each state and the next, `lgn` never decreases and grows by at most one; overall it ends at most `\|hs\|` above the start |
| HyperBitBit.MarkIdempotent | src/lib.rs:142-148 | repeating the bit setting for the same hash changes nothing |
| HyperBitBit.StepDuplicate | src/lib.rs:142-153 | re-inserting a hash right after an insert of it that did not rescale leaves all three fields unchanged |
| HyperBitBit.DuplicateAfterRescale | src/lib.rs:146-153 | after an insert that rescaled, re-inserting the same hash changes the state whenever its rank is above `lgn + 2` (with a lower rank it may be absorbed) |
| HyperBitBit.StepReaches32 | src/lib.rs:146-153 | a rescale can leave 32 bits in `sketch1`: 31 bits in both bitsets plus a new bucket of rank above `lgn + 1` |
| HyperBitBit.SmallHash | src/lib.rs:139-140 | a hash below 64 is its own bucket and has rank 58 |
| HyperBitBit.CountPrefix | src/lib.rs:149 | the word with bits `0..n-1` set has `count_ones == n` |
| HyperBitBit.StepPrefix | src/lib.rs:139-153 | inserting hash `i` into the scale-5 sketch holding buckets `0..i-1` in both bitsets adds bucket `i` to both without rescaling, for `i < 31` |
| HyperBitBit.RunHashes | src/lib.rs:134-154 | inserting hashes `0..n-1` (`n <= 31`) into the default sketch sets buckets `0..n-1` in both bitsets at scale 5 |
| HyperBitBit.Reaches32 | src/lib.rs:149-153 | from the default sketch, inserting hashes `0..31` leaves 32 bits in `sketch1` |
| HyperBitBit.Exponent | src/lib.rs:122 | the exponent `lgn + 5.4 + count_ones(sketch1) / 32` lies between `lgn + 5.4` and `lgn + 7.4` |
| HyperBitBit.DefaultExponent | src/lib.rs:122 | the exponent of the default sketch is 10.4 (2^10.4 ≈ 1351, the empty estimate) |
| HyperBitBit.ExponentBounds | src/lib.rs:122-123 | under the invariant the exponent lies in [10.4, 63.4], so `2^exponent` fits in a `u64` |
| HyperBitBit.ExponentMonotone | src/lib.rs:122 | under the invariant (so for every state reachable from the default), an insert never lowers the exponent of the estimate |
| HyperBitBit.HyperBitBit.Insert | src/lib.rs:134-154 | updating the fields in place yields exactly `Step` of the old state, and preserves the invariant |

## Left out

- Hashing (src/lib.rs:135-137): `DefaultHasher` is an external SipHash implementation. `insert` takes the 64-bit hash as a parameter.
- The numeric body of `cardinality` (src/lib.rs:123): `f64::powf` and the float-to-integer cast are not modelled. Only the exponent is, as a `real`. The regression value 1351 and the 10% accuracy test depend on floating point, the real hasher and a random generator.
- Floating-point rounding in the exponent: 5.4 and the division by 32.0 are exact reals here.
- Serialization (the serde derives and the JSON round-trip test): it is library code.
- The crate's `simple.rs` example program and the doc-comment usage example: they are random-input drivers with printing. The example program also calls a method `add` that the crate does not define.
- `Clone`/`Copy`/`Debug` derives: copies of a value are the value itself in the datatype model.
- Debug-build overflow panic on `lgn`: `WrappingIncrement` models the release behaviour. The panic is unreachable from the default state anyway (`NoOverflow`).
- Deserialized states: serde could build a state that violates `Inv`. `Insert` states `Step` for every state, and keeps `Inv` only when it held before.
- The sketches as 64 booleans: `|`, `1 << k`, `count_ones` and `a & !b == 0` are modelled by their bitwise meaning on a sequence of 64 bits (`Bitset.SetBit`, `Bitset.CountOnes`, `Bitset.Subset`). That they agree with the `u64` operators is not proved.
