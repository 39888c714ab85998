/** The bit packing of a paletted chunk section: 4096 palette ids of `b` bits
    each, stored back to back in a sequence of `u64` words, least significant
    bit first. An id may straddle two consecutive words. `ReadAt` and `Store`
    follow `get_palette` and `set_palette` word operation by word operation;
    the lemmas below give both their meaning in terms of the global bit
    string `GlobalBit`. */
module Packing {
  import opened Bits

  /** Bit `i` of the packed bit string. */
  function GlobalBit(data: seq<u64>, i: nat): bool
    requires i < 64 * |data|
  {
    Bit(data[i / 64], i % 64)
  }

  /** A `b`-bit id starting at bit `bi` lies inside `data`. */
  predicate Fits(data: seq<u64>, b: nat, bi: nat)
  {
    1 <= b < 64 && bi + b <= 64 * |data|
  }

  /** The `b`-bit id starting at bit `bi` (`get_palette`). */
  function ReadAt(data: seq<u64>, b: nat, bi: nat): (r: nat)
    requires Fits(data, b, bi)
    ensures r < Pow2(b)
  {
    var first := bi / 64;
    var second := (bi + b - 1) / 64;
    var shift := bi % 64;
    var mask := Mask(b);
    var low := And(Shr(data[first], shift), mask);
    if first == second then
      low
    else
      var high := And(Shl(data[second], 64 - shift), mask);
      OrBound(low, high, b);
      Or(low, high)
  }

  /** `data` with the `b`-bit id starting at bit `bi` replaced by `v`
      (`set_palette`). */
  function Store(data: seq<u64>, b: nat, bi: nat, v: nat): (r: seq<u64>)
    requires Fits(data, b, bi) && v < Pow2(b)
    ensures |r| == |data|
  {
    var first := bi / 64;
    var second := (bi + b - 1) / 64;
    var shift := bi % 64;
    var mask := Mask(b);
    Pow2Strict(b, 64);
    WordLimitIsPow2();
    var d1 := Or64(And(data[first], Not(Shl(mask, shift))), Shl(v, shift));
    if first == second then
      data[first := d1]
    else
      var d2 := Or64(And(data[second], Not(Shr(mask, 64 - shift))), Shr(v, 64 - shift));
      data[first := d1][second := d2]
  }

  /** The `k` bits of the packed bit string starting at bit `bi`, read as a
      number (least significant first): the reference reading of an id. */
  function Value(data: seq<u64>, bi: nat, k: nat): (r: nat)
    requires bi + k <= 64 * |data|
    ensures r < Pow2(k)
    decreases k
  {
    if k == 0 then 0 else 2 * Value(data, bi + 1, k - 1) + (if GlobalBit(data, bi) then 1 else 0)
  }

  lemma {:induction false} BitOfValue(data: seq<u64>, bi: nat, k: nat, j: nat)
    requires bi + k <= 64 * |data|
    ensures Bit(Value(data, bi, k), j) == (j < k && GlobalBit(data, bi + j))
    decreases k
  {
    if k == 0 {
      BitZero(j);
    } else {
      BitOfDouble(Value(data, bi + 1, k - 1), if GlobalBit(data, bi) then 1 else 0, j);
      if j > 0 {
        BitOfValue(data, bi + 1, k - 1, j - 1);
      }
    }
  }

  // ---------------------------------------------------------------------
  // Where an id lies: one word, or the top of one word and the bottom of the next

  lemma Layout(b: nat, bi: nat)
    requires 1 <= b < 64
    ensures bi == 64 * (bi / 64) + bi % 64
    ensures (bi + b - 1) / 64 == bi / 64 <==> bi % 64 + b <= 64
    ensures (bi + b - 1) / 64 != bi / 64 ==> (bi + b - 1) / 64 == bi / 64 + 1 && bi % 64 > 0
  {
  }

  /** Global bit `64 * w + j` is bit `j` of word `w`. */
  lemma GlobalBitAt(data: seq<u64>, w: nat, j: nat)
    requires w < |data| && j < 64
    ensures GlobalBit(data, 64 * w + j) == Bit(data[w], j)
  {
    assert (64 * w + j) / 64 == w && (64 * w + j) % 64 == j;
  }

  // ---------------------------------------------------------------------
  // The word operations of get_palette and set_palette, bit by bit

  /** `(d >> shift) & mask`: the bits of the id held in its first word. */
  lemma BitOfLowPart(d: u64, shift: nat, b: nat, k: nat)
    requires shift < 64 && 1 <= b < 64
    ensures Bit(And(Shr(d, shift), Mask(b)), k) == (k < b && shift + k < 64 && Bit(d, shift + k))
  {
    BitMask(b, k);
    BitAnd(Shr(d, shift), Mask(b), k);
    BitShr(d, shift, k);
    if shift + k >= 64 {
      WordLimitIsPow2();
      BitAbove(d, 64, shift + k);
    }
  }

  /** `(d << (64 - shift)) & mask`: the bits of the id held in its second word. */
  lemma BitOfHighPart(d: u64, shift: nat, b: nat, k: nat)
    requires 0 < shift < 64 && 1 <= b < 64
    ensures Bit(And(Shl(d, 64 - shift), Mask(b)), k)
         == (k < b && 64 - shift <= k && Bit(d, k - (64 - shift)))
  {
    BitMask(b, k);
    BitAnd(Shl(d, 64 - shift), Mask(b), k);
    BitShl(d, 64 - shift, k);
  }

  /** `d & !(mask << shift) | v << shift`: bit `j` of the id's first word
      after the store. */
  lemma BitOfStoreLow(d: u64, shift: nat, b: nat, v: nat, j: nat)
    requires shift < 64 && 1 <= b < 64 && v < Pow2(b) && j < 64
    ensures v < WORD_LIMIT
    ensures Bit(Or(And(d, Not(Shl(Mask(b), shift))), Shl(v, shift)), j)
         == if shift <= j < shift + b then Bit(v, j - shift) else Bit(d, j)
  {
    Pow2Strict(b, 64);
    WordLimitIsPow2();
    var cleared := And(d, Not(Shl(Mask(b), shift)));
    BitOr(cleared, Shl(v, shift), j);
    BitAnd(d, Not(Shl(Mask(b), shift)), j);
    BitNot(Shl(Mask(b), shift), j);
    BitShl(Mask(b), shift, j);
    BitShl(v, shift, j);
    if shift <= j {
      BitMask(b, j - shift);
      if j - shift >= b {
        BitAbove(v, b, j - shift);
      }
    }
  }

  /** `d & !(mask >> r) | v >> r`: bit `j` of the id's second word after the
      store, where `r = 64 - shift`. */
  lemma BitOfStoreHigh(d: u64, r: nat, b: nat, v: nat, j: nat)
    requires 1 <= b < 64 && v < Pow2(b) && j < 64
    ensures v < WORD_LIMIT
    ensures Bit(Or(And(d, Not(Shr(Mask(b), r))), Shr(v, r)), j)
         == if j + r < b then Bit(v, j + r) else Bit(d, j)
  {
    Pow2Strict(b, 64);
    WordLimitIsPow2();
    var cleared := And(d, Not(Shr(Mask(b), r)));
    BitOr(cleared, Shr(v, r), j);
    BitAnd(d, Not(Shr(Mask(b), r)), j);
    BitNot(Shr(Mask(b), r), j);
    BitShr(Mask(b), r, j);
    BitShr(v, r, j);
    BitMask(b, j + r);
    if j + r >= b {
      BitAbove(v, b, j + r);
    }
  }

  // ---------------------------------------------------------------------
  // Meaning of ReadAt and Store, bit by bit

  lemma BitOfRead(data: seq<u64>, b: nat, bi: nat, k: nat)
    requires Fits(data, b, bi)
    ensures Bit(ReadAt(data, b, bi), k) == (k < b && GlobalBit(data, bi + k))
  {
    var first := bi / 64;
    var second := (bi + b - 1) / 64;
    var shift := bi % 64;
    Layout(b, bi);
    BitOfLowPart(data[first], shift, b, k);
    if first != second {
      var low := And(Shr(data[first], shift), Mask(b));
      var high := And(Shl(data[second], 64 - shift), Mask(b));
      BitOr(low, high, k);
      BitOfHighPart(data[second], shift, b, k);
    }
    if k < b {
      if shift + k < 64 {
        GlobalBitAt(data, first, shift + k);
      } else {
        GlobalBitAt(data, second, k - (64 - shift));
      }
    }
  }

  lemma BitOfStore(data: seq<u64>, b: nat, bi: nat, v: nat, i: nat)
    requires Fits(data, b, bi) && v < Pow2(b)
    requires i < 64 * |data|
    ensures GlobalBit(Store(data, b, bi, v), i)
         == if bi <= i < bi + b then Bit(v, i - bi) else GlobalBit(data, i)
  {
    var first := bi / 64;
    var second := (bi + b - 1) / 64;
    var shift := bi % 64;
    var w := i / 64;
    var j := i % 64;
    var r := Store(data, b, bi, v);
    Layout(b, bi);
    GlobalBitAt(r, w, j);
    GlobalBitAt(data, w, j);
    if w == first {
      BitOfStoreLow(data[first], shift, b, v, j);
    } else if w == second {
      BitOfStoreHigh(data[second], 64 - shift, b, v, j);
    } else {
      assert r[w] == data[w];
    }
  }

  // ---------------------------------------------------------------------
  // Consequences: the word operations read the id, what is stored is read
  // back, and nothing else changes

  /** `get_palette`'s word operations read exactly the id's bits. */
  lemma ReadAtValue(data: seq<u64>, b: nat, bi: nat)
    requires Fits(data, b, bi)
    ensures ReadAt(data, b, bi) == Value(data, bi, b)
  {
    forall k | 0 <= k < b
      ensures Bit(ReadAt(data, b, bi), k) == Bit(Value(data, bi, b), k)
    {
      BitOfRead(data, b, bi, k);
      BitOfValue(data, bi, b, k);
    }
    BitsEqual(ReadAt(data, b, bi), Value(data, bi, b), b);
  }

  /** Reading a cell back after storing into it gives the stored id. */
  lemma ReadStoreSame(data: seq<u64>, b: nat, bi: nat, v: nat)
    requires Fits(data, b, bi) && v < Pow2(b)
    ensures ReadAt(Store(data, b, bi, v), b, bi) == v
  {
    var r := Store(data, b, bi, v);
    forall k | 0 <= k < b
      ensures Bit(ReadAt(r, b, bi), k) == Bit(v, k)
    {
      BitOfRead(r, b, bi, k);
      BitOfStore(data, b, bi, v, bi + k);
    }
    BitsEqual(ReadAt(r, b, bi), v, b);
  }

  /** Storing into one cell leaves every cell that does not overlap it
      unchanged. */
  lemma ReadStoreOther(data: seq<u64>, b: nat, bi: nat, v: nat, bj: nat)
    requires Fits(data, b, bi) && v < Pow2(b) && Fits(data, b, bj)
    requires bi + b <= bj || bj + b <= bi
    ensures ReadAt(Store(data, b, bi, v), b, bj) == ReadAt(data, b, bj)
  {
    var r := Store(data, b, bi, v);
    forall k | 0 <= k < b
      ensures Bit(ReadAt(r, b, bj), k) == Bit(ReadAt(data, b, bj), k)
    {
      StoreOtherBit(data, b, bi, v, bj, k);
    }
    BitsEqual(ReadAt(r, b, bj), ReadAt(data, b, bj), b);
  }

  lemma StoreOtherBit(data: seq<u64>, b: nat, bi: nat, v: nat, bj: nat, k: nat)
    requires Fits(data, b, bi) && v < Pow2(b) && Fits(data, b, bj)
    requires bi + b <= bj || bj + b <= bi
    requires k < b
    ensures Bit(ReadAt(Store(data, b, bi, v), b, bj), k) == Bit(ReadAt(data, b, bj), k)
  {
    var r := Store(data, b, bi, v);
    BitOfRead(r, b, bj, k);
    BitOfRead(data, b, bj, k);
    BitOfStore(data, b, bi, v, bj + k);
  }

  /** Every id of an all-zero word sequence is 0. */
  lemma ReadZeros(data: seq<u64>, b: nat, bi: nat)
    requires Fits(data, b, bi)
    requires forall w :: 0 <= w < |data| ==> data[w] == 0
    ensures ReadAt(data, b, bi) == 0
  {
    forall k | 0 <= k < b
      ensures Bit(ReadAt(data, b, bi), k) == Bit(0, k)
    {
      BitOfRead(data, b, bi, k);
      BitZero(k);
      BitZero((bi + k) % 64);
    }
    BitsEqual(ReadAt(data, b, bi), 0, b);
  }
}
