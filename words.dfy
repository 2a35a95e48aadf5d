/** 32-bit register words as the sets of the positions of their set bits. `x | y` is union,
    `x & ~y` difference and `x & y` intersection; a number is turned into a word by its binary
    digits, and a word back into a number by summing the powers of two of its positions. */
module Words {

  /** A register word: the positions (0 to 31) of its set bits. */
  type Word = set<nat>

  /** `x | bits`. */
  function Or(x: Word, bits: Word): Word { x + bits }

  /** `x & ~bits`. */
  function AndNot(x: Word, bits: Word): Word { x - bits }

  /** Every bit of `bits` is set in x. */
  predicate AllSet(x: Word, bits: Word) { bits <= x }

  /** Every bit of `bits` is clear in x. */
  predicate AllClear(x: Word, bits: Word) { x * bits == {} }

  /** x and y agree on every bit outside `bits`. */
  predicate SameOutside(x: Word, y: Word, bits: Word) { x - bits == y - bits }

  /** `(prev & ~mask) | value`, the read-modify-write the driver applies to its registers. */
  function MaskedMerge(prev: Word, mask: Word, value: Word): Word
  {
    Or(AndNot(prev, mask), value)
  }

  /** After a merge the bits of value are set ... */
  lemma MergeSets(prev: Word, mask: Word, value: Word)
    ensures AllSet(MaskedMerge(prev, mask, value), value)
  {
  }

  /** ... the other bits of mask are clear ... */
  lemma MergeClears(prev: Word, mask: Word, value: Word)
    ensures AllClear(MaskedMerge(prev, mask, value), AndNot(mask, value))
  {
  }

  /** ... and every bit outside mask and value keeps its old value. */
  lemma MergeKeeps(prev: Word, mask: Word, value: Word)
    ensures SameOutside(MaskedMerge(prev, mask, value), prev, Or(mask, value))
  {
  }

  /** Where value lies inside mask, the masked bits read exactly value ... */
  lemma MergeAssigns(prev: Word, mask: Word, value: Word)
    requires AllSet(mask, value)
    ensures MaskedMerge(prev, mask, value) * mask == value
  {
  }

  /** ... and the bits outside mask are unchanged. */
  lemma MergeKeepsInside(prev: Word, mask: Word, value: Word)
    requires AllSet(mask, value)
    ensures SameOutside(MaskedMerge(prev, mask, value), prev, mask)
  {
  }

  /** Merging the same bits twice is merging them once. */
  lemma MaskedMergeIdempotent(prev: Word, mask: Word, value: Word)
    ensures MaskedMerge(MaskedMerge(prev, mask, value), mask, value) == MaskedMerge(prev, mask, value)
  {
  }

  /** Setting more bits after a merge is merging them too. */
  lemma MaskedMergeThenSet(prev: Word, mask: Word, value: Word, more: Word)
    ensures Or(MaskedMerge(prev, mask, value), more) == MaskedMerge(prev, mask, Or(value, more))
  {
  }

  /** The old value's bits among those a merge sets do not matter. */
  lemma MaskedMergeForgetsSet(prev: Word, mask: Word, value: Word, bits: Word)
    ensures MaskedMerge(AndNot(prev, bits), mask, Or(value, bits)) == MaskedMerge(prev, mask, Or(value, bits))
  {
  }

  /** `x | bits` has the bits set ... */
  lemma OrSets(x: Word, bits: Word)
    ensures AllSet(Or(x, bits), bits)
  {
  }

  /** ... and every other bit as in x. */
  lemma OrKeeps(x: Word, bits: Word)
    ensures SameOutside(Or(x, bits), x, bits)
  {
  }

  /** `x & ~bits` has the bits clear ... */
  lemma AndNotClears(x: Word, bits: Word)
    ensures AllClear(AndNot(x, bits), bits)
  {
  }

  /** ... and every other bit as in x. */
  lemma AndNotKeeps(x: Word, bits: Word)
    ensures SameOutside(AndNot(x, bits), x, bits)
  {
  }

  lemma OrIdempotent(x: Word, bits: Word)
    ensures Or(Or(x, bits), bits) == Or(x, bits)
  {
  }

  lemma AndNotIdempotent(x: Word, bits: Word)
    ensures AndNot(AndNot(x, bits), bits) == AndNot(x, bits)
  {
  }

  /** Clearing bits that are set and setting them again gives the word back. */
  lemma ClearThenSet(x: Word, bits: Word)
    requires AllSet(x, bits)
    ensures Or(AndNot(x, bits), bits) == x
  {
  }

  /** 2^i. */
  function Pow2(i: nat): (r: nat)
    ensures r > 0
  {
    if i == 0 then 1 else 2 * Pow2(i - 1)
  }

  /** The word holding a number: bit i (below 32) is set when the i-th binary digit of x is 1. */
  function Bits(x: nat): (w: Word)
    ensures forall i :: i in w ==> i < 32
  {
    set i: nat | i < 32 && (x / Pow2(i)) % 2 == 1
  }

  /** `w << n` in a 32-bit word: every bit moves up n places, and those reaching 32 are lost. */
  function ShiftLeft(w: Word, n: nat): (s: Word)
    ensures forall i :: i in s ==> n <= i < 32
  {
    set i | i in w && i + n < 32 :: i + n
  }

  /** The number the bits of w below position n stand for. */
  function ValueBelow(w: Word, n: nat): nat
  {
    if n == 0 then 0 else ValueBelow(w, n - 1) + (if n - 1 in w then Pow2(n - 1) else 0)
  }

  /** The number a 32-bit word stands for. */
  function Value(w: Word): nat { ValueBelow(w, 32) }

  /** Euclidean division has one remainder: a split of x into multiples of d and a rest below d
      is the one `/` and `%` make. */
  lemma ModUnique(x: nat, d: nat, q: nat, r: nat)
    requires 0 < d && x == q * d + r && r < d
    ensures x % d == r && x / d == q
  {
    var q', r' := x / d, x % d;
    assert (q - q') * d == r' - r;
    MultipleInside(q - q', d);
  }

  /** The only multiple of d strictly between -d and d is 0. */
  lemma MultipleInside(k: int, d: int)
    requires 0 < d && -d < k * d < d
    ensures k == 0
  {
    if k != 0 {
      MultipleMagnitude(k, d);
    }
  }

  /** A non-zero multiple of d is at least d away from 0. */
  lemma MultipleMagnitude(k: int, d: int)
    requires k != 0 && 0 < d
    ensures k * d >= d || k * d <= -d
  {
  }

  /** The remainder modulo 2^(n+1) adds the n-th binary digit to the remainder modulo 2^n. */
  lemma ModNextPower(x: nat, n: nat)
    ensures x % Pow2(n + 1) == x % Pow2(n) + (if (x / Pow2(n)) % 2 == 1 then Pow2(n) else 0)
  {
    var p := Pow2(n);
    var q := x / p;
    assert x == q * p + x % p;
    assert q == (q / 2) * 2 + q % 2;
    assert x == (q / 2) * (2 * p) + ((q % 2) * p + x % p) by {
      assert q * p == ((q / 2) * 2 + q % 2) * p;
    }
    ModUnique(x, 2 * p, q / 2, (q % 2) * p + x % p);
  }

  /** The bits of x below n stand for x modulo 2^n. */
  lemma {:induction false} ValueBelowBits(x: nat, n: nat)
    requires n <= 32
    ensures ValueBelow(Bits(x), n) == x % Pow2(n)
  {
    if n > 0 {
      ValueBelowBits(x, n - 1);
      ModNextPower(x, n - 1);
    }
  }

  /** Four more binary places multiply by 16. */
  lemma Pow2Plus4(n: nat)
    ensures Pow2(n + 4) == 16 * Pow2(n)
  {
    assert Pow2(n + 4) == 2 * Pow2(n + 3);
    assert Pow2(n + 3) == 2 * Pow2(n + 2);
    assert Pow2(n + 2) == 2 * Pow2(n + 1);
  }

  lemma Pow2Of32()
    ensures Pow2(32) == 0x1_0000_0000
  {
    Pow2Plus4(0); Pow2Plus4(4); Pow2Plus4(8); Pow2Plus4(12);
    Pow2Plus4(16); Pow2Plus4(20); Pow2Plus4(24); Pow2Plus4(28);
  }

  /** Decoding the word of a 32-bit number gives the number back. */
  lemma ValueBits(x: nat)
    requires x < 0x1_0000_0000
    ensures Value(Bits(x)) == x
  {
    ValueBelowBits(x, 32);
    Pow2Of32();
  }
}
