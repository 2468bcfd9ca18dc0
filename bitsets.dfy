/**
  Unsigned machine integers and the 32-bit bitsets built from them.

  A `std::bitset<32>` is modelled as 32 booleans, index 0 being the least
  significant bit. Unsigned integers are bounded naturals; bit `i` of a
  natural is read off its binary expansion, so a bitset built from a wider
  value keeps only its low 32 bits, as the C++ constructor does.
*/
module Bitsets {

  /** 2^32, one more than the largest `std::uint32_t`. */
  const Word32: nat := 0x1_0000_0000

  /** `std::uint32_t`. */
  type Uint32 = v: nat | v < 0x1_0000_0000

  /** `std::size_t` on a 64-bit target. */
  type SizeT = v: nat | v < 0x1_0000_0000_0000_0000

  /** `std::bitset<32>`: bit `i` is element `i`. */
  type Bitset = s: seq<bool> | |s| == 32 witness seq(32, _ => false)

  function Pow2(n: nat): (r: nat)
    ensures r >= 1
  {
    if n == 0 then 1 else 2 * Pow2(n - 1)
  }

  /** Bit `i` of the binary expansion of `v`. */
  function Bit(v: nat, i: nat): bool
  {
    if i == 0 then v % 2 == 1 else Bit(v / 2, i - 1)
  }

  /** The first `n` bits of `v`, least significant first. */
  function BitsOf(v: nat, n: nat): (s: seq<bool>)
    ensures |s| == n
    ensures forall i | 0 <= i < n :: s[i] == Bit(v, i)
  {
    seq(n, i requires 0 <= i < n => Bit(v, i))
  }

  /** `std::bitset<32>(v)`: the low 32 bits of `v`. */
  function ToBitset(v: nat): Bitset
  {
    BitsOf(v, 32)
  }

  /** The unsigned value a sequence of bits denotes (`std::bitset::to_ulong`). */
  function Value(s: seq<bool>): nat
  {
    if |s| == 0 then 0 else (if s[0] then 1 else 0) + 2 * Value(s[1..])
  }

  /** Number of set bits among `s[i..j]`. */
  function CountIn(s: seq<bool>, i: nat, j: nat): nat
    requires i <= j <= |s|
    decreases j - i
  {
    if i == j then 0 else CountIn(s, i, j - 1) + (if s[j - 1] then 1 else 0)
  }

  /** Number of set bits of a bitset (`std::bitset::count`). */
  function Popcount(s: seq<bool>): nat
  {
    CountIn(s, 0, |s|)
  }

  /** Hamming weight of an unsigned value: the set bits among its low 32. */
  function HammingWeight(v: nat): (w: nat)
    ensures w <= 32
  {
    CountInBound(ToBitset(v), 0, 32);
    Popcount(ToBitset(v))
  }

  /** Bitwise exclusive or of two naturals, digit by binary digit. */
  function Xor(x: nat, y: nat): nat
    decreases x + y
  {
    if x == 0 && y == 0 then 0
    else (if x % 2 != y % 2 then 1 else 0) + 2 * Xor(x / 2, y / 2)
  }

  /** Number of unordered pairs drawn from `k` elements, C(k, 2). */
  function Choose2(k: nat): nat
  {
    if k == 0 then 0 else k * (k - 1) / 2
  }

  // ---------------------------------------------------------------------
  // Counting set bits

  lemma {:induction false} CountInBound(s: seq<bool>, i: nat, j: nat)
    requires i <= j <= |s|
    ensures CountIn(s, i, j) <= j - i
    ensures CountIn(s, i, j) == j - i <==> forall k | i <= k < j :: s[k]
    ensures CountIn(s, i, j) == 0 <==> forall k | i <= k < j :: !s[k]
    decreases j - i
  {
    if i < j {
      CountInBound(s, i, j - 1);
    }
  }

  lemma {:induction false} CountInSplit(s: seq<bool>, i: nat, k: nat, j: nat)
    requires i <= k <= j <= |s|
    ensures CountIn(s, i, j) == CountIn(s, i, k) + CountIn(s, k, j)
    decreases j - k
  {
    if k < j {
      CountInSplit(s, i, k, j - 1);
    }
  }

  /** The Hamming weight counts exactly the set bits among the low 32. */
  lemma HammingWeightBounds(v: nat)
    ensures HammingWeight(v) == 0 ==> forall i | 0 <= i < 32 :: !Bit(v, i)
    ensures (forall i | 0 <= i < 32 :: !Bit(v, i)) ==> HammingWeight(v) == 0
    ensures HammingWeight(v) == 32 ==> forall i | 0 <= i < 32 :: Bit(v, i)
    ensures (forall i | 0 <= i < 32 :: Bit(v, i)) ==> HammingWeight(v) == 32
  {
    var b := ToBitset(v);
    assert HammingWeight(v) == CountIn(b, 0, 32);
    CountInBound(b, 0, 32);
    if forall k | 0 <= k < 32 :: !Bit(v, k) {
      assert forall k | 0 <= k < 32 :: !b[k];
    }
    if forall k | 0 <= k < 32 :: Bit(v, k) {
      assert forall k | 0 <= k < 32 :: b[k];
    }
    forall k | 0 <= k < 32
      ensures HammingWeight(v) == 0 ==> !Bit(v, k)
      ensures HammingWeight(v) == 32 ==> Bit(v, k)
    {
      assert b[k] == Bit(v, k);
    }
  }

  lemma {:induction false} BitOfZero(i: nat)
    ensures !Bit(0, i)
  {
    if i > 0 {
      BitOfZero(i - 1);
    }
  }

  /** Bits at or above `n` of a value below 2^n are clear. */
  lemma {:induction false} BitAbove(v: nat, n: nat, i: nat)
    requires v < Pow2(n) && n <= i
    ensures !Bit(v, i)
  {
    if n == 0 {
      BitOfZero(i);
    } else {
      BitAbove(v / 2, n - 1, i - 1);
    }
  }

  /** Bits below `n` of 2^n - 1 are all set. */
  lemma {:induction false} BitOfAllOnes(n: nat, i: nat)
    requires i < n
    ensures Bit(Pow2(n) - 1, i)
  {
    assert (Pow2(n) - 1) / 2 == Pow2(n - 1) - 1;
    if i > 0 {
      BitOfAllOnes(n - 1, i - 1);
    }
  }

  lemma HammingWeightOfZero()
    ensures HammingWeight(0) == 0
  {
    forall i | 0 <= i < 32
      ensures !Bit(0, i)
    {
      BitOfZero(i);
    }
    HammingWeightBounds(0);
  }

  lemma HammingWeightOfAllOnes()
    ensures HammingWeight(0xFFFF_FFFF) == 32
  {
    Pow2Of32();
    forall i | 0 <= i < 32
      ensures Bit(0xFFFF_FFFF, i)
    {
      BitOfAllOnes(32, i);
    }
    HammingWeightBounds(0xFFFF_FFFF);
  }

  /** The Hamming weight of a value below 2^n counts only its first n bits. */
  lemma HammingWeightBelow(v: nat, n: nat)
    requires n <= 32 && v < Pow2(n)
    ensures HammingWeight(v) == CountIn(ToBitset(v), 0, n)
  {
    var b := ToBitset(v);
    CountInSplit(b, 0, n, 32);
    forall i | n <= i < 32
      ensures !b[i]
    {
      BitAbove(v, n, i);
    }
    CountInBound(b, n, 32);
  }

  /** The Hamming weights of 0b1011, 0b0110, 0b1111, 0 and 0xFFFFFFFF. */
  lemma HammingWeightExamples()
    ensures HammingWeight(0x0B) == 3
    ensures HammingWeight(0x06) == 2
    ensures HammingWeight(0x0F) == 4
    ensures HammingWeight(0) == 0
    ensures HammingWeight(0xFFFF_FFFF) == 32
  {
    HammingWeightOfZero();
    HammingWeightOfAllOnes();
    assert Pow2(4) == 16;
    HammingWeightBelow(0x0B, 4);
    HammingWeightBelow(0x06, 4);
    HammingWeightBelow(0x0F, 4);
    var b, c, d := ToBitset(0x0B), ToBitset(0x06), ToBitset(0x0F);
    assert b[0] && b[1] && !b[2] && b[3];
    assert !c[0] && c[1] && c[2] && !c[3];
    assert d[0] && d[1] && d[2] && d[3];
  }

  // ---------------------------------------------------------------------
  // Values of bitsets

  /** Dropping the lowest bit is halving. */
  lemma BitsOfTail(v: nat, n: nat)
    requires n > 0
    ensures BitsOf(v, n)[1..] == BitsOf(v / 2, n - 1)
  {
  }

  /** 2^32 written as a power of two. */
  lemma Pow2Of32()
    ensures Pow2(32) == Word32
  {
    assert Pow2(4) == 16;
    assert Pow2(8) == 256;
    assert Pow2(12) == 4096;
    assert Pow2(16) == 65536;
    assert Pow2(20) == 1048576;
    assert Pow2(24) == 16777216;
    assert Pow2(28) == 268435456;
  }

  /** The first `n` bits of a value below 2^n denote that value. */
  lemma {:induction false} ValueOfBitsOf(v: nat, n: nat)
    requires v < Pow2(n)
    ensures Value(BitsOf(v, n)) == v
  {
    if n > 0 {
      BitsOfTail(v, n);
      ValueOfBitsOf(v / 2, n - 1);
    }
  }

  /** Bits below `n` of `hi * 2^n + lo` are those of `lo`. */
  lemma {:induction false} BitOfSplit(hi: nat, lo: nat, n: nat, i: nat)
    requires lo < Pow2(n) && i < n
    ensures Bit(hi * Pow2(n) + lo, i) == Bit(lo, i)
  {
    var x := hi * Pow2(n - 1);
    assert hi * Pow2(n) == 2 * x;
    if i > 0 {
      assert (2 * x + lo) / 2 == x + lo / 2;
      BitOfSplit(hi, lo / 2, n - 1, i - 1);
    }
  }

  /** Building a bitset from a `std::size_t` uses only its low 32 bits. */
  lemma ToBitsetLow32(v: nat)
    ensures ToBitset(v) == ToBitset(v % Word32)
  {
    Pow2Of32();
    assert v == (v / Word32) * Pow2(32) + v % Word32;
    forall i | 0 <= i < 32
      ensures ToBitset(v)[i] == ToBitset(v % Word32)[i]
    {
      BitOfSplit(v / Word32, v % Word32, 32, i);
    }
  }

  /** `std::bitset<32>(v).to_ulong()` is `v` truncated to 32 bits. */
  lemma ValueOfToBitset(v: nat)
    ensures Value(ToBitset(v)) == v % Word32
    ensures v < Word32 ==> Value(ToBitset(v)) == v
  {
    Pow2Of32();
    ToBitsetLow32(v);
    ValueOfBitsOf(v % Word32, 32);
  }

  /** The bitset of a value is the bitset determined by its value. */
  lemma {:induction false} BitsOfValue(s: seq<bool>)
    ensures BitsOf(Value(s), |s|) == s
  {
    if |s| > 0 {
      BitsOfValue(s[1..]);
      BitsOfTail(Value(s), |s|);
      assert Value(s) / 2 == Value(s[1..]);
    }
  }

  // ---------------------------------------------------------------------
  // Exclusive or

  /** One step of `Xor`, valid also when both arguments are 0. */
  lemma XorStep(x: nat, y: nat)
    ensures Xor(x, y) == (if x % 2 != y % 2 then 1 else 0) + 2 * Xor(x / 2, y / 2)
  {
  }

  /** Parity and half of `c + 2 * y` for a binary digit `c`. */
  lemma DigitSplit(c: nat, y: nat)
    requires c <= 1
    ensures (c + 2 * y) % 2 == c && (c + 2 * y) / 2 == y
  {
  }

  /** Bit `i` of `x ^ y` is set exactly when bits `i` of `x` and `y` differ. */
  lemma {:induction false} XorBit(x: nat, y: nat, i: nat)
    ensures Bit(Xor(x, y), i) == (Bit(x, i) != Bit(y, i))
  {
    XorStep(x, y);
    DigitSplit(if x % 2 != y % 2 then 1 else 0, Xor(x / 2, y / 2));
    if i > 0 {
      XorBit(x / 2, y / 2, i - 1);
    }
  }

  lemma {:induction false} XorSymmetric(x: nat, y: nat)
    ensures Xor(x, y) == Xor(y, x)
    decreases x + y
  {
    if x != 0 || y != 0 {
      XorSymmetric(x / 2, y / 2);
    }
  }

  lemma {:induction false} XorSelf(x: nat)
    ensures Xor(x, x) == 0
  {
    if x != 0 {
      XorSelf(x / 2);
    }
  }

  /** A value below 2^n and its n-bit complement differ in all n bits. */
  lemma {:induction false} XorComplement(x: nat, n: nat)
    requires x < Pow2(n)
    ensures Xor(x, Pow2(n) - 1 - x) == Pow2(n) - 1
  {
    if n > 0 {
      var y := Pow2(n) - 1 - x;
      assert y / 2 == Pow2(n - 1) - 1 - x / 2;
      XorComplement(x / 2, n - 1);
    }
  }

  /** A Xor of values below 2^n is below 2^n. */
  lemma {:induction false} XorBound(x: nat, y: nat, n: nat)
    requires x < Pow2(n) && y < Pow2(n)
    ensures Xor(x, y) < Pow2(n)
    decreases x + y
  {
    if n == 0 {
    } else if x != 0 || y != 0 {
      XorBound(x / 2, y / 2, n - 1);
    }
  }

  /** Position-wise "differs": the bitset whose bit `i` is `a[i] != b[i]`. */
  function Differ(a: seq<bool>, b: seq<bool>): (d: seq<bool>)
    requires |a| == |b|
    ensures |d| == |a|
  {
    seq(|a|, i requires 0 <= i < |a| => a[i] != b[i])
  }

  /** Differing bit by bit is exclusive or of the denoted values. */
  lemma {:induction false} ValueOfDiffer(a: seq<bool>, b: seq<bool>)
    requires |a| == |b|
    ensures Value(Differ(a, b)) == Xor(Value(a), Value(b))
  {
    if |a| > 0 {
      assert Differ(a, b)[1..] == Differ(a[1..], b[1..]);
      ValueOfDiffer(a[1..], b[1..]);
      XorStep(Value(a), Value(b));
    }
  }

  /** The bitset of `x ^ y` marks the positions where `x` and `y` differ. */
  lemma DifferOfToBitset(x: nat, y: nat)
    ensures Differ(ToBitset(x), ToBitset(y)) == ToBitset(Xor(x, y))
  {
    forall i | 0 <= i < 32
      ensures Differ(ToBitset(x), ToBitset(y))[i] == ToBitset(Xor(x, y))[i]
    {
      XorBit(x, y, i);
    }
  }

  lemma {:induction false} ValueAllSet(s: seq<bool>)
    requires forall i | 0 <= i < |s| :: s[i]
    ensures Value(s) == Pow2(|s|) - 1
  {
    if |s| > 0 {
      ValueAllSet(s[1..]);
    }
  }

  lemma {:induction false} ValueAllClear(s: seq<bool>)
    requires forall i | 0 <= i < |s| :: !s[i]
    ensures Value(s) == 0
  {
    if |s| > 0 {
      ValueAllClear(s[1..]);
    }
  }

  // ---------------------------------------------------------------------
  // Pairs

  lemma Choose2Succ(k: nat)
    ensures Choose2(k + 1) == Choose2(k) + k
  {
    if k > 0 {
      assert (k + 1) * k == k * (k - 1) + 2 * k;
    }
  }

  /** C(k, 2) is 0 exactly when there is at most one element. */
  lemma {:induction false} Choose2Zero(k: nat)
    ensures Choose2(k) == 0 <==> k <= 1
  {
    if k > 1 {
      Choose2Zero(k - 1);
      Choose2Succ(k - 1);
    }
  }

  lemma {:induction false} Choose2Monotone(j: nat, k: nat)
    requires j <= k
    ensures Choose2(j) <= Choose2(k)
    decreases k - j
  {
    if j < k {
      Choose2Monotone(j, k - 1);
      Choose2Succ(k - 1);
    }
  }

  /** At most C(32, 2) = 496 pairs among 32 bits. */
  lemma Choose2Bounds(k: nat)
    ensures Choose2(k) == 0 <==> k <= 1
    ensures k <= 32 ==> Choose2(k) <= 496
    ensures Choose2(32) == 496
  {
    Choose2Zero(k);
    if k <= 32 {
      Choose2Monotone(k, 32);
    }
  }
}
