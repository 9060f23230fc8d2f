/** The CRC-32 and bursts of wrong bits. Bits are numbered in the order they are divided: the least
  * significant bit of the first byte is bit 0 of an image. */
module CrcBurst {

  import opened Crc32

  /** `x` shifted down by `n` bits, one at a time. */
  function Halves(x: Word, n: nat): Word
    decreases n
  {
    if n == 0 then x else Halves(Half(x), n - 1)
  }

  function Down4(x: Word): Word { x >> 4 }

  function Double(x: Word): Word { x << 1 }

  function Doubles(x: Word, n: nat): Word {
    if n == 0 then x else Double(Doubles(x, n - 1))
  }

  predicate BitOf(x: Word, j: nat) {
    Odd(Halves(x, j))
  }

  predicate ByteBit(b: Byte, j: nat) {
    BitOf(b as Word, j)
  }

  predicate SameBit(a: Byte, b: Byte, j: nat) {
    ByteBit(a, j) == ByteBit(b, j)
  }

  predicate ImageBit(data: seq<Byte>, i: nat)
    requires i < 8 * |data|
  {
    ByteBit(data[i / 8], i % 8)
  }

  // ---- Shifts ----

  lemma {:induction false} HalvesAdd(x: Word, m: nat, n: nat)
    ensures Halves(x, m + n) == Halves(Halves(x, m), n)
    decreases m
  {
    hide Half;
    if m == 0 {
    } else {
      HalvesAdd(Half(x), m - 1, n);
    }
  }

  lemma {:induction false} HalvesXor(x: Word, y: Word, n: nat)
    ensures Halves(Xor(x, y), n) == Xor(Halves(x, n), Halves(y, n))
    decreases n
  {
    hide Half, Xor;
    if n == 0 {
    } else {
      HalfXor(x, y);
      HalvesXor(Half(x), Half(y), n - 1);
    }
  }

  lemma BitXor(x: Word, y: Word, j: nat)
    ensures BitOf(Xor(x, y), j) <==> BitOf(x, j) != BitOf(y, j)
  {
    hide Xor, Odd, Half;
    HalvesXor(x, y, j);
    HalfXor(Halves(x, j), Halves(y, j));
  }

  lemma HalvesFour(x: Word)
    ensures Halves(x, 4) == Down4(x)
  {
    hide Half;
    FourHalves(x);
    assert Halves(x, 4) == Halves(Half(x), 3) == Halves(Half(Half(x)), 2);
    assert Halves(Half(Half(x)), 2) == Halves(Half(Half(Half(x))), 1) == Half(Half(Half(Half(x))));
  }

  lemma HalvesThree(x: Word)
    ensures Halves(x, 3) == x >> 3
  {
    assert Halves(x, 3) == Half(Half(Half(x)));
  }

  lemma HalvesEight(x: Word)
    ensures Halves(x, 8) == Down8(x)
  {
    hide Halves, Down8, Down4;
    HalvesAdd(x, 4, 4);
    HalvesFour(x);
    HalvesFour(Down4(x));
    FourFour(x);
  }

  lemma FourFour(x: Word)
    ensures Down4(Down4(x)) == Down8(x)
  {
  }

  lemma HalvesDown(x: Word)
    ensures Halves(x, 31) == x >> 31 && Halves(x, 32) == 0
  {
    hide Halves, Down8, Down4;
    HalvesAdd(x, 8, 23);
    HalvesAdd(Down8(x), 8, 15);
    HalvesAdd(Down8(Down8(x)), 8, 7);
    HalvesAdd(Down8(Down8(Down8(x))), 4, 3);
    HalvesAdd(Down8(Down8(Down8(x))), 4, 4);
    HalvesAdd(x, 8, 24);
    HalvesAdd(Down8(x), 8, 16);
    HalvesAdd(Down8(Down8(x)), 8, 8);
    HalvesEight(x);
    HalvesEight(Down8(x));
    HalvesEight(Down8(Down8(x)));
    HalvesFour(Down8(Down8(Down8(x))));
    HalvesThree(Down4(Down8(Down8(Down8(x)))));
    HalvesFour(Down4(Down8(Down8(Down8(x)))));
    AllDown(x);
  }

  lemma AllDown(x: Word)
    ensures Down4(Down8(Down8(Down8(x)))) >> 3 == x >> 31
    ensures Down4(Down4(Down8(Down8(Down8(x))))) == 0
  {
  }

  lemma {:induction false} HalvesZero(n: nat)
    ensures Halves(0, n) == 0
  {
    if n == 0 {
    } else {
      assert Half(0) == 0;
      HalvesZero(n - 1);
    }
  }

  // ---- Clear bits ----

  /** The lowest `n` bits of `x` are clear. */
  predicate Evens(x: Word, n: nat)
    decreases n
  {
    n == 0 || (!Odd(x) && Evens(Half(x), n - 1))
  }

  lemma {:induction false} EvensFromBits(x: Word, n: nat)
    requires forall j: nat :: j < n ==> !BitOf(x, j)
    ensures Evens(x, n)
    decreases n
  {
    hide Half, Odd;
    if n == 0 {
    } else {
      assert !BitOf(x, 0);
      forall j: nat | j < n - 1
        ensures !BitOf(Half(x), j)
      {
        assert !BitOf(x, j + 1);
      }
      EvensFromBits(Half(x), n - 1);
    }
  }

  /** Steps on clear bits only shift them out. */
  lemma {:induction false} EvensShift(x: Word, n: nat)
    requires Evens(x, n)
    ensures LsbSteps(x, n) == Halves(x, n)
    decreases n
  {
    hide Half, Odd, LsbStep, LsbSteps;
    if n == 0 {
      NoSteps(x);
    } else {
      Peel(x, n - 1);
      EvensShift(Half(x), n - 1);
    }
  }

  lemma EvenHalf(x: Word)
    requires !Odd(x) && Half(x) == 0
    ensures x == 0
  {
  }

  lemma {:induction false} EvensZero(x: Word, n: nat)
    requires Evens(x, n) && Halves(x, n) == 0
    ensures x == 0
    decreases n
  {
    hide Half, Odd;
    if n == 0 {
    } else {
      EvensZero(Half(x), n - 1);
      EvenHalf(x);
    }
  }

  lemma NoBitsIsZero(x: Word)
    requires forall j: nat :: j < 32 ==> !BitOf(x, j)
    ensures x == 0
  {
    hide Halves, Evens;
    EvensFromBits(x, 32);
    HalvesDown(x);
    EvensZero(x, 32);
  }

  /** A word without bits from `k` on takes no more than `k` bits. */
  lemma HighBitsClear(x: Word, k: nat)
    requires k <= 32 && forall j: nat :: k <= j < 32 ==> !BitOf(x, j)
    ensures Halves(x, k) == 0
  {
    hide Half, Odd, Halves, Evens;
    var y := Halves(x, k);
    forall j: nat | j < 32
      ensures !BitOf(y, j)
    {
      HalvesAdd(x, k, j);
      if k + j >= 32 {
        HalvesDown(x);
        HalvesAdd(x, 32, k + j - 32);
        HalvesZero(k + j - 32);
        ZeroIsEven();
      } else {
        assert !BitOf(x, k + j);
      }
    }
    NoBitsIsZero(y);
  }

  lemma ZeroIsEven()
    ensures !Odd(0)
  {
  }

  // ---- Shifting up ----

  lemma TopClear(x: Word)
    requires x >> 31 == 0
    ensures Half(Double(x)) == x && !Odd(Double(x))
  {
  }

  /** A word of `k` bits can be shifted up by `n` while it stays below 32 bits, and back. */
  lemma {:induction false} UpAndBack(y: Word, k: nat, n: nat)
    requires Halves(y, k) == 0 && k + n <= 32
    ensures Evens(Doubles(y, n), n) && Halves(Doubles(y, n), n) == y
    ensures Halves(Doubles(y, n), k + n) == 0
  {
    hide Half, Odd, Double;
    if n == 0 {
    } else {
      UpAndBack(y, k, n - 1);
      var z := Doubles(y, n - 1);
      StaysSmall(z, k + n - 1);
      TopClear(z);
    }
  }

  lemma StaysSmall(z: Word, n: nat)
    requires n <= 31 && Halves(z, n) == 0
    ensures z >> 31 == 0
  {
    hide Halves;
    HalvesAdd(z, n, 31 - n);
    HalvesZero(31 - n);
    HalvesDown(z);
  }

  // ---- Five bytes that differ inside 32 bits ----

  lemma BitsOfByte(b: Word, j: nat)
    requires b < 0x100 && j >= 8
    ensures !BitOf(b, j)
  {
    hide Halves;
    HalvesAdd(b, 8, j - 8);
    HalvesEight(b);
    HalvesZero(j - 8);
    ByteDown(b);
    ZeroIsEven();
  }

  lemma ByteDown(b: Word)
    requires b < 0x100
    ensures Down8(b) == 0
  {
  }

  lemma ByteXor(a: Word, b: Word)
    requires a < 0x100 && b < 0x100
    ensures Xor(a, b) < 0x100
  {
  }

  lemma LowBitsOfUp(x: Word, j: nat)
    requires j < 8
    ensures !BitOf(Up8(x), j)
  {
    hide Half, Odd, Up8;
    UpEvens(x);
    BitOfEvens(Up8(x), 8, j);
  }

  lemma {:induction false} BitOfEvens(x: Word, n: nat, j: nat)
    requires Evens(x, n) && j < n
    ensures !BitOf(x, j)
    decreases n
  {
    hide Half, Odd;
    if j == 0 {
    } else {
      BitOfEvens(Half(x), n - 1, j - 1);
    }
  }

  lemma UpEvens(x: Word)
    ensures Evens(Up8(x), 8)
  {
    hide Half, Odd, Up8;
    var y := Up8(x);
    var (y1, y2) := (Half(y), Half(Half(y)));
    var (y3, y4) := (Half(y2), Half(Half(y2)));
    var (y5, y6) := (Half(y4), Half(Half(y4)));
    LowClear(x);
    HalfClear(y, 0x7F);
    HalfClear(y1, 0x3F);
    HalfClear(y2, 0x1F);
    HalfClear(y3, 0x0F);
    HalfClear(y4, 0x07);
    HalfClear(y5, 0x03);
    HalfClear(y6, 0x01);
    HalfClear(Half(y6), 0x00);
    assert Evens(y6, 2) && Evens(y4, 4);
    assert Evens(y2, 6);
  }

  lemma LittleBit(data: seq<Byte>, j: nat)
    requires data != [] && j < 8
    ensures BitOf(Little(data), j) <==> ByteBit(data[0], j)
  {
    hide Xor, Up8, BitOf;
    LowBitsOfUp(Little(data[1..]), j);
    BitXor(data[0] as Word, Up8(Little(data[1..])), j);
  }

  /** The two windows agree outside of the 32 bits that start at bit `k` of their first byte. */
  predicate AgreeOutside(u: seq<Byte>, v: seq<Byte>, k: nat)
    requires |u| == |v| == 5
  {
    && (forall j: nat :: j < k ==> SameBit(u[0], v[0], j))
    && (forall j: nat :: k <= j < 8 ==> SameBit(u[4], v[4], j))
  }

  /** The bits in which two bytes differ. */
  lemma DifferenceBit(a: Byte, b: Byte, j: nat)
    ensures BitOf(Xor(a as Word, b as Word), j) <==> j < 8 && !SameBit(a, b, j)
  {
    hide Xor, BitOf;
    var (x, y) := (a as Word, b as Word);
    if j < 8 {
      BitXor(x, y, j);
    } else {
      ByteXor(x, y);
      BitsOfByte(Xor(x, y), j);
    }
  }

  lemma FrontBit(u: seq<Byte>, v: seq<Byte>, j: nat)
    requires u != [] && v != [] && j < 8
    ensures BitOf(Xor(Little(u), Little(v)), j) <==> !SameBit(u[0], v[0], j)
  {
    hide Xor, BitOf, ByteBit, Little;
    LittleBit(u, j);
    LittleBit(v, j);
    BitXor(Little(u), Little(v), j);
  }

  lemma FrontShape(u: seq<Byte>, v: seq<Byte>, k: nat)
    requires |u| == |v| == 5 && k < 8 && AgreeOutside(u, v, k)
    ensures Evens(Xor(Little(u[..4]), Little(v[..4])), k)
  {
    hide Xor, BitOf, Little, SameBit;
    var x := Xor(Little(u[..4]), Little(v[..4]));
    forall j: nat | j < k
      ensures !BitOf(x, j)
    {
      FrontBit(u[..4], v[..4], j);
    }
    EvensFromBits(x, k);
  }

  lemma BackShape(u: seq<Byte>, v: seq<Byte>, k: nat)
    requires |u| == |v| == 5 && k < 8 && AgreeOutside(u, v, k)
    ensures Halves(Xor(u[4] as Word, v[4] as Word), k) == 0
  {
    hide Xor, BitOf, Halves, SameBit;
    var x := Xor(u[4] as Word, v[4] as Word);
    forall j: nat | k <= j < 32
      ensures !BitOf(x, j)
    {
      DifferenceBit(u[4], v[4], j);
    }
    HighBitsClear(x, k);
  }

  /** A difference of 32 bits that the steps turn into its own last `k` bits is none. */
  lemma NoResidue(x: Word, y: Word, k: nat)
    requires k <= 8 && Evens(x, k) && Halves(y, k) == 0 && LsbSteps(x, 32) == y
    ensures x == 0 && y == 0
  {
    hide Half, Odd, LsbStep, LsbSteps, Halves, Evens, Doubles;
    var z := Doubles(y, 32 - k);
    StepsAdd(x, k, 32 - k);
    EvensShift(x, k);
    UpAndBack(y, k, 32 - k);
    EvensShift(z, 32 - k);
    StepsInjective(Halves(x, k), z, 32 - k);
    HalvesAdd(x, k, 32 - k);
    HalvesDown(x);
    EvensZero(z, 32 - k);
    EvensZero(x, k);
  }

  lemma UndetectedSame(u: seq<Byte>, v: seq<Byte>, k: nat)
    requires |u| == |v| == 5 && k < 8 && AgreeOutside(u, v, k) && Undetected(u, v)
    ensures u == v
  {
    hide Xor, BitOf, Little, LsbSteps, Halves, Evens, AgreeOutside;
    var (x, y) := (Xor(Little(u[..4]), Little(v[..4])), Xor(u[4] as Word, v[4] as Word));
    FrontShape(u, v, k);
    BackShape(u, v, k);
    NoResidue(x, y, k);
    XorEqual(Little(u[..4]), Little(v[..4]));
    XorEqual(u[4] as Word, v[4] as Word);
    LittleInjective(u[..4], v[..4]);
    SameByte(u[4], v[4]);
    assert u == u[..4] + [u[4]] && v == v[..4] + [v[4]];
  }

  lemma SameByte(a: Byte, b: Byte)
    requires a as Word == b as Word
    ensures a == b
  {
  }

  // ---- Images ----

  /** Bytes that differ do so in one of their eight bits. */
  lemma ByteDiffers(a: Byte, b: Byte) returns (j: nat)
    requires a != b
    ensures j < 8 && !SameBit(a, b, j)
  {
    hide BitOf, Xor, SameBit;
    var x := Xor(a as Word, b as Word);
    if forall j: nat :: j < 32 ==> !BitOf(x, j) {
      NoBitsIsZero(x);
      XorEqual(a as Word, b as Word);
      SameByte(a, b);
    }
    j :| j < 32 && BitOf(x, j);
    DifferenceBit(a, b, j);
  }

  predicate SameImageBit(a: seq<Byte>, b: seq<Byte>, i: nat)
    requires |a| == |b| && i < 8 * |a|
  {
    ImageBit(a, i) == ImageBit(b, i)
  }

  /** All bits in which the two images differ lie among the 32 from `lo` on. */
  predicate BurstAt(a: seq<Byte>, b: seq<Byte>, lo: nat)
    requires |a| == |b|
  {
    forall i: nat :: i < 8 * |a| && !SameImageBit(a, b, i) ==> lo <= i < lo + 32
  }

  lemma BitPlace(q: nat, j: nat)
    requires j < 8
    ensures (8 * q + j) / 8 == q && (8 * q + j) % 8 == j
  {
  }

  lemma BitInImage(a: seq<Byte>, b: seq<Byte>, q: nat, j: nat)
    requires |a| == |b| && q < |a| && j < 8
    ensures SameImageBit(a, b, 8 * q + j) <==> SameBit(a[q], b[q], j)
  {
    hide ByteBit;
    BitPlace(q, j);
  }

  lemma BurstBytes(a: seq<Byte>, b: seq<Byte>, lo: nat, q: nat)
    requires |a| == |b| && q < |a| && a[q] != b[q] && BurstAt(a, b, lo)
    ensures lo / 8 <= q <= (lo + 31) / 8
  {
    hide SameBit, SameImageBit;
    var j := ByteDiffers(a[q], b[q]);
    BitInImage(a, b, q, j);
    ByteOfBit(lo, q, j);
  }

  lemma ByteOfBit(lo: nat, q: nat, j: nat)
    requires j < 8 && lo <= 8 * q + j < lo + 32
    ensures lo / 8 <= q <= (lo + 31) / 8
  {
  }

  lemma BurstAgrees(a: seq<Byte>, b: seq<Byte>, lo: nat, q: nat)
    requires |a| == |b| && q + 5 <= |a| && q == lo / 8 && BurstAt(a, b, lo)
    ensures AgreeOutside(a[q..q + 5], b[q..q + 5], lo % 8)
  {
    hide SameBit, SameImageBit;
    var k := lo % 8;
    forall j: nat | j < k
      ensures SameBit(a[q], b[q], j)
    {
      BitInImage(a, b, q, j);
    }
    var (x, y) := (a[q + 4], b[q + 4]);
    forall j: nat | k <= j < 8
      ensures SameBit(x, y, j)
    {
      BitInImage(a, b, q + 4, j);
    }
  }

  /** Two images of equal length that differ, and only inside 32 consecutive bits, never have the
    * same CRC. */
  lemma BitBurstDetected(a: seq<Byte>, b: seq<Byte>, lo: nat)
    requires |a| == |b| && a != b && BurstAt(a, b, lo)
    ensures Crc(a) != Crc(b)
  {
    hide Crc, BurstAt, Undetected, AgreeOutside;
    var q := lo / 8;
    forall i: nat | i < |a| && a[i] != b[i]
      ensures q <= i <= (lo + 31) / 8
    {
      BurstBytes(a, b, lo, i);
    }
    if q + 5 > |a| || lo % 8 == 0 {
      BurstDetected(a, b, if q <= |a| then q else |a|);
    } else {
      var (u, v) := (a[q..q + 5], b[q..q + 5]);
      CutWindow(a, b, q, q + 5);
      BurstAgrees(a, b, lo, q);
      FiveByteWindow(a[..q], u, v, a[q + 5..]);
      if Undetected(u, v) {
        UndetectedSame(u, v, lo % 8);
      }
    }
  }

  /** 32 is the most: the generator, which goes undetected everywhere, spans 33 bits. */
  lemma GeneratorSpans33(u: seq<Byte>, i: nat)
    requires |u| == 5 && i < 40 && !SameImageBit(u, AddGenerator(u), i)
    ensures i < 33
  {
    hide SameBit;
    var (q, j) := (i / 8, i % 8);
    BitInImage(u, AddGenerator(u), q, j);
    if q == 4 {
      LastByteAdds(u[4]);
      DifferenceBit(u[4], u[4] ^ 0x01, j);
      OnlyBitZero(j);
    }
  }

  lemma LastByteAdds(b: Byte)
    ensures Xor(b as Word, (b ^ 0x01) as Word) == 0x01
  {
  }

  lemma OnlyBitZero(j: nat)
    ensures BitOf(0x01, j) <==> j == 0
  {
    if j == 0 {
      assert Odd(0x01);
    } else {
      assert Half(0x01) == 0;
      HalvesZero(j - 1);
      ZeroIsEven();
    }
  }
}
