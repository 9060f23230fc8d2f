/** The CRC-32 of the firmware: words through an MSB-first CRC unit, the tail bit by bit. */
module Crc32 {

  type Byte = bv8
  type Word = bv32

  function Xor(x: Word, y: Word): Word { x ^ y }

  function Half(x: Word): Word { x >> 1 }

  function Down8(x: Word): Word { x >> 8 }

  function Up8(x: Word): Word { x << 8 }

  function Low8(x: Word): Word { x & 0xFF }

  predicate Odd(x: Word) { x & 1 == 1 }

  // ---- The reference: the table form of section 8 of RFC 1952 ----

  /** One step of division by the reflected polynomial. */
  function LsbStep(x: Word): Word {
    if Odd(x) then Xor(Half(x), 0xEDB8_8320) else Half(x)
  }

  function LsbSteps(x: Word, n: nat): Word
    decreases n
  {
    if n == 0 then x else LsbSteps(LsbStep(x), n - 1)
  }

  function TableEntry(n: Word): Word {
    LsbSteps(n, 8)
  }

  function Update(crc: Word, b: Byte): Word {
    Xor(TableEntry(Low8(Xor(crc, b as Word))), Down8(crc))
  }

  function UpdateAll(crc: Word, data: seq<Byte>): Word
    decreases |data|
  {
    if data == [] then crc else UpdateAll(Update(crc, data[0]), data[1..])
  }

  function Crc(data: seq<Byte>): Word {
    Xor(UpdateAll(0xFFFF_FFFF, data), 0xFFFF_FFFF)
  }

  /** The check value of this CRC: that of the digits 1 to 9. */
  lemma CheckValue()
    ensures Crc([0x31, 0x32, 0x33, 0x34, 0x35, 0x36, 0x37, 0x38, 0x39]) == 0xCBF4_3926
  {
    hide Update, UpdateAll, Xor;
    FirstDigits();
    LastDigits();
    var none: seq<Byte> := [];
    var d9 := [0x39] + none;
    var d8 := [0x38] + d9;
    var d7 := [0x37] + d8;
    var d6 := [0x36] + d7;
    var d5 := [0x35] + d6;
    var d4 := [0x34] + d5;
    var d3 := [0x33] + d4;
    var d2 := [0x32] + d3;
    var d1 := [0x31] + d2;
    UpdateOne(0xFFFF_FFFF, 0x31, d2);
    UpdateOne(0x7C23_1048, 0x32, d3);
    UpdateOne(0xB0AC_BB32, 0x33, d4);
    UpdateOne(0x77B7_9C2D, 0x34, d5);
    UpdateOne(0x641C_1F5C, 0x35, d6);
    UpdateOne(0x340A_C5E3, 0x36, d7);
    UpdateOne(0xF68D_2C9E, 0x37, d8);
    UpdateOne(0xAFFC_9660, 0x38, d9);
    UpdateOne(0x651F_2550, 0x39, none);
    UpdateNothing(0x340B_C6D9);
    assert d1 == [0x31, 0x32, 0x33, 0x34, 0x35, 0x36, 0x37, 0x38, 0x39];
    Inverted();
  }

  lemma UpdateNothing(crc: Word)
    ensures UpdateAll(crc, []) == crc
  {
  }

  lemma Inverted()
    ensures Xor(0x340B_C6D9, 0xFFFF_FFFF) == 0xCBF4_3926
  {
  }

  lemma UpdateOne(crc: Word, b: Byte, rest: seq<Byte>)
    ensures UpdateAll(crc, [b] + rest) == UpdateAll(Update(crc, b), rest)
  {
    hide Update;
    assert ([b] + rest)[1..] == rest;
  }

  lemma DigitEntries()
    ensures TableEntry(0xCE) == 0x7CDC_EFB7
    ensures TableEntry(0x7A) == 0xB0D0_9822
    ensures TableEntry(0x01) == 0x7707_3096
    ensures TableEntry(0x19) == 0x646B_A8C0
    ensures TableEntry(0x69) == 0x346E_D9FC
    ensures TableEntry(0xD5) == 0xF6B9_265B
    ensures TableEntry(0xA9) == 0xAF0A_1B4C
    ensures TableEntry(0x58) == 0x65B0_D9C6
  {
  }

  lemma FirstDigits()
    ensures Update(0xFFFF_FFFF, 0x31) == 0x7C23_1048
    ensures Update(0x7C23_1048, 0x32) == 0xB0AC_BB32
    ensures Update(0xB0AC_BB32, 0x33) == 0x77B7_9C2D
    ensures Update(0x77B7_9C2D, 0x34) == 0x641C_1F5C
    ensures Update(0x641C_1F5C, 0x35) == 0x340A_C5E3
  {
    hide LsbStep, LsbSteps, TableEntry;
    DigitEntries();
  }

  lemma LastDigits()
    ensures Update(0x340A_C5E3, 0x36) == 0xF68D_2C9E
    ensures Update(0xF68D_2C9E, 0x37) == 0xAFFC_9660
    ensures Update(0xAFFC_9660, 0x38) == 0x651F_2550
    ensures Update(0x651F_2550, 0x39) == 0x340B_C6D9
  {
    hide LsbStep, LsbSteps, TableEntry;
    DigitEntries();
  }

  // ---- The CRC unit ----

  function MsbStep(x: Word): Word {
    if x & 0x8000_0000 == 0x8000_0000 then Xor(x << 1, 0x04C1_1DB7) else x << 1
  }

  function MsbSteps(x: Word, n: nat): Word
    decreases n
  {
    if n == 0 then x else MsbSteps(MsbStep(x), n - 1)
  }

  /** The `rbit` instruction, as five rounds of swapping neighbours. */
  function Rev(x: Word): Word {
    var a := ((x >> 1) & 0x5555_5555) | ((x & 0x5555_5555) << 1);
    var b := ((a >> 2) & 0x3333_3333) | ((a & 0x3333_3333) << 2);
    var c := ((b >> 4) & 0x0F0F_0F0F) | ((b & 0x0F0F_0F0F) << 4);
    var d := ((c >> 8) & 0x00FF_00FF) | ((c & 0x00FF_00FF) << 8);
    (d >> 16) | (d << 16)
  }

  lemma RevBit(x: Word, i: Word)
    requires i < 32
    ensures (Rev(x) >> i) & 1 == (x >> (31 - i)) & 1
  {
  }

  lemma RevTwice(x: Word)
    ensures Rev(Rev(x)) == x
  {
  }

  lemma RevXor(x: Word, y: Word)
    ensures Rev(Xor(x, y)) == Xor(Rev(x), Rev(y))
  {
  }

  lemma RevShift(x: Word)
    ensures Rev(x << 1) == Half(Rev(x))
  {
  }

  lemma RevTop(x: Word)
    ensures x & 0x8000_0000 == 0x8000_0000 <==> Odd(Rev(x))
  {
  }

  lemma RevStep(x: Word)
    ensures Rev(MsbStep(x)) == LsbStep(Rev(x))
  {
    assert Rev(0x04C1_1DB7) == 0xEDB8_8320;
    RevShift(x);
    RevTop(x);
    RevXor(x << 1, 0x04C1_1DB7);
  }

  /** Bit reversal turns the unit's polynomial form into the reflected one, step by step. */
  lemma {:induction false} RevSteps(x: Word, n: nat)
    ensures Rev(MsbSteps(x, n)) == LsbSteps(Rev(x), n)
    decreases n
  {
    hide MsbStep, LsbStep, Rev;
    if n == 0 {
    } else {
      RevStep(x);
      RevSteps(MsbStep(x), n - 1);
    }
  }

  // ---- The step is linear and loses nothing ----

  lemma HalfXor(x: Word, y: Word)
    ensures Half(Xor(x, y)) == Xor(Half(x), Half(y))
    ensures Odd(Xor(x, y)) <==> Odd(x) != Odd(y)
  {
  }

  lemma XorAssociates(x: Word, y: Word, z: Word)
    ensures Xor(Xor(x, y), z) == Xor(x, Xor(y, z))
  {
  }

  lemma XorCommutes(x: Word, y: Word)
    ensures Xor(x, y) == Xor(y, x)
  {
  }

  lemma XorCancels(x: Word, y: Word)
    ensures Xor(Xor(x, y), y) == x
  {
  }

  lemma XorShared(x: Word, y: Word, p: Word)
    ensures Xor(Xor(x, p), y) == Xor(Xor(x, y), p) && Xor(x, Xor(y, p)) == Xor(Xor(x, y), p)
    ensures Xor(Xor(x, p), Xor(y, p)) == Xor(x, y)
  {
  }

  lemma StepXor(x: Word, y: Word)
    ensures LsbStep(Xor(x, y)) == Xor(LsbStep(x), LsbStep(y))
  {
    hide Xor, Half, Odd;
    HalfXor(x, y);
    XorShared(Half(x), Half(y), 0xEDB8_8320);
  }

  lemma {:induction false} StepsXor(x: Word, y: Word, n: nat)
    ensures LsbSteps(Xor(x, y), n) == Xor(LsbSteps(x, n), LsbSteps(y, n))
    decreases n
  {
    hide LsbStep, Xor;
    if n == 0 {
    } else {
      StepXor(x, y);
      StepsXor(LsbStep(x), LsbStep(y), n - 1);
    }
  }

  lemma {:induction false} StepsAdd(x: Word, m: nat, n: nat)
    ensures LsbSteps(x, m + n) == LsbSteps(LsbSteps(x, m), n)
    decreases m
  {
    hide LsbStep;
    if m == 0 {
    } else {
      StepsAdd(LsbStep(x), m - 1, n);
    }
  }

  function Unstep(y: Word): Word {
    if y & 0x8000_0000 == 0x8000_0000 then (Xor(y, 0xEDB8_8320) << 1) | 1 else y << 1
  }

  lemma StepUndone(x: Word)
    ensures Unstep(LsbStep(x)) == x
  {
  }

  lemma {:induction false} StepsInjective(x: Word, y: Word, n: nat)
    requires LsbSteps(x, n) == LsbSteps(y, n)
    ensures x == y
    decreases n
  {
    hide LsbStep, Unstep;
    if n == 0 {
    } else {
      StepsInjective(LsbStep(x), LsbStep(y), n - 1);
      StepUndone(x);
      StepUndone(y);
    }
  }

  // ---- Bytes and words ----

  lemma Peel(x: Word, n: nat)
    requires !Odd(x)
    ensures LsbSteps(x, n + 1) == LsbSteps(Half(x), n)
  {
    hide Odd, Half, Xor;
  }

  /** A clear bit below `mask` shifts out and leaves the bits of `mask` clear. */
  lemma {:induction false} HalfClear(x: Word, mask: Word)
    requires mask < 0x80 && x & (2 * mask + 1) == 0
    ensures !Odd(x) && Half(x) & mask == 0
  {
    assert x & 1 == (x & (2 * mask + 1)) & 1;
    assert (x >> 1) & mask == ((x & (2 * mask + 1)) >> 1) & mask;
  }

  lemma FourHalves(x: Word)
    ensures Half(Half(Half(Half(x)))) == x >> 4
  {
  }

  lemma EightHalves(x: Word)
    ensures Half(Half(Half(Half(Half(Half(Half(Half(x)))))))) == Down8(x)
  {
    FourHalves(x);
    FourHalves(x >> 4);
    hide Half;
  }

  /** Eight steps on a word whose low byte is clear only shift it. */
  lemma StepsHigh(x: Word)
    requires Low8(x) == 0
    ensures LsbSteps(x, 8) == Down8(x)
  {
    hide Odd, Half, Xor, Down8, LsbStep, LsbSteps;
    var (x1, x2) := (Half(x), Half(Half(x)));
    var (x3, x4) := (Half(x2), Half(Half(x2)));
    var (x5, x6) := (Half(x4), Half(Half(x4)));
    HalfClear(x, 0x7F);
    HalfClear(x1, 0x3F);
    HalfClear(x2, 0x1F);
    HalfClear(x3, 0x0F);
    HalfClear(x4, 0x07);
    HalfClear(x5, 0x03);
    HalfClear(x6, 0x01);
    HalfClear(Half(x6), 0x00);
    StepsHalve(x);
    EightHalves(x);
  }

  lemma StepsHalve(x: Word)
    requires !Odd(x) && !Odd(Half(x)) && !Odd(Half(Half(x))) && !Odd(Half(Half(Half(x))))
    requires var y := Half(Half(Half(Half(x))));
      !Odd(y) && !Odd(Half(y)) && !Odd(Half(Half(y))) && !Odd(Half(Half(Half(y))))
    ensures LsbSteps(x, 8) == Half(Half(Half(Half(Half(Half(Half(Half(x))))))))
  {
    hide Odd, Half, Xor, LsbStep, LsbSteps;
    var y := Half(Half(Half(Half(x))));
    Peel(x, 7);
    Peel(Half(x), 6);
    Peel(Half(Half(x)), 5);
    Peel(Half(Half(Half(x))), 4);
    Peel(y, 3);
    Peel(Half(y), 2);
    Peel(Half(Half(y)), 1);
    Peel(Half(Half(Half(y))), 0);
    NoSteps(Half(Half(Half(Half(y)))));
  }

  lemma NoSteps(x: Word)
    ensures LsbSteps(x, 0) == x
  {
  }

  lemma ByteSplit(crc: Word, b: Word)
    requires b < 0x100
    ensures Xor(crc, b) == Xor(Low8(Xor(crc, b)), Up8(Down8(crc)))
  {
  }

  lemma UpDown(crc: Word)
    ensures Low8(Up8(Down8(crc))) == 0 && Down8(Up8(Down8(crc))) == Down8(crc)
  {
  }

  /** The table form of one byte is eight steps on its exclusive-or. */
  lemma UpdateIsSteps(crc: Word, b: Byte)
    ensures Update(crc, b) == LsbSteps(Xor(crc, b as Word), 8)
  {
    hide LsbStep, LsbSteps, Xor, Up8, Down8, Low8;
    var low, high := Low8(Xor(crc, b as Word)), Up8(Down8(crc));
    ByteSplit(crc, b as Word);
    UpDown(crc);
    StepsXor(low, high, 8);
    StepsHigh(high);
  }

  /** Up to four bytes as a little-endian word. */
  function Little(data: seq<Byte>): Word {
    if data == [] then 0 else Xor(data[0] as Word, Up8(Little(data[1..])))
  }

  /** `x` takes no more than `n` bytes. */
  predicate Fits(x: Word, n: nat) {
    (n == 0 ==> x == 0) && (n == 1 ==> x >> 8 == 0) && (n == 2 ==> x >> 16 == 0) && (n == 3 ==> x >> 24 == 0)
  }

  lemma FitsMore(b: Word, rest: Word, n: nat)
    requires b < 0x100 && Fits(rest, n)
    ensures Fits(Xor(b, Up8(rest)), n + 1)
  {
  }

  lemma UpAndDown(x: Word, n: nat)
    requires n <= 3 && Fits(x, n)
    ensures Down8(Up8(x)) == x
  {
  }

  lemma LowClear(x: Word)
    ensures Low8(Up8(x)) == 0
  {
  }

  lemma {:induction false} LittleFits(data: seq<Byte>)
    ensures Fits(Little(data), |data|)
  {
    hide Xor, Up8;
    if data == [] {
    } else {
      LittleFits(data[1..]);
      FitsMore(data[0] as Word, Little(data[1..]), |data[1..]|);
    }
  }

  /** Bytes one at a time are the same as their word at once: 32 steps are four times eight. */
  lemma {:induction false} UpdateWord(crc: Word, data: seq<Byte>)
    requires |data| <= 4
    ensures UpdateAll(crc, data) == LsbSteps(Xor(crc, Little(data)), 8 * |data|)
    decreases |data|
  {
    hide LsbStep, LsbSteps, Xor, Up8, Down8, Low8, Update, Fits;
    if data == [] {
      NoSteps(crc);
      XorZero(crc);
    } else {
      var b, rest := data[0] as Word, Little(data[1..]);
      UpdateIsSteps(crc, data[0]);
      UpdateWord(Update(crc, data[0]), data[1..]);
      LittleFits(data[1..]);
      UpAndDown(rest, |data[1..]|);
      LowClear(rest);
      StepsHigh(Up8(rest));
      StepsXor(Xor(crc, b), Up8(rest), 8);
      XorAssociates(crc, b, Up8(rest));
      StepsAdd(Xor(crc, Little(data)), 8, 8 * |data[1..]|);
    }
  }

  lemma XorZero(x: Word)
    ensures Xor(x, 0) == x
  {
  }

  lemma {:induction false} UpdateAppend(crc: Word, a: seq<Byte>, b: seq<Byte>)
    ensures UpdateAll(crc, a + b) == UpdateAll(UpdateAll(crc, a), b)
    decreases |a|
  {
    hide Update;
    if a == [] {
      assert a + b == b;
    } else {
      assert (a + b)[1..] == a[1..] + b;
      UpdateAppend(Update(crc, a[0]), a[1..], b);
    }
  }

  /** The 32-bit little-endian load of the Cortex-M. */
  function Load(b0: Byte, b1: Byte, b2: Byte, b3: Byte): Word {
    b0 as Word | (b1 as Word << 8) | (b2 as Word << 16) | (b3 as Word << 24)
  }

  lemma LoadIsLittle(b0: Byte, b1: Byte, b2: Byte, b3: Byte)
    ensures Load(b0, b1, b2, b3) == Little([b0, b1, b2, b3])
  {
    hide Xor, Up8, Load, Little;
    LoadFour(b0, b1, b2, b3);
    LittleNone();
    LittleCons(b3, []);
    LittleCons(b2, [b3]);
    LittleCons(b1, [b2, b3]);
    LittleCons(b0, [b1, b2, b3]);
    assert [b3] + [] == [b3] && [b2] + [b3] == [b2, b3] && [b1] + [b2, b3] == [b1, b2, b3];
    assert [b0] + [b1, b2, b3] == [b0, b1, b2, b3];
  }

  lemma LittleNone()
    ensures Little([]) == 0
  {
  }

  lemma LittleCons(b: Byte, rest: seq<Byte>)
    ensures Little([b] + rest) == Xor(b as Word, Up8(Little(rest)))
  {
    hide Xor, Up8;
    assert ([b] + rest)[1..] == rest;
  }

  lemma LoadFour(b0: Byte, b1: Byte, b2: Byte, b3: Byte)
    ensures Load(b0, b1, b2, b3)
         == Xor(b0 as Word, Up8(Xor(b1 as Word, Up8(Xor(b2 as Word, Up8(Xor(b3 as Word, Up8(0))))))))
  {
  }

  class CrcUnit {
    var dr: Word

    constructor ()
      ensures dr == 0xFFFF_FFFF
    {
      dr := 0xFFFF_FFFF;
    }

    method Reset()
      modifies this
      ensures dr == 0xFFFF_FFFF
    {
      dr := 0xFFFF_FFFF;
    }

    /** The unit divides a whole word, most significant bit first. */
    method Write(data: Word)
      modifies this
      ensures dr == MsbSteps(Xor(old(dr), data), 32)
    {
      dr := dr ^ data;
      var n := 0;
      while n < 32
        invariant 0 <= n <= 32 && MsbSteps(dr, 32 - n) == MsbSteps(Xor(old(dr), data), 32)
      {
        dr := if dr & 0x8000_0000 == 0x8000_0000 then (dr << 1) ^ 0x04C1_1DB7 else dr << 1;
        n := n + 1;
      }
    }

    /** The inner loop of the tail: eight steps of the reflected division. */
    static method EightSteps(x: Word) returns (y: Word)
      ensures y == LsbSteps(x, 8)
    {
      y := x;
      var j := 0;
      while j < 8
        invariant 0 <= j <= 8 && LsbSteps(y, 8 - j) == LsbSteps(x, 8)
      {
        y := if y & 1 == 1 then (y >> 1) ^ 0xEDB8_8320 else y >> 1;
        j := j + 1;
      }
    }

    /** The fast path equals the plain bytewise CRC-32, for every buffer and every size. */
    method CalcCrc32(buffer: array<Byte>, size: nat) returns (crc: Word)
      requires size <= buffer.Length
      modifies this
      ensures crc == Crc(buffer[..size])
    {
      hide Rev, Load, UpdateAll, MsbSteps, LsbSteps, Xor;
      Reset();
      var pos, i := 0, size / 4;
      UpdateNone(buffer[..pos]);
      while i > 0
        invariant 0 <= i && pos == 4 * (size / 4 - i)
        invariant Rev(dr) == UpdateAll(0xFFFF_FFFF, buffer[..pos])
      {
        var word := Load(buffer[pos], buffer[pos + 1], buffer[pos + 2], buffer[pos + 3]);
        WordStep(dr, buffer[..pos], buffer[pos], buffer[pos + 1], buffer[pos + 2], buffer[pos + 3]);
        Write(Rev(word));
        assert buffer[..pos] + [buffer[pos], buffer[pos + 1], buffer[pos + 2], buffer[pos + 3]] == buffer[..pos + 4];
        pos, i := pos + 4, i - 1;
      }
      crc := Rev(dr);
      i := size % 4;
      while i > 0
        invariant 0 <= i && pos == size - i
        invariant crc == UpdateAll(0xFFFF_FFFF, buffer[..pos])
      {
        ByteStep(crc, buffer[..pos], buffer[pos]);
        crc := EightSteps(Xor(crc, buffer[pos] as Word));
        assert buffer[..pos] + [buffer[pos]] == buffer[..pos + 1];
        pos, i := pos + 1, i - 1;
      }
      crc := Xor(crc, 0xFFFF_FFFF);
    }
  }

  lemma UpdateNone(data: seq<Byte>)
    requires data == []
    ensures Rev(0xFFFF_FFFF) == UpdateAll(0xFFFF_FFFF, data)
  {
    RevOnes();
  }

  lemma RevOnes()
    ensures Rev(0xFFFF_FFFF) == 0xFFFF_FFFF
  {
  }

  /** One word through the unit is four bytes of the reference. */
  lemma WordStep(dr: Word, done: seq<Byte>, b0: Byte, b1: Byte, b2: Byte, b3: Byte)
    requires Rev(dr) == UpdateAll(0xFFFF_FFFF, done)
    ensures Rev(MsbSteps(Xor(dr, Rev(Load(b0, b1, b2, b3))), 32)) == UpdateAll(0xFFFF_FFFF, done + [b0, b1, b2, b3])
  {
    hide Rev, Xor, Load, Little, UpdateAll, MsbSteps, LsbSteps;
    var word := Load(b0, b1, b2, b3);
    RevSteps(Xor(dr, Rev(word)), 32);
    RevXor(dr, Rev(word));
    RevTwice(word);
    LoadIsLittle(b0, b1, b2, b3);
    UpdateWord(Rev(dr), [b0, b1, b2, b3]);
    UpdateAppend(0xFFFF_FFFF, done, [b0, b1, b2, b3]);
  }

  lemma ByteStep(crc: Word, done: seq<Byte>, b: Byte)
    requires crc == UpdateAll(0xFFFF_FFFF, done)
    ensures LsbSteps(Xor(crc, b as Word), 8) == UpdateAll(0xFFFF_FFFF, done + [b])
  {
    hide Xor, LsbSteps, Update;
    UpdateIsSteps(crc, b);
    UpdateAppend(0xFFFF_FFFF, done, [b]);
  }

  // ---- What the flash check detects ----

  lemma XorInjective(x: Word, y: Word, z: Word)
    requires Xor(x, z) == Xor(y, z)
    ensures x == y
  {
    XorCancels(x, z);
    XorCancels(y, z);
  }

  lemma {:induction false} UpdateInjective(c: Word, d: Word, data: seq<Byte>)
    requires UpdateAll(c, data) == UpdateAll(d, data)
    ensures c == d
    decreases |data|
  {
    hide Xor, Update, LsbSteps;
    if data == [] {
    } else {
      var b := data[0] as Word;
      UpdateInjective(Update(c, data[0]), Update(d, data[0]), data[1..]);
      UpdateIsSteps(c, data[0]);
      UpdateIsSteps(d, data[0]);
      StepsInjective(Xor(c, b), Xor(d, b), 8);
      XorInjective(c, d, b);
    }
  }

  lemma Parts(a: Word, x: Word)
    requires a < 0x100
    ensures Low8(Xor(a, Up8(x))) == a && Down8(Xor(a, Up8(x))) == Down8(Up8(x))
  {
  }

  lemma SplitLittle(a: Word, x: Word, b: Word, y: Word, n: nat)
    requires a < 0x100 && b < 0x100 && n <= 3 && Fits(x, n) && Fits(y, n)
    requires Xor(a, Up8(x)) == Xor(b, Up8(y))
    ensures a == b && x == y
  {
    hide Xor, Up8, Down8, Low8, Fits;
    UpAndDown(x, n);
    UpAndDown(y, n);
    Parts(a, x);
    Parts(b, y);
  }

  lemma {:induction false} LittleInjective(u: seq<Byte>, v: seq<Byte>)
    requires |u| == |v| <= 4 && Little(u) == Little(v)
    ensures u == v
  {
    hide Xor, Up8, Fits;
    if u == [] {
    } else {
      LittleFits(u[1..]);
      LittleFits(v[1..]);
      SplitLittle(u[0] as Word, Little(u[1..]), v[0] as Word, Little(v[1..]), |u[1..]|);
      LittleInjective(u[1..], v[1..]);
      assert u == [u[0]] + u[1..] && v == [v[0]] + v[1..];
    }
  }

  lemma WindowChangesCrc(crc: Word, u: seq<Byte>, v: seq<Byte>)
    requires |u| == |v| <= 4 && u != v
    ensures UpdateAll(crc, u) != UpdateAll(crc, v)
  {
    hide Xor, Little, LsbSteps, UpdateAll;
    UpdateWord(crc, u);
    UpdateWord(crc, v);
    if UpdateAll(crc, u) == UpdateAll(crc, v) {
      StepsInjective(Xor(crc, Little(u)), Xor(crc, Little(v)), 8 * |u|);
      XorCommutes(crc, Little(u));
      XorCommutes(crc, Little(v));
      XorInjective(Little(u), Little(v), crc);
      LittleInjective(u, v);
    }
  }

  /** What surrounds a window neither hides nor adds a difference. */
  lemma CrcOfWindow(front: seq<Byte>, u: seq<Byte>, v: seq<Byte>, back: seq<Byte>)
    ensures Crc(front + u + back) == Crc(front + v + back)
       <==> UpdateAll(UpdateAll(0xFFFF_FFFF, front), u) == UpdateAll(UpdateAll(0xFFFF_FFFF, front), v)
  {
    hide Xor, UpdateAll;
    var ones := 0xFFFF_FFFF;
    var crc := UpdateAll(ones, front);
    UpdateAppend(ones, front + u, back);
    UpdateAppend(ones, front + v, back);
    UpdateAppend(ones, front, u);
    UpdateAppend(ones, front, v);
    if Crc(front + u + back) == Crc(front + v + back) {
      XorInjective(UpdateAll(ones, front + u + back), UpdateAll(ones, front + v + back), ones);
      UpdateInjective(UpdateAll(crc, u), UpdateAll(crc, v), back);
    }
  }

  lemma CutWindow(a: seq<Byte>, b: seq<Byte>, lo: nat, hi: nat)
    requires |a| == |b| && lo <= hi <= |a|
    requires forall i :: 0 <= i < |a| && a[i] != b[i] ==> lo <= i < hi
    ensures a == a[..lo] + a[lo..hi] + a[hi..] && b == a[..lo] + b[lo..hi] + a[hi..]
  {
    assert b[..lo] == a[..lo] && b[hi..] == a[hi..];
  }

  /** Two images of equal length that differ, and only inside a window of four consecutive bytes,
    * never have the same CRC. */
  lemma BurstDetected(a: seq<Byte>, b: seq<Byte>, lo: nat)
    requires |a| == |b| && a != b && lo <= |a|
    requires forall i :: 0 <= i < |a| && a[i] != b[i] ==> lo <= i < lo + 4
    ensures Crc(a) != Crc(b)
  {
    hide Crc, UpdateAll;
    var hi := if lo + 4 <= |a| then lo + 4 else |a|;
    CutWindow(a, b, lo, hi);
    CrcOfWindow(a[..lo], a[lo..hi], b[lo..hi], a[hi..]);
    WindowChangesCrc(UpdateAll(0xFFFF_FFFF, a[..lo]), a[lo..hi], b[lo..hi]);
  }

  lemma LastByte(crc: Word, u: seq<Byte>)
    requires |u| == 5
    ensures UpdateAll(crc, u) == LsbSteps(Xor(UpdateAll(crc, u[..4]), u[4] as Word), 8)
  {
    hide Xor, LsbSteps, Update;
    assert u == u[..4] + [u[4]];
    UpdateAppend(crc, u[..4], [u[4]]);
    UpdateIsSteps(UpdateAll(crc, u[..4]), u[4]);
  }

  lemma XorEqual(x: Word, y: Word)
    ensures x == y <==> Xor(x, y) == 0
  {
    if Xor(x, y) == 0 {
      XorCancels(x, y);
      XorCommutes(0, y);
      XorZero(y);
    }
  }

  lemma XorSwap(a: Word, x: Word, b: Word, y: Word)
    ensures Xor(Xor(a, x), Xor(b, y)) == Xor(Xor(a, b), Xor(x, y))
  {
    hide Xor;
    XorAssociates(a, x, Xor(b, y));
    XorAssociates(x, b, y);
    XorCommutes(x, b);
    XorAssociates(b, x, y);
    XorAssociates(a, b, Xor(x, y));
  }

  lemma XorMoves(a: Word, b: Word, x: Word, y: Word)
    ensures Xor(a, x) == Xor(b, y) <==> Xor(a, b) == Xor(x, y)
  {
    hide Xor;
    XorEqual(Xor(a, x), Xor(b, y));
    XorSwap(a, x, b, y);
    XorEqual(Xor(a, b), Xor(x, y));
  }

  lemma XorTwice(a: Word, x: Word, y: Word)
    ensures Xor(Xor(a, x), Xor(a, y)) == Xor(x, y)
    ensures Xor(x, Xor(x, y)) == y
  {
  }

  /** The four first bytes leave a difference behind; only a fifth byte equal to it goes undetected. */
  predicate Undetected(u: seq<Byte>, v: seq<Byte>)
    requires |u| == |v| == 5
  {
    LsbSteps(Xor(Little(u[..4]), Little(v[..4])), 32) == Xor(u[4] as Word, v[4] as Word)
  }

  lemma FiveBytes(crc: Word, u: seq<Byte>, v: seq<Byte>)
    requires |u| == |v| == 5
    ensures UpdateAll(crc, u) == UpdateAll(crc, v) <==> Undetected(u, v)
  {
    hide Xor, LsbSteps, Little, Update;
    var (x, y) := (Xor(crc, Little(u[..4])), Xor(crc, Little(v[..4])));
    var (a, b) := (LsbSteps(x, 32), LsbSteps(y, 32));
    UpdateWord(crc, u[..4]);
    UpdateWord(crc, v[..4]);
    StepsXor(x, y, 32);
    XorTwice(crc, Little(u[..4]), Little(v[..4]));
    XorMoves(a, b, u[4] as Word, v[4] as Word);
    LastByte(crc, u);
    LastByte(crc, v);
    if UpdateAll(crc, u) == UpdateAll(crc, v) {
      StepsInjective(Xor(a, u[4] as Word), Xor(b, v[4] as Word), 8);
    }
  }

  /** Two images that differ inside five consecutive bytes have the same CRC exactly when the
    * fifth byte cancels what the first four leave behind. */
  lemma FiveByteWindow(front: seq<Byte>, u: seq<Byte>, v: seq<Byte>, back: seq<Byte>)
    requires |u| == |v| == 5
    ensures Crc(front + u + back) == Crc(front + v + back) <==> Undetected(u, v)
  {
    hide Crc, UpdateAll, Undetected;
    CrcOfWindow(front, u, v, back);
    FiveBytes(UpdateAll(0xFFFF_FFFF, front), u, v);
  }

  /** The 33 bits of the generator polynomial, added to the first 33 of five bytes. */
  function AddGenerator(u: seq<Byte>): (v: seq<Byte>)
    requires |u| == 5
    ensures |v| == 5
  {
    [u[0] ^ 0x41, u[1] ^ 0x06, u[2] ^ 0x71, u[3] ^ 0xDB, u[4] ^ 0x01]
  }

  lemma GeneratorWord(u: seq<Byte>)
    requires |u| == 5
    ensures Little(AddGenerator(u)[..4]) == Xor(Little(u[..4]), 0xDB71_0641)
    ensures AddGenerator(u)[4] as Word == Xor(u[4] as Word, 0x01)
  {
    var v := AddGenerator(u);
    assert u[..4] == [u[0], u[1], u[2], u[3]] && v[..4] == [v[0], v[1], v[2], v[3]];
    LoadIsLittle(u[0], u[1], u[2], u[3]);
    LoadIsLittle(v[0], v[1], v[2], v[3]);
    LoadXor(u[0], u[1], u[2], u[3]);
    hide Little;
  }

  lemma LoadXor(b0: Byte, b1: Byte, b2: Byte, b3: Byte)
    ensures Load(b0 ^ 0x41, b1 ^ 0x06, b2 ^ 0x71, b3 ^ 0xDB) == Xor(Load(b0, b1, b2, b3), 0xDB71_0641)
  {
  }

  lemma GeneratorResidue()
    ensures LsbSteps(0xDB71_0641, 32) == 0x01
  {
    var g: seq<Byte> := [0x41, 0x06, 0x71, 0xDB];
    LoadIsLittle(0x41, 0x06, 0x71, 0xDB);
    assert Load(0x41, 0x06, 0x71, 0xDB) == 0xDB71_0641;
    UpdateWord(0, g);
    XorZero(0xDB71_0641);
    XorCommutes(0, 0xDB71_0641);
    assert TableEntry(0x41) == 0x01DB_7106;
    assert TableEntry(0) == 0;
    assert Update(0, 0x41) == 0x01DB_7106;
    assert Update(0x01DB_7106, 0x06) == 0x0001_DB71;
    assert Update(0x0001_DB71, 0x71) == 0x0000_01DB;
    assert Update(0x0000_01DB, 0xDB) == 0x0000_0001;
    assert g[1..] == [0x06, 0x71, 0xDB] && g[1..][1..] == [0x71, 0xDB] && g[1..][1..][1..] == [0xDB];
  }

  lemma AddChanges(b: Byte)
    ensures b ^ 0x41 != b
  {
  }

  /** Four is the most: adding the generator to any five bytes of any image keeps its CRC. */
  lemma FiveBytesUndetected(front: seq<Byte>, u: seq<Byte>, back: seq<Byte>)
    requires |u| == 5
    ensures AddGenerator(u) != u
    ensures Crc(front + u + back) == Crc(front + AddGenerator(u) + back)
  {
    hide Xor, UpdateAll, Little, LsbSteps;
    var v := AddGenerator(u);
    AddChanges(u[0]);
    assert v[0] != u[0];
    GeneratorWord(u);
    GeneratorResidue();
    XorTwice(0, Little(u[..4]), 0xDB71_0641);
    XorTwice(0, u[4] as Word, 0x01);
    FiveByteWindow(front, u, v, back);
  }
}
