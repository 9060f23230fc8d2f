/** The round-robin refresh of the control board's display and LEDs over SPI. */
module DisplayMirror {

  import opened MachineTypes

  const BLOCK := 16
  const BLOCKS := 64
  const LCD_SIZE := BLOCK * BLOCKS
  const LED_SIZE := 6
  const RINGS := 0x200
  const OTHER_LEDS := 0x201
  const LCD := 0x100

  type Lcd = s: seq<Byte> | |s| == LCD_SIZE witness seq(LCD_SIZE, _ => 0)

  type Leds = s: seq<int> | |s| == LED_SIZE witness [0, 0, 0, 0, 0, 0]

  /** The control part of an SPI packet: its data is read as four words or as sixteen bytes. */
  datatype Control = Words(kind: int, words: seq<int>) | Bytes(kind: int, bytes: seq<Byte>)

  /** The two counters; both are 32-bit, and only their low bits matter. */
  datatype Scheduler = Scheduler(update: int, lcd: int)

  function Advance(s: Scheduler): Scheduler {
    var update := ToInt32(s.update + 1);
    Scheduler(update, if update % 8 == 0 then s.lcd else (s.lcd + 1) % BLOCKS)
  }

  function After(s: Scheduler, n: nat): Scheduler {
    if n == 0 then s else Advance(After(s, n - 1))
  }

  /** The packet sent by the step that leads to scheduler state `s`. */
  function Sent(s: Scheduler, lcd: Lcd, leds: Leds): Control
    requires 0 <= s.lcd < BLOCKS || s.update % 8 == 0
  {
    if s.update % 8 != 0 then Bytes(LCD + s.lcd, lcd[BLOCK * s.lcd..BLOCK * s.lcd + BLOCK])
    else if s.update / 8 % 2 == 1 then Words(RINGS, leds[..4])
    else Words(OTHER_LEDS, leds[4..] + [0, 0])
  }

  class Master {
    var updateIndex: int
    var lcdIndex: int
    const lcd: array<Byte>
    const leds: array<int>

    constructor (lcd: array<Byte>, leds: array<int>)
      ensures this.lcd == lcd && this.leds == leds && updateIndex == 0 && lcdIndex == 0
    {
      this.lcd := lcd;
      this.leds := leds;
      updateIndex, lcdIndex := 0, 0;
    }

    /** Fills the control part of the next packet. */
    method Process(data: array<Byte>, words: array<int>) returns (tx: Control)
      requires lcd.Length == LCD_SIZE && leds.Length == LED_SIZE && data.Length == BLOCK && words.Length == 4
      requires data != lcd && words != leds
      modifies this, data, words
      ensures lcd[..] == old(lcd[..]) && leds[..] == old(leds[..])
      ensures Scheduler(updateIndex, lcdIndex) == old(Advance(Scheduler(updateIndex, lcdIndex)))
      ensures 0 <= lcdIndex < BLOCKS || updateIndex % 8 == 0
      ensures tx == Sent(Scheduler(updateIndex, lcdIndex), lcd[..], leds[..])
    {
      hide ToInt32;
      updateIndex := ToInt32(updateIndex + 1);
      if updateIndex % 8 == 0 {
        FillLeds(words, updateIndex / 8 % 2 == 1);
        tx := Words(if updateIndex / 8 % 2 == 1 then RINGS else OTHER_LEDS, words[..]);
      } else {
        lcdIndex := (lcdIndex + 1) % BLOCKS;
        FillBlock(data);
        tx := Bytes(LCD + lcdIndex, data[..]);
      }
    }

    method FillLeds(words: array<int>, rings: bool)
      requires leds.Length == LED_SIZE && words.Length == 4 && words != leds
      modifies words
      ensures words[..] == if rings then leds[..4] else leds[4..] + [0, 0]
    {
      if rings {
        for i := 0 to 4
          invariant words[..i] == leds[..i]
        {
          words[i] := leds[i];
        }
      } else {
        for i := 0 to 2
          invariant words[..i] == leds[4..4 + i]
        {
          words[i] := leds[i + 4];
        }
        words[2] := 0;
        words[3] := 0;
        assert words[..] == words[..2] + [0, 0];
      }
    }

    method FillBlock(data: array<Byte>)
      requires lcd.Length == LCD_SIZE && data.Length == BLOCK && data != lcd && 0 <= lcdIndex < BLOCKS
      modifies data
      ensures data[..] == lcd[BLOCK * lcdIndex..BLOCK * lcdIndex + BLOCK]
    {
      for i := 0 to BLOCK
        invariant data[..i] == lcd[BLOCK * lcdIndex..BLOCK * lcdIndex + i]
      {
        data[i] := lcd[i + lcdIndex * BLOCK];
      }
    }
  }

  /** What the control board is told, by the numbers on the wire: one packet in eight is for LEDs,
    * in turn the four encoder rings and the other two; the others are display blocks. */
  lemma OnTheWire(s: Scheduler, lcd: Lcd, leds: Leds)
    requires 0 <= s.lcd < 64 || s.update % 8 == 0
    ensures s.update % 16 == 8 ==> Sent(s, lcd, leds) == Words(0x200, [leds[0], leds[1], leds[2], leds[3]])
    ensures s.update % 16 == 0 ==> Sent(s, lcd, leds) == Words(0x201, [leds[4], leds[5], 0, 0])
    ensures s.update % 8 != 0 ==>
              var c := Sent(s, lcd, leds);
              && c.Bytes? && c.kind == 0x100 + s.lcd && |c.bytes| == 16
              && forall i :: 0 <= i < 16 ==> c.bytes[i] == lcd[16 * s.lcd + i]
  {
    assert s.update % 16 == 8 ==> s.update % 8 == 0 && s.update / 8 % 2 == 1;
    assert s.update % 16 == 0 ==> s.update % 8 == 0 && s.update / 8 % 2 == 0;
  }

  // ---- Which packet carries what ----

  /** The packet after `n - 1` others from `s` carries block `k` of the display. */
  predicate CarriesBlock(s: Scheduler, n: nat, k: int) {
    After(s, n).update % 8 != 0 && After(s, n).lcd == k
  }

  predicate CarriesRings(s: Scheduler, n: nat) {
    After(s, n).update % 16 == 8
  }

  predicate CarriesOtherLeds(s: Scheduler, n: nat) {
    After(s, n).update % 16 == 0
  }

  /** Of `n` packets, how many carry display blocks. */
  function Blocks(s: Scheduler, n: nat): int {
    var phase := s.update % 8;
    n - (phase + n) / 8
  }

  lemma AdvanceUpdate(s: Scheduler)
    ensures Advance(s).update % 16 == (s.update % 16 + 1) % 16
  {
    var x := s.update + 1;
    var w := (x + 0x8000_0000) / 0x1_0000_0000;
    assert ToInt32(x) == x - 0x1_0000_0000 * w;
    SameMod16(x, ToInt32(x), 0x1000_0000 * w);
    SameMod16(x, s.update % 16 + 1, s.update / 16);
  }

  lemma SameMod16(x: int, y: int, k: int)
    requires x == y + 16 * k
    ensures x % 16 == y % 16
  {
  }

  lemma {:induction false} UpdateMod16(s: Scheduler, n: nat)
    ensures After(s, n).update % 16 == (s.update % 16 + n) % 16
  {
    hide Advance;
    if n == 0 {
    } else {
      UpdateMod16(s, n - 1);
      AdvanceUpdate(After(s, n - 1));
      ModStep(s.update % 16, n - 1);
    }
  }

  lemma ModStep(phase: nat, n: nat)
    ensures ((phase + n) % 16 + 1) % 16 == (phase + (n + 1)) % 16
  {
  }

  lemma UpdateAfter(s: Scheduler, n: nat)
    ensures After(s, n).update % 8 == (s.update % 8 + n) % 8
  {
    hide After;
    UpdateMod16(s, n);
    Mod8(After(s, n).update);
    Mod8(s.update % 16 + n);
    Mod8(s.update);
    SameMod8(s.update % 16 + n, s.update % 8 + n, s.update % 16 / 8);
  }

  lemma Mod8(x: int)
    ensures x % 8 == x % 16 % 8
  {
    SameMod8(x, x % 16, 2 * (x / 16));
  }

  lemma SameMod8(x: int, y: int, k: int)
    requires x == y + 8 * k
    ensures x % 8 == y % 8
  {
  }

  lemma AdvanceLcd(s: Scheduler)
    ensures Advance(s).lcd == if Advance(s).update % 8 == 0 then s.lcd else (s.lcd + 1) % BLOCKS
  {
  }

  /** The display blocks go out in turn. */
  lemma {:induction false} LcdAfter(s: Scheduler, n: nat)
    ensures Blocks(s, n) >= 0
    ensures Blocks(s, n) > 0 ==> After(s, n).lcd == (s.lcd + Blocks(s, n)) % BLOCKS
    ensures Blocks(s, n) == 0 ==> After(s, n).lcd == s.lcd
  {
    hide Advance, Blocks;
    if n == 0 {
      BlocksNone(s);
    } else {
      LcdAfter(s, n - 1);
      AdvanceLcd(After(s, n - 1));
      UpdateAfter(s, n);
      BlocksStep(s, n);
      InTurn(s.lcd, Blocks(s, n - 1));
    }
  }

  lemma BlocksNone(s: Scheduler)
    ensures Blocks(s, 0) == 0
  {
  }

  lemma BlocksStep(s: Scheduler, n: nat)
    requires n > 0
    ensures Blocks(s, n) == Blocks(s, n - 1) + if (s.update % 8 + n) % 8 == 0 then 0 else 1
  {
  }

  lemma InTurn(x: int, m: int)
    ensures ((x + m) % BLOCKS + 1) % BLOCKS == (x + (m + 1)) % BLOCKS
  {
  }

  /** Packet number `m + (m + phase - 1) / 7` is the `m`-th to carry a display block. */
  function NthBlock(s: Scheduler, m: nat): nat
    requires m >= 1
  {
    m + (m + s.update % 8 - 1) / 7
  }

  lemma NthCarries(s: Scheduler, m: nat)
    requires m >= 1
    ensures Blocks(s, NthBlock(s, m)) == m
    ensures CarriesBlock(s, NthBlock(s, m), (s.lcd + m) % BLOCKS)
  {
    var n := NthBlock(s, m);
    NthPosition(s.update % 8, m);
    UpdateAfter(s, n);
    LcdAfter(s, n);
  }

  lemma NthPosition(phase: nat, m: nat)
    requires phase < 8 && m >= 1
    ensures var n := m + (m + phase - 1) / 7;
      (phase + n) % 8 != 0 && n - (phase + n) / 8 == m
  {
    var q, r := (m + phase - 1) / 7, (m + phase - 1) % 7;
    assert m + phase - 1 == 7 * q + r;
    assert phase + (m + q) == 8 * q + (r + 1);
  }

  /** Any 74 consecutive packets carry every block of the display, whatever the counters are. */
  lemma EveryBlockIn74(s: Scheduler, k: nat) returns (n: nat)
    requires k < BLOCKS
    ensures 1 <= n <= 74 && CarriesBlock(s, n, k)
  {
    var m := Turn(s, k);
    n := NthBlock(s, m);
    NthCarries(s, m);
  }

  predicate Carried(s: Scheduler, n: nat, k: int) {
    exists j: nat :: 1 <= j <= n && CarriesBlock(s, j, k)
  }

  /** 73 packets suffice exactly when the first of them is not an LED packet. */
  lemma Not73(s: Scheduler)
    ensures (forall k: nat :: k < BLOCKS ==> Carried(s, 73, k)) <==> s.update % 8 != 7
  {
    hide After;
    if s.update % 8 == 7 {
      var k: nat := s.lcd % BLOCKS;
      forall n: nat | 1 <= n <= 73
        ensures !CarriesBlock(s, n, k)
      {
        UpdateAfter(s, n);
        LcdAfter(s, n);
        Few(s, n);
      }
      assert k < BLOCKS && !Carried(s, 73, k);
    } else {
      forall k: nat | k < BLOCKS
        ensures Carried(s, 73, k)
      {
        var m := Turn(s, k);
        NthCarries(s, m);
        assert CarriesBlock(s, NthBlock(s, m), k);
      }
    }
  }

  /** Block `k` is next in `m` display packets. */
  function Turn(s: Scheduler, k: nat): (m: nat)
    requires k < BLOCKS
    ensures 1 <= m <= BLOCKS && (s.lcd + m) % BLOCKS == k
  {
    if (k - s.lcd) % BLOCKS == 0 then BLOCKS else (k - s.lcd) % BLOCKS
  }

  lemma Few(s: Scheduler, n: nat)
    requires s.update % 8 == 7 && 1 <= n <= 73
    ensures Blocks(s, n) < BLOCKS
    ensures Blocks(s, n) > 0 ==> (s.lcd + Blocks(s, n)) % BLOCKS != s.lcd % BLOCKS
    ensures Blocks(s, n) == 0 ==> (7 + n) % 8 == 0
  {
  }

  /** Any 16 consecutive packets carry each group of LEDs exactly once. */
  lemma LedsIn16(s: Scheduler) returns (rings: nat, others: nat)
    ensures 1 <= rings <= 16 && 1 <= others <= 16
    ensures forall n :: 1 <= n <= 16 ==> (CarriesRings(s, n) <==> n == rings)
    ensures forall n :: 1 <= n <= 16 ==> (CarriesOtherLeds(s, n) <==> n == others)
  {
    hide After;
    var phase := s.update % 16;
    others := 16 - phase;
    rings := if phase < 8 then 8 - phase else 24 - phase;
    forall n: nat | 1 <= n <= 16
      ensures CarriesRings(s, n) <==> n == rings
      ensures CarriesOtherLeds(s, n) <==> n == others
    {
      UpdateMod16(s, n);
      OnceIn16(phase, n);
    }
  }

  lemma OnceIn16(phase: nat, n: nat)
    requires phase < 16 && 1 <= n <= 16
    ensures (phase + n) % 16 == 0 <==> n == 16 - phase
    ensures (phase + n) % 16 == 8 <==> n == if phase < 8 then 8 - phase else 24 - phase
  {
  }

  // ---- A receiver that applies every packet ----

  datatype Mirror = Mirror(lcd: Lcd, leds: Leds)

  function Apply(m: Mirror, c: Control): Mirror
    requires c.Words? ==> |c.words| == 4
    requires c.Bytes? ==> |c.bytes| == BLOCK
  {
    match c
    case Bytes(kind, bytes) =>
      m.(lcd := seq(LCD_SIZE, i requires 0 <= i < LCD_SIZE =>
            if LCD + i / BLOCK == kind then bytes[i % BLOCK] else m.lcd[i]))
    case Words(kind, words) =>
      if kind == RINGS then m.(leds := words + m.leds[4..])
      else if kind == OTHER_LEDS then m.(leds := m.leds[..4] + words[..2])
      else m
  }

  /** What the buffers of the master held when each packet was filled. */
  datatype Frame = Frame(lcd: Lcd, leds: Leds)

  lemma LcdInRange(s: Scheduler, n: nat)
    requires n > 0
    ensures 0 <= After(s, n).lcd < BLOCKS || After(s, n).update % 8 == 0
  {
  }

  /** The mirror after one packet per frame. */
  function Mirrored(m: Mirror, s: Scheduler, frames: seq<Frame>): Mirror {
    if frames == [] then m
    else
      var n := |frames|;
      LcdInRange(s, n);
      Apply(Mirrored(m, s, frames[..n - 1]), Sent(After(s, n), frames[n - 1].lcd, frames[n - 1].leds))
  }

  lemma {:induction false} PixelFrom(m: Mirror, s: Scheduler, frames: seq<Frame>, i: nat, first: nat) returns (t: nat)
    requires i < LCD_SIZE && first < |frames| && CarriesBlock(s, first + 1, i / BLOCK)
    ensures first <= t < |frames| && Mirrored(m, s, frames).lcd[i] == frames[t].lcd[i]
  {
    var n := |frames|;
    LcdInRange(s, n);
    PixelStep(Mirrored(m, s, frames[..n - 1]), After(s, n), frames[n - 1], i);
    if CarriesBlock(s, n, i / BLOCK) {
      t := n - 1;
    } else {
      t := PixelFrom(m, s, frames[..n - 1], i, first);
    }
  }

  lemma PixelStep(m: Mirror, s: Scheduler, f: Frame, i: nat)
    requires i < LCD_SIZE && (0 <= s.lcd < BLOCKS || s.update % 8 == 0)
    ensures Apply(m, Sent(s, f.lcd, f.leds)).lcd[i]
         == if s.update % 8 != 0 && s.lcd == i / BLOCK then f.lcd[i] else m.lcd[i]
  {
  }

  /** Freshness: after 74 packets or more, every byte of the mirrored display is what the buffer
    * held within the last 74. */
  lemma DisplayIsFresh(m: Mirror, s: Scheduler, frames: seq<Frame>, i: nat) returns (t: nat)
    requires i < LCD_SIZE && |frames| >= 74
    ensures |frames| - 74 <= t < |frames| && Mirrored(m, s, frames).lcd[i] == frames[t].lcd[i]
  {
    var before := |frames| - 74;
    var n := EveryBlockIn74(After(s, before), i / BLOCK);
    AfterAfter(s, before, n);
    t := PixelFrom(m, s, frames, i, before + n - 1);
  }

  lemma {:induction false} AfterAfter(s: Scheduler, a: nat, b: nat)
    ensures After(After(s, a), b) == After(s, a + b)
  {
    if b == 0 {
    } else {
      AfterAfter(s, a, b - 1);
    }
  }

  /** Convergence: a display left unchanged over 74 packets is mirrored exactly, and LEDs left
    * unchanged over 16. */
  lemma DisplayConverges(m: Mirror, s: Scheduler, frames: seq<Frame>, lcd: Lcd)
    requires |frames| >= 74 && forall t :: |frames| - 74 <= t < |frames| ==> frames[t].lcd == lcd
    ensures Mirrored(m, s, frames).lcd == lcd
  {
    var mirrored := Mirrored(m, s, frames).lcd;
    forall i: nat | i < LCD_SIZE
      ensures mirrored[i] == lcd[i]
    {
      var t := DisplayIsFresh(m, s, frames, i);
    }
  }

  lemma LedsConverge(m: Mirror, s: Scheduler, frames: seq<Frame>, leds: Leds)
    requires |frames| >= 16 && forall t :: |frames| - 16 <= t < |frames| ==> frames[t].leds == leds
    ensures Mirrored(m, s, frames).leds == leds
  {
    hide After, Mirrored;
    var before := |frames| - 16;
    var rings, others := LedsIn16(After(s, before));
    AfterAfter(s, before, rings);
    AfterAfter(s, before, others);
    assert CarriesRings(After(s, before), rings) && CarriesOtherLeds(After(s, before), others);
    LedsFrom(m, s, frames, leds, before, before + rings, before + others);
  }

  lemma {:induction false} LedsFrom(m: Mirror, s: Scheduler, frames: seq<Frame>, leds: Leds,
                                    before: nat, rings: nat, others: nat)
    requires forall t :: before <= t < |frames| ==> frames[t].leds == leds
    requires before < rings && before < others && before <= |frames|
    requires CarriesRings(s, rings) && CarriesOtherLeds(s, others)
    ensures rings <= |frames| ==> Mirrored(m, s, frames).leds[..4] == leds[..4]
    ensures others <= |frames| ==> Mirrored(m, s, frames).leds[4..] == leds[4..]
  {
    if |frames| <= before {
    } else {
      hide Apply, Sent, After;
      var n := |frames|;
      LedsFrom(m, s, frames[..n - 1], leds, before, rings, others);
      LcdInRange(s, n);
      LedStep(Mirrored(m, s, frames[..n - 1]), After(s, n), frames[n - 1]);
    }
  }

  lemma LedStep(m: Mirror, s: Scheduler, f: Frame)
    requires 0 <= s.lcd < BLOCKS || s.update % 8 == 0
    ensures var after := Apply(m, Sent(s, f.lcd, f.leds)).leds;
      && after[..4] == (if s.update % 16 == 8 then f.leds else m.leds)[..4]
      && after[4..] == (if s.update % 16 == 0 then f.leds else m.leds)[4..]
  {
  }
}
