/** The MIDI controller screen: keys to notes, and the knobs around them. */
module KeyTracker {

  import opened MachineTypes
  import opened MidiPacket

  const QUADS := 12
  const KEYS := 16

  // Quadrants, buttons and modifiers of input events.
  const MAIN := 0
  const TOP_LEFT := 1
  const BOTTOM_RIGHT := 4
  const BTN_UP := 1
  const BTN_DOWN := 2
  const BTN_ENCODER := 3
  const BTN_1 := 8
  const BTN_16 := 23

  type Int8 = x: int | -128 <= x < 128

  /** For buttons `value` is 1 for down and 0 for up; for the encoder it is an increment. */
  datatype Event = Event(quadrant: Byte, shifted: bool, value: Int8, button: Byte)

  datatype Handler = Bend | Channel | Octave | Velocity | ReleaseVelocity | Controller(n: int)

  const PAGES := [Bend, Channel, Octave, Velocity, ReleaseVelocity,
                  Controller(0), Controller(1), Controller(2), Controller(3),
                  Controller(4), Controller(5), Controller(6)]

  datatype State = State(bend: int, shift: int, channel: int, velo: int, rvelo: int,
                         cc: seq<int>, page: int, note: seq<int>)

  datatype Result = Result(state: State, sent: seq<Packet>)

  const INITIAL := State(0, 0, 0, 100, 0, seq(128, _ => 0), 0, seq(KEYS, _ => -1))

  predicate IsNote(n: int) {
    n == -1 || 24 <= n <= 111
  }

  predicate Valid(s: State) {
    && -3 <= s.shift <= 3 && 0 <= s.channel < 16 && 0 <= s.velo < 128 && 0 <= s.rvelo < 128
    && |s.cc| == 128 && (forall i :: 0 <= i < 128 ==> 0 <= s.cc[i] < 128)
    && 0 <= s.page <= QUADS - 4
    && |s.note| == KEYS && (forall i :: 0 <= i < KEYS ==> IsNote(s.note[i]))
  }

  function Clamp(x: int, lo: int, hi: int): int
    requires lo <= hi
  {
    if x < lo then lo else if x > hi then hi else x
  }

  function NoteOff(channel: int, pitch: int, velo: int): Packet
    requires 0 <= channel < 16 && 0 <= pitch < 128 && 0 <= velo < 128
  {
    Packet(0, 0, 0x80 + channel, pitch, velo)
  }

  function NoteOn(channel: int, pitch: int, velo: int): Packet
    requires 0 <= channel < 16 && 0 <= pitch < 128 && 0 <= velo < 128
  {
    Packet(0, 0, 0x90 + channel, pitch, velo)
  }

  function Turn(s: State, h: Handler, e: Event): Result
    requires Valid(s) && h in PAGES
  {
    if e.value == 0 then Result(s, [])
    else
      match h
      case Bend =>
        if e.button == BTN_ENCODER then SendBend(s.(bend := Clamp(s.bend + e.value, -64, 63)))
        else if e.button == BTN_UP then SendBend(s.(bend := if e.shifted then 63 else s.bend + 1))
        else if e.button == BTN_DOWN then SendBend(s.(bend := if e.shifted then -64 else s.bend - 1))
        else Result(s, [])
      case Channel =>
        if e.button == BTN_UP then Result(s.(channel := (s.channel + 1) % 16), [])
        else if e.button == BTN_DOWN then Result(s.(channel := (s.channel - 1) % 16), [])
        else Result(s, [])
      case Octave =>
        if e.button == BTN_UP then Result(s.(shift := Clamp(s.shift + 1, -3, 3)), [])
        else if e.button == BTN_DOWN then Result(s.(shift := Clamp(s.shift - 1, -3, 3)), [])
        else Result(s, [])
      case Velocity => Result(s.(velo := TurnVelocity(s.velo, e)), [])
      case ReleaseVelocity => Result(s.(rvelo := TurnVelocity(s.rvelo, e)), [])
      case Controller(n) =>
        if e.button == BTN_ENCODER then SendController(s, n, e.value)
        else if e.button == BTN_UP then SendController(s, n, 1)
        else if e.button == BTN_DOWN then SendController(s, n, -1)
        else Result(s, [])
  }

  function TurnVelocity(v: int, e: Event): int {
    if e.button == BTN_ENCODER then Clamp(v + e.value, 1, 127)
    else if e.button == BTN_UP then (v + 1) % 128
    else if e.button == BTN_DOWN then (v - 1) % 128
    else v
  }

  /** The data byte is cut to eight bits: button steps do not clamp the bend. */
  function SendBend(s: State): Result
    requires Valid(s)
  {
    Result(s, [Packet(0, 0, 0xE0 + s.channel, 0, (64 + s.bend) % 256)])
  }

  function SendController(s: State, n: int, step: int): Result
    requires Valid(s) && 0 <= n < 128
  {
    var v := Clamp(s.cc[n] + step, 0, 127);
    Result(s.(cc := s.cc[n := v]), [Packet(0, 0, 0xB0 + s.channel, n, v)])
  }

  function Press(s: State, i: int): Result
    requires Valid(s) && 0 <= i < KEYS
  {
    var n := i + 60 + 12 * s.shift;
    if s.note[i] == n then Result(s, [])
    else
      Result(s.(note := s.note[i := n]),
             (if s.note[i] != -1 then [NoteOff(s.channel, s.note[i], 100)] else []) + [NoteOn(s.channel, n, s.velo)])
  }

  function Release(s: State, i: int, shifted: bool): Result
    requires Valid(s) && 0 <= i < KEYS
  {
    if shifted || s.note[i] == -1 then Result(s, [])
    else Result(s.(note := s.note[i := -1]), [NoteOff(s.channel, s.note[i], s.velo)])
  }

  /** The knob quadrants take any button; the key table needs one of its sixteen. */
  predicate IsInput(e: Event) {
    TOP_LEFT <= e.quadrant <= BOTTOM_RIGHT || e.button <= BTN_16
  }

  /** The event goes to the key table. */
  predicate IsKey(e: Event) {
    !(TOP_LEFT <= e.quadrant <= BOTTOM_RIGHT) && e.button >= BTN_1
  }

  function KeyIndex(e: Event): int {
    e.button - BTN_1
  }

  /** The inputs are exactly the events that do not index outside the key table. */
  lemma InputsStayInside(e: Event)
    ensures IsInput(e) <==> (IsKey(e) ==> 0 <= KeyIndex(e) < KEYS)
    ensures IsKey(e) <==> (e.quadrant < 1 || e.quadrant > 4) && e.button >= 8
    ensures IsInput(e) && IsKey(e) ==> 0 <= e.button - 8 < 16
  {
  }

  /** For instance, the first button past the keys is not one. */
  lemma ButtonPastKeys()
    ensures !IsInput(Event(5, false, 1, 24)) && KeyIndex(Event(5, false, 1, 24)) == KEYS == 16
  {
  }

  function Handle(s: State, e: Event): Result
    requires Valid(s) && IsInput(e)
  {
    if TOP_LEFT <= e.quadrant <= BOTTOM_RIGHT then Turn(s, PAGES[s.page + e.quadrant - TOP_LEFT], e)
    else if e.button >= BTN_1 then
      if e.value != 0 then Press(s, e.button - BTN_1) else Release(s, e.button - BTN_1, e.shifted)
    else if e.value != 0 && e.quadrant == MAIN then
      if e.button == BTN_UP then Result(s.(page := if s.page < 2 then 0 else s.page - 2), [])
      else if e.button == BTN_DOWN then Result(s.(page := if s.page + 2 > QUADS - 4 then QUADS - 4 else s.page + 2), [])
      else Result(s, [])
    else Result(s, [])
  }

  lemma TurnKeepsValid(s: State, h: Handler, e: Event)
    requires Valid(s) && h in PAGES
    ensures Valid(Turn(s, h, e).state) && Turn(s, h, e).state.note == s.note
  {
  }

  /** Notes stay within 24..111, the page within the table, every knob within its range. */
  lemma HandleKeepsValid(s: State, e: Event)
    requires Valid(s) && IsInput(e)
    ensures Valid(Handle(s, e).state)
  {
    hide Turn, IsNote;
    if TOP_LEFT <= e.quadrant <= BOTTOM_RIGHT {
      TurnKeepsValid(s, PAGES[s.page + e.quadrant - TOP_LEFT], e);
    } else if e.button >= BTN_1 {
      KeyIsNote(s, e.button - BTN_1);
    }
  }

  lemma KeyIsNote(s: State, i: int)
    requires Valid(s) && 0 <= i < KEYS
    ensures IsNote(i + 60 + 12 * s.shift) && IsNote(-1)
  {
  }

  /** The screen itself: the fields of the source, changed in place by each event. */
  class Screen {
    var bend: int
    var shift: int
    var channel: int
    var velo: int
    var rvelo: int
    const cc: array<int>
    var page: int
    const note: array<int>

    ghost function Current(): State
      reads this, cc, note
    {
      State(bend, shift, channel, velo, rvelo, cc[..], page, note[..])
    }

    constructor ()
      ensures Current() == INITIAL && fresh(cc) && fresh(note) && cc != note
    {
      bend, shift, channel, velo, rvelo, page := 0, 0, 0, 100, 0, 0;
      cc := new int[128](_ => 0);
      note := new int[KEYS](_ => -1);
      new;
      assert cc[..] == INITIAL.cc && note[..] == INITIAL.note;
    }

    /** One event of a key button; `sent` is what goes to the input buffer. */
    method OnKey(i: int, down: bool, shifted: bool) returns (sent: seq<Packet>)
      requires Valid(Current()) && 0 <= i < KEYS && cc != note
      modifies note
      ensures Result(Current(), sent) == old(if down then Press(Current(), i) else Release(Current(), i, shifted))
    {
      sent := [];
      if down {
        var n := i + 60 + 12 * shift;
        if note[i] != n {
          if note[i] != -1 {
            sent := sent + [NoteOff(channel, note[i], 100)];
          }
          sent := sent + [NoteOn(channel, n, velo)];
          note[i] := n;
        }
      } else if !shifted && note[i] != -1 {
        sent := sent + [NoteOff(channel, note[i], velo)];
        note[i] := -1;
      }
    }

    method OnEvent(e: Event) returns (sent: seq<Packet>)
      requires Valid(Current()) && IsInput(e) && cc != note
      modifies this, cc, note
      ensures Valid(Current())
      ensures Result(Current(), sent) == old(Handle(Current(), e))
    {
      HandleKeepsValid(Current(), e);
      sent := [];
      if TOP_LEFT <= e.quadrant <= BOTTOM_RIGHT {
        sent := OnQuad(PAGES[page + e.quadrant - TOP_LEFT], e);
      } else if e.button >= BTN_1 {
        sent := OnKey(e.button - BTN_1, e.value != 0, e.shifted);
      } else if e.value != 0 && e.quadrant == MAIN {
        if e.button == BTN_UP {
          page := page - 2;
          if page < 0 {
            page := 0;
          }
        } else if e.button == BTN_DOWN {
          page := page + 2;
          if page > QUADS - 4 {
            page := QUADS - 4;
          }
        }
      }
    }

    method OnQuad(h: Handler, e: Event) returns (sent: seq<Packet>)
      requires Valid(Current()) && h in PAGES && cc != note
      modifies this, cc
      ensures Result(Current(), sent) == old(Turn(Current(), h, e))
    {
      sent := [];
      if e.value == 0 {
        return;
      }
      match h
      case Bend =>
        if e.button == BTN_ENCODER {
          bend := Clamp(bend + e.value, -64, 63);
        } else if e.button == BTN_UP {
          bend := if e.shifted then 63 else bend + 1;
        } else if e.button == BTN_DOWN {
          bend := if e.shifted then -64 else bend - 1;
        } else {
          return;
        }
        sent := [Packet(0, 0, 0xE0 + channel, 0, (64 + bend) % 256)];
      case Channel =>
        if e.button == BTN_UP {
          channel := (channel + 1) % 16;
        } else if e.button == BTN_DOWN {
          channel := (channel - 1) % 16;
        }
      case Octave =>
        if e.button == BTN_UP {
          shift := Clamp(shift + 1, -3, 3);
        } else if e.button == BTN_DOWN {
          shift := Clamp(shift - 1, -3, 3);
        }
      case Velocity => velo := TurnVelocity(velo, e);
      case ReleaseVelocity => rvelo := TurnVelocity(rvelo, e);
      case Controller(n) =>
        var step := if e.button == BTN_ENCODER then e.value else if e.button == BTN_UP then 1 else -1;
        if e.button == BTN_ENCODER || e.button == BTN_UP || e.button == BTN_DOWN {
          cc[n] := Clamp(cc[n] + step, 0, 127);
          sent := [Packet(0, 0, 0xB0 + channel, n, cc[n])];
        }
    }
  }

  // ---- Balance of notes ----

  /** Note-ons minus note-offs of a pitch, on one channel or (`-1`) on any. */
  function Weight(m: Packet, channel: int, pitch: int): int {
    if m.b1 != pitch || (channel != -1 && m.b0 % 16 != channel) then 0
    else if m.b0 / 16 == 9 then 1
    else if m.b0 / 16 == 8 then -1
    else 0
  }

  function Balance(ms: seq<Packet>, channel: int, pitch: int): int {
    if ms == [] then 0 else Weight(ms[0], channel, pitch) + Balance(ms[1..], channel, pitch)
  }

  lemma {:induction false} BalanceAppend(a: seq<Packet>, b: seq<Packet>, channel: int, pitch: int)
    ensures Balance(a + b, channel, pitch) == Balance(a, channel, pitch) + Balance(b, channel, pitch)
  {
    if a == [] {
      assert a + b == b;
    } else {
      assert (a + b)[1..] == a[1..] + b;
      BalanceAppend(a[1..], b, channel, pitch);
    }
  }

  predicate Inputs(events: seq<Event>) {
    forall e :: e in events ==> IsInput(e)
  }

  function HandleAll(s: State, events: seq<Event>): Result
    requires Valid(s) && Inputs(events)
    decreases |events|
  {
    if events == [] then Result(s, [])
    else
      HandleKeepsValid(s, events[0]);
      var first := Handle(s, events[0]);
      var rest := HandleAll(first.state, events[1..]);
      Result(rest.state, first.sent + rest.sent)
  }

  /** How many keys hold a pitch. */
  function Holding(note: seq<int>, pitch: int): int {
    multiset(note)[pitch]
  }

  lemma HoldingUpdate(note: seq<int>, i: nat, n: int, pitch: int)
    requires i < |note|
    ensures Holding(note[i := n], pitch)
         == Holding(note, pitch) - (if note[i] == pitch then 1 else 0) + (if n == pitch then 1 else 0)
  {
  }

  lemma BalanceOne(m: Packet, n: Packet, channel: int, pitch: int)
    ensures Balance([], channel, pitch) == 0
    ensures Balance([m], channel, pitch) == Weight(m, channel, pitch)
    ensures Balance([m] + [n], channel, pitch) == Weight(m, channel, pitch) + Weight(n, channel, pitch)
  {
    assert [m][1..] == [] && ([m] + [n])[1..] == [n] && [n][1..] == [];
  }

  lemma TurnSendsNoNote(s: State, h: Handler, e: Event, channel: int, pitch: nat)
    requires Valid(s) && h in PAGES
    ensures Balance(Turn(s, h, e).sent, channel, pitch) == 0
  {
    var sent := Turn(s, h, e).sent;
    if sent != [] {
      BalanceOne(sent[0], sent[0], channel, pitch);
      assert sent == [sent[0]];
    }
  }

  predicate Selects(s: State, channel: int) {
    channel == -1 || channel == s.channel
  }

  function Key(s: State, i: int, down: bool, shifted: bool): Result
    requires Valid(s) && 0 <= i < KEYS
  {
    if down then Press(s, i) else Release(s, i, shifted)
  }

  predicate KeyTurnsOn(s: State, i: int, down: bool)
    requires Valid(s) && 0 <= i < KEYS
  {
    down && s.note[i] != i + 60 + 12 * s.shift
  }

  predicate KeyTurnsOff(s: State, i: int, down: bool, shifted: bool)
    requires Valid(s) && 0 <= i < KEYS
  {
    s.note[i] != -1 && if down then s.note[i] != i + 60 + 12 * s.shift else !shifted
  }

  lemma KeySends(s: State, i: int, down: bool, shifted: bool, channel: int, pitch: nat)
    requires Valid(s) && 0 <= i < KEYS
    ensures var n := i + 60 + 12 * s.shift;
      Balance(Key(s, i, down, shifted).sent, channel, pitch)
      == (if KeyTurnsOn(s, i, down) && n == pitch && Selects(s, channel) then 1 else 0)
       - (if KeyTurnsOff(s, i, down, shifted) && s.note[i] == pitch && Selects(s, channel) then 1 else 0)
  {
    hide Balance;
    KeyIsNote(s, i);
    var n := i + 60 + 12 * s.shift;
    var on := NoteOn(s.channel, n, s.velo);
    NothingSent(channel, pitch);
    if s.note[i] != -1 {
      BalanceOne(NoteOff(s.channel, s.note[i], 100), on, channel, pitch);
      BalanceOne(NoteOff(s.channel, s.note[i], s.velo), on, channel, pitch);
    } else {
      BalanceOne(on, on, channel, pitch);
      assert [] + [on] == [on];
    }
  }

  lemma KeyNotes(s: State, i: int, down: bool, shifted: bool)
    requires Valid(s) && 0 <= i < KEYS
    ensures Key(s, i, down, shifted).state.note
         == if KeyTurnsOn(s, i, down) then s.note[i := i + 60 + 12 * s.shift]
            else if KeyTurnsOff(s, i, down, shifted) then s.note[i := -1]
            else s.note
  {
  }

  lemma KeyBalance(s: State, i: int, down: bool, shifted: bool, pitch: nat)
    requires Valid(s) && 0 <= i < KEYS
    ensures Balance(Key(s, i, down, shifted).sent, -1, pitch)
         == Holding(Key(s, i, down, shifted).state.note, pitch) - Holding(s.note, pitch)
  {
    hide Balance, Holding, Key;
    KeySends(s, i, down, shifted, -1, pitch);
    KeyNotes(s, i, down, shifted);
    HoldingUpdate(s.note, i, i + 60 + 12 * s.shift, pitch);
    HoldingUpdate(s.note, i, -1, pitch);
  }

  /** Each event sends exactly the notes by which the tracked keys change. */
  lemma EventBalance(s: State, e: Event, pitch: nat)
    requires Valid(s) && IsInput(e)
    ensures Valid(Handle(s, e).state)
    ensures Balance(Handle(s, e).sent, -1, pitch) == Holding(Handle(s, e).state.note, pitch) - Holding(s.note, pitch)
  {
    hide Turn, Press, Release, Balance, Holding;
    HandleKeepsValid(s, e);
    if TOP_LEFT <= e.quadrant <= BOTTOM_RIGHT {
      var h := PAGES[s.page + e.quadrant - TOP_LEFT];
      TurnKeepsValid(s, h, e);
      TurnSendsNoNote(s, h, e, -1, pitch);
    } else if e.button >= BTN_1 {
      KeyBalance(s, e.button - BTN_1, e.value != 0, e.shifted, pitch);
    } else {
      NothingSent(-1, pitch);
    }
  }

  lemma NothingSent(channel: int, pitch: int)
    ensures Balance([], channel, pitch) == 0
  {
  }

  /** No hanging notes: over any run of events, for each pitch, the note-ons minus the note-offs
    * sent are the keys that hold it. */
  lemma {:induction false} NoHangingNotes(s: State, events: seq<Event>, pitch: nat)
    requires Valid(s) && Inputs(events)
    ensures var r := HandleAll(s, events);
      && Valid(r.state)
      && Balance(r.sent, -1, pitch) == Holding(r.state.note, pitch) - Holding(s.note, pitch)
    decreases |events|
  {
    hide Valid, Handle, Holding;
    if events == [] {
    } else {
      EventBalance(s, events[0], pitch);
      var first := Handle(s, events[0]);
      NoHangingNotes(first.state, events[1..], pitch);
      BalanceAppend(first.sent, HandleAll(first.state, events[1..]).sent, -1, pitch);
    }
  }

  /** With every key up, as many note-offs as note-ons have been sent for each pitch. */
  lemma AllKeysUp(events: seq<Event>, pitch: nat)
    requires Inputs(events)
    requires Valid(INITIAL) && HandleAll(INITIAL, events).state.note == INITIAL.note
    ensures Balance(HandleAll(INITIAL, events).sent, -1, pitch) == 0
  {
    NoHangingNotes(INITIAL, events, pitch);
  }

  // ---- Channels ----
  // A note-off goes out on the channel selected when the key is released. `on` records for each
  // key the channel on which its note was turned on.

  function Pressed(s: State, on: seq<int>, e: Event): (r: seq<int>)
    requires Valid(s) && IsInput(e) && |on| == KEYS
    ensures |r| == KEYS
  {
    if !(TOP_LEFT <= e.quadrant <= BOTTOM_RIGHT) && e.button >= BTN_1 && e.value != 0 && Handle(s, e).sent != []
    then on[e.button - BTN_1 := s.channel]
    else on
  }

  /** How many keys hold a pitch that they turned on on a channel. */
  function HoldingOn(note: seq<int>, on: seq<int>, channel: int, pitch: int): int
    requires |note| == |on|
  {
    if note == [] then 0
    else (if note[0] == pitch && on[0] == channel then 1 else 0) + HoldingOn(note[1..], on[1..], channel, pitch)
  }

  lemma {:induction false} HoldingOnUpdate(note: seq<int>, on: seq<int>, i: nat, n: int, c: int,
                                           channel: int, pitch: int)
    requires i < |note| == |on|
    ensures HoldingOn(note[i := n], on[i := c], channel, pitch)
         == HoldingOn(note, on, channel, pitch)
            - (if note[i] == pitch && on[i] == channel then 1 else 0) + (if n == pitch && c == channel then 1 else 0)
  {
    if i > 0 {
      HoldingOnUpdate(note[1..], on[1..], i - 1, n, c, channel, pitch);
      assert note[i := n][1..] == note[1..][i - 1 := n] && on[i := c][1..] == on[1..][i - 1 := c];
    } else {
      assert note[i := n][1..] == note[1..] && on[i := c][1..] == on[1..];
    }
  }

  predicate ChannelBalanced(s: State, on: seq<int>, e: Event, channel: int, pitch: int)
    requires Valid(s) && IsInput(e) && |on| == KEYS
  {
    HandleKeepsValid(s, e);
    var r := Handle(s, e);
    Balance(r.sent, channel, pitch)
    == HoldingOn(r.state.note, Pressed(s, on, e), channel, pitch) - HoldingOn(s.note, on, channel, pitch)
  }

  /** The event turns off a note that was turned on on another channel than the selected one. */
  predicate WrongChannel(s: State, on: seq<int>, e: Event)
    requires Valid(s) && IsInput(e) && |on| == KEYS
  {
    IsKey(e) && KeyTurnsOff(s, e.button - BTN_1, e.value != 0, e.shifted) && on[e.button - BTN_1] != s.channel
  }

  lemma KeyChannelBalance(s: State, on: seq<int>, e: Event, c: Nibble, pitch: nat)
    requires Valid(s) && IsInput(e) && |on| == KEYS && IsKey(e)
    ensures var i := e.button - BTN_1;
      ChannelBalanced(s, on, e, c, pitch)
      <==> (KeyTurnsOff(s, i, e.value != 0, e.shifted) && s.note[i] == pitch ==> (on[i] == c <==> s.channel == c))
  {
    hide Balance, HoldingOn, Press, Release;
    var (i, down) := (e.button - BTN_1, e.value != 0);
    var n := i + 60 + 12 * s.shift;
    HandleKeepsValid(s, e);
    KeySends(s, i, down, e.shifted, c, pitch);
    KeyNotes(s, i, down, e.shifted);
    SentIffOn(s, i, down);
    HoldingOnUpdate(s.note, on, i, n, s.channel, c, pitch);
    HoldingOnUpdate(s.note, on, i, -1, on[i], c, pitch);
    assert on[i := on[i]] == on;
  }

  lemma SentIffOn(s: State, i: int, down: bool)
    requires Valid(s) && 0 <= i < KEYS
    ensures down ==> (Press(s, i).sent != [] <==> KeyTurnsOn(s, i, down))
  {
  }

  lemma OtherChannelBalance(s: State, on: seq<int>, e: Event, c: Nibble, pitch: nat)
    requires Valid(s) && IsInput(e) && |on| == KEYS && !IsKey(e)
    ensures ChannelBalanced(s, on, e, c, pitch)
  {
    hide Balance, HoldingOn, Turn;
    NothingSent(c, pitch);
    if TOP_LEFT <= e.quadrant <= BOTTOM_RIGHT {
      var h := PAGES[s.page + e.quadrant - TOP_LEFT];
      TurnKeepsValid(s, h, e);
      TurnSendsNoNote(s, h, e, c, pitch);
    }
  }

  /** Per channel and pitch the notes sent by an event balance, except when the event turns off a
    * note that was turned on on another channel: then, and only then, a note is left hanging. */
  lemma ChannelBalance(s: State, on: seq<int>, e: Event)
    requires Valid(s) && IsInput(e) && |on| == KEYS
    ensures (forall c: Nibble, p: nat :: ChannelBalanced(s, on, e, c, p)) <==> !WrongChannel(s, on, e)
  {
    hide ChannelBalanced, KeyTurnsOff, Valid;
    forall c: Nibble, p: nat
      ensures !WrongChannel(s, on, e) ==> ChannelBalanced(s, on, e, c, p)
    {
      if IsKey(e) {
        KeyChannelBalance(s, on, e, c, p);
      } else {
        OtherChannelBalance(s, on, e, c, p);
      }
    }
    if WrongChannel(s, on, e) {
      var i := e.button - BTN_1;
      OffIsNote(s, i, e);
      KeyChannelBalance(s, on, e, s.channel, s.note[i]);
      assert !ChannelBalanced(s, on, e, s.channel, s.note[i]);
    }
  }

  /** The press channels after a run. */
  function PressedAll(s: State, on: seq<int>, events: seq<Event>): (r: seq<int>)
    requires Valid(s) && Inputs(events) && |on| == KEYS
    ensures |r| == KEYS
    decreases |events|
  {
    if events == [] then on
    else
      HandleKeepsValid(s, events[0]);
      PressedAll(Handle(s, events[0]).state, Pressed(s, on, events[0]), events[1..])
  }

  /** Some event of the run turns a note off on another channel than it was turned on on. */
  predicate WrongChannelIn(s: State, on: seq<int>, events: seq<Event>)
    requires Valid(s) && Inputs(events) && |on| == KEYS
    decreases |events|
  {
    && events != []
    && (|| WrongChannel(s, on, events[0])
        || (HandleKeepsValid(s, events[0]);
            WrongChannelIn(Handle(s, events[0]).state, Pressed(s, on, events[0]), events[1..])))
  }

  /** Over any run in which every note-off finds its channel selected, the notes sent on each
    * channel and pitch are those by which the keys holding them change. */
  lemma {:induction false} NoHangingOnChannel(s: State, on: seq<int>, events: seq<Event>, c: Nibble, pitch: nat)
    requires Valid(s) && Inputs(events) && |on| == KEYS && !WrongChannelIn(s, on, events)
    ensures var r := HandleAll(s, events);
      && |r.state.note| == KEYS
      && Balance(r.sent, c, pitch)
         == HoldingOn(r.state.note, PressedAll(s, on, events), c, pitch) - HoldingOn(s.note, on, c, pitch)
    decreases |events|
  {
    hide Handle, HoldingOn, WrongChannel, IsInput, Pressed;
    if events == [] {
      assert |s.note| == KEYS;
    } else {
      var e := events[0];
      HandleKeepsValid(s, e);
      var (first, on1) := (Handle(s, e), Pressed(s, on, e));
      ChannelBalance(s, on, e);
      assert ChannelBalanced(s, on, e, c, pitch);
      NoHangingOnChannel(first.state, on1, events[1..], c, pitch);
      BalanceAppend(first.sent, HandleAll(first.state, events[1..]).sent, c, pitch);
    }
  }

  predicate RunBalanced(s: State, on: seq<int>, events: seq<Event>, c: int, pitch: int)
    requires Valid(s) && Inputs(events) && |on| == KEYS
  {
    NotesAfter(s, events);
    var r := HandleAll(s, events);
    Balance(r.sent, c, pitch)
    == HoldingOn(r.state.note, PressedAll(s, on, events), c, pitch) - HoldingOn(s.note, on, c, pitch)
  }

  lemma {:induction false} NotesAfter(s: State, events: seq<Event>)
    requires Valid(s) && Inputs(events)
    ensures |HandleAll(s, events).state.note| == KEYS
    decreases |events|
  {
    hide Handle, IsInput;
    if events == [] {
      assert |s.note| == KEYS;
    } else {
      HandleKeepsValid(s, events[0]);
      NotesAfter(Handle(s, events[0]).state, events[1..]);
    }
  }

  lemma {:induction false} EarlierIsRight(s: State, on: seq<int>, events: seq<Event>, n: nat)
    requires Valid(s) && Inputs(events) && |on| == KEYS && n <= |events|
    requires !WrongChannelIn(s, on, events)
    ensures !WrongChannelIn(s, on, events[..n])
    decreases |events|
  {
    hide Handle, WrongChannel, Pressed, IsInput, Valid;
    if n == 0 {
    } else {
      HandleKeepsValid(s, events[0]);
      assert events[..n][1..] == events[1..][..n - 1];
      EarlierIsRight(Handle(s, events[0]).state, Pressed(s, on, events[0]), events[1..], n - 1);
    }
  }

  lemma OneEvent(s: State, on: seq<int>, e: Event, c: int, pitch: int)
    requires Valid(s) && IsInput(e) && |on| == KEYS
    ensures RunBalanced(s, on, [e], c, pitch) <==> ChannelBalanced(s, on, e, c, pitch)
  {
    hide Handle, HoldingOn, Balance, Pressed, Valid;
    HandleOne(s, e);
    HandleKeepsValid(s, e);
    var tail := [e][1..];
    assert tail == [];
    assert PressedAll(Handle(s, e).state, Pressed(s, on, e), tail) == Pressed(s, on, e);
  }

  lemma OneMore(s: State, on: seq<int>, e: Event, rest: seq<Event>, c: int, pitch: int)
    requires Valid(s) && IsInput(e) && Inputs(rest) && |on| == KEYS && ChannelBalanced(s, on, e, c, pitch)
    ensures Valid(Handle(s, e).state) && Inputs([e] + rest)
    ensures RunBalanced(s, on, [e] + rest, c, pitch)
       <==> RunBalanced(Handle(s, e).state, Pressed(s, on, e), rest, c, pitch)
  {
    hide Handle, HoldingOn, Balance, Pressed, Valid;
    HandleKeepsValid(s, e);
    assert ([e] + rest)[1..] == rest && ([e] + rest)[0] == e;
    var first := Handle(s, e);
    BalanceAppend(first.sent, HandleAll(first.state, rest).sent, c, pitch);
  }

  /** The first note-off on a wrong channel unbalances the run up to it. */
  lemma {:induction false} FirstWrong(s: State, on: seq<int>, events: seq<Event>)
    returns (n: nat, c: Nibble, pitch: nat)
    requires Valid(s) && Inputs(events) && |on| == KEYS && WrongChannelIn(s, on, events)
    ensures n <= |events| && !RunBalanced(s, on, events[..n], c, pitch)
    decreases |events|
  {
    hide Handle, WrongChannel, Pressed, IsInput, Valid, RunBalanced, ChannelBalanced;
    var e := events[0];
    HandleKeepsValid(s, e);
    ChannelBalance(s, on, e);
    if WrongChannel(s, on, e) {
      c, pitch :| !ChannelBalanced(s, on, e, c, pitch);
      OneEvent(s, on, e, c, pitch);
      n := 1;
      assert events[..1] == [e];
    } else {
      n, c, pitch := FirstWrong(Handle(s, e).state, Pressed(s, on, e), events[1..]);
      OneMore(s, on, e, events[1..][..n], c, pitch);
      assert events[..n + 1] == [e] + events[1..][..n];
      n := n + 1;
    }
  }

  /** Every beginning of a run balances on every channel and pitch if and only if no note-off of the
    * run goes out on another channel than its note-on. */
  lemma ChannelRuns(s: State, on: seq<int>, events: seq<Event>)
    requires Valid(s) && Inputs(events) && |on| == KEYS
    ensures (forall n: nat, c: Nibble, pitch: nat :: n <= |events| ==> RunBalanced(s, on, events[..n], c, pitch))
       <==> !WrongChannelIn(s, on, events)
  {
    hide Valid, IsInput, HoldingOn, Balance, WrongChannelIn;
    if WrongChannelIn(s, on, events) {
      var n, c, pitch := FirstWrong(s, on, events);
      assert !RunBalanced(s, on, events[..n], c, pitch);
    } else {
      forall n: nat, c: Nibble, pitch: nat | n <= |events|
        ensures RunBalanced(s, on, events[..n], c, pitch)
      {
        EarlierIsRight(s, on, events, n);
        NoHangingOnChannel(s, on, events[..n], c, pitch);
      }
    }
  }

  lemma OffIsNote(s: State, i: int, e: Event)
    requires Valid(s) && 0 <= i < KEYS && KeyTurnsOff(s, i, e.value != 0, e.shifted)
    ensures |s.note| == KEYS && s.note[i] >= 0 && 0 <= s.channel < 16
  {
  }

  /** Pressing a key, selecting the next channel and releasing the key leaves the note on. */
  lemma ChannelChangeHangs()
    ensures Valid(INITIAL)
    ensures var press := Event(5, false, 1, BTN_1);
      var next := Event(2, false, 1, BTN_UP);
      var release := Event(5, false, 0, BTN_1);
      var r := HandleAll(INITIAL, [press, next, release]);
      r.state.note == INITIAL.note && Balance(r.sent, 0, 60) == 1 && Balance(r.sent, 1, 60) == -1
  {
    hide Handle, Balance;
    var press, next, release := Event(5, false, 1, BTN_1), Event(2, false, 1, BTN_UP), Event(5, false, 0, BTN_1);
    var s1 := INITIAL.(note := INITIAL.note[0 := 60]);
    var s2 := s1.(channel := 1);
    PressFirst(s1);
    NextChannel(s1, s2);
    ReleaseFirst(s2);
    HandleOne(s2, release);
    assert [press, next, release][1..] == [next, release] && [next, release][1..] == [release];
    assert HandleAll(s1, [next, release]) == HandleAll(s2, [release]);
    var sent := HandleAll(INITIAL, [press, next, release]).sent;
    assert sent == [NoteOn(0, 60, 100)] + [NoteOff(1, 60, 100)];
    BalanceOne(NoteOn(0, 60, 100), NoteOff(1, 60, 100), 0, 60);
    BalanceOne(NoteOn(0, 60, 100), NoteOff(1, 60, 100), 1, 60);
  }

  lemma HandleOne(s: State, e: Event)
    requires Valid(s) && IsInput(e)
    ensures HandleAll(s, [e]) == Handle(s, e)
  {
    hide Handle, Valid;
    HandleKeepsValid(s, e);
    assert [e][1..] == [];
    var r := Handle(s, e);
    assert r.sent + [] == r.sent;
  }

  lemma PressFirst(s1: State)
    requires s1 == INITIAL.(note := INITIAL.note[0 := 60])
    ensures Valid(INITIAL) && Handle(INITIAL, Event(5, false, 1, BTN_1)) == Result(s1, [NoteOn(0, 60, 100)])
  {
  }

  lemma NextChannel(s1: State, s2: State)
    requires s1 == INITIAL.(note := INITIAL.note[0 := 60]) && s2 == s1.(channel := 1)
    ensures Valid(s1) && Handle(s1, Event(2, false, 1, BTN_UP)) == Result(s2, [])
  {
  }

  lemma ReleaseFirst(s2: State)
    requires s2 == INITIAL.(note := INITIAL.note[0 := 60], channel := 1)
    ensures Valid(s2) && Handle(s2, Event(5, false, 0, BTN_1)) == Result(INITIAL.(channel := 1), [NoteOff(1, 60, 100)])
  {
    assert s2.note[0 := -1] == INITIAL.note;
  }

  // ---- Knobs ----

  /** A step up of the knob would leave its range. */
  predicate AtTop(s: State, h: Handler)
    requires Valid(s) && h in PAGES
  {
    (h.Octave? && s.shift == 3) || (h.Controller? && s.cc[h.n] == 127)
  }

  /** A step up of any knob and a step down undo each other, except exactly where the step up was
    * cut off at the end of the range. */
  lemma StepUndone(s: State, h: Handler, up: Event, down: Event)
    requires Valid(s) && h in PAGES && !up.shifted && !down.shifted
    requires up.value != 0 && up.button == BTN_UP && down.value != 0 && down.button == BTN_DOWN
    ensures Valid(Turn(s, h, up).state)
    ensures Turn(Turn(s, h, up).state, h, down).state == s <==> !AtTop(s, h)
    ensures Turn(s, h, up).state != s <==> !AtTop(s, h)
  {
    TurnKeepsValid(s, h, up);
    hide Valid;
    if h.Controller? {
      ControllerTurns(s, h.n, up, down);
      ControllerUndone(s, h.n);
    } else {
      KnobUndone(s, h, up, down);
    }
  }

  lemma KnobUndone(s: State, h: Handler, up: Event, down: Event)
    requires Valid(s) && h in PAGES && !h.Controller? && !up.shifted && !down.shifted
    requires up.value != 0 && up.button == BTN_UP && down.value != 0 && down.button == BTN_DOWN
    requires Valid(Turn(s, h, up).state)
    ensures Turn(Turn(s, h, up).state, h, down).state == s <==> !AtTop(s, h)
    ensures Turn(s, h, up).state != s <==> !AtTop(s, h)
  {
  }

  lemma ControllerTurns(s: State, n: int, up: Event, down: Event)
    requires Valid(s) && Controller(n) in PAGES
    requires up.value != 0 && up.button == BTN_UP && down.value != 0 && down.button == BTN_DOWN
    ensures 0 <= n < 128 && |s.cc| == 128
    ensures Turn(s, Controller(n), up) == SendController(s, n, 1)
    ensures forall t: State :: Valid(t) ==> Turn(t, Controller(n), down) == SendController(t, n, -1)
  {
    hide SendController;
  }

  lemma ControllerUndone(s: State, n: int)
    requires Valid(s) && 0 <= n < 128
    ensures var t := SendController(s, n, 1).state;
      && Valid(t)
      && (SendController(t, n, -1).state == s <==> s.cc[n] < 127)
      && (t != s <==> s.cc[n] < 127)
  {
    var t := SendController(s, n, 1).state;
    var u := SendController(t, n, -1).state;
    assert s.cc[n] < 127 ==> u.cc[n] == s.cc[n];
    assert u.cc == s.cc[n := u.cc[n]];
    assert s.cc[n] < 127 ==> u.cc == s.cc;
  }

  // ---- The bend ----

  predicate InRange(bend: int) {
    -64 <= bend <= 63
  }

  /** An unshifted button step of the bend at an end of its range, where the encoder would stop. */
  predicate StepsOut(s: State, e: Event)
    requires Valid(s)
  {
    && TOP_LEFT <= e.quadrant <= BOTTOM_RIGHT && PAGES[s.page + e.quadrant - TOP_LEFT] == Bend
    && e.value != 0 && !e.shifted
    && ((e.button == BTN_UP && s.bend == 63) || (e.button == BTN_DOWN && s.bend == -64))
  }

  predicate StepsOutIn(s: State, events: seq<Event>)
    requires Valid(s) && Inputs(events)
    decreases |events|
  {
    && events != []
    && (|| StepsOut(s, events[0])
        || (HandleKeepsValid(s, events[0]); StepsOutIn(Handle(s, events[0]).state, events[1..])))
  }

  /** Every pitch bend message carries a data byte. */
  predicate BendsFit(sent: seq<Packet>) {
    forall m :: m in sent && m.b0 / 16 == 0xE ==> m.b2 < 128
  }

  lemma TurnBend(s: State, h: Handler, e: Event)
    requires Valid(s) && h in PAGES && InRange(s.bend)
    ensures var out := h == Bend && e.value != 0 && !e.shifted
              && ((e.button == BTN_UP && s.bend == 63) || (e.button == BTN_DOWN && s.bend == -64));
      && (BendsFit(Turn(s, h, e).sent) <==> !out)
      && (!out ==> InRange(Turn(s, h, e).state.bend))
  {
    var sent := Turn(s, h, e).sent;
    assert |sent| <= 1;
    if sent != [] {
      assert sent[0] in sent && sent == [sent[0]];
    }
  }

  lemma KeyBend(s: State, i: int, down: bool, shifted: bool)
    requires Valid(s) && 0 <= i < KEYS
    ensures BendsFit(Key(s, i, down, shifted).sent) && Key(s, i, down, shifted).state.bend == s.bend
  {
    KeyIsNote(s, i);
  }

  lemma EventBend(s: State, e: Event)
    requires Valid(s) && IsInput(e) && InRange(s.bend)
    ensures BendsFit(Handle(s, e).sent) <==> !StepsOut(s, e)
    ensures !StepsOut(s, e) ==> InRange(Handle(s, e).state.bend)
  {
    hide Turn, Press, Release, BendsFit;
    if TOP_LEFT <= e.quadrant <= BOTTOM_RIGHT {
      TurnBend(s, PAGES[s.page + e.quadrant - TOP_LEFT], e);
    } else if e.button >= BTN_1 {
      KeyBend(s, e.button - BTN_1, e.value != 0, e.shifted);
    } else {
      NoBends();
    }
  }

  lemma NoBends()
    ensures BendsFit([])
  {
  }

  lemma BendsAppend(a: seq<Packet>, b: seq<Packet>)
    ensures BendsFit(a + b) <==> BendsFit(a) && BendsFit(b)
  {
    assert forall m :: m in a + b <==> m in a || m in b;
  }

  /** From a bend in range, every pitch bend message of a run carries a data byte if and only if no
    * button step is made at an end of the range. */
  lemma {:induction false} BendBytes(s: State, events: seq<Event>)
    requires Valid(s) && Inputs(events) && InRange(s.bend)
    ensures BendsFit(HandleAll(s, events).sent) <==> !StepsOutIn(s, events)
    decreases |events|
  {
    hide Handle, StepsOut, BendsFit, IsInput;
    if events == [] {
      NoBends();
    } else {
      HandleKeepsValid(s, events[0]);
      EventBend(s, events[0]);
      var first := Handle(s, events[0]);
      BendsAppend(first.sent, HandleAll(first.state, events[1..]).sent);
      if !StepsOut(s, events[0]) {
        BendBytes(first.state, events[1..]);
      }
    }
  }

  /** For instance, a jump to the top of the bend and one more step leave the range. */
  lemma BendLeavesRange()
    ensures Valid(INITIAL) && StepsOutIn(INITIAL, [Event(1, true, 1, BTN_UP), Event(1, false, 1, BTN_UP)])
  {
    var top := INITIAL.(bend := 63);
    assert Handle(INITIAL, Event(1, true, 1, BTN_UP)).state == top && StepsOut(top, Event(1, false, 1, BTN_UP));
    assert [Event(1, true, 1, BTN_UP), Event(1, false, 1, BTN_UP)][1..] == [Event(1, false, 1, BTN_UP)];
  }

  // ---- What the knobs hold ----

  /** The number of the knob an event turns, in the order of the pages, or -1. */
  function KnobOf(s: State, e: Event): int {
    if 1 <= e.quadrant <= 4 then s.page + e.quadrant - 1 else -1
  }

  /** Bend, channel, octave, velocity, release velocity and seven controllers. */
  function Held(s: State, k: int): int
    requires |s.cc| == 128 && 0 <= k < 12
  {
    if k == 0 then s.bend else if k == 1 then s.channel else if k == 2 then s.shift
    else if k == 3 then s.velo else if k == 4 then s.rvelo else s.cc[k - 5]
  }

  /** By how much an event asks a knob to move: the encoder by its increment, the buttons by one.
    * Channel and octave have no encoder. */
  function Asked(s: State, e: Event, k: int): int {
    if KnobOf(s, e) != k || e.value == 0 then 0
    else if e.button == 3 && k != 1 && k != 2 then e.value
    else if e.button == 1 then 1
    else if e.button == 2 then -1
    else 0
  }

  /** The knob can go there: the range of its encoder, or of its buttons. A shifted button jumps the
    * bend to an end of its range, and an unshifted one moves it freely. */
  predicate Allowed(e: Event, k: int, target: int) {
    if k == 0 && e.button == 3 then -64 <= target <= 63
    else if k == 0 then e.shifted ==> target == if e.button == 1 then 63 else -64
    else if k == 1 then 0 <= target <= 15
    else if k == 2 then -3 <= target <= 3
    else if k <= 4 && e.button == 3 then 1 <= target <= 127
    else 0 <= target <= 127
  }

  /** The event moves the knob by what it asks. */
  predicate MovesAsAsked(s: State, e: Event, k: int)
    requires Valid(s) && IsInput(e) && 0 <= k < 12
  {
    HandleKeepsValid(s, e);
    Held(Handle(s, e).state, k) == Held(s, k) + Asked(s, e, k)
  }

  predicate AskedInside(s: State, e: Event, k: int)
    requires Valid(s) && 0 <= k < 12
  {
    Asked(s, e, k) == 0 || Allowed(e, k, Held(s, k) + Asked(s, e, k))
  }

  /** An event moves each knob by what it asks exactly when the knob can go there; a knob it does not
    * turn stays where it is. */
  lemma KnobMoves(s: State, e: Event, k: int)
    requires Valid(s) && IsInput(e) && 0 <= k < 12
    ensures MovesAsAsked(s, e, k) <==> AskedInside(s, e, k)
    ensures KnobOf(s, e) != k ==> MovesAsAsked(s, e, k) && Asked(s, e, k) == 0
  {
    hide Turn, Press, Release;
    HandleKeepsValid(s, e);
    if KnobOf(s, e) >= 0 {
      TurnMoves(s, e, k);
    } else if e.button >= BTN_1 {
      KeyLeavesKnobs(s, e.button - BTN_1, e.value != 0, e.shifted);
    }
  }

  lemma TurnMoves(s: State, e: Event, k: int)
    requires Valid(s) && 0 <= k < 12 && KnobOf(s, e) >= 0
    ensures var t := Turn(s, PAGES[s.page + e.quadrant - TOP_LEFT], e).state;
      |t.cc| == 128 && (Held(t, k) == Held(s, k) + Asked(s, e, k) <==> AskedInside(s, e, k))
  {
    hide Turn, Held, Asked, AskedInside;
    var n := s.page + e.quadrant - TOP_LEFT;
    if n >= 5 {
      ControllerMoves(s, n - 5, e, k);
    } else if n == 0 {
      BendMoves(s, e, k);
    } else if n < 3 {
      SelectorMoves(s, n, e, k);
    } else {
      VelocityMoves(s, n, e, k);
    }
  }

  lemma BendMoves(s: State, e: Event, k: int)
    requires Valid(s) && 0 <= k < 12 && KnobOf(s, e) == 0
    ensures var t := Turn(s, Bend, e).state;
      |t.cc| == 128 && (Held(t, k) == Held(s, k) + Asked(s, e, k) <==> AskedInside(s, e, k))
  {
  }

  lemma SelectorMoves(s: State, n: int, e: Event, k: int)
    requires Valid(s) && 0 <= k < 12 && 1 <= n < 3 && KnobOf(s, e) == n
    ensures var t := Turn(s, PAGES[n], e).state;
      |t.cc| == 128 && (Held(t, k) == Held(s, k) + Asked(s, e, k) <==> AskedInside(s, e, k))
  {
    assert PAGES[1] == Channel && PAGES[2] == Octave;
  }

  lemma VelocityMoves(s: State, n: int, e: Event, k: int)
    requires Valid(s) && 0 <= k < 12 && 3 <= n < 5 && KnobOf(s, e) == n
    ensures var t := Turn(s, PAGES[n], e).state;
      |t.cc| == 128 && (Held(t, k) == Held(s, k) + Asked(s, e, k) <==> AskedInside(s, e, k))
  {
    hide TurnVelocity;
    assert PAGES[3] == Velocity && PAGES[4] == ReleaseVelocity;
    VelocityStep(s.velo, e);
    VelocityStep(s.rvelo, e);
  }

  lemma VelocityStep(v: int, e: Event)
    requires 0 <= v < 128
    ensures e.button == 3 ==> (TurnVelocity(v, e) == v + e.value <==> 1 <= v + e.value <= 127)
    ensures e.button == 1 ==> (TurnVelocity(v, e) == v + 1 <==> v + 1 <= 127)
    ensures e.button == 2 ==> (TurnVelocity(v, e) == v - 1 <==> 0 <= v - 1)
    ensures !(1 <= e.button <= 3) ==> TurnVelocity(v, e) == v
  {
  }

  lemma ControllerMoves(s: State, n: int, e: Event, k: int)
    requires Valid(s) && 0 <= k < 12 && 0 <= n < 7 && KnobOf(s, e) == n + 5
    ensures var t := Turn(s, Controller(n), e).state;
      |t.cc| == 128 && (Held(t, k) == Held(s, k) + Asked(s, e, k) <==> AskedInside(s, e, k))
  {
  }

  lemma KeyLeavesKnobs(s: State, i: int, down: bool, shifted: bool)
    requires Valid(s) && 0 <= i < KEYS
    ensures Key(s, i, down, shifted).state.(note := s.note) == s
  {
  }

  function Distance(x: int, y: int): int {
    if x < y then y - x else x - y
  }

  /** An encoder takes its knob to the value of its range that is nearest to what it asks. */
  lemma EncoderGoesNearest(s: State, e: Event, k: int, x: int)
    requires Valid(s) && IsInput(e) && 0 <= k < 12 && k != 1 && k != 2
    requires KnobOf(s, e) == k && e.button == 3 && e.value != 0 && Allowed(e, k, x)
    ensures Valid(Handle(s, e).state)
    ensures var (target, after) := (Held(s, k) + e.value, Held(Handle(s, e).state, k));
      Allowed(e, k, after) && Distance(after, target) <= Distance(x, target)
  {
    hide IsInput, Valid;
    HandleKeepsValid(s, e);
    assert |s.cc| == 128 && 0 <= s.page <= 8 by { LengthsOf(s); }
    if k >= 5 {
      var n := k - 5;
      assert PAGES[k] == Controller(n);
    } else {
      assert PAGES[0] == Bend && PAGES[3] == Velocity && PAGES[4] == ReleaseVelocity;
    }
  }

  lemma LengthsOf(s: State)
    requires Valid(s)
    ensures |s.cc| == 128 && 0 <= s.page <= 8 && |s.note| == 16
  {
  }

  /** What a run asks of a knob. */
  function Turned(s: State, events: seq<Event>, k: int): int
    requires Valid(s) && Inputs(events)
    decreases |events|
  {
    if events == [] then 0
    else
      HandleKeepsValid(s, events[0]);
      Asked(s, events[0], k) + Turned(Handle(s, events[0]).state, events[1..], k)
  }

  predicate AllAskedInside(s: State, events: seq<Event>, k: int)
    requires Valid(s) && Inputs(events) && 0 <= k < 12
    decreases |events|
  {
    || events == []
    || (&& AskedInside(s, events[0], k)
        && (HandleKeepsValid(s, events[0]); AllAskedInside(Handle(s, events[0]).state, events[1..], k)))
  }

  function HeldAfter(s: State, events: seq<Event>, k: int): int
    requires Valid(s) && Inputs(events) && 0 <= k < 12
  {
    RunKeepsValid(s, events);
    Held(HandleAll(s, events).state, k)
  }

  lemma {:induction false} RunKeepsValid(s: State, events: seq<Event>)
    requires Valid(s) && Inputs(events)
    ensures Valid(HandleAll(s, events).state)
    ensures |HandleAll(s, events).state.cc| == 128
    decreases |events|
  {
    hide Handle, Valid, IsInput;
    if events == [] {
      LengthsOf(s);
    } else {
      HandleKeepsValid(s, events[0]);
      RunKeepsValid(Handle(s, events[0]).state, events[1..]);
    }
  }

  /** After the first `n` events the knob has moved by what they asked. */
  predicate MovedAsAsked(s: State, events: seq<Event>, k: int, n: nat)
    requires Valid(s) && Inputs(events) && 0 <= k < 12 && n <= |events|
  {
    HeldAfter(s, events[..n], k) == Held(s, k) + Turned(s, events[..n], k)
  }

  lemma AfterFirst(s: State, events: seq<Event>, k: int, n: nat)
    requires Valid(s) && Inputs(events) && 0 <= k < 12 && n < |events| && MovesAsAsked(s, events[0], k)
    ensures Valid(Handle(s, events[0]).state)
    ensures MovedAsAsked(s, events, k, n + 1) <==> MovedAsAsked(Handle(s, events[0]).state, events[1..], k, n)
  {
    hide Handle, Valid, IsInput, Asked, Held;
    HandleKeepsValid(s, events[0]);
    assert events[..n + 1][0] == events[0] && events[..n + 1][1..] == events[1..][..n];
  }

  lemma FirstMove(s: State, events: seq<Event>, k: int)
    requires Valid(s) && Inputs(events) && 0 <= k < 12 && events != []
    ensures MovedAsAsked(s, events, k, 1) <==> MovesAsAsked(s, events[0], k)
  {
    hide Handle, Valid, IsInput, Asked, Held;
    HandleOne(s, events[0]);
    HandleKeepsValid(s, events[0]);
    var one := events[..1];
    assert one == [events[0]] && one[1..] == [];
    assert Turned(s, one, k) == Asked(s, events[0], k);
  }

  /** A run moves a knob by exactly what it asks, at each of its events, if and only if the knob can
    * go everywhere the run asks it to go. */
  lemma {:induction false} KnobRuns(s: State, events: seq<Event>, k: int)
    requires Valid(s) && Inputs(events) && 0 <= k < 12
    ensures AllAskedInside(s, events, k)
       <==> forall n: nat | n <= |events| :: MovedAsAsked(s, events, k, n)
    decreases |events|
  {
    hide Handle, Valid, IsInput, Asked, AskedInside, Held, MovedAsAsked, MovesAsAsked;
    NotMoved(s, events, k);
    if events == [] {
    } else {
      var s1 := Handle(s, events[0]).state;
      HandleKeepsValid(s, events[0]);
      LengthsOf(s);
      KnobMoves(s, events[0], k);
      FirstMove(s, events, k);
      KnobRuns(s1, events[1..], k);
      if AskedInside(s, events[0], k) {
        forall n: nat | n < |events|
          ensures MovedAsAsked(s, events, k, n + 1) <==> MovedAsAsked(s1, events[1..], k, n)
        {
          AfterFirst(s, events, k, n);
        }
        if forall n: nat | n <= |events| :: MovedAsAsked(s, events, k, n) {
          forall n: nat | n <= |events[1..]|
            ensures MovedAsAsked(s1, events[1..], k, n)
          {
            assert MovedAsAsked(s, events, k, n + 1);
          }
        } else {
          var n: nat :| n <= |events| && !MovedAsAsked(s, events, k, n);
          assert !MovedAsAsked(s1, events[1..], k, n - 1);
        }
      }
    }
  }

  lemma NotMoved(s: State, events: seq<Event>, k: int)
    requires Valid(s) && Inputs(events) && 0 <= k < 12
    ensures MovedAsAsked(s, events, k, 0)
  {
    assert events[..0] == [];
  }

  // ---- What the messages carry ----

  /** Everything goes out on port 0 and on the selected channel. A note-on names the key, moved by
    * twelve for each octave, and the velocity set; a note-off names the note held, and carries 100
    * when another note takes its place and the velocity set, not the release velocity, otherwise. */
  lemma MessagesCarry(s: State, e: Event, m: Packet)
    requires Valid(s) && IsInput(e) && m in Handle(s, e).sent
    ensures m.port == 0 && m.cin == 0 && m.b0 % 16 == s.channel
    ensures m.b0 / 16 == 9 ==> IsKey(e) && m.b1 == e.button - 8 + 60 + 12 * s.shift && m.b2 == s.velo
    ensures m.b0 / 16 == 8 ==>
      IsKey(e) && m.b1 == s.note[e.button - 8] && m.b2 == if e.value != 0 then 100 else s.velo
  {
    hide Turn, Press, Release;
    if KnobOf(s, e) >= 0 {
      TurnCarries(s, PAGES[s.page + e.quadrant - TOP_LEFT], e, m);
    } else if e.button >= BTN_1 {
      KeyCarries(s, e.button - BTN_1, e.value != 0, e.shifted, m);
    }
  }

  lemma TurnCarries(s: State, h: Handler, e: Event, m: Packet)
    requires Valid(s) && h in PAGES && m in Turn(s, h, e).sent
    ensures m.port == 0 && m.cin == 0 && m.b0 % 16 == s.channel && m.b0 / 16 >= 10
  {
  }

  lemma KeyCarries(s: State, i: int, down: bool, shifted: bool, m: Packet)
    requires Valid(s) && 0 <= i < KEYS && m in Key(s, i, down, shifted).sent
    ensures m.port == 0 && m.cin == 0 && m.b0 % 16 == s.channel && 8 <= m.b0 / 16 <= 9
    ensures m.b0 / 16 == 9 ==> m.b1 == i + 60 + 12 * s.shift && m.b2 == s.velo
    ensures m.b0 / 16 == 8 ==> m.b1 == s.note[i] && m.b2 == if down then 100 else s.velo
  {
    KeyIsNote(s, i);
  }

  /** After a run that keeps the channel, octave and velocity knobs inside their ranges, a note-on
    * carries where each of them started plus everything that the run asked of it. */
  lemma NoteAfterRun(s: State, events: seq<Event>, e: Event, m: Packet)
    requires Valid(s) && Inputs(events) && IsInput(e)
    requires AllAskedInside(s, events, 1) && AllAskedInside(s, events, 2) && AllAskedInside(s, events, 3)
    requires Valid(HandleAll(s, events).state)
    requires m in Handle(HandleAll(s, events).state, e).sent && m.b0 / 16 == 9
    ensures m.b0 % 16 == s.channel + Turned(s, events, 1)
    ensures m.b1 == e.button - 8 + 60 + 12 * (s.shift + Turned(s, events, 2))
    ensures m.b2 == s.velo + Turned(s, events, 3)
  {
    hide Handle, AllAskedInside, Turned, HandleAll, Valid;
    MessagesCarry(HandleAll(s, events).state, e, m);
    WholeRun(s, events, 1);
    WholeRun(s, events, 2);
    WholeRun(s, events, 3);
  }

  lemma WholeRun(s: State, events: seq<Event>, k: int)
    requires Valid(s) && Inputs(events) && 0 <= k < 12 && AllAskedInside(s, events, k)
    ensures HeldAfter(s, events, k) == Held(s, k) + Turned(s, events, k)
  {
    hide AllAskedInside, Turned, HeldAfter, Held, Valid, IsInput;
    KnobRuns(s, events, k);
    assert MovedAsAsked(s, events, k, |events|);
    assert events[..|events|] == events;
  }

  /** The value a listener holds after some messages: that of the last one with a status and number. */
  function Heard(ms: seq<Packet>, status: int, number: int, v: int): int {
    if ms == [] then v
    else Heard(ms[1..], status, number, if ms[0].b0 / 16 == status && ms[0].b1 == number then ms[0].b2 else v)
  }

  lemma {:induction false} HeardAppend(a: seq<Packet>, b: seq<Packet>, status: int, number: int, v: int)
    ensures Heard(a + b, status, number, v) == Heard(b, status, number, Heard(a, status, number, v))
  {
    if a == [] {
      assert a + b == b;
    } else {
      assert (a + b)[1..] == a[1..] + b && (a + b)[0] == a[0];
      HeardAppend(a[1..], b, status, number,
                  if a[0].b0 / 16 == status && a[0].b1 == number then a[0].b2 else v);
    }
  }

  lemma HeardOne(m: Packet, status: int, number: int, v: int)
    ensures Heard([], status, number, v) == v
    ensures Heard([m], status, number, v) == if m.b0 / 16 == status && m.b1 == number then m.b2 else v
  {
    assert [m][1..] == [];
  }

  /** The value a listener should hold: of controller `n`, or of the bend. */
  function Shown(s: State, status: int, n: int): int
    requires |s.cc| == 128 && 0 <= n < 128
  {
    if status == 0xB then s.cc[n] else (64 + s.bend) % 256
  }

  predicate IsShown(status: int, n: int) {
    (status == 0xB && 0 <= n < 128) || (status == 0xE && n == 0)
  }

  lemma TurnIsHeard(s: State, h: Handler, e: Event, status: int, n: int)
    requires Valid(s) && h in PAGES && IsShown(status, n)
    ensures var r := Turn(s, h, e);
      |r.state.cc| == 128 && Heard(r.sent, status, n, Shown(s, status, n)) == Shown(r.state, status, n)
  {
    hide Heard;
    var sent := Turn(s, h, e).sent;
    var v := Shown(s, status, n);
    HeardOne(Packet(0, 0, 0, 0, 0), status, n, v);
    if sent != [] {
      HeardOne(sent[0], status, n, v);
      assert sent == [sent[0]];
    }
  }

  lemma {:induction false} NotHeard(ms: seq<Packet>, status: int, n: int, v: int)
    requires forall m :: m in ms ==> m.b0 / 16 <= 9
    requires status > 9
    ensures Heard(ms, status, n, v) == v
  {
    if ms == [] {
    } else {
      assert ms[0] in ms;
      NotHeard(ms[1..], status, n, v);
    }
  }

  lemma EventIsHeard(s: State, e: Event, status: int, n: int)
    requires Valid(s) && IsInput(e) && IsShown(status, n)
    ensures Valid(Handle(s, e).state)
    ensures var r := Handle(s, e);
      |r.state.cc| == 128 && Heard(r.sent, status, n, Shown(s, status, n)) == Shown(r.state, status, n)
  {
    hide Turn, Press, Release, Heard;
    HandleKeepsValid(s, e);
    var v := Shown(s, status, n);
    if KnobOf(s, e) >= 0 {
      TurnIsHeard(s, PAGES[s.page + e.quadrant - TOP_LEFT], e, status, n);
    } else {
      var sent := Handle(s, e).sent;
      forall m | m in sent
        ensures m.b0 / 16 <= 9
      {
        KeyCarries(s, e.button - BTN_1, e.value != 0, e.shifted, m);
      }
      if e.button >= BTN_1 {
        KeyLeavesKnobs(s, e.button - BTN_1, e.value != 0, e.shifted);
      }
      NotHeard(sent, status, n, v);
    }
  }

  /** Whoever listens to the messages knows the knobs: after any run, the last message of each
    * controller and of the bend carries the value the knob then has. */
  lemma {:induction false} ListenerAgrees(s: State, events: seq<Event>, status: int, n: int)
    requires Valid(s) && Inputs(events) && IsShown(status, n)
    ensures var r := HandleAll(s, events);
      |r.state.cc| == 128 && Heard(r.sent, status, n, Shown(s, status, n)) == Shown(r.state, status, n)
    decreases |events|
  {
    hide Handle, Valid, IsInput, Shown;
    if events == [] {
      LengthsOf(s);
    } else {
      EventIsHeard(s, events[0], status, n);
      var first := Handle(s, events[0]);
      LengthsOf(s);
      ListenerAgrees(first.state, events[1..], status, n);
      HeardAppend(first.sent, HandleAll(first.state, events[1..]).sent, status, n, Shown(s, status, n));
    }
  }

  // ---- Pages ----

  function Times(n: nat, e: Event): (r: seq<Event>)
    ensures |r| == n && forall x :: x in r ==> x == e
  {
    seq(n, _ => e)
  }

  function PageAfter(page: int, n: nat, up: bool): int {
    if up then (if page < 2 * n then 0 else page - 2 * n)
    else if page + 2 * n > 8 then 8 else page + 2 * n
  }

  lemma PageStep(s: State, e: Event)
    requires Valid(s) && e.quadrant == 0 && e.value != 0 && 1 <= e.button <= 2
    ensures Handle(s, e) == Result(s.(page := PageAfter(s.page, 1, e.button == 1)), [])
  {
    hide Turn, Press, Release;
  }

  /** Some steps up or down move the page by two each, and stop at its ends. */
  lemma {:induction false} PageSteps(s: State, e: Event, n: nat)
    requires Valid(s) && e.quadrant == 0 && e.value != 0 && 1 <= e.button <= 2
    ensures HandleAll(s, Times(n, e)) == Result(s.(page := PageAfter(s.page, n, e.button == 1)), [])
    decreases n
  {
    if n == 0 {
      LengthsOf(s);
    } else {
      PageStep(s, e);
      HandleKeepsValid(s, e);
      PageSteps(Handle(s, e).state, e, n - 1);
      assert Times(n, e)[1..] == Times(n - 1, e);
    }
  }

  /** From any state, four steps up and then some steps down bring any knob under a quadrant. */
  lemma EveryKnob(s: State, k: int)
    returns (n: nat, quadrant: Byte)
    requires Valid(s) && 0 <= k < 12
    ensures var (up, down) := (Event(0, false, 1, 1), Event(0, false, 1, 2));
      && n <= 4 && 1 <= quadrant <= 4 && Valid(HandleAll(s, Times(4, up)).state)
      && KnobOf(HandleAll(HandleAll(s, Times(4, up)).state, Times(n, down)).state, Event(quadrant, false, 1, 1)) == k
  {
    hide HandleAll, Handle;
    n := if k < 4 then 0 else k / 2 - 1;
    quadrant := k - 2 * n + 1;
    var up, down := Event(0, false, 1, 1), Event(0, false, 1, 2);
    PageSteps(s, up, 4);
    var top := s.(page := 0);
    PageSteps(top, down, n);
  }
}
