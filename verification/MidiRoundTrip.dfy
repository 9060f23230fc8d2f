/** Packets sent byte by byte over a serial line, and decoded at the other end. */
module MidiRoundTrip {

  import opened MachineTypes
  import opened MidiDecoder
  import opened MidiPacket

  predicate IsData(b: Byte) { b < 0x80 }

  predicate ChannelVoice(p: Packet) {
    && 8 <= p.cin <= 0xE && p.b0 / 16 == p.cin && IsData(p.b1)
    && (if CinLength(p.cin) == 2 then p.b2 == 0 else IsData(p.b2))
  }

  predicate Single(p: Packet) {
    p.cin == 0xF && SingleByte(p.b0) && p.b1 == 0 && p.b2 == 0
  }

  /** System common messages and the reset byte: standard packets that the decoder does not
    * give back as they were. */
  predicate SystemCommon(p: Packet) {
    || (p.cin == 2 && (p.b0 == 0xF1 || p.b0 == 0xF3) && IsData(p.b1) && p.b2 == 0)
    || (p.cin == 3 && p.b0 == 0xF2 && IsData(p.b1) && IsData(p.b2))
  }

  predicate SingleCommon(p: Packet) {
    p.cin == 5 && SingleByte(p.b0) && p.b0 < 0xF7 && p.b1 == 0 && p.b2 == 0
  }

  predicate Reset(p: Packet) {
    p.cin == 0xF && p.b0 == 0xFF && p.b1 == 0 && p.b2 == 0
  }

  predicate SysExStarts(p: Packet) {
    p.cin == 4 && p.b0 == 0xF0 && IsData(p.b1) && IsData(p.b2)
  }

  predicate SysExWhole(p: Packet) {
    || (p.cin == 6 && p.b0 == 0xF0 && p.b1 == 0xF7 && p.b2 == 0)
    || (p.cin == 7 && p.b0 == 0xF0 && IsData(p.b1) && p.b2 == 0xF7)
  }

  predicate SysExContinues(p: Packet) {
    p.cin == 4 && IsData(p.b0) && IsData(p.b1) && IsData(p.b2)
  }

  predicate SysExEnds(p: Packet) {
    || (p.cin == 5 && p.b0 == 0xF7 && p.b1 == 0 && p.b2 == 0)
    || (p.cin == 6 && IsData(p.b0) && p.b1 == 0xF7 && p.b2 == 0)
    || (p.cin == 7 && IsData(p.b0) && IsData(p.b1) && p.b2 == 0xF7)
  }

  /** One packet of a standard stream, inside or outside a SysEx run. */
  predicate Fits(p: Packet, inSysEx: bool) {
    || Single(p) || SingleCommon(p) || Reset(p)
    || (if inSysEx then SysExContinues(p) || SysExEnds(p)
        else ChannelVoice(p) || SystemCommon(p) || SysExStarts(p) || SysExWhole(p))
  }

  predicate AfterPacket(p: Packet, inSysEx: bool) {
    if inSysEx then !SysExEnds(p) else SysExStarts(p)
  }

  /** A standard packet stream on any ports: complete messages, and SysEx runs with single-byte
    * messages anywhere between their packets. */
  predicate Standard(ps: seq<Packet>, inSysEx: bool) {
    ps == [] || (Fits(ps[0], inSysEx) && Standard(ps[1..], AfterPacket(ps[0], inSysEx)))
  }

  /** No reset falls inside a SysEx run. */
  predicate CleanRuns(ps: seq<Packet>, inSysEx: bool) {
    ps == [] || (!(inSysEx && Reset(ps[0])) && CleanRuns(ps[1..], AfterPacket(ps[0], inSysEx)))
  }

  /** What the decoder makes of one standard packet, outside of that case: the port is gone, system common messages
    * are tagged as single bytes, and a reset yields nothing. */
  function Received(p: Packet): seq<Packet> {
    if Reset(p) then []
    else if SystemCommon(p) || SingleCommon(p) then [Packet(0, 0xF, p.b0, p.b1, p.b2)]
    else [p.(port := 0)]
  }

  function ReceivedAll(ps: seq<Packet>): seq<Packet> {
    if ps == [] then [] else Received(ps[0]) + ReceivedAll(ps[1..])
  }

  /** Inside a SysEx run no byte is pending between packets. */
  predicate Between(d: State, inSysEx: bool) {
    inSysEx ==> d.cur == 0 && d.num == 0
  }

  lemma Decode1(d: State, a: Byte)
    ensures Decode(d, [a]) == Feed(d, a)
  {
    hide Feed;
    assert [a][1..] == [];
    var r := Feed(d, a);
    assert r.out + [] == r.out;
  }

  lemma Decode2(d: State, a: Byte, b: Byte)
    ensures var r := Feed(d, a); var t := Feed(r.state, b);
      Decode(d, [a, b]) == Result(t.state, r.out + t.out)
  {
    hide Feed;
    assert [a] + [b] == [a, b];
    DecodeAppend(d, [a], [b]);
    Decode1(d, a);
    Decode1(Feed(d, a).state, b);
  }

  lemma Decode3(d: State, a: Byte, b: Byte, c: Byte)
    ensures var r := Feed(d, a); var t := Feed(r.state, b); var u := Feed(t.state, c);
      Decode(d, [a, b, c]) == Result(u.state, r.out + t.out + u.out)
  {
    hide Feed;
    assert [a, b] + [c] == [a, b, c];
    DecodeAppend(d, [a, b], [c]);
    Decode2(d, a, b);
    Decode1(Feed(Feed(d, a).state, b).state, c);
  }

  lemma WireBytes(p: Packet)
    ensures p.cin <= 1 ==> Wire(p) == []
    ensures CinLength(p.cin) == 1 ==> Wire(p) == [p.b0]
    ensures CinLength(p.cin) == 2 ==> Wire(p) == [p.b0, p.b1]
    ensures CinLength(p.cin) == 3 ==> Wire(p) == [p.b0, p.b1, p.b2]
  {
  }

  /** What `OnePacket` says, for a packet on its own. */
  predicate Comes(d: State, p: Packet, inSysEx: bool) {
    var r := Decode(d, Wire(p));
    r.out == Received(p) && Between(r.state, AfterPacket(p, inSysEx))
  }

  lemma OneByte(d: State, p: Packet, inSysEx: bool)
    requires Between(d, inSysEx) && Fits(p, inSysEx) && !(inSysEx && Reset(p)) && CinLength(p.cin) == 1
    ensures Comes(d, p, inSysEx)
  {
    hide Decode, Wire;
    WireBytes(p);
    Decode1(d, p.b0);
  }

  lemma StatusOf(d: State, p: Packet)
    requires ChannelVoice(p) || SystemCommon(p)
    ensures Feed(d, p.b0) == Result(d.(byte0 := p.b0, num := CinLength(p.cin) - 1, cur := 0), [])
    ensures CinLength(p.cin) == 2 || CinLength(p.cin) == 3
  {
  }

  lemma DataOf(d: State, b: Byte)
    requires IsData(b)
    ensures Feed(d, b) == Data(d, b)
  {
  }

  lemma ReceivedMessage(p: Packet)
    requires ChannelVoice(p) || SystemCommon(p)
    ensures Received(p) == [Packet(0, p.b0 / 16, p.b0, p.b1, if CinLength(p.cin) == 2 then 0 else p.b2)]
    ensures !AfterPacket(p, false) && IsData(p.b1) && (CinLength(p.cin) == 3 ==> IsData(p.b2))
  {
  }

  lemma WholeMessage(d: State, p: Packet)
    requires ChannelVoice(p) || SystemCommon(p)
    ensures Comes(d, p, false)
  {
    hide Decode, Wire, Feed, Received, AfterPacket, ChannelVoice, SystemCommon, CinLength;
    WireBytes(p);
    StatusOf(d, p);
    ReceivedMessage(p);
    var d1 := Feed(d, p.b0).state;
    DataOf(d1, p.b1);
    if CinLength(p.cin) == 2 {
      Decode2(d, p.b0, p.b1);
    } else {
      DataOf(Feed(d1, p.b1).state, p.b2);
      Decode3(d, p.b0, p.b1, p.b2);
    }
  }

  lemma SysExPair(d: State, p: Packet, inSysEx: bool)
    requires Between(d, inSysEx) && p.cin == 6 && if inSysEx then SysExEnds(p) else SysExWhole(p)
    ensures Comes(d, p, inSysEx)
  {
    hide Decode, Wire;
    WireBytes(p);
    Decode2(d, p.b0, p.b1);
  }

  lemma SysExFront(d: State, p: Packet)
    requires SysExStarts(p) || (SysExWhole(p) && p.cin == 7)
    ensures Comes(d, p, false)
  {
    hide Decode, Wire;
    WireBytes(p);
    Decode3(d, p.b0, p.b1, p.b2);
  }

  lemma SysExRest(d: State, p: Packet)
    requires Between(d, true) && (SysExContinues(p) || (SysExEnds(p) && p.cin == 7))
    ensures Comes(d, p, true)
  {
    hide Decode, Wire;
    WireBytes(p);
    Decode3(d, p.b0, p.b1, p.b2);
  }

  lemma OnePacket(d: State, p: Packet, inSysEx: bool)
    requires Between(d, inSysEx) && Fits(p, inSysEx) && !(inSysEx && Reset(p))
    ensures var r := Decode(d, Wire(p));
      r.out == Received(p) && Between(r.state, AfterPacket(p, inSysEx))
  {
    hide Decode, Wire, Received, Between, AfterPacket, Comes;
    OnePacketComes(d, p, inSysEx);
    UnfoldComes(d, p, inSysEx);
  }

  lemma UnfoldComes(d: State, p: Packet, inSysEx: bool)
    requires Comes(d, p, inSysEx)
    ensures var r := Decode(d, Wire(p));
      r.out == Received(p) && Between(r.state, AfterPacket(p, inSysEx))
  {
    hide Decode, Wire, Received, Between, AfterPacket;
  }

  lemma OnePacketComes(d: State, p: Packet, inSysEx: bool)
    requires Between(d, inSysEx) && Fits(p, inSysEx) && !(inSysEx && Reset(p))
    ensures Comes(d, p, inSysEx)
  {
    hide Comes, Between;
    if CinLength(p.cin) == 1 {
      OneByte(d, p, inSysEx);
    } else if !inSysEx && (ChannelVoice(p) || SystemCommon(p)) {
      WholeMessage(d, p);
    } else if p.cin == 6 {
      SysExPair(d, p, inSysEx);
    } else if inSysEx {
      SysExRest(d, p);
    } else {
      SysExFront(d, p);
    }
  }

  /** Every such stream, from every decoder state: the packets come back, up to the port
    * and the tagging of system common messages and reset. */
  lemma {:induction false} Transmitted(d: State, ps: seq<Packet>, inSysEx: bool)
    requires Between(d, inSysEx) && Standard(ps, inSysEx) && CleanRuns(ps, inSysEx)
    ensures Decode(d, WireAll(ps)).out == ReceivedAll(ps)
    decreases |ps|
  {
    hide Feed, Wire, Received, Between, Fits, AfterPacket, Reset;
    if ps == [] {
    } else {
      OnePacket(d, ps[0], inSysEx);
      var r := Decode(d, Wire(ps[0]));
      Transmitted(r.state, ps[1..], AfterPacket(ps[0], inSysEx));
      DecodeAppend(d, Wire(ps[0]), WireAll(ps[1..]));
    }
  }

  predicate Faithful(p: Packet) {
    p.port == 0 && !SystemCommon(p) && !SingleCommon(p) && !Reset(p)
  }

  lemma {:induction false} ReceivedFaithful(ps: seq<Packet>)
    ensures |ReceivedAll(ps)| <= |ps|
    ensures ReceivedAll(ps) == ps <==> forall p :: p in ps ==> Faithful(p)
  {
    if ps == [] {
    } else {
      var rest := ps[1..];
      ReceivedFaithful(rest);
      assert ps == [ps[0]] + rest;
      assert Received(ps[0]) == [ps[0]] <==> Faithful(ps[0]);
      if Reset(ps[0]) {
        assert |ReceivedAll(ps)| < |ps|;
      } else {
        assert ReceivedAll(ps)[1..] == ReceivedAll(rest);
        assert ReceivedAll(ps)[0] == Received(ps[0])[0];
      }
    }
  }

  // A reset inside a SysEx run makes the decoder take the following data bytes for the rest of a
  // meta event. What comes out is then worth fewer wire bytes than what went in.

  /** Between packets of a run that may have seen a reset. */
  predicate Disturbed(d: State, inSysEx: bool) {
    inSysEx ==> (d.cur == 0 && d.num == 0) || (d.cur <= 1 && d.num == 2 && d.byte0 == 0xFF)
  }

  function Pending(d: State, inSysEx: bool): nat {
    if inSysEx then d.cur else 0
  }

  function Resets(ps: seq<Packet>): nat {
    if ps == [] then 0 else (if Reset(ps[0]) then 1 else 0) + Resets(ps[1..])
  }

  function Weight(ps: seq<Packet>): nat {
    if ps == [] then 0 else CinLength(ps[0].cin) + Weight(ps[1..])
  }

  lemma {:induction false} WeightAppend(a: seq<Packet>, b: seq<Packet>)
    ensures Weight(a + b) == Weight(a) + Weight(b)
  {
    if a == [] {
      assert a + b == b;
    } else {
      assert (a + b)[1..] == a[1..] + b;
      WeightAppend(a[1..], b);
    }
  }

  lemma WeightSome(p: Packet, q: Packet)
    ensures Weight([]) == 0
    ensures Weight([p]) == CinLength(p.cin)
    ensures Weight([p, q]) == CinLength(p.cin) + CinLength(q.cin)
  {
    assert [p][1..] == [] && [p, q][1..] == [q] && [q][1..] == [];
    assert Weight([p, q]) == CinLength(p.cin) + Weight([q]);
  }

  /** No more comes out for a packet than goes in, and less for a reset. */
  ghost predicate Bounded(d: State, p: Packet, inSysEx: bool) {
    var (r, later) := (Decode(d, Wire(p)), AfterPacket(p, inSysEx));
    && Disturbed(r.state, later)
    && Weight(r.out) + Pending(r.state, later) + (if Reset(p) then 1 else 0) <= CinLength(p.cin) + Pending(d, inSysEx)
  }

  lemma BoundedOutside(d: State, p: Packet)
    requires Fits(p, false)
    ensures Bounded(d, p, false)
  {
    hide Decode, Wire, Weight, Feed;
    OnePacket(d, p, false);
    WeightSome(p.(port := 0), p);
    WeightSome(Packet(0, 0xF, p.b0, p.b1, p.b2), p);
  }

  lemma BoundedSingle(d: State, p: Packet)
    requires Disturbed(d, true) && (Single(p) || SingleCommon(p) || Reset(p))
    ensures Bounded(d, p, true)
  {
    hide Decode, Wire, Weight;
    WireBytes(p);
    Decode1(d, p.b0);
    WeightSome(Packet(0, 0xF, p.b0, 0, 0), p);
  }

  lemma BoundedContinue(d: State, p: Packet)
    requires Disturbed(d, true) && SysExContinues(p)
    ensures Bounded(d, p, true)
  {
    hide Decode, Wire, Weight;
    WireBytes(p);
    Decode3(d, p.b0, p.b1, p.b2);
    var r := Decode(d, Wire(p));
    WeightBound(r.out);
  }

  lemma BoundedEnd(d: State, p: Packet)
    requires Disturbed(d, true) && SysExEnds(p)
    ensures Bounded(d, p, true)
  {
    hide Decode, Wire, Weight;
    WireBytes(p);
    if p.cin == 5 {
      Decode1(d, p.b0);
    } else if p.cin == 6 {
      Decode2(d, p.b0, p.b1);
    } else {
      Decode3(d, p.b0, p.b1, p.b2);
    }
    WeightBound(Decode(d, Wire(p)).out);
  }

  lemma WeightBound(ps: seq<Packet>)
    ensures ps == [] ==> Weight(ps) == 0
    ensures |ps| == 1 ==> Weight(ps) == CinLength(ps[0].cin)
    ensures |ps| == 2 ==> Weight(ps) == CinLength(ps[0].cin) + CinLength(ps[1].cin)
  {
    if |ps| == 1 {
      WeightSome(ps[0], ps[0]);
      assert ps == [ps[0]];
    } else if |ps| == 2 {
      WeightSome(ps[0], ps[1]);
      assert ps == [ps[0], ps[1]];
    }
  }

  lemma OneDisturbed(d: State, p: Packet, inSysEx: bool)
    requires Disturbed(d, inSysEx) && Fits(p, inSysEx)
    ensures Bounded(d, p, inSysEx)
  {
    hide Bounded, Disturbed, Reset;
    if !inSysEx {
      BoundedOutside(d, p);
    } else if SysExContinues(p) {
      BoundedContinue(d, p);
    } else if SysExEnds(p) {
      BoundedEnd(d, p);
    } else {
      BoundedSingle(d, p);
    }
  }

  lemma {:induction false} Outweighed(d: State, ps: seq<Packet>, inSysEx: bool)
    requires Disturbed(d, inSysEx) && Standard(ps, inSysEx)
    ensures Weight(Decode(d, WireAll(ps)).out) + Resets(ps) <= Weight(ps) + Pending(d, inSysEx)
    decreases |ps|
  {
    hide Feed, Wire, Fits, AfterPacket, Disturbed, Pending, Reset;
    if ps == [] {
    } else {
      OneDisturbed(d, ps[0], inSysEx);
      var r := Decode(d, Wire(ps[0]));
      Outweighed(r.state, ps[1..], AfterPacket(ps[0], inSysEx));
      DecodeAppend(d, Wire(ps[0]), WireAll(ps[1..]));
      WeightAppend(r.out, Decode(r.state, WireAll(ps[1..])).out);
    }
  }

  lemma {:induction false} NoResets(ps: seq<Packet>, inSysEx: bool)
    requires Resets(ps) == 0
    ensures CleanRuns(ps, inSysEx)
    decreases |ps|
  {
    if ps == [] {
    } else {
      NoResets(ps[1..], AfterPacket(ps[0], inSysEx));
    }
  }

  lemma {:induction false} FaithfulHasNoReset(ps: seq<Packet>)
    requires forall p :: p in ps ==> Faithful(p)
    ensures Resets(ps) == 0
  {
    if ps == [] {
    } else {
      assert Faithful(ps[0]);
      FaithfulHasNoReset(ps[1..]);
    }
  }

  /** A standard stream survives the round trip, from any state of the decoder, exactly when it
    * is on port 0 and holds neither system common messages nor a reset. */
  lemma RoundTrip(d: State, ps: seq<Packet>)
    requires Standard(ps, false)
    ensures Decode(d, WireAll(ps)).out == ps <==> forall p :: p in ps ==> Faithful(p)
  {
    hide Standard, CleanRuns, Decode, WireAll, Faithful;
    Outweighed(d, ps, false);
    if forall p :: p in ps ==> Faithful(p) {
      FaithfulHasNoReset(ps);
    }
    if Resets(ps) == 0 {
      NoResets(ps, false);
      Transmitted(d, ps, false);
      ReceivedFaithful(ps);
    }
  }

  /** For instance, whatever the decoder's state: the packet after a reset is cut up. */
  lemma ResetInsideSysEx(d: State)
    ensures var start, more := Packet(0, 4, 0xF0, 0x7D, 0x01), Packet(0, 4, 0x02, 0x03, 0x04);
      Decode(d, Wire(start) + [0xFF] + Wire(more)).out == [start, Packet(0, 0xF, 0xFF, 0x02, 0x03)]
  {
    hide Decode, Wire, Feed;
    var start, more := Packet(0, 4, 0xF0, 0x7D, 0x01), Packet(0, 4, 0x02, 0x03, 0x04);
    OnePacket(d, start, false);
    var d1 := Decode(d, Wire(start)).state;
    StartsMetaEvent(d1);
    WireBytes(more);
    MetaEvent(Decode(d1, [0xFF]).state, 0x02, 0x03, 0x04);
    DecodeAppend(d, Wire(start), [0xFF]);
    DecodeAppend(d, Wire(start) + [0xFF], Wire(more));
  }

  lemma StartsMetaEvent(d: State)
    ensures var r := Decode(d, [0xFF]);
      r.out == [] && r.state.byte0 == 0xFF && r.state.num == 2 && r.state.cur == 0
  {
    Decode1(d, 0xFF);
  }

  lemma MetaEvent(d: State, x: Byte, y: Byte, z: Byte)
    requires d.byte0 == 0xFF && d.num == 2 && d.cur == 0 && IsData(x) && IsData(y) && IsData(z)
    ensures Decode(d, [x, y, z]).out == [Packet(0, 0xF, 0xFF, x, y)]
  {
    hide Decode;
    Decode3(d, x, y, z);
  }

  // ---- midiSendSysEx ----

  /** A SysEx message: `F0`, data bytes, `F7`. */
  predicate IsSysEx(s: seq<Byte>) {
    |s| >= 2 && s[0] == 0xF0 && s[|s| - 1] == 0xF7 && forall i :: 0 < i < |s| - 1 ==> IsData(s[i])
  }

  /** The tail of a SysEx message, inside its run. */
  predicate IsTail(s: seq<Byte>) {
    |s| >= 1 && s[|s| - 1] == 0xF7 && forall i :: 0 <= i < |s| - 1 ==> IsData(s[i])
  }

  function Chunks(s: seq<Byte>, port: Nibble): seq<Packet>
    requires |s| >= 1
  {
    if |s| == 1 then [Packet(port, 5, s[0], 0, 0)]
    else if |s| == 2 then [Packet(port, 6, s[0], s[1], 0)]
    else if |s| == 3 then [Packet(port, 7, s[0], s[1], s[2])]
    else [Packet(port, 4, s[0], s[1], s[2])] + Chunks(s[3..], port)
  }

  lemma ChunkOff(s: seq<Byte>, port: Nibble)
    requires |s| > 3
    ensures Chunks(s, port) == [Packet(port, 4, s[0], s[1], s[2])] + Chunks(s[3..], port)
  {
  }

  lemma LastChunk(s: seq<Byte>, port: Nibble)
    requires 1 <= |s| <= 3
    ensures Chunks(s, port) == [if |s| == 1 then Packet(port, 5, s[0], 0, 0)
                                else if |s| == 2 then Packet(port, 6, s[0], s[1], 0)
                                else Packet(port, 7, s[0], s[1], s[2])]
  {
  }

  /** The chunker: `sent` are the packets handed to `midiSend`. With no bytes to send, that is one
    * packet of whatever was on the stack. */
  method SendSysEx(port: Byte, bytes: array<Byte>, len: nat) returns (sent: seq<Packet>)
    requires len <= 255 && len <= bytes.Length
    ensures len == 0 ==> |sent| == 1
    ensures len > 0 ==> sent == Chunks(bytes[..len], port % 16)
  {
    hide Chunks;
    sent := [];
    if len == 0 {
      var leftover: Packet := *;
      sent := [leftover];
      return;
    }
    var i := 0;
    while i < len - 3
      invariant 0 <= i < len
      invariant sent + Chunks(bytes[i..len], port % 16) == Chunks(bytes[..len], port % 16)
    {
      ChunkOff(bytes[i..len], port % 16);
      assert bytes[i..len][3..] == bytes[i + 3..len];
      sent := sent + [Packet(port % 16, 4, bytes[i], bytes[i + 1], bytes[i + 2])];
      i := i + 3;
    }
    LastChunk(bytes[i..len], port % 16);
    var res := len - i;
    if res == 1 {
      sent := sent + [Packet(port % 16, 5, bytes[i], 0, 0)];
    } else if res == 2 {
      sent := sent + [Packet(port % 16, 6, bytes[i], bytes[i + 1], 0)];
    } else {
      sent := sent + [Packet(port % 16, 7, bytes[i], bytes[i + 1], bytes[i + 2])];
    }
  }

  lemma {:induction false} ChunksFlatten(s: seq<Byte>, port: Nibble)
    requires |s| >= 1
    ensures WireAll(Chunks(s, port)) == s
    decreases |s|
  {
    hide Wire;
    var ps := Chunks(s, port);
    WireBytes(ps[0]);
    if |s| <= 3 {
      assert ps[1..] == [];
      assert Wire(ps[0]) == s && Wire(ps[0]) + [] == s;
    } else {
      ChunksFlatten(s[3..], port);
      assert ps[1..] == Chunks(s[3..], port);
      assert s == [s[0], s[1], s[2]] + s[3..];
    }
  }

  lemma {:induction false} ChunksTagged(s: seq<Byte>, port: Nibble)
    requires |s| >= 1
    ensures var ps := Chunks(s, port);
      && |ps| == (|s| + 2) / 3
      && (forall k :: 0 <= k < |ps| ==> ps[k].port == port)
      && (forall k :: 0 <= k < |ps| - 1 ==> ps[k].cin == 4)
      && ps[|ps| - 1].cin == 5 + (|s| + 2) % 3
    decreases |s|
  {
    if |s| <= 3 {
    } else {
      var ps, rest := Chunks(s, port), Chunks(s[3..], port);
      ChunksTagged(s[3..], port);
      assert forall k :: 0 < k < |ps| ==> ps[k] == rest[k - 1];
    }
  }

  /** The packets flatten to the message; all carry the port, and only the last is an end packet. */
  lemma SysExChunks(s: seq<Byte>, port: Nibble)
    requires |s| >= 1
    ensures var ps := Chunks(s, port);
      && WireAll(ps) == s
      && |ps| == (|s| + 2) / 3
      && (forall k :: 0 <= k < |ps| ==> ps[k].port == port)
      && (forall k :: 0 <= k < |ps| - 1 ==> ps[k].cin == 4)
      && ps[|ps| - 1].cin in {5, 6, 7} && CinLength(ps[|ps| - 1].cin) == |s| - 3 * (|ps| - 1)
  {
    ChunksFlatten(s, port);
    ChunksTagged(s, port);
  }

  lemma {:induction false} TailIsStandard(s: seq<Byte>, port: Nibble)
    requires IsTail(s)
    ensures Standard(Chunks(s, port), true) && CleanRuns(Chunks(s, port), true)
    ensures forall p :: p in Chunks(s, port) ==> Faithful(p.(port := 0))
    decreases |s|
  {
    var ps := Chunks(s, port);
    if |s| <= 3 {
      assert ps[1..] == [];
    } else {
      TailIsStandard(s[3..], port);
      assert ps[1..] == Chunks(s[3..], port);
    }
  }

  lemma SysExIsStandard(s: seq<Byte>, port: Nibble)
    requires IsSysEx(s)
    ensures Standard(Chunks(s, port), false) && CleanRuns(Chunks(s, port), false)
    ensures forall p :: p in Chunks(s, port) ==> Faithful(p.(port := 0))
  {
    var ps := Chunks(s, port);
    if |s| <= 3 {
      assert ps[1..] == [];
    } else {
      TailIsStandard(s[3..], port);
      assert ps[1..] == Chunks(s[3..], port);
    }
  }

  lemma {:induction false} ReceivedPort(ps: seq<Packet>)
    requires forall p :: p in ps ==> Faithful(p.(port := 0))
    ensures |ReceivedAll(ps)| == |ps|
    ensures forall k :: 0 <= k < |ps| ==> ReceivedAll(ps)[k] == ps[k].(port := 0)
  {
    if ps == [] {
    } else {
      ReceivedPort(ps[1..]);
      assert Faithful(ps[0].(port := 0));
    }
  }

  /** A SysEx message chunked, sent over the wire and decoded in any state gives the chunker's
    * packets back, on port 0. */
  lemma SysExRoundTrip(d: State, s: seq<Byte>, port: Nibble)
    requires IsSysEx(s)
    ensures var (out, sent) := (Decode(d, s).out, Chunks(s, port));
      |out| == |sent| && forall k :: 0 <= k < |sent| ==> out[k] == sent[k].(port := 0)
  {
    hide Standard, CleanRuns, Chunks, Decode, WireAll, Faithful;
    SysExIsStandard(s, port);
    ChunksFlatten(s, port);
    Transmitted(d, Chunks(s, port), false);
    ReceivedPort(Chunks(s, port));
  }
}
