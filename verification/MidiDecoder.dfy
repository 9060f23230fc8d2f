/** The serial MIDI decoder: a byte stream in, event packets out. */
module MidiDecoder {

  import opened MachineTypes
  import opened MidiPacket

  datatype State = State(byte0: Byte, byte1: Byte, byte2: Byte, cur: nat, num: nat, inSysEx: bool)

  const INITIAL := State(0, 0, 0, 0, 0, false)

  /** The state after some bytes, and the packets handed to the callback on the way. */
  datatype Result = Result(state: State, out: seq<Packet>)

  /** The length of the message that a status byte starts; -1 for the two ends of a SysEx. */
  function MessageLength(status: Byte): int
    requires status >= 0x80
  {
    if status < 0xF0 then [3, 3, 3, 3, 2, 2, 3][status / 16 - 8]
    else [-1, 2, 3, 2, 1, 1, 1, -1, 1, 1, 1, 1, 1, 1, 1, 3][status - 0xF0]
  }

  /** Complete in themselves: they pass through without touching the state. */
  predicate SingleByte(b: Byte) {
    0xF4 <= b <= 0xF6 || 0xF8 <= b <= 0xFE
  }

  function Status(d: State, b: Byte): Result
    requires b >= 0x80
  {
    if SingleByte(b) then Result(d, [Packet(0, b / 16, b, 0, 0)])
    else if b == 0xF0 then Result(d.(inSysEx := true, num := 0, byte1 := b, cur := 1), [])
    else if b == 0xF7 then
      Result(d.(inSysEx := false),
             if d.cur == 0 then [Packet(0, 5, 0xF7, 0, 0)]
             else if d.cur == 1 then [Packet(0, 6, d.byte1, 0xF7, 0)]
             else if d.cur == 2 then [Packet(0, 7, d.byte1, d.byte2, 0xF7)]
             else [])
    else Result(d.(byte0 := b, num := MessageLength(b) - 1, cur := 0), [])
  }

  function Data(d: State, b: Byte): Result {
    if d.cur == 0 then
      if d.num == 1 then Result(d.(byte1 := b), [Packet(0, d.byte0 / 16, d.byte0, b, 0)])
      else Result(d.(byte1 := b, cur := 1), [])
    else if d.cur == 1 then
      if d.num == 2 then Result(d.(byte2 := b, cur := 0), [Packet(0, d.byte0 / 16, d.byte0, d.byte1, b)])
      else Result(d.(byte2 := b, cur := 2), [])
    else if d.cur == 2 then Result(d.(cur := 0), [Packet(0, 4, d.byte1, d.byte2, b)])
    else Result(d, [])
  }

  function Feed(d: State, b: Byte): Result {
    if b >= 0x80 then Status(d, b) else Data(d, b)
  }

  function Decode(d: State, s: seq<Byte>): Result
    decreases |s|
  {
    if s == [] then Result(d, [])
    else
      var first := Feed(d, s[0]);
      var rest := Decode(first.state, s[1..]);
      Result(rest.state, first.out + rest.out)
  }

  class Decoder {
    var byte0: Byte
    var byte1: Byte
    var byte2: Byte
    var cur: nat
    var num: nat
    var inSysEx: bool

    ghost function Current(): State
      reads this
    {
      State(byte0, byte1, byte2, cur, num, inSysEx)
    }

    constructor ()
      ensures Current() == INITIAL
    {
      byte0, byte1, byte2, cur, num, inSysEx := 0, 0, 0, 0, 0, false;
    }

    /** One received byte; `out` is what goes to the callback. The halt for an impossible
      * position inside a SysEx is never reached. */
    method Process(data: Byte) returns (out: seq<Packet>)
      requires cur <= 2
      modifies this
      ensures cur <= 2
      ensures Result(Current(), out) == old(Feed(Current(), data))
    {
      out := [];
      if data >= 0x80 {
        var len := MessageLength(data);
        if data >= 0xF0 {
          if len == 1 {
            out := [Packet(0, data / 16, data, 0, 0)];
          } else if data == 0xF0 {
            inSysEx := true;
            num := 0;
            byte1 := data;
            cur := 1;
          } else if data == 0xF7 {
            inSysEx := false;
            if cur == 0 {
              out := [Packet(0, 5, 0xF7, 0, 0)];
            } else if cur == 1 {
              out := [Packet(0, 6, byte1, 0xF7, 0)];
            } else if cur == 2 {
              out := [Packet(0, 7, byte1, byte2, 0xF7)];
            } else {
              assert false;
            }
          } else {
            byte0 := data;
            num := len - 1;
            cur := 0;
          }
        } else {
          byte0 := data;
          num := len - 1;
          cur := 0;
        }
      } else {
        if cur == 0 {
          byte1 := data;
          if num == 1 {
            out := [Packet(0, byte0 / 16, byte0, byte1, 0)];
            cur := 0;
          } else {
            cur := cur + 1;
          }
        } else if cur == 1 {
          byte2 := data;
          if num == 2 {
            out := [Packet(0, byte0 / 16, byte0, byte1, byte2)];
            cur := 0;
          } else {
            cur := cur + 1;
          }
        } else if cur == 2 {
          out := [Packet(0, 4, byte1, byte2, data)];
          cur := 0;
        }
      }
    }
  }

  // ---- Every byte stream ----

  lemma {:induction false} DecodeAppend(d: State, a: seq<Byte>, b: seq<Byte>)
    ensures var first := Decode(d, a); var rest := Decode(first.state, b);
      Decode(d, a + b) == Result(rest.state, first.out + rest.out)
    decreases |a|
  {
    if a == [] {
      assert a + b == b;
    } else {
      assert (a + b)[1..] == a[1..] + b;
      DecodeAppend(Feed(d, a[0]).state, a[1..], b);
    }
  }

  /** What a decoder can be in: never more than two bytes pending, and neither a pending status
    * nor a pending first byte is a single-byte message. */
  predicate Reachable(d: State) {
    d.cur <= 2 && d.num <= 2 && !SingleByte(d.byte0) && !SingleByte(d.byte1)
  }

  lemma FeedReachable(d: State, b: Byte)
    requires Reachable(d)
    ensures Reachable(Feed(d, b).state)
  {
  }

  /** On every byte stream at most two bytes are pending, so the halt is unreachable. */
  lemma {:induction false} AlwaysReachable(d: State, s: seq<Byte>)
    requires Reachable(d)
    ensures Reachable(Decode(d, s).state)
    decreases |s|
  {
    if s == [] {
    } else {
      FeedReachable(d, s[0]);
      AlwaysReachable(Feed(d, s[0]).state, s[1..]);
    }
  }

  /** The real-time bytes `F8` to `FE`, and `F4` to `F6`, are complete in themselves; no other
    * status byte is. */
  lemma RealTimeBytes(d: State, b: Byte)
    ensures 0xF8 <= b <= 0xFE || 0xF4 <= b <= 0xF6 ==> Feed(d, b) == Result(d, [Packet(0, 0xF, b, 0, 0)])
    ensures 0x80 <= b < 0xF4 || b == 0xFF ==> Feed(d, b).out == [] && Feed(d, b).state.cur <= 1
    ensures b == 0xF7 ==> Feed(d, b).state == d.(inSysEx := false)
  {
  }

  // ---- Real-time bytes anywhere ----

  function DropSingleBytes(s: seq<Byte>): seq<Byte> {
    if s == [] then []
    else if SingleByte(s[0]) then DropSingleBytes(s[1..])
    else [s[0]] + DropSingleBytes(s[1..])
  }

  /** The packets that are not single-byte messages. */
  function Others(ps: seq<Packet>): seq<Packet> {
    if ps == [] then []
    else if SingleByte(ps[0].b0) then Others(ps[1..])
    else [ps[0]] + Others(ps[1..])
  }

  /** The single-byte messages of a stream, as packets. */
  function Singles(s: seq<Byte>): seq<Packet> {
    if s == [] then []
    else if SingleByte(s[0]) then [Packet(0, 0xF, s[0], 0, 0)] + Singles(s[1..])
    else Singles(s[1..])
  }

  function SinglePackets(ps: seq<Packet>): seq<Packet> {
    if ps == [] then []
    else if SingleByte(ps[0].b0) then [ps[0]] + SinglePackets(ps[1..])
    else SinglePackets(ps[1..])
  }

  lemma FeedSingle(d: State, b: Byte)
    requires Reachable(d)
    ensures SingleByte(b) ==> Feed(d, b) == Result(d, [Packet(0, 0xF, b, 0, 0)])
    ensures !SingleByte(b) ==> Others(Feed(d, b).out) == Feed(d, b).out && SinglePackets(Feed(d, b).out) == []
  {
  }

  lemma {:induction false} FilterAppend(a: seq<Packet>, b: seq<Packet>)
    ensures Others(a + b) == Others(a) + Others(b)
    ensures SinglePackets(a + b) == SinglePackets(a) + SinglePackets(b)
  {
    if a == [] {
      assert a + b == b;
    } else {
      assert (a + b)[1..] == a[1..] + b;
      FilterAppend(a[1..], b);
    }
  }

  /** Real-time bytes inserted anywhere, even inside a message, come out as their own packets in
    * order; they change neither the other packets nor how anything later is decoded. */
  lemma {:induction false} RealTimeAnywhere(d: State, s: seq<Byte>)
    requires Reachable(d)
    ensures Decode(d, DropSingleBytes(s)).state == Decode(d, s).state
    ensures Decode(d, DropSingleBytes(s)).out == Others(Decode(d, s).out)
    ensures SinglePackets(Decode(d, s).out) == Singles(s)
    decreases |s|
  {
    hide Feed, Reachable, SingleByte;
    if s == [] {
    } else {
      var first := Feed(d, s[0]);
      FeedReachable(d, s[0]);
      FeedSingle(d, s[0]);
      RealTimeAnywhere(first.state, s[1..]);
      FilterAppend(first.out, Decode(first.state, s[1..]).out);
      var t := DropSingleBytes(s[1..]);
      assert ([s[0]] + t)[1..] == t;
    }
  }

  // ---- Running status ----

  /** What a sender knows about the message in progress: the status in force and how many data
    * bytes of the current message it has sent. */
  datatype Context = NoStatus | Running(status: Byte, sent: nat)

  function Advance(c: Context, b: Byte): Context {
    if SingleByte(b) then c
    else if 0x80 <= b < 0xF0 then Running(b, 0)
    else if b >= 0xF0 || c.NoStatus? then NoStatus
    else if c.status < 0x80 || c.sent + 1 >= MessageLength(c.status) - 1 then c.(sent := 0)
    else c.(sent := c.sent + 1)
  }

  /** The status byte repeats the one in force, at the start of a message. */
  predicate Repeats(c: Context, b: Byte) {
    c == Running(b, 0)
  }

  /** `s` without some of its repeated status bytes, whichever `drop` picks. */
  function Thin(s: seq<Byte>, c: Context, drop: nat -> bool): seq<Byte>
    decreases |s|
  {
    if s == [] then []
    else
      var rest := Thin(s[1..], Advance(c, s[0]), drop);
      if Repeats(c, s[0]) && drop(|s|) then rest else [s[0]] + rest
  }

  predicate Agrees(c: Context, d: State) {
    c.Running? ==>
      && 0x80 <= c.status < 0xF0 && d.byte0 == c.status
      && d.num == MessageLength(c.status) - 1 && d.cur == c.sent < d.num
  }

  lemma FeedAgrees(c: Context, d: State, b: Byte)
    requires Agrees(c, d)
    ensures Agrees(Advance(c, b), Feed(d, b).state)
    ensures Repeats(c, b) ==> Feed(d, b) == Result(d, [])
  {
  }

  /** Any choice of repeated channel status bytes may be left out: same packets, same state. */
  lemma {:induction false} RunningStatus(d: State, s: seq<Byte>, c: Context, drop: nat -> bool)
    requires Agrees(c, d)
    ensures Decode(d, Thin(s, c, drop)) == Decode(d, s)
    decreases |s|
  {
    hide Feed, Advance, Agrees;
    if s == [] {
    } else {
      var rest := Thin(s[1..], Advance(c, s[0]), drop);
      FeedAgrees(c, d, s[0]);
      RunningStatus(Feed(d, s[0]).state, s[1..], Advance(c, s[0]), drop);
      assert ([s[0]] + rest)[1..] == rest;
    }
  }
}
