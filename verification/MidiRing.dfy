/** The MIDI ring buffers: 32 slots, one of them always free, so a FIFO of 31 messages. */
module MidiRing {

  import opened MidiPacket

  const SIZE := 32
  const CAPACITY := SIZE - 1

  /** A ring that has been shut down refuses a put with a bare -1. That is the value of the kernel's
    * timeout code too, so a caller cannot tell it from a full ring. */
  datatype Reply = OK | TIMEOUT

  function Distance(readIndex: int, writeIndex: int): (n: int)
    requires 0 <= readIndex < SIZE && 0 <= writeIndex < SIZE
    ensures 0 <= n <= CAPACITY
  {
    if writeIndex >= readIndex then writeIndex - readIndex else writeIndex + SIZE - readIndex
  }

  /** The messages between the two indices, oldest first. */
  ghost function Between(slots: seq<Packet>, readIndex: int, n: nat): (q: seq<Packet>)
    requires |slots| == SIZE && 0 <= readIndex < SIZE
    ensures |q| == n
  {
    seq(n, k => slots[(readIndex + 1 + k) % SIZE])
  }

  /** A bounded FIFO drops what does not fit. */
  ghost function Offer(q: seq<Packet>, m: Packet): seq<Packet> {
    if |q| < CAPACITY then q + [m] else q
  }

  ghost function OfferAll(q: seq<Packet>, ms: seq<Packet>): seq<Packet> {
    if ms == [] then q else Offer(OfferAll(q, ms[..|ms| - 1]), ms[|ms| - 1])
  }

  lemma NewestLast(slots: seq<Packet>, readIndex: int, writeIndex: int, m: Packet)
    requires |slots| == SIZE && 0 <= readIndex < SIZE && 0 <= writeIndex < SIZE
    ensures var (next, n) := ((writeIndex + 1) % SIZE, Distance(readIndex, writeIndex));
      && (next == readIndex <==> n == CAPACITY)
      && (next != readIndex ==> Distance(readIndex, next) == n + 1)
      && (next != readIndex ==> Between(slots[next := m], readIndex, n + 1) == Between(slots, readIndex, n) + [m])
  {
  }

  lemma OldestFirst(slots: seq<Packet>, readIndex: int, writeIndex: int)
    requires |slots| == SIZE && 0 <= readIndex < SIZE && 0 <= writeIndex < SIZE && readIndex != writeIndex
    ensures var next := (readIndex + 1) % SIZE;
      Between(slots, readIndex, Distance(readIndex, writeIndex))
      == [slots[next]] + Between(slots, next, Distance(next, writeIndex))
  {
  }

  function Min(a: int, b: int): int {
    if a < b then a else b
  }

  /** Offering several messages keeps as many of the first as there is room for. */
  lemma {:induction false} OfferedPrefix(q: seq<Packet>, ms: seq<Packet>)
    requires |q| <= 31
    ensures OfferAll(q, ms) == q + ms[..Min(|ms|, 31 - |q|)]
  {
    if ms == [] {
    } else {
      var front := ms[..|ms| - 1];
      OfferedPrefix(q, front);
    }
  }

  class Ring {
    var readIndex: int
    var writeIndex: int
    const buf: array<Packet>

    ghost predicate Valid()
      reads this
    {
      buf.Length == SIZE && 0 <= readIndex < SIZE && -1 <= writeIndex < SIZE
    }

    ghost predicate Live()
      reads this
    {
      Valid() && writeIndex >= 0
    }

    /** `Deinit` leaves the write index at -1: puts are refused until the ring is set up again. */
    ghost predicate Shut()
      reads this
    {
      Valid() && writeIndex == -1
    }

    ghost function Queue(): (q: seq<Packet>)
      requires Live()
      reads this, buf
      ensures |q| <= CAPACITY
    {
      Between(buf[..], readIndex, Distance(readIndex, writeIndex))
    }

    constructor ()
      ensures Live() && Queue() == [] && fresh(buf)
    {
      buf := new Packet[SIZE](_ => Packet(0, 0, 0, 0, 0));
      readIndex, writeIndex := 0, 0;
    }

    method Deinit()
      requires Valid()
      modifies this
      ensures Shut() && readIndex == 0
    {
      readIndex := 0;
      writeIndex := -1;
    }

    /** Empties the ring; a ring that was shut is live again. */
    method Reset()
      requires Valid()
      modifies this
      ensures Live() && Queue() == []
    {
      readIndex, writeIndex := 0, 0;
    }

    method Put(m: Packet) returns (reply: Reply)
      requires Valid()
      modifies this`writeIndex, buf
      ensures old(Shut()) ==> reply == TIMEOUT && Shut() && buf[..] == old(buf[..])
      ensures old(Live()) ==> Live() && Queue() == Offer(old(Queue()), m)
      ensures old(Live()) ==> reply == if |old(Queue())| < 31 then OK else TIMEOUT
    {
      hide Between, Distance;
      if writeIndex + 1 == 0 {
        return TIMEOUT;
      }
      NewestLast(buf[..], readIndex, writeIndex, m);
      var next := (writeIndex + 1) % SIZE;
      if next == readIndex {
        return TIMEOUT;
      }
      ghost var slots := buf[..];
      buf[next] := m;
      writeIndex := next;
      assert buf[..] == slots[next := m];
      return OK;
    }

    /** A live ring hands out its oldest message; a shut one hands out old slots for ever. */
    method Get() returns (reply: Reply, m: Packet)
      requires Valid()
      modifies this`readIndex
      ensures old(Live()) ==> Live()
      ensures old(Live()) && old(Queue()) == [] ==> reply == TIMEOUT && Queue() == []
      ensures old(Live()) && old(Queue()) != [] ==> reply == OK && [m] + Queue() == old(Queue())
      ensures old(Shut()) ==> Shut() && reply == OK && readIndex == old((readIndex + 1) % SIZE) && m == buf[readIndex]
    {
      hide Between;
      if readIndex != writeIndex {
        ghost var start, slots := readIndex, buf[..];
        readIndex := (readIndex + 1) % SIZE;
        m := buf[readIndex];
        if writeIndex >= 0 {
          OldestFirst(slots, start, writeIndex);
        }
        return OK, m;
      } else {
        m := Packet(0, 0, 0, 0, 0);
        return TIMEOUT, m;
      }
    }

    method GetPending() returns (n: int)
      requires Valid()
      ensures Live() ==> n == |Queue()|
      ensures Shut() ==> n == 31 - readIndex
    {
      if writeIndex >= readIndex {
        return writeIndex - readIndex;
      }
      return writeIndex + SIZE - readIndex;
    }

    method GetAvailable() returns (n: int)
      requires Valid()
      ensures Live() ==> n == 31 - |Queue()|
      ensures Shut() ==> n == readIndex
    {
      var pending := GetPending();
      n := SIZE - pending - 1;
    }
  }

  // ---- Fan-out to the virtual input ports ----

  function PowerOf2(n: nat): (p: int)
    ensures p > 0
  {
    if n == 0 then 1 else 2 * PowerOf2(n - 1)
  }

  /** Bit `v` of a two's complement word. */
  predicate Bit(word: int, v: nat) {
    word / PowerOf2(v) % 2 == 1
  }

  /** One copy per set bit below `n`, in ascending port order. */
  function Copies(portmap: int, m: Packet, n: nat): seq<Packet>
    requires n <= 8
  {
    if n == 0 then []
    else Copies(portmap, m, n - 1) + if Bit(portmap, n - 1) then [m.(port := n - 1)] else []
  }

  /** The copies are `m` but for the port; their ports ascend and are exactly the set bits. */
  lemma {:induction false} CopiesPorts(portmap: int, m: Packet, n: nat)
    requires n <= 8
    ensures var c := Copies(portmap, m, n);
      && (forall k :: 0 <= k < |c| ==> c[k].port < n && c[k] == m.(port := c[k].port))
      && (forall j, k :: 0 <= j < k < |c| ==> c[j].port < c[k].port)
      && (forall v: Nibble :: v < n && Bit(portmap, v) <==> m.(port := v) in c)
  {
    if n == 0 {
    } else {
      CopiesPorts(portmap, m, n - 1);
    }
  }

  lemma Halve(word: int, n: nat)
    ensures word / PowerOf2(n) / 2 == word / PowerOf2(n + 1)
  {
    var p := PowerOf2(n);
    var q, r := word / p, word % p;
    assert word == p * q + r;
    var h, b := q / 2, q % 2;
    assert q == 2 * h + b;
    assert word == (2 * p) * h + (p * b + r) by {
      assert p * q == p * (2 * h + b) == (2 * p) * h + p * b;
    }
    assert 0 <= p * b <= p;
    Quotient(word, 2 * p, h, p * b + r);
  }

  lemma Quotient(x: int, d: int, q: int, r: int)
    requires 0 <= r < d && x == d * q + r
    ensures x / d == q
  {
    var k := x / d - q;
    assert d * (x / d) + x % d == x;
    assert d * k == r - x % d;
    Multiple(d, k);
  }

  lemma Multiple(d: nat, k: int)
    ensures k == 0 || d * k >= d || d * k + d <= 0
  {
    if k >= 1 {
      Grows(d, k);
    } else if k <= -1 {
      Grows(d, -k);
      assert d * k == -(d * -k);
    }
  }

  lemma Grows(d: nat, k: int)
    requires k >= 1
    ensures d * k >= d
  {
    assert d * k == d + d * (k - 1);
  }

  // ---- What a bit is: the powers of the set bits make up the word ----

  function BitSum(word: int, n: nat): nat {
    if n == 0 then 0 else BitSum(word, n - 1) + if Bit(word, n - 1) then PowerOf2(n - 1) else 0
  }

  /** The powers of the ports of some copies, added up. */
  function PortSum(copies: seq<Packet>): nat {
    if copies == [] then 0 else PortSum(copies[..|copies| - 1]) + PowerOf2(copies[|copies| - 1].port)
  }

  /** The low `n + 1` bits are the low `n` bits and one more. */
  lemma NextBit(word: int, p: int)
    requires p > 0
    ensures word % (2 * p) == word % p + (if word / p % 2 == 1 then p else 0)
  {
    var q, r := word / p, word % p;
    var h, b := q / 2, q % 2;
    var low := p * b + r;
    assert word == p * q + r;
    assert word == (2 * p) * h + low by {
      assert p * q == p * (2 * h + b) == (2 * p) * h + p * b;
    }
    assert b == 0 || b == 1;
    assert p * b == if b == 1 then p else 0;
    Quotient(word, 2 * p, h, low);
  }

  lemma {:induction false} BitsMakeWord(word: int, n: nat)
    ensures BitSum(word, n) == word % PowerOf2(n)
  {
    if n == 0 {
    } else {
      BitsMakeWord(word, n - 1);
      NextBit(word, PowerOf2(n - 1));
    }
  }

  /** The port map is made up of the powers of the ports that get a copy. */
  lemma {:induction false} CopiesMakeMap(portmap: int, m: Packet, n: nat)
    requires n <= 8
    ensures PortSum(Copies(portmap, m, n)) == portmap % PowerOf2(n)
  {
    hide Bit;
    if n == 0 {
    } else {
      CopiesMakeMap(portmap, m, n - 1);
      CopyAdds(portmap, m, n);
      BitsMakeWord(portmap, n);
      BitsMakeWord(portmap, n - 1);
    }
  }

  lemma CopyAdds(portmap: int, m: Packet, n: nat)
    requires 0 < n <= 8
    ensures PortSum(Copies(portmap, m, n))
         == PortSum(Copies(portmap, m, n - 1)) + if Bit(portmap, n - 1) then PowerOf2(n - 1) else 0
  {
    hide Bit, PowerOf2;
    var (front, all) := (Copies(portmap, m, n - 1), Copies(portmap, m, n));
    if Bit(portmap, n - 1) {
      assert all == front + [m.(port := n - 1)] && all[..|all| - 1] == front;
    } else {
      assert all == front;
    }
  }

  /** For a dispatch that is the low byte of the map. */
  lemma DispatchedPorts(portmap: int, m: Packet)
    ensures PortSum(Copies(portmap, m, 8)) == portmap % 256
  {
    CopiesMakeMap(portmap, m, 8);
    assert PowerOf2(4) == 16;
    assert PowerOf2(8) == 256;
  }

  /** `midi_input_dispatch`: a live ring holding `q` then holds `q` and the copies, cut only where
    * the ring is full. */
  method Dispatch(ring: Ring, portmap: int, m: Packet)
    requires ring.Live()
    modifies ring, ring.buf
    ensures ring.Live()
    ensures var (q, copies) := (old(ring.Queue()), Copies(portmap, m, 8));
      ring.Queue() == q + copies[..Min(|copies|, CAPACITY - |q|)]
  {
    var bits, msg := portmap, m;
    ghost var q := ring.Queue();
    for v := 0 to 8
      invariant ring.Live()
      invariant bits == portmap / PowerOf2(v) && msg.(port := 0) == m.(port := 0)
      invariant ring.Queue() == OfferAll(q, Copies(portmap, m, v))
    {
      ghost var c := Copies(portmap, m, v + 1);
      if bits % 2 == 1 {
        msg := msg.(port := v);
        var _ := ring.Put(msg);
        assert c[..|c| - 1] == Copies(portmap, m, v);
      } else {
        assert c == Copies(portmap, m, v);
      }
      Halve(portmap, v);
      bits := bits / 2;
    }
    OfferedPrefix(q, Copies(portmap, m, 8));
  }

  // ---- Fan-out to the real output ports ----

  /** The rings that `midiSend` can put a message into. */
  datatype Rings = Rings(din: Ring, gpio: Ring, usbh1: Ring, usbh2: Ring, usbd: Ring, input: Ring) {
    /** A USB host ring is shut while no device is attached. */
    ghost predicate Ready()
      reads din, gpio, usbh1, usbh2, usbd, input
    {
      && din.Live() && gpio.Live() && usbd.Live() && input.Live()
      && usbh1.Valid() && usbh2.Valid()
    }

    ghost predicate Apart() {
      && Different(din, gpio) && Different(din, usbh1) && Different(din, usbh2) && Different(din, usbd)
      && Different(gpio, usbh1) && Different(gpio, usbh2) && Different(gpio, usbd)
      && Different(usbh1, usbh2) && Different(usbh1, usbd) && Different(usbh2, usbd)
      && Different(input, din) && Different(input, gpio) && Different(input, usbh1)
      && Different(input, usbh2) && Different(input, usbd)
    }
  }

  predicate Different(a: Ring, b: Ring) {
    a != b && a.buf != b.buf
  }

  /** The routing tables: for each real port, the set of virtual ports routed to it. */
  datatype Routing = Routing(din: int, gpio: int, usbh1: seq<int>, usbh2: seq<int>, usbd: int)

  predicate IsRouting(t: Routing) {
    |t.usbh1| <= 16 && |t.usbh2| <= 16
  }

  /** One copy per port of a USB host device that the virtual port is routed to. */
  function PortCopies(maps: seq<int>, vport: nat, m: Packet, n: nat): seq<Packet>
    requires n <= |maps| <= 16
  {
    if n == 0 then []
    else PortCopies(maps, vport, m, n - 1) + if Bit(maps[n - 1], vport) then [m.(port := n - 1)] else []
  }

  lemma {:induction false} PortCopiesPorts(maps: seq<int>, vport: nat, m: Packet, n: nat)
    requires n <= |maps| <= 16
    ensures var c := PortCopies(maps, vport, m, n);
      && (forall k :: 0 <= k < |c| ==> c[k].port < n && c[k] == m.(port := c[k].port))
      && (forall j, k :: 0 <= j < k < |c| ==> c[j].port < c[k].port)
      && (forall i: Nibble :: i < n && Bit(maps[i], vport) <==> i < n && m.(port := i) in c)
  {
    if n == 0 {
    } else {
      PortCopiesPorts(maps, vport, m, n - 1);
    }
  }

  ghost function OfferIf(q: seq<Packet>, routed: bool, m: Packet): seq<Packet> {
    if routed then Offer(q, m) else q
  }

  lemma OfferLast(q: seq<Packet>, front: seq<Packet>, m: Packet)
    ensures OfferAll(q, front + [m]) == Offer(OfferAll(q, front), m)
  {
    assert (front + [m])[..|front|] == front;
  }

  method SendToHost(ring: Ring, maps: seq<int>, vport: nat, m: Packet)
    requires ring.Valid() && |maps| <= 16
    modifies ring, ring.buf
    ensures old(ring.Shut()) ==> ring.Shut()
    ensures old(ring.Live()) ==> ring.Live()
    ensures old(ring.Live()) ==> ring.Queue() == OfferAll(old(ring.Queue()), PortCopies(maps, vport, m, |maps|))
  {
    hide Between, Bit, Offer, OfferAll;
    ghost var live, q := ring.Live(), if ring.Live() then ring.Queue() else [];
    NoOffers(q);
    for i := 0 to |maps|
      invariant if live then ring.Live() else ring.Shut()
      invariant live ==> ring.Queue() == OfferAll(q, PortCopies(maps, vport, m, i))
    {
      if Bit(maps[i], vport) {
        OfferLast(q, PortCopies(maps, vport, m, i), m.(port := i));
        var _ := ring.Put(m.(port := i));
      } else {
        assert PortCopies(maps, vport, m, i) + [] == PortCopies(maps, vport, m, i);
      }
    }
  }

  lemma NoOffers(q: seq<Packet>)
    ensures OfferAll(q, []) == q
  {
  }

  method PutIf(ring: Ring, routed: bool, m: Packet)
    requires ring.Live()
    modifies ring, ring.buf
    ensures ring.Live() && ring.Queue() == OfferIf(old(ring.Queue()), routed, m)
  {
    if routed {
      var _ := ring.Put(m);
    }
  }

  /** Virtual ports 0 to 7 go to the real outputs they are routed to, the others loop back to the
    * input; no other ring sees the message. */
  method Send(rings: Rings, table: Routing, m: Packet)
    requires rings.Ready() && rings.Apart() && IsRouting(table)
    modifies rings.din, rings.gpio, rings.usbh1, rings.usbh2, rings.usbd, rings.input
    modifies rings.din.buf, rings.gpio.buf, rings.usbh1.buf, rings.usbh2.buf, rings.usbd.buf, rings.input.buf
    ensures rings.Ready()
    ensures old(rings.usbh1.Shut()) ==> rings.usbh1.Shut()
    ensures old(rings.usbh2.Shut()) ==> rings.usbh2.Shut()
    ensures old(rings.usbh1.Live()) ==> rings.usbh1.Live() && rings.usbh1.Queue() == OfferAll(old(rings.usbh1.Queue()),
              if m.port < 8 then PortCopies(table.usbh1, m.port, m, |table.usbh1|) else [])
    ensures old(rings.usbh2.Live()) ==> rings.usbh2.Live() && rings.usbh2.Queue() == OfferAll(old(rings.usbh2.Queue()),
              if m.port < 8 then PortCopies(table.usbh2, m.port, m, |table.usbh2|) else [])
    ensures var vport := m.port; var out := vport < 8;
      && rings.din.Queue() == OfferIf(old(rings.din.Queue()), out && Bit(table.din, vport), m)
      && rings.gpio.Queue() == OfferIf(old(rings.gpio.Queue()), out && Bit(table.gpio, vport), m)
      && rings.usbd.Queue() == OfferIf(old(rings.usbd.Queue()), out && Bit(table.usbd, vport), m.(port := 0))
      && rings.input.Queue() == OfferIf(old(rings.input.Queue()), !out, m.(port := if out then 0 else vport - 8))
  {
    hide Between, Offer, Bit;
    var vport := m.port;
    if vport < 8 {
      PutIf(rings.din, Bit(table.din, vport), m);
      PutIf(rings.gpio, Bit(table.gpio, vport), m);
      SendToHost(rings.usbh1, table.usbh1, vport, m);
      SendToHost(rings.usbh2, table.usbh2, vport, m);
      PutIf(rings.usbd, Bit(table.usbd, vport), m.(port := 0));
    } else {
      PutIf(rings.input, true, m.(port := vport - 8));
    }
  }
}
