/** Messages over a USB bulk endpoint, delimited by short packets. */
module UsbFraming {

  import opened MachineTypes

  const PACKET := 64

  type Message = seq<Byte>

  /** What the driver puts on the bus for one transfer: full packets, then the rest; an empty
    * transfer is one zero-length packet. */
  function Transfer(data: Message): seq<Message> {
    if |data| <= PACKET then [data] else [data[..PACKET]] + Transfer(data[PACKET..])
  }

  /** One message: its transfer, and a zero-length packet if the transfer ends with a full one. */
  function Framed(data: Message): seq<Message> {
    if data != [] && |data| % PACKET == 0 then Transfer(data) + [[]] else Transfer(data)
  }

  function FramedAll(ms: seq<Message>): seq<Message> {
    if ms == [] then [] else Framed(ms[0]) + FramedAll(ms[1..])
  }

  /** The messages cut at every packet shorter than 64 bytes, and the bytes not yet delimited. */
  datatype Received = Received(messages: seq<Message>, pending: Message)

  function Receive(pending: Message, packets: seq<Message>): Received
    decreases |packets|
  {
    if packets == [] then Received([], pending)
    else if |packets[0]| == PACKET then Receive(pending + packets[0], packets[1..])
    else
      var rest := Receive([], packets[1..]);
      Received([pending + packets[0]] + rest.messages, rest.pending)
  }

  class Endpoint {
    var packets: seq<Message>
    var up: bool                // the bus keeps working

    constructor (up: bool)
      ensures packets == [] && this.up == up
    {
      packets := [];
      this.up := up;
    }

    /** A driver call. It may report a failure at any point, even with all packets on the bus. */
    method Transmit(data: Message) returns (ok: bool)
      modifies `packets
      ensures up ==> ok
      ensures ok ==> packets == old(packets) + Transfer(data)
      ensures !ok ==> exists n :: 0 <= n <= |Transfer(data)| && packets == old(packets) + Transfer(data)[..n]
    {
      var all := Transfer(data);
      var n :| 0 <= n <= |all| && (up ==> n == |all|);
      packets := packets + all[..n];
      ok := *;
      ok := up || (ok && n == |all|);
      assert all[..|all|] == all;
    }

    /** Sends a message of any size. After a failed transfer nothing more is sent: the bus has seen
      * a beginning of the framed message. */
    method TransmitPacket(data: Message) returns (ok: bool)
      modifies `packets
      ensures up ==> ok
      ensures ok ==> packets == old(packets) + Framed(data)
      ensures !ok ==> exists n :: 0 <= n <= |Framed(data)| && packets == old(packets) + Framed(data)[..n]
    {
      ok := Transmit(data);
      if !ok {
        ghost var n :| 0 <= n <= |Transfer(data)| && packets == old(packets) + Transfer(data)[..n];
        assert Framed(data)[..n] == Transfer(data)[..n];
        return;
      }
      if |data| != 0 && |data| % PACKET == 0 {
        ok := Transmit([]);
        if !ok {
          ghost var n :| 0 <= n <= 1 && packets == old(packets) + Transfer(data) + Transfer([])[..n];
          assert Framed(data)[..|Transfer(data)| + n] == Transfer(data) + Transfer([])[..n];
        }
      }
    }
  }

  lemma {:induction false} ReceiveAppend(pending: Message, a: seq<Message>, b: seq<Message>)
    ensures var first := Receive(pending, a); var rest := Receive(first.pending, b);
      Receive(pending, a + b) == Received(first.messages + rest.messages, rest.pending)
    decreases |a|
  {
    if a == [] {
      assert a + b == b;
    } else {
      assert (a + b)[1..] == a[1..] + b;
      if |a[0]| == PACKET {
        ReceiveAppend(pending + a[0], a[1..], b);
      } else {
        ReceiveAppend([], a[1..], b);
      }
    }
  }

  lemma {:induction false} ReceiveTransfer(pending: Message, data: Message)
    ensures Receive(pending, Transfer(data))
         == if data != [] && |data| % PACKET == 0 then Received([], pending + data) else Received([pending + data], [])
    decreases |data|
  {
    if |data| <= PACKET {
      assert [data][1..] == [];
    } else {
      var (head, tail) := (data[..PACKET], data[PACKET..]);
      assert ([head] + Transfer(tail))[1..] == Transfer(tail);
      ReceiveTransfer(pending + head, tail);
      assert pending + head + tail == pending + data;
    }
  }

  /** The packets of a message add it to what was pending, and delimit it. */
  lemma ReceiveFramed(pending: Message, data: Message)
    ensures Receive(pending, Framed(data)) == Received([pending + data], [])
  {
    hide Transfer, Receive;
    ReceiveTransfer(pending, data);
    if data != [] && |data| % PACKET == 0 {
      ReceiveAppend(pending, Transfer(data), [[]]);
      ShortOne(pending + data);
    }
  }

  lemma ShortOne(pending: Message)
    ensures Receive(pending, [[]]) == Received([pending], [])
  {
    var packets: seq<Message> := [[]];
    assert packets[1..] == [] && pending + [] == pending;
  }

  /** Any list of messages of any sizes is received exactly as it was sent. */
  lemma {:induction false} Reassembled(ms: seq<Message>)
    ensures Receive([], FramedAll(ms)) == Received(ms, [])
  {
    if ms == [] {
    } else {
      ReceiveFramed([], ms[0]);
      assert [] + ms[0] == ms[0];
      Reassembled(ms[1..]);
      ReceiveAppend([], Framed(ms[0]), FramedAll(ms[1..]));
    }
  }

  lemma FramedFront(data: Message)
    requires |data| > PACKET
    ensures Framed(data) == [data[..PACKET]] + Framed(data[PACKET..])
  {
    hide Transfer;
    FrontPacket(data);
    assert |data[PACKET..]| % PACKET == |data| % PACKET;
  }

  lemma FramedShort(data: Message)
    requires |data| <= PACKET
    ensures Framed(data) == if |data| == PACKET then [data, []] else [data]
  {
  }

  lemma ReceiveFull(pending: Message, packet: Message, rest: seq<Message>)
    requires |packet| == PACKET
    ensures Receive(pending, [packet] + rest) == Receive(pending + packet, rest)
  {
    assert ([packet] + rest)[1..] == rest;
  }

  lemma ReceiveNone(pending: Message)
    ensures Receive(pending, []) == Received([], pending)
  {
  }

  /** A beginning of a framed message is full packets, and the receiver keeps waiting. */
  lemma {:induction false} CutShort(pending: Message, data: Message, n: nat)
    requires n < |Framed(data)|
    ensures PACKET * n <= |data|
    ensures Receive(pending, Framed(data)[..n]) == Received([], pending + data[..PACKET * n])
    decreases |data|
  {
    hide Framed, Receive;
    if n == 0 {
      ReceiveNone(pending);
      assert pending + data[..0] == pending;
    } else if |data| <= PACKET {
      FramedShort(data);
      ReceiveFull(pending, data, []);
      ReceiveNone(pending + data);
      assert Framed(data)[..1] == [data] + [] && data[..PACKET] == data;
    } else {
      CutLong(pending, data, n);
      CutShort(pending + data[..PACKET], data[PACKET..], n - 1);
    }
  }

  lemma CutLong(pending: Message, data: Message, n: nat)
    requires |data| > PACKET && 0 < n < |Framed(data)|
    ensures n - 1 < |Framed(data[PACKET..])|
    ensures Receive(pending, Framed(data)[..n]) == Receive(pending + data[..PACKET], Framed(data[PACKET..])[..n - 1])
    ensures PACKET * n <= |data| ==>
              pending + data[..PACKET] + data[PACKET..][..PACKET * (n - 1)] == pending + data[..PACKET * n]
  {
    hide Framed, Receive;
    var (head, tail) := (data[..PACKET], data[PACKET..]);
    FramedFront(data);
    assert Framed(data)[..n] == [head] + Framed(tail)[..n - 1];
    ReceiveFull(pending, head, Framed(tail)[..n - 1]);
  }

  /** What is pending goes to the front of the next message, and to no other. */
  lemma NextAfterPending(pending: Message, data: Message, more: seq<Message>)
    ensures Receive(pending, Framed(data) + FramedAll(more)) == Received([pending + data] + more, [])
  {
    hide Framed, FramedAll, Receive;
    ReceiveFramed(pending, data);
    Reassembled(more);
    ReceiveAppend(pending, Framed(data), FramedAll(more));
  }

  /** A failed message that left `n` packets on the bus costs at most the next message: either it
    * arrived whole after all, or its packets end up in front of the next one. Every later message
    * arrives as sent. */
  lemma AfterFailure(data: Message, n: nat, next: Message, more: seq<Message>)
    requires n <= |Framed(data)|
    ensures n < |Framed(data)| ==> PACKET * n <= |data|
    ensures Receive([], Framed(data)[..n] + (Framed(next) + FramedAll(more)))
         == if n == |Framed(data)| then Received([data, next] + more, [])
            else Received([data[..PACKET * n] + next] + more, [])
  {
    hide Framed, FramedAll, Receive;
    var rest := Framed(next) + FramedAll(more);
    ReceiveAppend([], Framed(data)[..n], rest);
    if n == |Framed(data)| {
      assert Framed(data)[..n] == Framed(data);
      ReceiveFramed([], data);
      NextAfterPending([], next, more);
      assert [] + data == data && [] + next == next && [data] + ([next] + more) == [data, next] + more;
    } else {
      CutShort([], data, n);
      assert [] + data[..PACKET * n] == data[..PACKET * n];
      NextAfterPending(data[..PACKET * n], next, more);
      assert [] + ([data[..PACKET * n] + next] + more) == [data[..PACKET * n] + next] + more;
    }
  }

  /** Different lists never look the same on the bus. */
  lemma UniquelyDecodable(a: seq<Message>, b: seq<Message>)
    requires FramedAll(a) == FramedAll(b)
    ensures a == b
  {
    Reassembled(a);
    Reassembled(b);
  }

  /** A bare transfer delimits itself exactly when it needs no zero-length packet. */
  lemma BareTransfer(data: Message)
    ensures Receive([], Transfer(data)) == Received([data], []) <==> data == [] || |data| % 64 != 0
  {
    ReceiveTransfer([], data);
    assert [] + data == data;
  }

  /** The packets of a message fit the endpoint, carry its bytes in order, and only the last is short. */
  lemma {:induction false} TransferPackets(data: Message)
    ensures var ps := Transfer(data);
      && |ps| >= 1
      && (forall k :: 0 <= k < |ps| - 1 ==> |ps[k]| == 64)
      && |ps[|ps| - 1]| <= 64
      && (|ps[|ps| - 1]| == 64 <==> data != [] && |data| % 64 == 0)
    decreases |data|
  {
    if |data| <= PACKET {
    } else {
      var (all, rest) := (Transfer(data), Transfer(data[PACKET..]));
      TransferPackets(data[PACKET..]);
      hide Transfer;
      FrontPacket(data);
      assert |data[PACKET..]| % PACKET == |data| % PACKET;
      forall k | 0 <= k < |all| - 1
        ensures |all[k]| == PACKET
      {
        assert all[k] == if k == 0 then data[..PACKET] else rest[k - 1];
      }
      assert all[|all| - 1] == rest[|rest| - 1];
    }
  }

  lemma FrontPacket(data: Message)
    requires |data| > PACKET
    ensures Transfer(data) == [data[..PACKET]] + Transfer(data[PACKET..])
  {
  }
}
