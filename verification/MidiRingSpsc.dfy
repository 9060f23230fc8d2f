/** One producer and one consumer on a MIDI ring, one memory access per step. A store of a
  * message takes two steps, with the slot torn in between. */
module MidiRingSpsc {

  import opened MidiPacket
  import opened MidiRing

  datatype Cell = Whole(message: Packet) | Torn

  datatype Producer =
    | Resting
    | Checking(m: Packet, next: int)
    | Storing(m: Packet, next: int)
    | Finishing(m: Packet, next: int)
    | Publishing(m: Packet, next: int)

  datatype Consumer = Waiting | Advancing | Loading

  /** `accepted` are the messages whose put succeeded, `got` the cells that gets have loaded. */
  datatype State = State(
    buf: seq<Cell>,
    readIndex: int,
    writeIndex: int,
    producer: Producer,
    consumer: Consumer,
    accepted: seq<Packet>,
    got: seq<Cell>)

  ghost predicate Init(s: State) {
    && |s.buf| == SIZE && s.readIndex == 0 && s.writeIndex == 0
    && s.producer == Resting && s.consumer == Waiting && s.accepted == [] && s.got == []
  }

  predicate Bounds(s: State) {
    && |s.buf| == SIZE && 0 <= s.readIndex < SIZE && 0 <= s.writeIndex < SIZE
    && (!s.producer.Resting? ==> 0 <= s.producer.next < SIZE)
  }

  ghost predicate ProducerStep(s: State, t: State)
    requires Bounds(s)
  {
    match s.producer
    case Resting => t.producer.Checking? && t == s.(producer := Checking(t.producer.m, (s.writeIndex + 1) % SIZE))
    case Checking(m, next) => t == s.(producer := if next == s.readIndex then Resting else Storing(m, next))
    case Storing(m, next) => t == s.(buf := s.buf[next := Torn], producer := Finishing(m, next))
    case Finishing(m, next) => t == s.(buf := s.buf[next := Whole(m)], producer := Publishing(m, next))
    case Publishing(m, next) => t == s.(writeIndex := next, accepted := s.accepted + [m], producer := Resting)
  }

  ghost predicate ConsumerStep(s: State, t: State)
    requires Bounds(s)
  {
    match s.consumer
    case Waiting => t == s.(consumer := if s.readIndex != s.writeIndex then Advancing else Waiting)
    case Advancing => t == s.(readIndex := (s.readIndex + 1) % SIZE, consumer := Loading)
    case Loading => t == s.(got := s.got + [s.buf[s.readIndex]], consumer := Waiting)
  }

  ghost predicate Next(s: State, t: State) {
    Bounds(s) && (ProducerStep(s, t) || ConsumerStep(s, t))
  }

  ghost predicate IsRun(run: seq<State>) {
    run != [] && Init(run[0]) && forall k :: 0 <= k < |run| - 1 ==> Next(run[k], run[k + 1])
  }

  /** How often the read index has advanced. */
  function Taken(s: State): nat {
    |s.got| + if s.consumer.Loading? then 1 else 0
  }

  ghost predicate Wholes(cells: seq<Cell>, ms: seq<Packet>) {
    |cells| == |ms| && forall k :: 0 <= k < |ms| ==> cells[k] == Whole(ms[k])
  }

  /** Both indices count modulo the size; at most 31 messages lie between them. */
  ghost predicate Counted(s: State) {
    var (w, r) := (|s.accepted|, Taken(s));
    && Bounds(s) && s.readIndex == r % SIZE && s.writeIndex == w % SIZE
    && r <= w <= r + CAPACITY
    && (s.consumer.Advancing? ==> r < w)
    && (!s.producer.Resting? ==> s.producer.next == (w + 1) % SIZE)
    && (s.producer.Storing? || s.producer.Finishing? || s.producer.Publishing? ==> w < r + CAPACITY)
  }

  /** Message `k` is still needed: published, and not yet loaded. */
  predicate Needed(s: State, k: int) {
    |s.got| <= k < |s.accepted|
  }

  ghost predicate Kept(s: State) {
    && Bounds(s)
    && (forall k {:trigger s.accepted[k]} :: Needed(s, k) ==> s.buf[(k + 1) % SIZE] == Whole(s.accepted[k]))
    && (s.producer.Publishing? ==> s.buf[s.producer.next] == Whole(s.producer.m))
  }

  ghost predicate Inv(s: State) {
    Counted(s) && Kept(s) && |s.got| <= |s.accepted| && Wholes(s.got, s.accepted[..|s.got|])
  }

  lemma ModApart(a: nat, b: nat)
    requires a < b < a + SIZE
    ensures a % SIZE != b % SIZE
  {
  }

  /** The slot being written is neither the one at the read index nor one still needed. */
  lemma WriteSlotIsFree(s: State)
    requires Counted(s) && (s.producer.Storing? || s.producer.Finishing? || s.producer.Publishing?)
    ensures s.producer.next != s.readIndex
    ensures forall k :: Needed(s, k) ==> s.producer.next != (k + 1) % SIZE
  {
    var w := |s.accepted|;
    ModApart(Taken(s), w + 1);
    forall k | Needed(s, k)
      ensures s.producer.next != (k + 1) % SIZE
    {
      ModApart(k + 1, w + 1);
    }
  }

  lemma ModNext(a: nat)
    ensures (a % SIZE + 1) % SIZE == (a + 1) % SIZE
  {
  }

  /** The check refuses exactly when the ring is full. */
  lemma CheckIsExact(s: State)
    requires Counted(s) && s.producer.Checking?
    ensures s.producer.next == s.readIndex <==> |s.accepted| == Taken(s) + CAPACITY
  {
    var (w, r) := (|s.accepted|, Taken(s));
    if w < r + CAPACITY {
      ModApart(r, w + 1);
    } else {
      assert w + 1 == r + SIZE;
    }
  }

  lemma ProducerKeepsCounted(s: State, t: State)
    requires Counted(s) && ProducerStep(s, t)
    ensures Counted(t)
  {
    ModNext(|s.accepted|);
    if s.producer.Checking? {
      CheckIsExact(s);
    }
  }

  lemma ProducerKeepsKept(s: State, t: State)
    requires Counted(s) && Kept(s) && Bounds(t) && ProducerStep(s, t)
    ensures Kept(t)
  {
    if s.producer.Resting? || s.producer.Checking? {
      hide Counted;
    } else {
      WriteSlotIsFree(s);
      hide Counted;
      assert s.producer.next == (|s.accepted| + 1) % SIZE by {
        NextSlot(s);
      }
      forall k | Needed(t, k)
        ensures t.buf[(k + 1) % SIZE] == Whole(t.accepted[k])
      {
        if k < |s.accepted| {
          assert Needed(s, k) && s.accepted[k] == t.accepted[k];
        }
      }
    }
  }

  lemma NextSlot(s: State)
    requires Counted(s) && !s.producer.Resting?
    ensures s.producer.next == (|s.accepted| + 1) % SIZE
  {
  }

  lemma ProducerKeepsInv(s: State, t: State)
    requires Inv(s) && ProducerStep(s, t)
    ensures Inv(t)
  {
    ProducerKeepsCounted(s, t);
    ProducerKeepsKept(s, t);
    hide Counted, Kept;
    assert t.accepted[..|t.got|] == s.accepted[..|s.got|];
  }

  lemma ConsumerKeepsCounted(s: State, t: State)
    requires Counted(s) && ConsumerStep(s, t)
    ensures Counted(t)
  {
    ModNext(Taken(s));
  }

  lemma ConsumerKeepsInv(s: State, t: State)
    requires Inv(s) && ConsumerStep(s, t)
    ensures Inv(t)
  {
    ConsumerKeepsCounted(s, t);
    forall k | Needed(t, k)
      ensures t.buf[(k + 1) % SIZE] == Whole(t.accepted[k])
    {
      assert Needed(s, k) && s.accepted[k] == t.accepted[k];
    }
    if s.consumer.Loading? {
      LoadsNext(s);
    }
  }

  /** A get loads the oldest message not yet got, whole. */
  lemma LoadsNext(s: State)
    requires Inv(s) && s.consumer.Loading?
    ensures |s.got| < |s.accepted| && s.buf[s.readIndex] == Whole(s.accepted[|s.got|])
  {
    assert Needed(s, |s.got|);
    assert s.accepted[|s.got|] == s.accepted[|s.got|];
  }

  lemma {:induction false} RunKeepsInv(run: seq<State>, k: nat)
    requires IsRun(run) && k < |run|
    ensures Inv(run[k])
  {
    hide Inv, ProducerStep, ConsumerStep;
    if k == 0 {
      InitInv(run[0]);
    } else {
      RunKeepsInv(run, k - 1);
      assert Next(run[k - 1], run[k - 1 + 1]);
      if ProducerStep(run[k - 1], run[k]) {
        ProducerKeepsInv(run[k - 1], run[k]);
      } else {
        ConsumerKeepsInv(run[k - 1], run[k]);
      }
    }
  }

  lemma InitInv(s: State)
    requires Init(s)
    ensures Inv(s)
  {
  }

  /** In every interleaving the messages got are a prefix, in order, of the messages accepted:
    * none is lost, doubled or torn. */
  lemma GotIsPrefix(run: seq<State>, k: nat)
    requires IsRun(run) && k < |run|
    ensures |run[k].got| <= |run[k].accepted|
    ensures Wholes(run[k].got, run[k].accepted[..|run[k].got|])
  {
    hide IsRun;
    RunKeepsInv(run, k);
  }

  /** Although `get` advances the read index before it loads the slot, the producer never writes
    * the slot at the read index. */
  lemma NeverWritesReadSlot(run: seq<State>, k: nat)
    requires IsRun(run) && k < |run|
    requires run[k].producer.Storing? || run[k].producer.Finishing?
    ensures run[k].producer.next != run[k].readIndex
  {
    hide IsRun;
    RunKeepsInv(run, k);
    WriteSlotIsFree(run[k]);
  }

  /** A put is refused exactly when 31 messages have been accepted that no get has taken. */
  lemma RefusedWhenFull(run: seq<State>, k: nat)
    requires IsRun(run) && k < |run| && run[k].producer.Checking?
    ensures run[k].producer.next == run[k].readIndex <==> |run[k].accepted| - Taken(run[k]) == CAPACITY
  {
    hide IsRun;
    RunKeepsInv(run, k);
    CheckIsExact(run[k]);
  }

  /** The cells between the two indices, oldest first. */
  ghost function Held(s: State): seq<Cell>
    requires Bounds(s)
  {
    seq(Distance(s.readIndex, s.writeIndex), j => s.buf[(s.readIndex + 1 + j) % SIZE])
  }

  /** Between two gets the ring holds exactly what was accepted and not yet got. */
  lemma NothingLost(run: seq<State>, k: nat)
    requires IsRun(run) && k < |run| && run[k].consumer.Waiting?
    ensures Bounds(run[k]) && |run[k].got| <= |run[k].accepted|
    ensures Wholes(Held(run[k]), run[k].accepted[|run[k].got|..])
  {
    hide IsRun;
    RunKeepsInv(run, k);
    HeldIsRest(run[k]);
  }

  lemma HeldIsRest(s: State)
    requires Counted(s) && Kept(s) && s.consumer.Waiting?
    ensures |s.got| <= |s.accepted| && Wholes(Held(s), s.accepted[|s.got|..])
  {
    hide Counted, Distance;
    RestIndices(s);
    IndexDistance(|s.got|, |s.accepted|);
    var (held, rest) := (Held(s), s.accepted[|s.got|..]);
    forall j | 0 <= j < |rest|
      ensures held[j] == Whole(rest[j])
    {
      assert Needed(s, |s.got| + j) && rest[j] == s.accepted[|s.got| + j];
      SlotOf(|s.got|, j);
    }
  }

  lemma RestIndices(s: State)
    requires Counted(s) && s.consumer.Waiting?
    ensures var (r, w) := (|s.got|, |s.accepted|);
      Bounds(s) && r <= w <= r + CAPACITY && s.readIndex == r % SIZE && s.writeIndex == w % SIZE
  {
  }

  lemma IndexDistance(r: nat, w: nat)
    requires r <= w <= r + CAPACITY
    ensures Distance(r % SIZE, w % SIZE) == w - r
  {
  }

  lemma SlotOf(r: nat, j: nat)
    ensures (r % SIZE + 1 + j) % SIZE == (r + j + 1) % SIZE
  {
  }

  // ---- Every put and every get comes to its end ----

  lemma NextPut(s: State, t: State)
    requires Counted(s) && Next(s, t) && !s.producer.Resting? && t.producer != s.producer
    ensures s.producer.Checking? && |s.accepted| == Taken(s) + CAPACITY ==>
              t.producer == Resting && t.accepted == s.accepted
    ensures s.producer.Checking? && |s.accepted| < Taken(s) + CAPACITY ==>
              t.producer.Storing? && t.producer.m == s.producer.m && t.accepted == s.accepted
    ensures s.producer.Storing? || s.producer.Finishing? ==>
              !t.producer.Resting? && !t.producer.Checking? && t.producer.m == s.producer.m && t.accepted == s.accepted
    ensures s.producer.Publishing? ==> t.producer == Resting && t.accepted == s.accepted + [s.producer.m]
  {
    if s.producer.Checking? {
      CheckIsExact(s);
    }
  }

  lemma ConsumerLeaves(s: State, t: State)
    requires Next(s, t) && t.producer == s.producer
    ensures t.accepted == s.accepted
  {
  }

  /** A put that passed its check is accepted: until it returns nothing is, and then its message. */
  lemma {:induction false} PutIsAccepted(run: seq<State>, a: nat, b: nat)
    requires IsRun(run) && a < b < |run|
    requires run[a].producer.Storing? || run[a].producer.Finishing? || run[a].producer.Publishing?
    requires run[b].producer == Resting && forall k :: a <= k < b ==> !run[k].producer.Resting?
    ensures run[b].accepted == run[a].accepted + [run[a].producer.m]
    decreases b - a
  {
    hide Init, Next, Counted, Kept;
    RunKeepsInv(run, a);
    var (s, t) := (run[a], run[a + 1]);
    assert Next(s, t);
    if t.producer == s.producer {
      ConsumerLeaves(s, t);
      PutIsAccepted(run, a + 1, b);
    } else {
      NextPut(s, t);
      if !s.producer.Publishing? {
        PutIsAccepted(run, a + 1, b);
      } else {
        StillResting(run, a + 1, b);
      }
    }
  }

  lemma StillResting(run: seq<State>, a: nat, b: nat)
    requires a <= b < |run| && run[a].producer == Resting
    requires forall k :: a <= k < b ==> !run[k].producer.Resting?
    ensures a == b
  {
  }

  /** The outcome of a put: at its check, in state `a`, the ring is full and the put is refused, or
    * it has room and, by the time the put returns in state `b`, the message is accepted. */
  lemma PutOutcome(run: seq<State>, a: nat, b: nat)
    requires IsRun(run) && a < b < |run|
    requires run[a].producer.Checking? && !run[a + 1].producer.Checking?
    requires run[b].producer == Resting && forall k :: a <= k < b ==> !run[k].producer.Resting?
    ensures run[b].accepted
         == run[a].accepted + if |run[a].accepted| - Taken(run[a]) == 31 then [] else [run[a].producer.m]
  {
    hide Init, Kept;
    RunKeepsInv(run, a);
    assert Next(run[a], run[a + 1]);
    hide Next;
    NextPut(run[a], run[a + 1]);
    if run[a + 1].producer == Resting {
      StillResting(run, a + 1, b);
    } else {
      PutIsAccepted(run, a + 1, b);
    }
  }

  /** A get starts exactly when something is left to get. */
  lemma GetStarts(run: seq<State>, k: nat)
    requires IsRun(run) && k + 1 < |run| && run[k].consumer == Waiting
    requires Bounds(run[k]) && ConsumerStep(run[k], run[k + 1])
    ensures run[k + 1].consumer == Advancing <==> |run[k].got| < |run[k].accepted|
  {
    hide IsRun;
    RunKeepsInv(run, k);
    var s := run[k];
    RestIndices(s);
    IndexDistance(|s.got|, |s.accepted|);
  }

  /** And it ends with the oldest message accepted and not yet got. */
  lemma GetLoadsOldest(run: seq<State>, k: nat)
    requires IsRun(run) && k + 1 < |run| && run[k].consumer == Loading
    requires Bounds(run[k]) && ConsumerStep(run[k], run[k + 1])
    ensures |run[k].got| < |run[k].accepted|
    ensures run[k + 1].consumer == Waiting && run[k + 1].got == run[k].got + [Whole(run[k].accepted[|run[k].got|])]
  {
    hide IsRun;
    RunKeepsInv(run, k);
    LoadsNext(run[k]);
  }
}
