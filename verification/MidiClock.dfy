/** The MIDI clock that the codec interrupt derives from its buffers, in units of half a buffer. */
module MidiClock {

  const MIN_PERIOD := 80
  const MAX_PERIOD := 255 + 80

  datatype Clock = Clock(active: bool, period: int, counter: int, position: int) {
    predicate Valid() {
      MIN_PERIOD <= period <= MAX_PERIOD && 1 <= counter <= MAX_PERIOD
    }
  }

  const INITIAL := Clock(false, 125, 1, 0)

  /** What one audio buffer does to the clock. */
  function AfterBuffer(c: Clock): Clock {
    if !c.active then c
    else if c.counter - 2 <= 0 then c.(counter := c.counter - 2 + c.period, position := c.position + 1)
    else c.(counter := c.counter - 2)
  }

  predicate Ticks(c: Clock) {
    AfterBuffer(c).position != c.position
  }

  function Clamp(x: int): int {
    if x < MIN_PERIOD then MIN_PERIOD else if x > MAX_PERIOD then MAX_PERIOD else x
  }

  datatype Event = Buffer | AdjustBpm(value: int) | Start | Stop

  function After(c: Clock, e: Event): Clock {
    match e
    case Buffer => AfterBuffer(c)
    case AdjustBpm(v) => c.(period := Clamp(c.period - v))
    case Start => c.(active := true)
    case Stop => c.(active := false)
  }

  function AfterAll(c: Clock, events: seq<Event>): Clock
    decreases |events|
  {
    if events == [] then c else AfterAll(After(c, events[0]), events[1..])
  }

  /** The buffers of a run during which the clock was active. */
  function ActiveBuffers(c: Clock, events: seq<Event>): nat
    decreases |events|
  {
    if events == [] then 0
    else (if events[0] == Buffer && c.active then 1 else 0) + ActiveBuffers(After(c, events[0]), events[1..])
  }

  /** The periods in force at the ticks of a run, summed. */
  function PeriodsAdded(c: Clock, events: seq<Event>): int
    decreases |events|
  {
    if events == [] then 0
    else (if events[0] == Buffer && Ticks(c) then c.period else 0) + PeriodsAdded(After(c, events[0]), events[1..])
  }

  /** No run loses time: what the counter went down by is what the periods brought back. */
  lemma {:induction false} NoDrift(c: Clock, events: seq<Event>)
    requires c.Valid()
    ensures var d := AfterAll(c, events);
      && d.Valid()
      && d.counter + 2 * ActiveBuffers(c, events) - PeriodsAdded(c, events) == c.counter
    decreases |events|
  {
    if events == [] {
    } else {
      NoDrift(After(c, events[0]), events[1..]);
    }
  }

  function AfterBuffers(c: Clock, n: nat): Clock {
    if n == 0 then c else AfterBuffer(AfterBuffers(c, n - 1))
  }

  /** At a constant period, tick number `k` has happened exactly when `2 * n` half buffers have
    * used up the counter and `k` periods. */
  lemma {:induction false} TicksBy(c: Clock, n: nat, k: nat)
    requires c.active && c.counter >= 1 && c.period >= 2
    ensures AfterBuffers(c, n).position - c.position > k <==> 2 * n >= c.counter + k * c.period
  {
    hide AfterBuffers;
    var d := AfterBuffers(c, n);
    CounterAfter(c, n);
    TicksCompared(c.counter, d.counter, c.period, d.position - c.position, k, n);
  }

  lemma TicksCompared(counter: int, left: int, period: nat, t: int, k: nat, n: nat)
    requires left == counter + t * period - 2 * n
    requires left >= 1 && (t > 0 ==> left <= period)
    ensures t > k <==> 2 * n >= counter + k * period
  {
    if t > k {
      Scale(k, t - 1, period);
      assert t * period == (t - 1) * period + period;
    } else {
      Scale(t, k, period);
    }
  }

  lemma Scale(a: int, b: int, p: nat)
    requires a <= b
    ensures a * p <= b * p
  {
  }

  lemma {:induction false} CounterAfter(c: Clock, n: nat)
    requires c.active && c.counter >= 1 && c.period >= 2
    ensures var d := AfterBuffers(c, n); var t := d.position - c.position;
      && d.active && d.period == c.period && t >= 0 && d.counter >= 1
      && d.counter == c.counter + t * c.period - 2 * n
      && (t > 0 ==> d.counter <= c.period)
  {
    if n == 0 {
    } else {
      CounterAfter(c, n - 1);
      var d := AfterBuffers(c, n - 1);
      var t := d.position - c.position;
      assert (t + 1) * c.period == t * c.period + c.period;
    }
  }

  /** The buffer in which tick `k` falls, counting both from zero. */
  function TickBuffer(c: Clock, k: nat): int {
    (c.counter + k * c.period + 1) / 2 - 1
  }

  /** Tick `k` falls in its buffer, for as long as the period stays: never more than half a
    * buffer late, and the next tick comes a half period, rounded down or up, later. */
  lemma TickTimes(c: Clock, k: nat)
    requires c.active && c.counter >= 1 && c.period >= 2
    ensures var b := TickBuffer(c, k);
      && b >= 0
      && Ticks(AfterBuffers(c, b)) && AfterBuffers(c, b).position == c.position + k
      && 0 <= 2 * (b + 1) - (c.counter + k * c.period) <= 1
    ensures TickBuffer(c, k + 1) - TickBuffer(c, k) in {c.period / 2, (c.period + 1) / 2}
  {
    var b := TickBuffer(c, k);
    assert k * c.period >= 0;
    assert (k + 1) * c.period == k * c.period + c.period;
    TicksBy(c, b, k);
    TicksBy(c, b + 1, k);
    if k > 0 {
      assert (k - 1) * c.period == k * c.period - c.period;
      TicksBy(c, b, k - 1);
    } else {
      CounterAfter(c, b);
    }
  }

  /** A stopped clock stands still until it is started again, whatever else happens. */
  lemma {:induction false} StoppedStandsStill(c: Clock, events: seq<Event>)
    requires !c.active && Start !in events
    ensures var d := AfterAll(c, events); !d.active && d.counter == c.counter && d.position == c.position
    decreases |events|
  {
    if events == [] {
    } else {
      assert events[0] in events && forall e :: e in events[1..] ==> e in events;
      StoppedStandsStill(After(c, events[0]), events[1..]);
    }
  }

  /** A start makes it go on from where it stood, and a stop makes it stand still. */
  lemma StartAndStop(c: Clock)
    ensures After(c, Start) == Clock(true, c.period, c.counter, c.position)
    ensures After(c, Stop) == Clock(false, c.period, c.counter, c.position)
  {
  }

  /** From power-up, tick `k` after a start falls in buffer `125 * k / 2`: the first one at once. */
  lemma TicksFromPowerUp(k: nat)
    ensures INITIAL.position == 0
    ensures var c := After(INITIAL, Start);
      Ticks(AfterBuffers(c, 125 * k / 2)) && AfterBuffers(c, 125 * k / 2).position == k
  {
    hide AfterBuffers, Ticks;
    var c := After(INITIAL, Start);
    TickTimes(c, k);
    PowerUpBuffer(c, k);
  }

  lemma PowerUpBuffer(c: Clock, k: nat)
    requires c.counter == 1 && c.period == 125
    ensures TickBuffer(c, k) == 125 * k / 2
  {
    assert 1 + k * 125 + 1 == 125 * k + 2;
  }

  class ClockUnit {
    var active: bool
    var period: int
    var counter: int
    var position: int

    ghost function State(): Clock
      reads this
    {
      Clock(active, period, counter, position)
    }

    constructor ()
      ensures State() == INITIAL
    {
      active, period, counter, position := false, 125, 1, 0;
    }

    /** The clock part of the codec interrupt; `tick` tells whether it queues a timing clock message. */
    method OnBuffer() returns (tick: bool)
      modifies this
      ensures State() == old(AfterBuffer(State())) && tick == old(Ticks(State()))
    {
      tick := false;
      if active {
        counter := counter - 2;
        if counter <= 0 {
          counter := counter + period;
          position := position + 1;
          tick := true;
        }
      }
    }

    method Adjust(value: int)
      modifies this
      ensures State() == old(After(State(), AdjustBpm(value)))
      ensures MIN_PERIOD <= period <= MAX_PERIOD
      ensures 80 <= old(period) - value <= 335 ==> period == old(period) - value
      ensures old(period) - value < 80 ==> period == 80
      ensures old(period) - value > 335 ==> period == 335
    {
      period := period - value;
      if period < 80 {
        period := 80;
      }
      if period > 255 + 80 {
        period := 255 + 80;
      }
    }

    method StartStop(start: bool)
      modifies this
      ensures State() == old(After(State(), if start then Start else Stop))
    {
      active := start;
    }
  }
}
