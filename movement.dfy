/** The movement-duration tracker of src/movement.rs: an optional window of
    (first movement, last movement) timestamps that turns discrete movement
    interrupts into a "10 s of movement" verdict, and drops a window that has
    stayed open too long without becoming sustained.

    The firmware reads `Instant::now()` inside both operations; here the clock
    reading is the parameter `now`, taken from a monotonic clock. */
module MovementTracker {
  import opened Prelude

  /** An `Instant`, counted in microseconds since boot. */
  type Timestamp = nat

  /** `Duration::from_secs(10)`: a span strictly longer than this is sustained movement. */
  const SustainThreshold: nat := 10_000_000

  /** `Duration::from_secs(20)`: a window open strictly longer than this is dropped. */
  const StaleThreshold: nat := 20_000_000

  /** `MovementInner`. The Rust struct derives `Copy`, so binding it out of the
      `Option` yields a copy; a Dafny datatype value behaves the same way. */
  datatype Window = Window(first: Timestamp, last: Timestamp)

  /** A window never ends before it starts. */
  predicate WindowValid(w: Option<Window>)
  {
    w.Some? ==> w.value.first <= w.value.last
  }

  /** The window's two ends are the same instant. */
  predicate Collapsed(w: Option<Window>)
  {
    w.Some? ==> w.value.first == w.value.last
  }

  /** The tracker's window after `register_move` at `now`, as the firmware does it:
      an empty tracker opens a window at `now`; an open window stays exactly as it
      was, because the update of `ts_last_movement` is made on a copy. */
  function AfterRegister(w: Option<Window>, now: Timestamp): (w': Option<Window>)
    ensures w'.Some?
    ensures w.None? ==> w'.value == Window(now, now)
    ensures w.Some? ==> w' == w
    ensures WindowValid(w) ==> WindowValid(w')
    ensures Collapsed(w) ==> Collapsed(w')
  {
    if w.Some? then w else Some(Window(now, now))
  }

  /** `is_10s_movement` at `now`: the verdict, and the window left behind. */
  function Evaluate(w: Option<Window>, now: Timestamp): (r: (bool, Option<Window>))
    requires WindowValid(w)
    requires w.Some? ==> w.value.first <= now
    ensures r.0 <==> w.Some? && w.value.last - w.value.first > SustainThreshold
    ensures r.1 == None <==> w.None? || (!r.0 && now - w.value.first > StaleThreshold)
    ensures r.1 != None ==> r.1 == w
    ensures WindowValid(r.1)
  {
    match w
    case None => (false, None)
    case Some(movement) =>
      if movement.last - movement.first > SustainThreshold then (true, w)
      else if now - movement.first > StaleThreshold then (false, None)
      else (false, w)
  }

  /** A collapsed window is never sustained movement. */
  lemma CollapsedNeverSustained(w: Option<Window>, now: Timestamp)
    requires WindowValid(w) && Collapsed(w)
    requires w.Some? ==> w.value.first <= now
    ensures !Evaluate(w, now).0
    ensures Collapsed(Evaluate(w, now).1)
  {
  }

  /** The tracker `Movement` of src/movement.rs. */
  class Movement {
    var movement: Option<Window>

    ghost predicate Valid()
      reads this
    {
      WindowValid(movement)
    }

    /** `Movement::new`: no window is open. */
    constructor ()
      ensures movement == None
      ensures Valid() && Collapsed(movement)
    {
      movement := None;
    }

    /** `register_move`, called on each accelerometer movement interrupt. */
    method RegisterMove(now: Timestamp)
      requires Valid()
      modifies this
      ensures Valid()
      ensures movement == AfterRegister(old(movement), now)
      ensures old(movement).None? ==> movement == Some(Window(now, now))
      ensures old(movement).Some? ==> movement == old(movement)
    {
      if movement.Some? {
        var copy := movement.value;
        copy := copy.(last := now);
      } else {
        movement := Some(Window(now, now));
      }
    }

    /** `is_10s_movement`: reports sustained movement, and drops a stale window. */
    method Is10sMovement(now: Timestamp) returns (sustained: bool)
      requires Valid()
      requires movement.Some? ==> movement.value.first <= now
      modifies this
      ensures Valid()
      ensures (sustained, movement) == Evaluate(old(movement), now)
      ensures old(Collapsed(movement)) ==> !sustained && Collapsed(movement)
    {
      if movement.Some? {
        var inner := movement.value;
        if inner.last - inner.first > SustainThreshold {
          return true;
        } else if now - inner.first > StaleThreshold {
          movement := None;
        }
      }
      return false;
    }
  }

  /** A call on the tracker, with the clock reading the firmware would take. */
  datatype Call = RegisterMove(now: Timestamp) | Is10sMovement(now: Timestamp)

  /** The clock readings of a call sequence never go backwards. */
  ghost predicate Monotonic(calls: seq<Call>)
  {
    forall i, j :: 0 <= i < j < |calls| ==> calls[i].now <= calls[j].now
  }

  /** Every clock reading of `calls` is at or after the start of the open window. */
  ghost predicate StartsBefore(w: Option<Window>, calls: seq<Call>)
  {
    w.Some? ==> forall i :: 0 <= i < |calls| ==> w.value.first <= calls[i].now
  }

  /** The window after one call, and the verdict it reports (none for `register_move`). */
  function Apply(w: Option<Window>, c: Call): (r: (Option<Window>, seq<bool>))
    requires WindowValid(w)
    requires w.Some? ==> w.value.first <= c.now
    ensures WindowValid(r.0)
    ensures r.0.Some? ==> r.0.value.first <= c.now
    ensures |r.1| == if c.Is10sMovement? then 1 else 0
  {
    match c
    case RegisterMove(now) => (AfterRegister(w, now), [])
    case Is10sMovement(now) => var (v, w') := Evaluate(w, now); (w', [v])
  }

  /** The window after a sequence of calls, and the verdicts of its `is_10s_movement` calls in order. */
  function Replay(w: Option<Window>, calls: seq<Call>): (r: (Option<Window>, seq<bool>))
    requires WindowValid(w) && Monotonic(calls) && StartsBefore(w, calls)
    ensures WindowValid(r.0)
    decreases |calls|
  {
    if calls == [] then (w, [])
    else
      var (w1, out1) := Apply(w, calls[0]);
      var (w2, out2) := Replay(w1, calls[1..]);
      (w2, out1 + out2)
  }

  /** From a collapsed window (in particular from `Movement::new`), no sequence of
      calls ever opens a window whose ends differ, so `is_10s_movement` never
      reports sustained movement. */
  lemma {:induction false} NeverSustained(w: Option<Window>, calls: seq<Call>)
    requires WindowValid(w) && Collapsed(w) && Monotonic(calls) && StartsBefore(w, calls)
    ensures Collapsed(Replay(w, calls).0)
    ensures true !in Replay(w, calls).1
    decreases |calls|
  {
    if calls != [] {
      var (w1, out1) := Apply(w, calls[0]);
      if calls[0].Is10sMovement? {
        CollapsedNeverSustained(w, calls[0].now);
      }
      assert Collapsed(w1) && true !in out1;
      NeverSustained(w1, calls[1..]);
    }
  }

  /** Starting from a freshly created tracker, `is_10s_movement` never returns true. */
  lemma NeverSustainedFromNew(calls: seq<Call>)
    requires Monotonic(calls)
    ensures true !in Replay(None, calls).1
  {
    NeverSustained(None, calls);
  }

  /** `register_move` as the comment of `is_10s_movement` intends it: an open
      window's last movement moves to `now`. */
  function AfterRegisterIntended(w: Option<Window>, now: Timestamp): (w': Option<Window>)
    requires w.Some? ==> w.value.first <= now
    ensures w'.Some? && w'.value.last == now
    ensures w'.value.first == if w.Some? then w.value.first else now
    ensures WindowValid(w')
  {
    match w
    case Some(movement) => Some(movement.(last := now))
    case None => Some(Window(now, now))
  }

  /** With the intended update, a movement registered more than 10 s after the
      first movement of the open window makes `is_10s_movement` report it, and
      one registered within 10 s does not. */
  lemma IntendedSustained(w: Option<Window>, t: Timestamp, now: Timestamp)
    requires w.Some? ==> w.value.first <= t
    requires t <= now
    ensures Evaluate(AfterRegisterIntended(w, t), now).0
            <==> w.Some? && t - w.value.first > SustainThreshold
  {
  }

  /** Movement at t = 0 s and again at t = 10.000001 s: the intended update reports
      sustained movement at the second instant, the firmware as written does not. */
  lemma AsWrittenMissesSustained()
    ensures Evaluate(AfterRegisterIntended(AfterRegisterIntended(None, 0), 10_000_001), 10_000_001).0
    ensures !Evaluate(AfterRegister(AfterRegister(None, 0), 10_000_001), 10_000_001).0
  {
  }

  /** A movement at t = 0 s followed by an evaluation at t = 21 s drops the window,
      after which the next movement opens a fresh window. */
  lemma StaleWindowDropped(t0: Timestamp, now: Timestamp, t1: Timestamp)
    requires t0 <= now <= t1
    requires now - t0 > StaleThreshold
    ensures Evaluate(AfterRegister(None, t0), now) == (false, None)
    ensures AfterRegister(Evaluate(AfterRegister(None, t0), now).1, t1) == Some(Window(t1, t1))
  {
  }
}
