/**
 * The alert state machine of a Scaler and one evaluation tick of its polling loop
 * (pkg/autoscaler/scaler.go).
 *
 * Time is an integer count of nanoseconds on the wall clock; Go's zero `time.Time`
 * is the explicit value `Unset`. Every tick reads the clock once, as `now`.
 */
module Autoscaler {
  import opened Options

  const MaxDuration: int := 0x7FFF_FFFF_FFFF_FFFF
  const MinDuration: int := -0x8000_0000_0000_0000

  /** Go's `time.Duration`: a signed 64-bit number of nanoseconds. */
  type Duration = d: int | MinDuration <= d <= MaxDuration

  /** A wall-clock reading; `Unset` is the zero `time.Time`. */
  datatype Time = Unset | At(instant: int)

  /** Go's `Sub` saturates instead of overflowing. */
  function Clamp(x: int): (d: Duration)
    ensures MinDuration <= x <= MaxDuration ==> d == x
    ensures x > MaxDuration ==> d == MaxDuration
    ensures x < MinDuration ==> d == MinDuration
  {
    if x > MaxDuration then MaxDuration else if x < MinDuration then MinDuration else x
  }

  /** `now.Sub(t)`: the zero time lies so far back that the difference saturates. */
  function Since(now: int, t: Time): Duration
  {
    match t
    case Unset => MaxDuration
    case At(x) => Clamp(now - x)
  }

  /** The persisted alert record, `model.Alert`. */
  datatype AlertRecord = AlertRecord(active: bool, startedAt: Time, firedAt: Time)

  const ZeroAlert := AlertRecord(false, Unset, Unset)

  /** The record together with the cached result of the last cooldown check. */
  datatype AlertState = AlertState(record: AlertRecord, cooling: bool)

  /** `reset`: back to inactive with both timestamps cleared; the cache is kept. */
  function AfterReset(s: AlertState): (r: AlertState)
    ensures !r.record.active && r.record.startedAt == Unset && r.record.firedAt == Unset
    ensures r.cooling == s.cooling
  {
    AlertState(ZeroAlert, s.cooling)
  }

  /** `start`: opens the alert window at `now`; the last fire time is kept. */
  function AfterStart(s: AlertState, now: int): (r: AlertState)
    ensures r.record.active && r.record.startedAt == At(now)
    ensures r.record.firedAt == s.record.firedAt && r.cooling == s.cooling
  {
    AlertState(AlertRecord(true, At(now), s.record.firedAt), s.cooling)
  }

  /** `shouldFire`: the condition has held for at least `duration`. */
  predicate Fireable(s: AlertState, now: int, duration: Duration)
  {
    s.record.active && Since(now, s.record.startedAt) >= duration
  }

  /** `isCoolingDown`: caches whether the last fire lies within `cooldown` of `now`. */
  function AfterCooldownCheck(s: AlertState, now: int, cooldown: Duration): (r: AlertState)
    ensures r.record == s.record
    ensures s.record.firedAt.Unset? ==> (r.cooling <==> cooldown == MaxDuration)
    ensures s.record.firedAt.At? && MinDuration <= now - s.record.firedAt.instant <= MaxDuration ==>
              (r.cooling <==> now - s.record.firedAt.instant <= cooldown)
  {
    s.(cooling := Since(now, s.record.firedAt) <= cooldown)
  }

  /** `fire`: records the fire time unless a cooldown was seen and a fire time exists. */
  function AfterFire(s: AlertState, at: int): (r: AlertState)
    ensures r.record.active == s.record.active && r.record.startedAt == s.record.startedAt
    ensures r.cooling == s.cooling
    ensures (s.record.firedAt.Unset? || !s.cooling) ==> r.record.firedAt == At(at)
    ensures (s.record.firedAt.At? && s.cooling) ==> r == s
  {
    if s.record.firedAt.Unset? || !s.cooling then s.(record := s.record.(firedAt := At(at))) else s
  }

  /** The overall outcome of one scale action: its request was sent at `at`, or it failed. */
  datatype Delivery = Failed | Delivered(at: int)

  /** `do`, sequentialised: each delivered action calls `fire` with its own delivery time. */
  function AfterDeliveries(s: AlertState, deliveries: seq<Delivery>): AlertState
    decreases |deliveries|
  {
    if deliveries == [] then s
    else
      var before := AfterDeliveries(s, deliveries[..|deliveries| - 1]);
      match deliveries[|deliveries| - 1]
      case Failed => before
      case Delivered(at) => AfterFire(before, at)
  }

  /** The metric backend's answer to the Scaler's query. */
  datatype Query = QueryFailed | EmptyResult | NonEmptyResult

  /** What the world supplies to one tick: the clock, the query outcome, the actions' outcomes. */
  datatype Tick = Tick(now: int, query: Query, deliveries: seq<Delivery>)

  /** The alert after a tick, and whether the tick dispatched the actions. */
  datatype Outcome = Outcome(state: AlertState, dispatched: bool)

  /** The body of the polling loop for one timer tick. */
  function AfterTick(s: AlertState, scalerActive: bool, duration: Duration, cooldown: Duration,
                     tick: Tick): Outcome
  {
    if !scalerActive || tick.query == QueryFailed then Outcome(s, false)
    else if tick.query == EmptyResult then Outcome(AfterReset(s), false)
    else
      var started := if s.record.active then s else AfterStart(s, tick.now);
      if !Fireable(started, tick.now, duration) then Outcome(started, false)
      else
        var checked := AfterCooldownCheck(started, tick.now, cooldown);
        if checked.cooling then Outcome(checked, false)
        else Outcome(AfterDeliveries(checked, tick.deliveries), true)
  }

  /** The time of the last delivered action, if any was delivered. */
  function LastDelivery(deliveries: seq<Delivery>): Option<int>
    decreases |deliveries|
  {
    if deliveries == [] then None
    else match deliveries[|deliveries| - 1]
      case Delivered(at) => Some(at)
      case Failed => LastDelivery(deliveries[..|deliveries| - 1])
  }

  /**
   * With no cooldown seen, every delivery advances the fire time, so the alert ends up
   * carrying the time of the last delivered action; nothing else changes.
   */
  lemma {:induction false} DeliveriesRecordLast(s: AlertState, deliveries: seq<Delivery>)
    requires !s.cooling
    ensures AfterDeliveries(s, deliveries) ==
              s.(record := s.record.(firedAt := match LastDelivery(deliveries)
                                                case Some(at) => At(at)
                                                case None => s.record.firedAt))
    decreases |deliveries|
  {
    if deliveries != [] {
      DeliveriesRecordLast(s, deliveries[..|deliveries| - 1]);
    }
  }

  /** Fires only ever touch the fire time: the window and the cooling cache stay as they were. */
  lemma {:induction false} DeliveriesKeepWindow(s: AlertState, deliveries: seq<Delivery>)
    ensures var r := AfterDeliveries(s, deliveries);
            r.record.active == s.record.active && r.record.startedAt == s.record.startedAt &&
            r.cooling == s.cooling
    decreases |deliveries|
  {
    if deliveries != [] {
      DeliveriesKeepWindow(s, deliveries[..|deliveries| - 1]);
    }
  }

  /** A single delivery is a single `fire`. */
  lemma OneDelivery(s: AlertState, at: int)
    ensures AfterDeliveries(s, [Delivered(at)]) == AfterFire(s, at)
  {
    assert [Delivered(at)][..0] == [];
  }

  /** While cooling with a fire time recorded, no number of fires moves it. */
  lemma {:induction false} DeliveriesWhileCooling(s: AlertState, deliveries: seq<Delivery>)
    requires s.cooling && s.record.firedAt.At?
    ensures AfterDeliveries(s, deliveries) == s
    decreases |deliveries|
  {
    if deliveries != [] {
      DeliveriesWhileCooling(s, deliveries[..|deliveries| - 1]);
    }
  }

  /** The alert of one Scaler: the shared `model.Alert` record and the cooling cache. */
  class Alert {
    var record: AlertRecord
    var cooling: bool

    function State(): AlertState
      reads this
    {
      AlertState(record, cooling)
    }

    /** `newScaler`: the alert decoded from configuration, or a zero one if there is none. */
    constructor (decoded: Option<AlertRecord>)
      ensures record == (if decoded.Some? then decoded.value else ZeroAlert)
      ensures !cooling
    {
      record := if decoded.Some? then decoded.value else ZeroAlert;
      cooling := false;
    }

    method IsActive() returns (r: bool)
      ensures r == record.active
    {
      r := record.active;
    }

    method ShouldFire(now: int, duration: Duration) returns (r: bool)
      ensures r <==> record.active && Since(now, record.startedAt) >= duration
      ensures !record.active ==> !r
      ensures record.active && record.startedAt.At? &&
              MinDuration <= now - record.startedAt.instant <= MaxDuration ==>
                (r <==> now - record.startedAt.instant >= duration)
    {
      r := record.active && Since(now, record.startedAt) >= duration;
    }

    method IsCoolingDown(now: int, cooldown: Duration) returns (r: bool)
      modifies this
      ensures State() == AfterCooldownCheck(old(State()), now, cooldown)
      ensures r == cooling
    {
      cooling := Since(now, record.firedAt) <= cooldown;
      r := cooling;
    }

    method Start(now: int)
      modifies this
      ensures State() == AfterStart(old(State()), now)
    {
      record := record.(startedAt := At(now));
      record := record.(active := true);
    }

    method Fire(at: int)
      modifies this
      ensures State() == AfterFire(old(State()), at)
    {
      if record.firedAt.Unset? || !cooling {
        record := record.(firedAt := At(at));
      }
    }

    method Reset()
      modifies this
      ensures State() == AfterReset(old(State()))
    {
      record := record.(startedAt := Unset);
      record := record.(active := false);
      record := record.(firedAt := Unset);
    }

    /** `do`: every action whose request went out calls `fire`, one after another. */
    method Do(deliveries: seq<Delivery>)
      modifies this
      ensures State() == AfterDeliveries(old(State()), deliveries)
    {
      var i := 0;
      while i < |deliveries|
        invariant 0 <= i <= |deliveries|
        invariant State() == AfterDeliveries(old(State()), deliveries[..i])
      {
        assert deliveries[..i + 1][..i] == deliveries[..i];
        if deliveries[i].Delivered? {
          Fire(deliveries[i].at);
        }
        i := i + 1;
      }
      assert deliveries[..i] == deliveries;
    }

    /** One tick of `run`: query outcome in, alert updated, actions dispatched or not. */
    method Tick(scalerActive: bool, duration: Duration, cooldown: Duration, tick: Tick)
      returns (dispatched: bool)
      modifies this
      ensures Outcome(State(), dispatched) == AfterTick(old(State()), scalerActive, duration, cooldown, tick)
    {
      dispatched := false;
      if !scalerActive || tick.query == QueryFailed {
        return;
      }
      if tick.query == EmptyResult {
        Reset();
        return;
      }
      var active := IsActive();
      if !active {
        Start(tick.now);
      }
      var due := ShouldFire(tick.now, duration);
      if due {
        var coolingDown := IsCoolingDown(tick.now, cooldown);
        if !coolingDown {
          Do(tick.deliveries);
          dispatched := true;
        }
      }
    }
  }
}
