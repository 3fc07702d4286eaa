/**
 * Properties of the alert state machine over one tick and over sequences of ticks,
 * the timing scenarios a Scaler is meant to follow, and the evaluation lock of `run`.
 */
module AutoscalerProperties {
  import opened Options
  import opened Autoscaler

  /** `StartedAt` is set exactly while the alert window is open. */
  predicate Consistent(r: AlertRecord)
  {
    r.active <==> r.startedAt.At?
  }

  /** The alert after a sequence of ticks of a Scaler whose configuration does not change. */
  function Run(s: AlertState, scalerActive: bool, duration: Duration, cooldown: Duration,
               ticks: seq<Tick>): AlertState
    decreases |ticks|
  {
    if ticks == [] then s
    else Run(AfterTick(s, scalerActive, duration, cooldown, ticks[0]).state,
             scalerActive, duration, cooldown, ticks[1..])
  }

  /** A tick of an inactive Scaler, or one whose query failed, changes nothing and dispatches nothing. */
  lemma SkippedTickChangesNothing(s: AlertState, scalerActive: bool, duration: Duration,
                                  cooldown: Duration, tick: Tick)
    requires !scalerActive || tick.query == QueryFailed
    ensures AfterTick(s, scalerActive, duration, cooldown, tick) == Outcome(s, false)
  {
  }

  /** An empty result resets the alert whatever it was, and dispatches nothing. */
  lemma EmptyResultResets(s: AlertState, duration: Duration, cooldown: Duration, tick: Tick)
    requires tick.query == EmptyResult
    ensures AfterTick(s, true, duration, cooldown, tick) == Outcome(AlertState(ZeroAlert, s.cooling), false)
  {
  }

  /**
   * A non-empty result opens the window at `now` only if it was closed; an open window keeps
   * its start time. The last fire time is kept unless the actions are dispatched.
   */
  lemma NonEmptyResultStartsOnce(s: AlertState, duration: Duration, cooldown: Duration, tick: Tick)
    requires tick.query == NonEmptyResult
    ensures var o := AfterTick(s, true, duration, cooldown, tick);
            o.state.record.active &&
            o.state.record.startedAt == (if s.record.active then s.record.startedAt else At(tick.now)) &&
            (!o.dispatched ==> o.state.record.firedAt == s.record.firedAt)
  {
    var started := if s.record.active then s else AfterStart(s, tick.now);
    DeliveriesKeepWindow(AfterCooldownCheck(started, tick.now, cooldown), tick.deliveries);
  }

  /** One tick keeps `StartedAt` set exactly while the window is open. */
  lemma TickKeepsConsistent(s: AlertState, scalerActive: bool, duration: Duration,
                            cooldown: Duration, tick: Tick)
    requires Consistent(s.record)
    ensures Consistent(AfterTick(s, scalerActive, duration, cooldown, tick).state.record)
  {
    if scalerActive && tick.query == NonEmptyResult {
      NonEmptyResultStartsOnce(s, duration, cooldown, tick);
    }
  }

  /**
   * Actions are dispatched exactly when the Scaler is active, the result is non-empty, the
   * condition has held for `duration` (counting from `now` for a window opened by this tick)
   * and the last fire is not within `cooldown`.
   */
  lemma DispatchCondition(s: AlertState, scalerActive: bool, duration: Duration, cooldown: Duration,
                          tick: Tick)
    ensures var start := if s.record.active then s.record.startedAt else At(tick.now);
            AfterTick(s, scalerActive, duration, cooldown, tick).dispatched <==>
              scalerActive && tick.query == NonEmptyResult &&
              Since(tick.now, start) >= duration &&
              !(Since(tick.now, s.record.firedAt) <= cooldown)
  {
  }

  /** `LastDelivery` names the time of some delivered action. */
  lemma {:induction false} LastDeliveryIsDelivered(deliveries: seq<Delivery>)
    requires LastDelivery(deliveries).Some?
    ensures exists i :: 0 <= i < |deliveries| && deliveries[i] == Delivered(LastDelivery(deliveries).value)
    decreases |deliveries|
  {
    var n := |deliveries| - 1;
    if deliveries[n].Failed? {
      LastDeliveryIsDelivered(deliveries[..n]);
      var i :| 0 <= i < n && deliveries[..n][i] == Delivered(LastDelivery(deliveries[..n]).value);
      assert deliveries[i] == deliveries[..n][i];
    }
  }

  /**
   * A dispatching tick leaves the alert open, cooling cleared, and its fire time set to that
   * of the last action that was delivered (unchanged when every action failed).
   */
  lemma DispatchRecordsLastDelivery(s: AlertState, scalerActive: bool, duration: Duration,
                                    cooldown: Duration, tick: Tick)
    requires AfterTick(s, scalerActive, duration, cooldown, tick).dispatched
    ensures var r := AfterTick(s, scalerActive, duration, cooldown, tick).state;
            r.record.active && !r.cooling &&
            r.record.startedAt == (if s.record.active then s.record.startedAt else At(tick.now)) &&
            r.record.firedAt == (match LastDelivery(tick.deliveries)
                                 case Some(at) => At(at)
                                 case None => s.record.firedAt)
  {
    var started := if s.record.active then s else AfterStart(s, tick.now);
    DeliveriesRecordLast(AfterCooldownCheck(started, tick.now, cooldown), tick.deliveries);
  }

  /**
   * After a tick whose last delivered action went out at `at`, no later tick dispatches while
   * the elapsed time since `at` is within the cooldown, whatever the query returns.
   */
  lemma NoRefireWithinCooldown(s: AlertState, duration: Duration, cooldown: Duration,
                               first: Tick, second: Tick)
    requires AfterTick(s, true, duration, cooldown, first).dispatched
    requires LastDelivery(first.deliveries).Some?
    requires Since(second.now, At(LastDelivery(first.deliveries).value)) <= cooldown
    ensures !AfterTick(AfterTick(s, true, duration, cooldown, first).state, true, duration, cooldown,
                       second).dispatched
  {
    DispatchRecordsLastDelivery(s, true, duration, cooldown, first);
  }

  /** No tick of the sequence dispatches the actions. */
  predicate Quiet(s: AlertState, scalerActive: bool, duration: Duration, cooldown: Duration,
                  ticks: seq<Tick>)
    decreases |ticks|
  {
    ticks == [] ||
    (!AfterTick(s, scalerActive, duration, cooldown, ticks[0]).dispatched &&
     Quiet(AfterTick(s, scalerActive, duration, cooldown, ticks[0]).state,
           scalerActive, duration, cooldown, ticks[1..]))
  }

  /**
   * Cooldown spacing over any trace: with a fire recorded at `t`, as long as no result is empty
   * and every tick lies within `cooldown` of `t`, no tick dispatches and `FiredAt` stays `t`.
   */
  lemma {:induction false} NoDispatchWithinCooldown(s: AlertState, scalerActive: bool,
                                                    duration: Duration, cooldown: Duration,
                                                    t: int, ticks: seq<Tick>)
    requires s.record.firedAt == At(t)
    requires forall i :: 0 <= i < |ticks| ==>
               ticks[i].query != EmptyResult && Since(ticks[i].now, At(t)) <= cooldown
    ensures Quiet(s, scalerActive, duration, cooldown, ticks)
    ensures Run(s, scalerActive, duration, cooldown, ticks).record.firedAt == At(t)
    decreases |ticks|
  {
    if ticks != [] {
      var o := AfterTick(s, scalerActive, duration, cooldown, ticks[0]);
      if scalerActive && ticks[0].query == NonEmptyResult {
        NonEmptyResultStartsOnce(s, duration, cooldown, ticks[0]);
      }
      assert !o.dispatched && o.state.record.firedAt == At(t);
      assert forall i :: 0 <= i < |ticks| - 1 ==> ticks[1..][i] == ticks[i + 1];
      NoDispatchWithinCooldown(o.state, scalerActive, duration, cooldown, t, ticks[1..]);
    }
  }

  /**
   * A reset clears `FiredAt`, so an empty result ends the cooldown early: with duration 0 and
   * cooldown 60s, hits at 0 and 20 with an empty result at 10 both dispatch.
   */
  lemma ResetEndsCooldown()
    ensures var d, c, init := 0, 60 * Second, AlertState(ZeroAlert, false);
            var o0 := AfterTick(init, true, d, c, Hit(0));
            var o10 := AfterTick(o0.state, true, d, c, Miss(10));
            var o20 := AfterTick(o10.state, true, d, c, Hit(20));
            o0.dispatched && !o10.dispatched && o20.dispatched
  {
    var d, c := 0, 60 * Second;
    var open := AlertState(AlertRecord(true, At(0), Unset), false);
    OneDelivery(open, 0);
    var o0 := AfterTick(AlertState(ZeroAlert, false), true, d, c, Hit(0));
    assert o0.dispatched;
    var o10 := AfterTick(o0.state, true, d, c, Miss(10));
    assert o10.state == AlertState(ZeroAlert, false);
    var reopened := AlertState(AlertRecord(true, At(20 * Second), Unset), false);
    OneDelivery(reopened, 20 * Second);
    assert AfterTick(o10.state, true, d, c, Hit(20)).dispatched;
  }

  /** A Scaler whose window opened at `t0` does not dispatch before `t0 + duration`. */
  lemma NoDispatchBeforeDuration(s: AlertState, scalerActive: bool, duration: Duration,
                                 cooldown: Duration, tick: Tick)
    requires s.record.active && s.record.startedAt.At?
    requires s.record.startedAt.instant <= tick.now < s.record.startedAt.instant + duration
    ensures !AfterTick(s, scalerActive, duration, cooldown, tick).dispatched
  {
  }

  /** The duration check is inclusive: false one nanosecond early, true on the dot. */
  lemma FireableExactlyAtDuration(s: AlertState, duration: Duration)
    requires s.record.active && s.record.startedAt.At? && 0 < duration
    ensures !Fireable(s, s.record.startedAt.instant + duration - 1, duration)
    ensures Fireable(s, s.record.startedAt.instant + duration, duration)
  {
  }

  /** Over any sequence of ticks, `StartedAt` stays set exactly while the window is open. */
  lemma {:induction false} RunKeepsConsistent(s: AlertState, scalerActive: bool, duration: Duration,
                                              cooldown: Duration, ticks: seq<Tick>)
    requires Consistent(s.record)
    ensures Consistent(Run(s, scalerActive, duration, cooldown, ticks).record)
    decreases |ticks|
  {
    if ticks != [] {
      TickKeepsConsistent(s, scalerActive, duration, cooldown, ticks[0]);
      RunKeepsConsistent(AfterTick(s, scalerActive, duration, cooldown, ticks[0]).state,
                         scalerActive, duration, cooldown, ticks[1..]);
    }
  }

  /** A fire time is not later than `now`. */
  predicate FiredBy(r: AlertRecord, now: int)
  {
    r.firedAt.Unset? || r.firedAt.instant <= now
  }

  /** Time `a` is set and not earlier than `b`, or `b` is unset. */
  predicate NotEarlier(a: Time, b: Time)
  {
    b.Unset? || (a.At? && a.instant >= b.instant)
  }

  /**
   * Except on a reset, `FiredAt` never moves back: a tick that does not see an empty result
   * keeps it or advances it to a delivery time, provided deliveries happen no earlier than
   * the tick and the recorded fire time is not in the future.
   */
  lemma FiredAtNonDecreasing(s: AlertState, scalerActive: bool, duration: Duration,
                             cooldown: Duration, tick: Tick)
    requires tick.query != EmptyResult
    requires FiredBy(s.record, tick.now)
    requires forall i :: 0 <= i < |tick.deliveries| && tick.deliveries[i].Delivered? ==>
               tick.deliveries[i].at >= tick.now
    ensures NotEarlier(AfterTick(s, scalerActive, duration, cooldown, tick).state.record.firedAt,
                       s.record.firedAt)
  {
    var o := AfterTick(s, scalerActive, duration, cooldown, tick);
    if o.dispatched {
      DispatchRecordsLastDelivery(s, scalerActive, duration, cooldown, tick);
      if LastDelivery(tick.deliveries).Some? {
        LastDeliveryIsDelivered(tick.deliveries);
      }
    }
  }

  /**
   * With a duration and cooldown of 0 (what an unparsable configuration string becomes), the
   * first non-empty result dispatches at once, and so does every later one that comes after
   * the last delivery.
   */
  lemma ZeroDurationsDispatchEveryTick(s: AlertState, tick: Tick)
    requires tick.query == NonEmptyResult
    requires s.record.active ==> s.record.startedAt.At? && s.record.startedAt.instant <= tick.now
    requires s.record.firedAt.At? ==> s.record.firedAt.instant < tick.now
    requires s.record.firedAt.At? ==> tick.now - s.record.firedAt.instant <= MaxDuration
    requires s.record.active ==> tick.now - s.record.startedAt.instant <= MaxDuration
    ensures AfterTick(s, true, 0, 0, tick).dispatched
  {
  }

  const Second: int := 1_000_000_000

  /** A non-empty tick at `t` seconds whose single action is delivered at once. */
  function Hit(t: int): Tick
  {
    Tick(t * Second, NonEmptyResult, [Delivered(t * Second)])
  }

  /** An empty-result tick at `t` seconds. */
  function Miss(t: int): Tick
  {
    Tick(t * Second, EmptyResult, [])
  }

  /**
   * Duration 30s, cooldown 60s, non-empty results every 10s from t=0: the window opens at 0,
   * the actions go out at 30 and not at 40; at 90 the fire is exactly 60s old and still
   * cooling, and at 100 the actions go out again.
   */
  lemma ScenarioFireThenCooldown()
    ensures var d, c, init := 30 * Second, 60 * Second, AlertState(ZeroAlert, false);
            var o0 := AfterTick(init, true, d, c, Hit(0));
            var o10 := AfterTick(o0.state, true, d, c, Hit(10));
            var o20 := AfterTick(o10.state, true, d, c, Hit(20));
            var o30 := AfterTick(o20.state, true, d, c, Hit(30));
            var o40 := AfterTick(o30.state, true, d, c, Hit(40));
            var o90 := AfterTick(o40.state, true, d, c, Hit(90));
            var o100 := AfterTick(o90.state, true, d, c, Hit(100));
            o0.state.record.startedAt == At(0) &&
            !o0.dispatched && !o10.dispatched && !o20.dispatched &&
            o30.dispatched && o30.state.record.firedAt == At(30 * Second) &&
            !o40.dispatched && !o90.dispatched &&
            o100.dispatched && o100.state.record.firedAt == At(100 * Second)
  {
    var d, c := 30 * Second, 60 * Second;
    var open := AlertRecord(true, At(0), Unset);
    var o0 := AfterTick(AlertState(ZeroAlert, false), true, d, c, Hit(0));
    assert o0 == Outcome(AlertState(open, false), false);
    assert AfterTick(o0.state, true, d, c, Hit(10)) == o0;
    assert AfterTick(o0.state, true, d, c, Hit(20)) == o0;
    OneDelivery(AlertState(open, false), 30 * Second);
    var fired := AlertState(open.(firedAt := At(30 * Second)), false);
    var o30 := AfterTick(o0.state, true, d, c, Hit(30));
    assert o30 == Outcome(fired, true);
    var cooling := fired.(cooling := true);
    var o40 := AfterTick(fired, true, d, c, Hit(40));
    assert o40 == Outcome(cooling, false);
    var o90 := AfterTick(cooling, true, d, c, Hit(90));
    assert o90 == Outcome(cooling, false);
    OneDelivery(fired, 100 * Second);
    var o100 := AfterTick(cooling, true, d, c, Hit(100));
    assert o100 == Outcome(fired.(record := open.(firedAt := At(100 * Second))), true);
  }

  /**
   * Non-empty at 0 and 10, empty at 20, non-empty again from 30: the reset at 20 clears the
   * window, it reopens at 30, and with a 30s duration the actions go out first at 60.
   */
  lemma ScenarioResetRestartsWindow()
    ensures var d, c, init := 30 * Second, 60 * Second, AlertState(ZeroAlert, false);
            var o0 := AfterTick(init, true, d, c, Hit(0));
            var o10 := AfterTick(o0.state, true, d, c, Hit(10));
            var o20 := AfterTick(o10.state, true, d, c, Miss(20));
            var o30 := AfterTick(o20.state, true, d, c, Hit(30));
            var o40 := AfterTick(o30.state, true, d, c, Hit(40));
            var o50 := AfterTick(o40.state, true, d, c, Hit(50));
            var o60 := AfterTick(o50.state, true, d, c, Hit(60));
            o20.state.record == ZeroAlert &&
            o30.state.record.startedAt == At(30 * Second) &&
            !o30.dispatched && !o40.dispatched && !o50.dispatched &&
            o60.dispatched
  {
    var d, c := 30 * Second, 60 * Second;
    var o0 := AfterTick(AlertState(ZeroAlert, false), true, d, c, Hit(0));
    assert o0 == Outcome(AlertState(AlertRecord(true, At(0), Unset), false), false);
    assert AfterTick(o0.state, true, d, c, Hit(10)) == o0;
    var o20 := AfterTick(o0.state, true, d, c, Miss(20));
    assert o20 == Outcome(AlertState(ZeroAlert, false), false);
    var reopened := AlertState(AlertRecord(true, At(30 * Second), Unset), false);
    var o30 := AfterTick(o20.state, true, d, c, Hit(30));
    assert o30 == Outcome(reopened, false);
    assert AfterTick(reopened, true, d, c, Hit(40)) == o30;
    assert AfterTick(reopened, true, d, c, Hit(50)) == o30;
    OneDelivery(reopened, 60 * Second);
    assert AfterTick(reopened, true, d, c, Hit(60)).dispatched;
  }

  /**
   * The polling loop's state around its evaluation lock `s.mtx` (a non-reentrant mutex held
   * by the loop's own goroutine): `locked` says it is held, `blocked` that the loop is stuck
   * waiting for it and will never run another tick.
   */
  datatype LoopState = LoopState(alert: AlertState, locked: bool, blocked: bool)

  /**
   * The loop body as written: the empty-result branch leaves with `continue` while still
   * holding the lock, so the next tick that reaches `Lock` waits on itself forever.
   */
  function TickAsWritten(st: LoopState, scalerActive: bool, duration: Duration, cooldown: Duration,
                         tick: Tick): LoopState
  {
    if st.blocked then st
    else if !scalerActive || tick.query == QueryFailed then st
    else if st.locked then st.(blocked := true)
    else if tick.query == EmptyResult then LoopState(AfterReset(st.alert), true, false)
    else LoopState(AfterTick(st.alert, scalerActive, duration, cooldown, tick).state, false, false)
  }

  /** The loop body with the lock released on every path out of the critical section. */
  function TickReleasing(st: LoopState, scalerActive: bool, duration: Duration, cooldown: Duration,
                         tick: Tick): LoopState
  {
    if st.blocked then st
    else if !scalerActive || tick.query == QueryFailed then st
    else if st.locked then st.(blocked := true)
    else LoopState(AfterTick(st.alert, scalerActive, duration, cooldown, tick).state, false, false)
  }

  /**
   * As written: one empty result followed by one successful query leaves the loop blocked,
   * and from then on no tick changes the alert any more.
   */
  lemma AsWrittenBlocksAfterEmptyResult(s: AlertState, duration: Duration, cooldown: Duration,
                                        empty: Tick, next: Tick, later: Tick)
    requires empty.query == EmptyResult && next.query != QueryFailed
    ensures var st0 := LoopState(s, false, false);
            var st1 := TickAsWritten(st0, true, duration, cooldown, empty);
            var st2 := TickAsWritten(st1, true, duration, cooldown, next);
            st1.locked && st2.blocked && st2.alert == AfterReset(s) &&
            TickAsWritten(st2, true, duration, cooldown, later) == st2
  {
  }

  /** Loop states after a sequence of ticks of the corrected loop body. */
  function RunReleasing(st: LoopState, scalerActive: bool, duration: Duration, cooldown: Duration,
                        ticks: seq<Tick>): LoopState
    decreases |ticks|
  {
    if ticks == [] then st
    else RunReleasing(TickReleasing(st, scalerActive, duration, cooldown, ticks[0]),
                      scalerActive, duration, cooldown, ticks[1..])
  }

  /**
   * Corrected: starting unlocked, the loop never holds the lock between ticks, never blocks,
   * and its alert follows the lock-free tick function over any sequence of ticks.
   */
  lemma {:induction false} ReleasingNeverBlocks(s: AlertState, scalerActive: bool, duration: Duration,
                                                cooldown: Duration, ticks: seq<Tick>)
    ensures RunReleasing(LoopState(s, false, false), scalerActive, duration, cooldown, ticks) ==
            LoopState(Run(s, scalerActive, duration, cooldown, ticks), false, false)
    decreases |ticks|
  {
    if ticks != [] {
      ReleasingNeverBlocks(AfterTick(s, scalerActive, duration, cooldown, ticks[0]).state,
                           scalerActive, duration, cooldown, ticks[1..]);
    }
  }
}
