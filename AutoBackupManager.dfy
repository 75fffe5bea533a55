/** `AutoBackupManager`: a server-tick listener that, every twentieth
    end-of-tick, starts a backup once enough minutes have passed since the
    last automatic one. */
module AutoBackupManager {
  import opened Java

  /** Milliseconds per minute, the unit of `autoBackupInterval`. */
  const MILLIS_PER_MINUTE: int := 60000
  /** End-of-tick events between two checks of the clock. */
  const TICKS_PER_CHECK: int := 20

  datatype Phase = Start | End

  /** A `ServerTickEvent` together with the two `currentTimeMillis()`
      readings `tick` may take: `now` in the test, `after` once the backup
      has been started. */
  datatype TickEvent = TickEvent(phase: Phase, now: long, after: long)

  /** The listener's two fields. */
  datatype TickState = TickState(lastBackup: long, tick: int32)
  {
    /** The counter is reset once it reaches twenty, so `tick++` never
        overflows, provided `doBackup` returns normally; `Step` assumes it
        does. */
    predicate Valid() { 0 <= tick < TICKS_PER_CHECK }
  }

  /** The fields as the listener is constructed. */
  const Initial: TickState := TickState(0, 0)

  /** What one event does: the new fields, and whether `doBackup` ran. */
  datatype TickOutcome = TickOutcome(state: TickState, started: bool)

  /** The interval test `(currentTimeMillis() - lastBackup) / 60000 >=
      autoBackupInterval`, with Java's wrapping subtraction and truncating
      division on `long`. */
  predicate Due(lastBackup: long, now: long, interval: int32)
  {
    TruncDiv(LongSub(now, lastBackup), MILLIS_PER_MINUTE) >= interval
  }

  /** One call of `tick`. */
  function Step(s: TickState, ev: TickEvent, interval: int32): (r: TickOutcome)
    requires s.Valid()
    ensures r.state.Valid()
    ensures ev.phase != End ==> r == TickOutcome(s, false)
    ensures ev.phase == End && s.tick + 1 < TICKS_PER_CHECK ==>
      r == TickOutcome(s.(tick := s.tick + 1), false)
    ensures ev.phase == End && s.tick + 1 == TICKS_PER_CHECK ==>
      r.state.tick == 0 && (r.started <==> Due(s.lastBackup, ev.now, interval))
    ensures r.started ==> r.state.lastBackup == ev.after
    ensures !r.started ==> r.state.lastBackup == s.lastBackup
  {
    if ev.phase != End then TickOutcome(s, false)
    else
      var tick := s.tick + 1;
      if tick >= TICKS_PER_CHECK then
        if Due(s.lastBackup, ev.now, interval) then TickOutcome(TickState(ev.after, 0), true)
        else TickOutcome(TickState(s.lastBackup, 0), false)
      else TickOutcome(s.(tick := tick), false)
  }

  /** The fields after a sequence of events. */
  function RunTicks(s: TickState, evs: seq<TickEvent>, interval: int32): (r: TickState)
    requires s.Valid()
    ensures r.Valid()
  {
    if evs == [] then s
    else Step(RunTicks(s, evs[..|evs| - 1], interval), evs[|evs| - 1], interval).state
  }

  /** Whether event `k` of the sequence starts a backup. */
  predicate StartedAt(s: TickState, evs: seq<TickEvent>, interval: int32, k: nat)
    requires s.Valid() && k < |evs|
  {
    Step(RunTicks(s, evs[..k], interval), evs[k], interval).started
  }

  /** The number of end-of-tick events in a sequence. */
  function EndCount(evs: seq<TickEvent>): nat
  {
    if evs == [] then 0
    else EndCount(evs[..|evs| - 1]) + (if evs[|evs| - 1].phase == End then 1 else 0)
  }

  lemma RunTicksSnoc(s: TickState, evs: seq<TickEvent>, interval: int32, k: nat)
    requires s.Valid() && k < |evs|
    ensures RunTicks(s, evs[..k + 1], interval) == Step(RunTicks(s, evs[..k], interval), evs[k], interval).state
    ensures EndCount(evs[..k + 1]) == EndCount(evs[..k]) + if evs[k].phase == End then 1 else 0
  {
    assert evs[..k + 1][..k] == evs[..k];
  }

  /** The counter is the number of end-of-tick events seen so far, modulo
      twenty. */
  lemma {:induction false} TickCountsEnds(s: TickState, evs: seq<TickEvent>, interval: int32)
    requires s.Valid()
    ensures RunTicks(s, evs, interval).tick == (s.tick + EndCount(evs)) % TICKS_PER_CHECK
  {
    if evs != [] {
      TickCountsEnds(s, evs[..|evs| - 1], interval);
    }
  }

  /** A backup starts only on an end-of-tick event whose count, from the
      counter's starting value, is a multiple of twenty. */
  lemma StartsOnlyOnChecks(s: TickState, evs: seq<TickEvent>, interval: int32, k: nat)
    requires s.Valid() && k < |evs| && StartedAt(s, evs, interval, k)
    ensures evs[k].phase == End
    ensures (s.tick + EndCount(evs[..k + 1])) % TICKS_PER_CHECK == 0
  {
    RunTicksSnoc(s, evs, interval, k);
    TickCountsEnds(s, evs[..k + 1], interval);
  }

  /** Until the first automatic backup, `lastBackup` keeps its initial
      value. */
  lemma {:induction false} LastBackupUntilFirstStart(s: TickState, evs: seq<TickEvent>, interval: int32, k: nat)
    requires s.Valid() && k <= |evs|
    requires forall i :: 0 <= i < k ==> !StartedAt(s, evs, interval, i)
    ensures RunTicks(s, evs[..k], interval).lastBackup == s.lastBackup
  {
    if k > 0 {
      LastBackupUntilFirstStart(s, evs, interval, k - 1);
      RunTicksSnoc(s, evs, interval, k - 1);
      assert !StartedAt(s, evs, interval, k - 1);
    } else {
      assert evs[..k] == [];
    }
  }

  /** Since `lastBackup` starts at zero, the first check after the listener
      is constructed starts a backup exactly when the clock reads at least
      `autoBackupInterval` minutes past the epoch. */
  lemma FirstCheckSinceStart(evs: seq<TickEvent>, interval: int32, k: nat)
    requires k < |evs| && evs[k].now >= 0
    requires forall i :: 0 <= i < k ==> !StartedAt(Initial, evs, interval, i)
    requires evs[k].phase == End && EndCount(evs[..k]) == TICKS_PER_CHECK - 1
    ensures StartedAt(Initial, evs, interval, k) <==> evs[k].now >= interval * MILLIS_PER_MINUTE
  {
    LastBackupUntilFirstStart(Initial, evs, interval, k);
    TickCountsEnds(Initial, evs[..k], interval);
    TruncDivAtLeast(evs[k].now, MILLIS_PER_MINUTE, interval as int);
  }

  /** A clock that never goes back and does not read before the epoch. */
  ghost predicate MonotoneClock(evs: seq<TickEvent>)
  {
    (forall i :: 0 <= i < |evs| ==> 0 <= evs[i].now <= evs[i].after) &&
    (forall i, j :: 0 <= i < j < |evs| ==> evs[i].after <= evs[j].now)
  }

  /** Once event `i` has started a backup, `lastBackup` is never earlier
      than the time recorded for it, and never later than the next
      reading. */
  lemma {:induction false} LastBackupBetween(s: TickState, evs: seq<TickEvent>, interval: int32, i: nat, k: nat)
    requires s.Valid() && MonotoneClock(evs) && i < k <= |evs|
    requires StartedAt(s, evs, interval, i)
    ensures evs[i].after <= RunTicks(s, evs[..k], interval).lastBackup
    ensures k < |evs| ==> RunTicks(s, evs[..k], interval).lastBackup <= evs[k].now
  {
    RunTicksSnoc(s, evs, interval, k - 1);
    if k - 1 > i {
      LastBackupBetween(s, evs, interval, i, k - 1);
    }
  }

  /** Under a clock that never goes back, any two automatic backups start
      at least `autoBackupInterval` minutes apart: the later test reads at
      least that long after the time recorded for the earlier backup. */
  lemma StartsAreIntervalApart(s: TickState, evs: seq<TickEvent>, interval: int32, i: nat, j: nat)
    requires s.Valid() && MonotoneClock(evs) && i < j < |evs|
    requires StartedAt(s, evs, interval, i) && StartedAt(s, evs, interval, j)
    ensures evs[j].now - evs[i].after >= interval * MILLIS_PER_MINUTE
    ensures evs[j].now - evs[i].now >= interval * MILLIS_PER_MINUTE
  {
    LastBackupBetween(s, evs, interval, i, j);
    var last := RunTicks(s, evs[..j], interval).lastBackup;
    assert Due(last, evs[j].now, interval);
    TruncDivAtLeast(evs[j].now - last, MILLIS_PER_MINUTE, interval as int);
  }

  /** The listener object. */
  class AutoBackupManager {
    var lastBackup: long
    var tick: int32

    ghost predicate Valid()
      reads this
    {
      TickState(lastBackup, tick).Valid()
    }

    constructor ()
      ensures TickState(lastBackup, tick) == Initial && Valid()
    {
      lastBackup := 0;
      tick := 0;
    }

    /** `tick(event)`; `started` says whether `doBackup` was called. */
    method Tick(ev: TickEvent, interval: int32) returns (started: bool)
      requires Valid()
      modifies this
      ensures Valid()
      ensures TickOutcome(TickState(lastBackup, tick), started) ==
        Step(old(TickState(lastBackup, tick)), ev, interval)
    {
      started := false;
      if ev.phase != End {
        return;
      }
      tick := tick + 1;
      if tick >= TICKS_PER_CHECK as int32 {
        if TruncDiv(LongSub(ev.now, lastBackup), MILLIS_PER_MINUTE) >= interval as int {
          started := true;
          lastBackup := ev.after;
        }
        tick := 0;
      }
    }
  }
}
