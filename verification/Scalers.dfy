/** pkg/autoscaler/scaler.go: when an autoscaler runs a round of actions, and when that
    round counts as fired. The clock readings and the outcome of a query are the inputs of a tick. */
module Scalers {
  import opened Clock
  import opened Alerts
  import opened Options

  datatype Config = Config(active: bool, duration: Setting, cooldown: Setting)

  /** What the world answers during one tick. A hit carries the three clock readings the tick may
      take before a round, and, should a round take place, the times its successful actions record,
      in the order in which their goroutines reach the alert (not necessarily sorted). */
  datatype Tick =
    | Failed(at: Instant)
    | Empty(at: Instant)
    | Hit(startAt: Instant, checkAt: Instant, coolAt: Instant, fires: seq<Instant>)
  {
    function Begin(): Instant {
      if Hit? then startAt else at
    }

    ghost predicate WellTimed() {
      && UNIX_EPOCH <= Begin()
      && (Hit? ==> startAt <= checkAt <= coolAt && forall f | f in fires :: coolAt <= f)
    }

    /** Every reading of this tick is at most the first reading of the other. */
    ghost predicate Before(next: Tick) {
      && Begin() <= next.Begin()
      && (Hit? ==> coolAt <= next.Begin() && forall f | f in fires :: f <= next.Begin())
    }
  }

  ghost predicate WellTimed(ts: seq<Tick>) {
    && (forall i | 0 <= i < |ts| :: ts[i].WellTimed())
    && (forall i, j | 0 <= i < j < |ts| :: ts[i].Before(ts[j]))
  }

  // ----- one tick -----

  function FireAll(a: Alarm, fires: seq<Instant>): Alarm {
    if fires == [] then a else FireAll(a, fires[..|fires| - 1]).Fired(fires[|fires| - 1])
  }

  function Woken(a: Alarm, t: Tick): Alarm
    requires t.Hit?
  {
    if a.state.active then a else a.Started(t.startAt)
  }

  predicate RoundIn(cfg: Config, a: Alarm, t: Tick) {
    && cfg.active && t.Hit?
    && Woken(a, t).ShouldFire(t.checkAt, cfg.duration)
    && !Woken(a, t).Cooled(t.coolAt, cfg.cooldown).cooling
  }

  function Step(cfg: Config, a: Alarm, t: Tick): Alarm {
    if !cfg.active || t.Failed? then a
    else if t.Empty? then a.WasReset()
    else
      var b := Woken(a, t);
      if !b.ShouldFire(t.checkAt, cfg.duration) then b
      else
        var c := b.Cooled(t.coolAt, cfg.cooldown);
        if c.cooling then c else FireAll(c, t.fires)
  }

  /** The alert newScaler builds from what etcd holds. */
  function Loaded(saved: Option<State>): Alarm {
    Alarm(if saved.Some? then saved.value else QUIET, false)
  }

  class Scaler {
    const cfg: Config
    const alert: Alert

    constructor (cfg: Config, saved: Option<State>)
      ensures this.cfg == cfg && fresh(alert)
      ensures alert.Value() == Loaded(saved)
    {
      this.cfg := cfg;
      this.alert := new Alert(if saved.Some? then saved.value else QUIET);
    }

    /** One pass of the select on the ticker. */
    method Evaluate(t: Tick) returns (round: bool)
      modifies alert
      ensures alert.Value() == Step(cfg, old(alert.Value()), t)
      ensures round == RoundIn(cfg, old(alert.Value()), t)
      ensures !cfg.active || t.Failed? ==> !round && alert.Value() == old(alert.Value())
    {
      round := false;
      if !cfg.active {
        return;
      }
      match t {
        case Failed(_) =>
        case Empty(_) =>
          alert.Reset();
        case Hit(startAt, checkAt, coolAt, fires) =>
          if !alert.IsActive() {
            alert.Start(startAt);
          }
          if alert.ShouldFire(checkAt, cfg.duration) {
            var cooling := alert.IsCoolingDown(coolAt, cfg.cooldown);
            if !cooling {
              Do(fires);
              round := true;
            }
          }
      }
    }

    /** The actions run in parallel; each one that succeeds records its own reading of the clock. */
    method Do(fires: seq<Instant>)
      modifies alert
      ensures alert.Value() == FireAll(old(alert.Value()), fires)
    {
      for i := 0 to |fires|
        invariant alert.Value() == FireAll(old(alert.Value()), fires[..i])
      {
        alert.Fire(fires[i]);
        assert fires[..i + 1][..i] == fires[..i];
      }
      assert fires[..|fires|] == fires;
    }

    /** What save and rebalance put into etcd. */
    method Save() returns (saved: Option<State>)
      ensures saved == Some(alert.Value().state)
    {
      saved := Some(alert.state);
    }
  }

  // ----- whole runs -----

  /** The alert before tick n of a run. */
  function After(cfg: Config, a: Alarm, ts: seq<Tick>, n: nat): Alarm
    requires n <= |ts|
  {
    if n == 0 then a else Step(cfg, After(cfg, a, ts, n - 1), ts[n - 1])
  }

  /** A scaler that etcd holds no alert of. */
  const FRESH: Alarm := Loaded(None)

  predicate RoundAt(cfg: Config, ts: seq<Tick>, i: nat)
    requires i < |ts|
  {
    RoundIn(cfg, After(cfg, FRESH, ts, i), ts[i])
  }

  /** A round at least one of whose actions succeeded. */
  predicate SuccessAt(cfg: Config, ts: seq<Tick>, i: nat)
    requires i < |ts|
  {
    RoundAt(cfg, ts, i) && ts[i].fires != []
  }

  /** The fire time the alert keeps after a successful round: that of the last action to record one. */
  function Recorded(t: Tick): Instant
    requires t.Hit? && t.fires != []
  {
    t.fires[|t.fires| - 1]
  }

  ghost predicate NoEmptyBetween(ts: seq<Tick>, i: nat, j: nat)
    requires j <= |ts|
  {
    forall k | i < k < j :: !ts[k].Empty?
  }

  /** Tick s is the first hit since the last empty result before tick i. */
  ghost predicate StreakBegins(ts: seq<Tick>, s: nat, i: nat)
    requires i <= |ts|
  {
    && s < |ts| && ts[s].Hit? && NoEmptyBetween(ts, s, i)
    && forall k: nat | k < s :: ts[k].Hit? ==> !NoEmptyBetween(ts, k, s)
  }

  /** The hit that began the streak still going on before tick n, or -1. */
  ghost function StreakStart(ts: seq<Tick>, n: nat): (s: int)
    requires n <= |ts|
    ensures -1 <= s < n
    ensures s >= 0 ==> StreakBegins(ts, s, n)
    ensures s == -1 ==> forall k: nat | k < n :: ts[k].Hit? ==> !NoEmptyBetween(ts, k, n)
  {
    if n == 0 || ts[n - 1].Empty? then -1
    else
      var p := StreakStart(ts, n - 1);
      assert forall k: nat | k < n - 1 :: NoEmptyBetween(ts, k, n) == NoEmptyBetween(ts, k, n - 1);
      if p == -1 && ts[n - 1].Hit? then n - 1 else p
  }

  /** The last successful round since the last empty result before tick n, or -1. */
  ghost function LastSuccess(cfg: Config, ts: seq<Tick>, n: nat): (j: int)
    requires n <= |ts|
    ensures -1 <= j < n
    ensures j >= 0 ==> SuccessAt(cfg, ts, j) && NoEmptyBetween(ts, j, n)
    ensures forall k: nat | j < k < n :: SuccessAt(cfg, ts, k) ==> !NoEmptyBetween(ts, k, n)
  {
    if n == 0 || ts[n - 1].Empty? then -1
    else
      var p := LastSuccess(cfg, ts, n - 1);
      assert forall k: nat | k < n - 1 :: NoEmptyBetween(ts, k, n) == NoEmptyBetween(ts, k, n - 1);
      if SuccessAt(cfg, ts, n - 1) then n - 1 else p
  }

  lemma {:induction fires} FireAllKeepsLast(a: Alarm, fires: seq<Instant>)
    requires !a.cooling
    ensures FireAll(a, fires) ==
            if fires == [] then a else a.(state := a.state.(firedAt := fires[|fires| - 1]))
  {
  }

  /** The three persisted fields are nothing but a summary of the run so far. */
  lemma {:induction false} StateSummarisesRun(cfg: Config, ts: seq<Tick>, n: nat)
    requires cfg.active && n <= |ts|
    ensures var a := After(cfg, FRESH, ts, n).state;
            var s, j := StreakStart(ts, n), LastSuccess(cfg, ts, n);
            && a.active == (s >= 0)
            && a.startedAt == (if s >= 0 then ts[s].startAt else ZERO)
            && a.firedAt == (if j >= 0 then Recorded(ts[j]) else ZERO)
  {
    if n > 0 {
      StateSummarisesRun(cfg, ts, n - 1);
      var t := ts[n - 1];
      if t.Hit? {
        var c := Woken(After(cfg, FRESH, ts, n - 1), t).Cooled(t.coolAt, cfg.cooldown);
        if !c.cooling {
          FireAllKeepsLast(c, t.fires);
        }
      }
    }
  }

  /** Before a hit, exactly one tick begins the streak: the one the alert remembers, or the hit itself. */
  lemma StreakIsUnique(ts: seq<Tick>, s: nat, i: nat)
    requires i < |ts| && ts[i].Hit?
    ensures s <= i && StreakBegins(ts, s, i) <==> s == if StreakStart(ts, i) == -1 then i else StreakStart(ts, i)
  {
    var p := StreakStart(ts, i);
    if p >= 0 && p < s <= i && NoEmptyBetween(ts, s, i) {
      assert NoEmptyBetween(ts, p, s);
    }
    if p >= 0 && s < p && StreakBegins(ts, s, i) {
      assert NoEmptyBetween(ts, s, p);
    }
  }

  /** The condition has held since a hit at least the duration ago, with no empty result in between. */
  ghost predicate HeldLongEnough(cfg: Config, ts: seq<Tick>, i: nat)
    requires i < |ts| && ts[i].Hit?
  {
    exists s: nat :: s <= i && StreakBegins(ts, s, i) && ts[i].checkAt - ts[s].startAt >= cfg.duration
  }

  /** Every successful round since the last empty result is more than the cooldown ago. */
  ghost predicate CooledDown(cfg: Config, ts: seq<Tick>, i: nat)
    requires i < |ts| && ts[i].Hit?
  {
    forall j: nat | j < i && SuccessAt(cfg, ts, j) && NoEmptyBetween(ts, j, i) ::
      ts[i].coolAt - Recorded(ts[j]) > cfg.cooldown
  }

  /** A scaler that is not active leaves its alert alone, whatever the queries say. */
  lemma {:induction false} InactiveRests(cfg: Config, a: Alarm, ts: seq<Tick>, n: nat)
    requires !cfg.active && n <= |ts|
    ensures After(cfg, a, ts, n) == a && (n < |ts| ==> !RoundAt(cfg, ts, n))
  {
    if n > 0 {
      InactiveRests(cfg, a, ts, n - 1);
    }
  }

  /** The evaluation rule, told without the alert: a tick runs a round exactly when the scaler is active, its query
      hits, the condition has held for the duration, and the cooldown of earlier rounds is over. */
  lemma {:induction false} RoundExactlyByRule(cfg: Config, ts: seq<Tick>, i: nat)
    requires WellTimed(ts) && i < |ts|
    ensures RoundAt(cfg, ts, i) <==>
            cfg.active && ts[i].Hit? && HeldLongEnough(cfg, ts, i) && CooledDown(cfg, ts, i)
  {
    if cfg.active && ts[i].Hit? {
      StateSummarisesRun(cfg, ts, i);
      var p := StreakStart(ts, i);
      var s: nat := if p == -1 then i else p;
      StreakIsUnique(ts, s, i);
      forall s': nat | s' <= i && StreakBegins(ts, s', i) ensures s' == s {
        StreakIsUnique(ts, s', i);
      }
      var a := Woken(After(cfg, FRESH, ts, i), ts[i]);
      assert a.state.startedAt == ts[s].startAt;
      assert a.ShouldFire(ts[i].checkAt, cfg.duration) <==> HeldLongEnough(cfg, ts, i);
      CoolingExactlyByRule(cfg, ts, i);
    }
  }

  lemma CoolingExactlyByRule(cfg: Config, ts: seq<Tick>, i: nat)
    requires WellTimed(ts) && i < |ts| && ts[i].Hit?
    ensures !Woken(After(cfg, FRESH, ts, i), ts[i]).Cooled(ts[i].coolAt, cfg.cooldown).cooling
            <==> CooledDown(cfg, ts, i)
  {
    if cfg.active {
      StateSummarisesRun(cfg, ts, i);
    } else {
      InactiveRests(cfg, FRESH, ts, i);
    }
    var last := LastSuccess(cfg, ts, i);
    forall j: nat | j < i && SuccessAt(cfg, ts, j) && NoEmptyBetween(ts, j, i)
      ensures last >= j && Recorded(ts[j]) <= Recorded(ts[last])
    {
      if j < last {
        RecordedIsMonotone(ts, j, last);
      }
    }
  }

  lemma RecordedIsMonotone(ts: seq<Tick>, j: nat, k: nat)
    requires WellTimed(ts) && j < k < |ts| && ts[j].Hit? && ts[k].Hit? && ts[j].fires != []
    ensures Recorded(ts[j]) <= ts[k].startAt
    ensures ts[k].fires != [] ==> Recorded(ts[j]) <= Recorded(ts[k])
  {
    assert ts[j].Before(ts[k]) && ts[k].WellTimed();
    assert Recorded(ts[j]) in ts[j].fires;
    assert ts[k].fires != [] ==> Recorded(ts[k]) in ts[k].fires;
  }

  /** From the recorded time of a successful round to any later round: more than the cooldown when
      the condition held throughout, and at least the duration when an empty result intervened. */
  lemma {:induction false} SuccessfulRoundsAreSpaced(cfg: Config, ts: seq<Tick>, i: nat, j: nat)
    requires WellTimed(ts) && i < j < |ts|
    requires SuccessAt(cfg, ts, i) && RoundAt(cfg, ts, j)
    ensures NoEmptyBetween(ts, i, j) ==> ts[j].coolAt - Recorded(ts[i]) > cfg.cooldown
    ensures !NoEmptyBetween(ts, i, j) ==> ts[j].coolAt - Recorded(ts[i]) >= cfg.duration
  {
    RoundExactlyByRule(cfg, ts, j);
    if !NoEmptyBetween(ts, i, j) {
      var s: nat :| s <= j && StreakBegins(ts, s, j) && ts[j].checkAt - ts[s].startAt >= cfg.duration;
      assert i < s;
      RecordedIsMonotone(ts, i, s);
    }
  }

  /** What the documentation promises: scaling is disabled until the cooldown is over. */
  ghost predicate CooldownAlwaysHonoured(cfg: Config) {
    forall ts: seq<Tick>, i: nat, j: nat |
      WellTimed(ts) && i < j < |ts| && SuccessAt(cfg, ts, i) && RoundAt(cfg, ts, j) ::
      ts[j].coolAt - Recorded(ts[i]) > cfg.cooldown
  }

  /** An empty result resets the alert and forgets the fire time with it, so that promise is kept
      by exactly the configurations whose duration exceeds their cooldown, and by those that are not active. */
  lemma {:induction false} CooldownHonouredExactly(cfg: Config)
    ensures CooldownAlwaysHonoured(cfg) <==> !cfg.active || cfg.duration > cfg.cooldown
  {
    if !cfg.active || cfg.duration > cfg.cooldown {
      forall ts: seq<Tick>, i: nat, j: nat |
        WellTimed(ts) && i < j < |ts| && SuccessAt(cfg, ts, i) && RoundAt(cfg, ts, j)
        ensures ts[j].coolAt - Recorded(ts[i]) > cfg.cooldown
      {
        SuccessfulRoundsAreSpaced(cfg, ts, i, j);
      }
    } else {
      var ts, i, j := CooldownBroken(cfg);
    }
  }

  /** The run that breaks the promise: fire, one empty result, and fire again after the duration. */
  lemma CooldownBroken(cfg: Config) returns (ts: seq<Tick>, i: nat, j: nat)
    requires cfg.active && cfg.duration <= cfg.cooldown
    ensures WellTimed(ts) && i < j < |ts| && SuccessAt(cfg, ts, i) && RoundAt(cfg, ts, j)
    ensures ts[j].coolAt - Recorded(ts[i]) == cfg.duration
  {
    var t0, d := UNIX_EPOCH, cfg.duration;
    var h0 := Hit(t0, t0, t0, [t0]);
    var h1 := Hit(t0 + d, t0 + d, t0 + d, [t0 + d]);
    var h2 := Hit(t0 + 2 * d, t0 + 2 * d, t0 + 2 * d, [t0 + 2 * d]);
    if d == 0 {
      ts, i, j := [h0, Empty(t0), h0], 0, 2;
      assert After(cfg, FRESH, ts, 1) == Step(cfg, FRESH, h0);
    } else {
      ts, i, j := [h0, h1, Empty(t0 + d), h1, h2], 1, 4;
      assert After(cfg, FRESH, ts, 1) == Step(cfg, FRESH, h0);
      assert SuccessAt(cfg, ts, 1);
      assert After(cfg, FRESH, ts, 3).state == QUIET;
      assert After(cfg, FRESH, ts, 4).state == State(true, t0 + d, ZERO);
    }
  }

  // ----- persisting and reloading -----

  /** A run in which the scaler may be saved to etcd and rebuilt from it between two ticks. */
  datatype Event = Evaluated(tick: Tick) | SavedAndLoaded

  function StepEvent(cfg: Config, a: Alarm, e: Event): Alarm {
    match e
    case Evaluated(t) => Step(cfg, a, t)
    case SavedAndLoaded => Loaded(Some(a.state))
  }

  /** The rounds of a run, as the ticks in which they happen, and the states after each tick. */
  function Rounds(cfg: Config, a: Alarm, es: seq<Event>): seq<(Tick, bool, State)>
    decreases |es|
  {
    if es == [] then []
    else
      var next := StepEvent(cfg, a, es[0]);
      (if es[0].Evaluated? then [(es[0].tick, RoundIn(cfg, a, es[0].tick), next.state)] else [])
      + Rounds(cfg, next, es[1..])
  }

  function Uninterrupted(es: seq<Event>): seq<Event> {
    if es == [] then []
    else (if es[0].Evaluated? then [es[0]] else []) + Uninterrupted(es[1..])
  }

  lemma CoolingFlagIsDead(cfg: Config, a: Alarm, b: Alarm, t: Tick)
    requires a.state == b.state
    ensures Step(cfg, a, t).state == Step(cfg, b, t).state
    ensures RoundIn(cfg, a, t) == RoundIn(cfg, b, t)
  {
  }

  /** Saving and loading at any tick boundaries, any number of times, changes neither the rounds nor
      the alert, although one of the alert's fields is never written to etcd. */
  lemma {:induction false} SaveLoadIsTransparent(cfg: Config, a: Alarm, b: Alarm, es: seq<Event>)
    requires a.state == b.state
    ensures Rounds(cfg, a, es) == Rounds(cfg, b, Uninterrupted(es))
    decreases |es|
  {
    if es != [] {
      var a' := StepEvent(cfg, a, es[0]);
      if es[0].Evaluated? {
        CoolingFlagIsDead(cfg, a, b, es[0].tick);
        var b' := Step(cfg, b, es[0].tick);
        SaveLoadIsTransparent(cfg, a', b', es[1..]);
        assert Uninterrupted(es)[1..] == Uninterrupted(es[1..]);
      } else {
        SaveLoadIsTransparent(cfg, a', b, es[1..]);
        assert Uninterrupted(es) == Uninterrupted(es[1..]);
      }
    }
  }
}
