/** pkg/autohealer/healer.go: what follows once a healer has taken a step that its guarantees exclude.
    Each such step can be continued so that one instance is healed twice during the same outage. */
module HealerRuns {
  import opened Clock
  import opened Healers
  import Alerts

  // ----- growing a run -----

  /** A well-timed run that has read the clock up to now. */
  ghost predicate TimedRun(cfg: Config, trace: seq<State>, es: seq<Event>, now: Instant) {
    && Run(cfg, trace, es) && WellTimed(es) && UNIX_EPOCH <= now
    && forall i | 0 <= i < |es| && (es[i].Tick? || es[i].Check?) ::
         UNIX_EPOCH <= FirstReading(es[i]) && LastReading(es[i]) <= now
  }

  predicate TimedFrom(e: Event, now: Instant, later: Instant) {
    now <= later && (e.Tick? || e.Check? ==> now <= FirstReading(e) <= LastReading(e) <= later)
  }

  lemma RunGrows(cfg: Config, trace: seq<State>, es: seq<Event>, e: Event, t: State)
    requires Run(cfg, trace, es) && Moves(cfg, trace[|es|], e, t)
    ensures Run(cfg, trace + [t], es + [e])
  {
    var trace', es' := trace + [t], es + [e];
    forall i: nat | i < |es'| ensures StepAt(cfg, trace', es', i) {
      if i < |es| {
        assert StepAt(cfg, trace, es, i);
      }
    }
  }

  lemma TimedRunGrows(cfg: Config, trace: seq<State>, es: seq<Event>, now: Instant, e: Event, t: State, later: Instant)
    requires TimedRun(cfg, trace, es, now) && Moves(cfg, trace[|es|], e, t) && TimedFrom(e, now, later)
    ensures TimedRun(cfg, trace + [t], es + [e], later)
  {
    RunGrows(cfg, trace, es, e, t);
  }

  /** The second run goes on from the first, up to its own reading of the clock. */
  ghost predicate GoesOn(cfg: Config, trace: seq<State>, es: seq<Event>, trace': seq<State>, es': seq<Event>,
                         now: Instant)
  {
    TimedRun(cfg, trace', es', now) && |trace| == |es| + 1 && trace <= trace' && es <= es'
  }

  /** The step is guarded, as to every instance. */
  ghost predicate AllGuarded(cfg: Config, s: State, e: Event)
    requires Enabled(s, e)
  {
    && (Fires(cfg, s, e) ==> e.chan !in s.closed || e.chan.instance !in s.chans)
    && (cfg.active && e.Tick? && !Storm(cfg, s, e.labels) ==> forall x | x in Wanted(cfg, s, e.labels) :: Free(s, x))
  }

  lemma AllGuardedIsEach(cfg: Config, s: State, e: Event)
    requires Enabled(s, e)
    ensures AllGuarded(cfg, s, e) <==> forall x :: Guarded(cfg, s, e, x)
  {
    if forall x :: Guarded(cfg, s, e, x) {
      if Fires(cfg, s, e) {
        assert Guarded(cfg, s, e, e.chan.instance);
      }
      forall x | cfg.active && e.Tick? && !Storm(cfg, s, e.labels) && x in Wanted(cfg, s, e.labels) ensures Free(s, x) {
        assert Guarded(cfg, s, e, x);
      }
    }
  }

  /** All that it adds is guarded. */
  ghost predicate GuardedAfter(cfg: Config, n: nat, trace: seq<State>, es: seq<Event>)
    requires |trace| == |es| + 1
  {
    forall i: nat | n <= i < |es| :: Enabled(trace[i], es[i]) && AllGuarded(cfg, trace[i], es[i])
  }

  lemma GuardGrows(cfg: Config, n: nat, trace: seq<State>, es: seq<Event>, e: Event, t: State)
    requires |trace| == |es| + 1 && GuardedAfter(cfg, n, trace, es)
    requires Enabled(trace[|es|], e) && AllGuarded(cfg, trace[|es|], e)
    ensures GuardedAfter(cfg, n, trace + [t], es + [e])
  {
    var trace', es' := trace + [t], es + [e];
    forall i: nat | n <= i < |es'| ensures Enabled(trace'[i], es'[i]) && AllGuarded(cfg, trace'[i], es'[i]) {
      if i < |es| {
        assert trace'[i] == trace[i] && es'[i] == es[i];
      } else {
        assert trace'[i] == trace[|es|] && es'[i] == e;
      }
    }
  }

  lemma Grows(cfg: Config, trace0: seq<State>, es0: seq<Event>, trace: seq<State>, es: seq<Event>, now: Instant,
              e: Event, t: State, later: Instant)
    requires GoesOn(cfg, trace0, es0, trace, es, now)
    requires Moves(cfg, trace[|es|], e, t) && TimedFrom(e, now, later)
    ensures GoesOn(cfg, trace0, es0, trace + [t], es + [e], later)
    ensures GuardedAfter(cfg, |es0|, trace, es) && AllGuarded(cfg, trace[|es|], e) ==>
              GuardedAfter(cfg, |es0|, trace + [t], es + [e])
  {
    TimedRunGrows(cfg, trace, es, now, e, t, later);
    if GuardedAfter(cfg, |es0|, trace, es) && AllGuarded(cfg, trace[|es|], e) {
      GuardGrows(cfg, |es0|, trace, es, e, t);
    }
  }

  // ----- single steps -----

  const READY: Phase := Watching(Alerts.Alarm(Alerts.QUIET, false))

  function Copies(x: string, n: nat): seq<string> {
    seq(n, (i: nat) => x)
  }

  lemma {:induction false} CopiesCount(x: string, n: nat)
    ensures multiset(Copies(x, n))[x] == n
  {
    if n > 0 {
      CopiesCount(x, n - 1);
      assert Copies(x, n) == Copies(x, n - 1) + [x];
    }
  }

  function Emptied(s: State): State {
    s.(whitelist := {}, chans := map[], closed := s.closed + s.chans.Values)
  }

  lemma EmptyUpdate(s: State)
    ensures Updated(s, {}, {}) == Emptied(s) && !Crowded(s, {}, {})
  {
    NothingChanges(s);
    assert Dropped(s.chans, {}) == s.chans.Values;
    assert s.whitelist * {} == {} && map[] + Entries(s.step, {}) == map[];
  }

  lemma NothingChanges(s: State)
    ensures Kept(s.chans, {}) == map[] && Entries(s.step, {}) == map[]
    ensures Made(s.step, {}) == {} && Spawned(s.watchers, {}) == s.watchers
  {
  }

  lemma NothingIsWanted(cfg: Config, s: State)
    ensures Reported([]) == {} && Wanted(cfg, s, []) == {}
  {
    WantedIsNew(cfg, s, []);
  }

  lemma EmptyTick(cfg: Config, s: State, now: Instant)
    requires cfg.active && !s.done
    ensures Moves(cfg, s, Tick(now, []), Emptied(s).(step := s.step + 1))
    ensures AllGuarded(cfg, s, Tick(now, []))
  {
    NothingIsWanted(cfg, s);
    EmptyUpdate(s);
    assert Ticked(cfg, s, []) == Emptied(s);
  }

  lemma OneIsWanted(cfg: Config, s: State, x: string)
    requires cfg.level >= 1 && Strip(x) == x && s.chans == map[] && s.whitelist == {} && s.silences == map[]
    ensures Reported(Copies(x, cfg.level)) == {x} && Wanted(cfg, s, Copies(x, cfg.level)) == {x}
  {
    var labels := Copies(x, cfg.level);
    assert Stripped(labels) == labels;
    CopiesCount(x, cfg.level);
    assert labels[0] == x;
    assert Kept(s.chans, Reported(labels)) == map[];
  }

  function Single(s: State, x: string): State {
    var c := Chan(s.step, x);
    s.(chans := map[x := c], watchers := s.watchers[c := Resolving])
  }

  lemma SingleUpdate(s: State, x: string)
    requires s.chans == map[] && s.whitelist == {}
    ensures Updated(s, {x}, {x}) == Single(s, x) && !Crowded(s, {x}, {x})
  {
    var c := Chan(s.step, x);
    assert Made(s.step, {x}) == {c};
    assert Spawned(s.watchers, {c}) == s.watchers[c := Resolving];
    assert Kept(s.chans, {x}) + Entries(s.step, {x}) == map[x := c];
    assert s.closed + Dropped(s.chans, {x}) == s.closed;
    assert s.whitelist * {x} == s.whitelist;
    assert |{x}| + |Kept(s.chans, {x})| == 1;
  }

  /** x, and nothing else, is reported to a healer with empty maps. */
  lemma SingleTick(cfg: Config, s: State, now: Instant, x: string)
    requires cfg.active && !s.done && cfg.level >= 1 && Strip(x) == x
    requires s.chans == map[] && s.whitelist == {} && s.silences == map[]
    ensures Moves(cfg, s, Tick(now, Copies(x, cfg.level)), Single(s, x).(step := s.step + 1))
  {
    OneIsWanted(cfg, s, x);
    SingleUpdate(s, x);
  }

  lemma SingleTickIsGuarded(cfg: Config, s: State, now: Instant, x: string)
    requires cfg.active && !s.done && cfg.level >= 1 && Strip(x) == x
    requires s.chans == map[] && s.whitelist == {} && s.silences == map[]
    ensures Free(s, x) <==> AllGuarded(cfg, s, Tick(now, Copies(x, cfg.level)))
  {
    OneIsWanted(cfg, s, x);
    SingleUpdate(s, x);
    assert Free(s, x) <==> forall c | Heals(s, c) :: c.instance !in {x};
  }

  lemma NameIsLearnt(cfg: Config, s: State, c: Chan)
    requires c in s.watchers && s.watchers[c].Resolving? && c.instance in s.nodes
    ensures Moves(cfg, s, Resolve(c), s.(step := s.step + 1, watchers := s.watchers[c := READY]))
  {
  }

  function Late(cfg: Config, a: Alerts.Alarm, now: Instant): Instant {
    (if a.state.active && a.state.startedAt > now then a.state.startedAt else now) + cfg.duration
  }

  /** A watcher fires once the duration has passed. */
  lemma LateCheckFires(cfg: Config, s: State, c: Chan, now: Instant)
    requires c in s.watchers && s.watchers[c].Watching?
    ensures var e := Check(c, now, Late(cfg, s.watchers[c].alarm, now));
            && TimedFrom(e, now, e.checkAt) && Enabled(s, e) && Fires(cfg, s, e)
            && Moves(cfg, s, e, s.(step := s.step + 1, watchers := s.watchers[c := Healing]))
            && (c !in s.closed ==> AllGuarded(cfg, s, e))
  {
  }

  // ----- an orphaned watcher -----

  /** A watcher whose channel is open, though not in the channel table. */
  ghost predicate Orphan(s: State, c: Chan) {
    && c in s.watchers && s.watchers[c].Resolving? && c !in s.closed && Strip(c.instance) == c.instance
    && s.chans == map[] && s.whitelist == {} && !s.done && BornOk(s)
  }

  lemma SilencesAreLifted(cfg: Config, trace: seq<State>, es: seq<Event>, now: Instant)
    returns (trace': seq<State>, es': seq<Event>)
    requires TimedRun(cfg, trace, es, now) && !trace[|es|].done
    ensures GoesOn(cfg, trace, es, trace', es', now) && GuardedAfter(cfg, |es|, trace', es')
    ensures var s := trace[|es|]; trace'[|es'|] == s.(step := s.step + 1, silences := map[])
  {
    var s := trace[|es|];
    assert s.silences - s.silences.Keys == map[];
    var e, t := SilenceGone(s.silences.Keys), s.(step := s.step + 1, silences := map[]);
    Grows(cfg, trace, es, trace, es, now, e, t, now);
    trace', es' := trace + [t], es + [e];
  }

  lemma NameIsTold(cfg: Config, trace: seq<State>, es: seq<Event>, now: Instant, x: string)
    returns (trace': seq<State>, es': seq<Event>)
    requires TimedRun(cfg, trace, es, now) && !trace[|es|].done
    ensures GoesOn(cfg, trace, es, trace', es', now) && GuardedAfter(cfg, |es|, trace', es')
    ensures var s := trace[|es|]; trace'[|es'|] == s.(step := s.step + 1, nodes := s.nodes + map[x := ""])
    ensures es' == es + [NodeUpdate(map[x := ""])]
  {
    var s := trace[|es|];
    var e, t := NodeUpdate(map[x := ""]), s.(step := s.step + 1, nodes := s.nodes + map[x := ""]);
    Grows(cfg, trace, es, trace, es, now, e, t, now);
    trace', es' := trace + [t], es + [e];
  }

  lemma InstanceIsAdmitted(cfg: Config, trace: seq<State>, es: seq<Event>, now: Instant, x: string)
    returns (trace': seq<State>, es': seq<Event>)
    requires TimedRun(cfg, trace, es, now) && cfg.active && cfg.level >= 1 && Strip(x) == x
    requires var s := trace[|es|]; s.chans == map[] && s.whitelist == {} && s.silences == map[] && !s.done
    ensures GoesOn(cfg, trace, es, trace', es', now)
    ensures Free(trace[|es|], x) ==> GuardedAfter(cfg, |es|, trace', es')
    ensures trace'[|es'|] == Single(trace[|es|], x).(step := trace[|es|].step + 1)
    ensures |es'| == |es| + 1 && trace'[|es|] == trace[|es|] && es'[|es|].Tick?
    ensures !Free(trace[|es|], x) ==> !AllGuarded(cfg, trace'[|es|], es'[|es|])
  {
    var s, e := trace[|es|], Tick(now, Copies(x, cfg.level));
    SingleTick(cfg, s, now, x);
    SingleTickIsGuarded(cfg, s, now, x);
    var t := Single(s, x).(step := s.step + 1);
    Grows(cfg, trace, es, trace, es, now, e, t, now);
    trace', es' := trace + [t], es + [e];
    assert trace'[|es|] == s && es'[|es|] == e && trace'[|es'|] == t;
  }

  lemma GoesOnAndOn(cfg: Config, trace: seq<State>, es: seq<Event>, trace': seq<State>, es': seq<Event>, now: Instant,
                    trace'': seq<State>, es'': seq<Event>, later: Instant)
    requires GoesOn(cfg, trace, es, trace', es', now) && GoesOn(cfg, trace', es', trace'', es'', later)
    ensures GoesOn(cfg, trace, es, trace'', es'', later)
    ensures GuardedAfter(cfg, |es|, trace', es') && GuardedAfter(cfg, |es'|, trace'', es'') ==>
              GuardedAfter(cfg, |es|, trace'', es'')
  {
    if GuardedAfter(cfg, |es|, trace', es') && GuardedAfter(cfg, |es'|, trace'', es'') {
      forall i: nat | |es| <= i < |es''| ensures Enabled(trace''[i], es''[i]) && AllGuarded(cfg, trace''[i], es''[i]) {
        if i < |es'| {
          assert trace''[i] == trace'[i] && es''[i] == es'[i];
        }
      }
    }
  }

  /** Admit the orphan's instance again, to a healer that knows its name and has no silences. */
  lemma SecondIsAdmitted(cfg: Config, trace: seq<State>, es: seq<Event>, now: Instant, c: Chan)
    returns (trace': seq<State>, es': seq<Event>, d: Chan)
    requires TimedRun(cfg, trace, es, now) && cfg.active && cfg.level >= 1 && Orphan(trace[|es|], c)
    ensures GoesOn(cfg, trace, es, trace', es', now)
    ensures Free(trace[|es|], c.instance) ==> GuardedAfter(cfg, |es|, trace', es')
    ensures var s, t := trace[|es|], trace'[|es'|];
            && d != c && d.instance == c.instance && c.instance in t.nodes && t.closed == s.closed && d !in s.closed
            && t.watchers == s.watchers[d := Resolving]
  {
    var trace1, es1 := SilencesAreLifted(cfg, trace, es, now);
    var trace2, es2 := NameIsTold(cfg, trace1, es1, now, c.instance);
    GoesOnAndOn(cfg, trace, es, trace1, es1, now, trace2, es2, now);
    trace', es' := InstanceIsAdmitted(cfg, trace2, es2, now, c.instance);
    GoesOnAndOn(cfg, trace, es, trace2, es2, now, trace', es', now);
    d := Chan(trace2[|es2|].step, c.instance);
  }

  /** Two watchers of the same instance with open channels both learn its name. */
  lemma BothLearnTheName(cfg: Config, trace: seq<State>, es: seq<Event>, now: Instant, c: Chan, d: Chan)
    returns (trace': seq<State>, es': seq<Event>)
    requires TimedRun(cfg, trace, es, now) && c != d && c.instance == d.instance
    requires var s := trace[|es|];
             && c in s.watchers && d in s.watchers && s.watchers[c].Resolving? && s.watchers[d].Resolving?
             && c.instance in s.nodes
    ensures GoesOn(cfg, trace, es, trace', es', now) && GuardedAfter(cfg, |es|, trace', es')
    ensures var s, t := trace[|es|], trace'[|es'|];
            t.closed == s.closed && t.watchers == s.watchers[c := READY][d := READY]
  {
    var s := trace[|es|];
    var s1 := s.(step := s.step + 1, watchers := s.watchers[c := READY]);
    NameIsLearnt(cfg, s, c);
    Grows(cfg, trace, es, trace, es, now, Resolve(c), s1, now);
    trace', es' := trace + [s1], es + [Resolve(c)];
    var s2 := s1.(step := s1.step + 1, watchers := s1.watchers[d := READY]);
    NameIsLearnt(cfg, s1, d);
    Grows(cfg, trace, es, trace', es', now, Resolve(d), s2, now);
    trace', es' := trace' + [s2], es' + [Resolve(d)];
  }

  /** Then they both fire, one right after the other. */
  lemma BothFire(cfg: Config, trace: seq<State>, es: seq<Event>, now: Instant, c: Chan, d: Chan)
    returns (trace': seq<State>, es': seq<Event>, later: Instant)
    requires TimedRun(cfg, trace, es, now) && c != d && c.instance == d.instance
    requires var s := trace[|es|];
             && c in s.watchers && d in s.watchers && s.watchers[c].Watching? && s.watchers[d].Watching?
             && c !in s.closed && d !in s.closed
    ensures GoesOn(cfg, trace, es, trace', es', later) && GuardedAfter(cfg, |es|, trace', es')
    ensures FiresTwice(cfg, trace', es', |es|, c.instance)
  {
    var s, n := trace[|es|], |es|;
    var e := Check(c, now, Late(cfg, s.watchers[c].alarm, now));
    var s1 := s.(step := s.step + 1, watchers := s.watchers[c := Healing]);
    LateCheckFires(cfg, s, c, now);
    Grows(cfg, trace, es, trace, es, now, e, s1, e.checkAt);
    trace', es' := trace + [s1], es + [e];
    var f := Check(d, e.checkAt, Late(cfg, s1.watchers[d].alarm, e.checkAt));
    var s2 := s1.(step := s1.step + 1, watchers := s1.watchers[d := Healing]);
    LateCheckFires(cfg, s1, d, e.checkAt);
    Grows(cfg, trace, es, trace', es', e.checkAt, f, s2, f.checkAt);
    trace', es', later := trace' + [s2], es' + [f], f.checkAt;
    assert FiresAt(cfg, trace', es', n, c.instance) && FiresAt(cfg, trace', es', n + 1, c.instance);
    assert NeverUp(cfg, es', n, n + 1, c.instance);
    assert FiredSinceUp(cfg, trace', es', n + 1, c.instance);
  }

  /** So an orphan and the second watcher of its instance both heal it, one right after the other. */
  lemma OrphanFiresToo(cfg: Config, trace: seq<State>, es: seq<Event>, now: Instant, c: Chan)
    returns (trace': seq<State>, es': seq<Event>, later: Instant)
    requires TimedRun(cfg, trace, es, now) && cfg.active && cfg.level >= 1 && Orphan(trace[|es|], c)
    ensures GoesOn(cfg, trace, es, trace', es', later) && FiresTwice(cfg, trace', es', |es|, c.instance)
    ensures Free(trace[|es|], c.instance) ==> GuardedAfter(cfg, |es|, trace', es')
  {
    var trace1, es1, d := SecondIsAdmitted(cfg, trace, es, now, c);
    var trace2, es2 := BothLearnTheName(cfg, trace1, es1, now, c, d);
    GoesOnAndOn(cfg, trace, es, trace1, es1, now, trace2, es2, now);
    trace', es', later := BothFire(cfg, trace2, es2, now, c, d);
    GoesOnAndOn(cfg, trace, es, trace2, es2, now, trace', es', later);
  }

  // ----- an instance admitted while it is being healed -----

  /** Watcher c is still healing, and its instance has got a second watcher. */
  ghost predicate Doubled(s: State, c: Chan, d: Chan) {
    && Heals(s, c) && c != d && c.instance == d.instance && !s.done && TableOk(s) && BornOk(s)
    && d.instance in s.chans && s.chans[d.instance] == d && s.watchers[d].Resolving?
  }

  function Returned(s: State, c: Chan): State {
    s.(whitelist := s.whitelist + {c.instance}, chans := s.chans - {c.instance}, watchers := s.watchers - {c})
  }

  function HealersOf(s: State, x: string): set<Chan> {
    set c | c in s.watchers && s.watchers[c].Healing? && c.instance == x
  }

  /** Everybody who heals x has returned; the first one to do so has taken the entry of x away. */
  ghost predicate AllBack(s: State, x: string, t: State) {
    && s.step <= t.step
    && t == s.(step := t.step, whitelist := t.whitelist, chans := t.chans, watchers := s.watchers - HealersOf(s, x))
    && t.chans == if HealersOf(s, x) == {} then s.chans else s.chans - {x}
  }

  lemma BackOneByOne(s: State, c: Chan, t: State, u: State)
    requires Heals(s, c) && t == Returned(s, c).(step := s.step + 1) && AllBack(t, c.instance, u)
    ensures AllBack(s, c.instance, u) && |HealersOf(t, c.instance)| < |HealersOf(s, c.instance)|
  {
    assert HealersOf(s, c.instance) == HealersOf(t, c.instance) + {c};
    assert s.watchers - HealersOf(s, c.instance) == t.watchers - HealersOf(t, c.instance);
    assert s.chans - {c.instance} - {c.instance} == s.chans - {c.instance};
  }

  lemma FewerHeal(s: State, c: Chan)
    requires Heals(s, c)
    ensures |HealersOf(Returned(s, c).(step := s.step + 1), c.instance)| < |HealersOf(s, c.instance)|
  {
    assert HealersOf(s, c.instance) == HealersOf(Returned(s, c).(step := s.step + 1), c.instance) + {c};
  }

  lemma {:induction false} AllReturn(cfg: Config, trace: seq<State>, es: seq<Event>, now: Instant, x: string)
    returns (trace': seq<State>, es': seq<Event>)
    requires TimedRun(cfg, trace, es, now)
    ensures GoesOn(cfg, trace, es, trace', es', now) && GuardedAfter(cfg, |es|, trace', es')
    ensures AllBack(trace[|es|], x, trace'[|es'|])
    decreases |HealersOf(trace[|es|], x)|
  {
    var s := trace[|es|];
    if HealersOf(s, x) == {} {
      trace', es' := trace, es;
      assert s.watchers - {} == s.watchers;
    } else {
      var c :| c in HealersOf(s, x);
      var trace1, es1 := FirstReturns(cfg, trace, es, now, c);
      FewerHeal(s, c);
      trace', es' := AllReturn(cfg, trace1, es1, now, x);
      GoesOnAndOn(cfg, trace, es, trace1, es1, now, trace', es', now);
      BackOneByOne(s, c, trace1[|es1|], trace'[|es'|]);
    }
  }

  /** Whoever heals the instance returns, and takes the second watcher's entry away; then the instance comes up. */
  lemma SecondIsOrphaned(cfg: Config, trace: seq<State>, es: seq<Event>, now: Instant, c: Chan, d: Chan)
    returns (trace': seq<State>, es': seq<Event>)
    requires TimedRun(cfg, trace, es, now) && cfg.active && Doubled(trace[|es|], c, d)
    ensures GoesOn(cfg, trace, es, trace', es', now) && GuardedAfter(cfg, |es|, trace', es')
    ensures Orphan(trace'[|es'|], d) && Free(trace'[|es'|], d.instance)
  {
    var trace1, es1 := AllReturn(cfg, trace, es, now, c.instance);
    trace', es' := NothingIsReported(cfg, trace1, es1, now);
    GoesOnAndOn(cfg, trace, es, trace1, es1, now, trace', es', now);
    OrphanIsLeft(trace[|es|], c, d, trace1[|es1|], trace'[|es'|]);
  }

  lemma FirstReturns(cfg: Config, trace: seq<State>, es: seq<Event>, now: Instant, c: Chan)
    returns (trace': seq<State>, es': seq<Event>)
    requires TimedRun(cfg, trace, es, now) && Heals(trace[|es|], c)
    ensures GoesOn(cfg, trace, es, trace', es', now) && GuardedAfter(cfg, |es|, trace', es')
    ensures trace'[|es'|] == Returned(trace[|es|], c).(step := trace[|es|].step + 1)
  {
    var t := Returned(trace[|es|], c).(step := trace[|es|].step + 1);
    Grows(cfg, trace, es, trace, es, now, Finish(c), t, now);
    trace', es' := trace + [t], es + [Finish(c)];
  }

  lemma NothingIsReported(cfg: Config, trace: seq<State>, es: seq<Event>, now: Instant)
    returns (trace': seq<State>, es': seq<Event>)
    requires TimedRun(cfg, trace, es, now) && cfg.active && !trace[|es|].done
    ensures GoesOn(cfg, trace, es, trace', es', now) && GuardedAfter(cfg, |es|, trace', es')
    ensures trace'[|es'|] == Emptied(trace[|es|]).(step := trace[|es|].step + 1)
  {
    var t := Emptied(trace[|es|]).(step := trace[|es|].step + 1);
    EmptyTick(cfg, trace[|es|], now);
    Grows(cfg, trace, es, trace, es, now, Tick(now, []), t, now);
    trace', es' := trace + [t], es + [Tick(now, [])];
  }

  lemma OrphanIsLeft(s: State, c: Chan, d: Chan, t: State, u: State)
    requires Doubled(s, c, d) && AllBack(s, c.instance, t) && u == Emptied(t).(step := t.step + 1)
    ensures Orphan(u, d) && Free(u, d.instance)
  {
    assert c in HealersOf(s, c.instance);
    assert forall e | e in t.chans.Values :: e in s.watchers && e.instance != c.instance;
    assert forall e | Heals(u, e) :: Heals(s, e) && e !in HealersOf(s, c.instance);
  }

  lemma DoubledFiresTwice(cfg: Config, trace: seq<State>, es: seq<Event>, now: Instant, c: Chan, d: Chan)
    returns (trace': seq<State>, es': seq<Event>, later: Instant)
    requires TimedRun(cfg, trace, es, now) && cfg.active && cfg.level >= 1 && Doubled(trace[|es|], c, d)
    ensures GoesOn(cfg, trace, es, trace', es', later) && GuardedAfter(cfg, |es|, trace', es')
    ensures FiresTwice(cfg, trace', es', |es|, c.instance)
  {
    var trace1, es1 := SecondIsOrphaned(cfg, trace, es, now, c, d);
    trace', es', later := OrphanFiresToo(cfg, trace1, es1, now, d);
    GoesOnAndOn(cfg, trace, es, trace1, es1, now, trace', es', later);
  }

  lemma TickDoubles(cfg: Config, s: State, e: Event, x: string)
    returns (c: Chan, d: Chan)
    requires Shape(s) && Enabled(s, e) && e.Tick? && !Guarded(cfg, s, e, x)
    ensures cfg.active && cfg.level >= 1 && Doubled(Apply(cfg, s, e), c, d) && c.instance == x
  {
    c :| Heals(s, c) && c.instance == x;
    d := Chan(s.step, x);
    WantedIsStripped(cfg, s, e.labels, x);
    TickKeepsShape(cfg, s, e.labels);
    UpdateDoubles(s, Reported(e.labels), Wanted(cfg, s, e.labels), c);
  }

  lemma UpdateDoubles(s: State, reported: set<string>, wanted: set<string>, c: Chan)
    requires Shape(s) && !s.done && !Crowded(s, reported, wanted) && Heals(s, c) && c.instance in wanted
    ensures var t, d := Updated(s, reported, wanted), Chan(s.step, c.instance);
            Heals(t, c) && c != d && t.chans[c.instance] == d && t.watchers[d].Resolving?
  {
    EntryIsMade(s, reported, wanted, c.instance);
    assert Chan(s.step, c.instance) in Made(s.step, wanted);
  }

  /** The last step of the run is not guarded as to x. */
  ghost predicate EndsUnguarded(cfg: Config, trace: seq<State>, es: seq<Event>, x: string) {
    && |trace| == |es| + 1 && es != []
    && Enabled(trace[|es| - 1], es[|es| - 1]) && !Guarded(cfg, trace[|es| - 1], es[|es| - 1], x)
  }

  lemma MoveDoubles(cfg: Config, s: State, e: Event, t: State, x: string) returns (c: Chan, d: Chan)
    requires Shape(s) && Moves(cfg, s, e, t) && e.Tick? && !Guarded(cfg, s, e, x)
    ensures cfg.active && cfg.level >= 1 && Doubled(t, c, d) && c.instance == x
  {
    c, d := TickDoubles(cfg, s, e, x);
  }

  lemma StepDoubles(cfg: Config, trace: seq<State>, es: seq<Event>, n: nat, x: string) returns (c: Chan, d: Chan)
    requires Run(cfg, trace, es) && n < |es| && es[n].Tick?
    requires Enabled(trace[n], es[n]) && !Guarded(cfg, trace[n], es[n], x)
    ensures cfg.active && cfg.level >= 1 && Doubled(trace[n + 1], c, d) && c.instance == x
  {
    StepOfRun(cfg, trace, es, n + 1);
    c, d := MoveDoubles(cfg, trace[n], es[n], trace[n + 1], x);
  }

  /** A tick that admits an instance still being healed can be followed, however guarded all other steps are, by two
      fires during one outage. So no weaker condition on ticks would do. */
  lemma UnguardedTickBreaks(cfg: Config, trace: seq<State>, es: seq<Event>, now: Instant, x: string)
    returns (trace': seq<State>, es': seq<Event>, later: Instant)
    requires TimedRun(cfg, trace, es, now) && EndsUnguarded(cfg, trace, es, x) && es[|es| - 1].Tick?
    ensures GoesOn(cfg, trace, es, trace', es', later) && GuardedAfter(cfg, |es|, trace', es')
    ensures FiresTwice(cfg, trace', es', |es|, x)
  {
    var c, d := StepDoubles(cfg, trace, es, |es| - 1, x);
    trace', es', later := DoubledFiresTwice(cfg, trace, es, now, c, d);
  }

  // ----- a cancelled watcher that fires -----

  /** Whoever is healing and named in the channel table has fired, and its instance has not been up since. */
  lemma {:induction false} HealingHasFired(cfg: Config, trace: seq<State>, es: seq<Event>, n: nat, c: Chan)
    returns (i: nat)
    requires Run(cfg, trace, es) && n < |trace| && Heals(trace[n], c) && Named(trace[n], c)
    ensures i < n && FiresAt(cfg, trace, es, i, c.instance) && NeverUp(cfg, es, i, n, c.instance)
  {
    assert n > 0;
    StepOfRun(cfg, trace, es, n);
    HealingStep(cfg, trace[n - 1], es[n - 1], trace[n], c);
    if Heals(trace[n - 1], c) {
      i := HealingHasFired(cfg, trace, es, n - 1, c);
    } else {
      i := n - 1;
    }
  }

  lemma HealingStep(cfg: Config, s: State, e: Event, t: State, c: Chan)
    requires Shape(s) && Moves(cfg, s, e, t) && Heals(t, c) && Named(t, c)
    ensures Named(s, c) && !UpAgain(cfg, e, c.instance)
    ensures Heals(s, c) || (e.Check? && e.chan == c && Fires(cfg, s, e))
  {
    StepToNamed(cfg, s, e, t, c);
    if c !in s.watchers {
      StepToWatcher(cfg, s, e, t, c);
    }
  }

  ghost predicate NoTickAfter(es: seq<Event>, n: nat) {
    forall m | n <= m < |es| :: !es[m].Tick?
  }

  /** A watcher that is not healing yet gets as far as evaluating its alert. */
  lemma WatcherIsReady(cfg: Config, trace: seq<State>, es: seq<Event>, now: Instant, d: Chan)
    returns (trace': seq<State>, es': seq<Event>)
    requires TimedRun(cfg, trace, es, now) && !trace[|es|].done
    requires d in trace[|es|].watchers && !Heals(trace[|es|], d)
    ensures GoesOn(cfg, trace, es, trace', es', now) && GuardedAfter(cfg, |es|, trace', es') && NoTickAfter(es', |es|)
    ensures var s, t := trace[|es|], trace'[|es'|];
            && d in t.watchers && t.watchers[d].Watching?
            && t == s.(step := t.step, nodes := t.nodes, watchers := s.watchers[d := t.watchers[d]])
  {
    trace', es' := NameIsTold(cfg, trace, es, now, d.instance);
    var s := trace'[|es'|];
    if s.watchers[d].Resolving? {
      NameIsLearnt(cfg, s, d);
      var t := s.(step := s.step + 1, watchers := s.watchers[d := READY]);
      Grows(cfg, trace, es, trace', es', now, Resolve(d), t, now);
      trace', es' := trace' + [t], es' + [Resolve(d)];
    } else {
      assert s.watchers[d := s.watchers[d]] == s.watchers;
    }
  }

  /** And it fires, whether its channel is open or not. */
  lemma WatcherFires(cfg: Config, trace: seq<State>, es: seq<Event>, now: Instant, d: Chan)
    returns (trace': seq<State>, es': seq<Event>, later: Instant)
    requires TimedRun(cfg, trace, es, now) && !trace[|es|].done
    requires d in trace[|es|].watchers && trace[|es|].watchers[d].Watching?
    ensures GoesOn(cfg, trace, es, trace', es', later) && |es'| == |es| + 1 && NoTickAfter(es', |es|)
    ensures d !in trace[|es|].closed ==> GuardedAfter(cfg, |es|, trace', es')
    ensures FiresAt(cfg, trace', es', |es|, d.instance) && es'[|es|].chan == d
    ensures var s, t := trace[|es|], trace'[|es'|];
            t == s.(step := s.step + 1, watchers := s.watchers[d := Healing])
  {
    var s := trace[|es|];
    LateCheckFires(cfg, s, d, now);
    var e := Check(d, now, Late(cfg, s.watchers[d].alarm, now));
    var t := s.(step := s.step + 1, watchers := s.watchers[d := Healing]);
    Grows(cfg, trace, es, trace, es, now, e, t, e.checkAt);
    trace', es', later := trace + [t], es + [e], e.checkAt;
  }

  lemma ReadyAndFires(cfg: Config, trace: seq<State>, es: seq<Event>, now: Instant, d: Chan)
    returns (trace': seq<State>, es': seq<Event>, later: Instant)
    requires TimedRun(cfg, trace, es, now) && !trace[|es|].done
    requires d in trace[|es|].watchers && d !in trace[|es|].closed && !Heals(trace[|es|], d)
    ensures GoesOn(cfg, trace, es, trace', es', later) && GuardedAfter(cfg, |es|, trace', es') && NoTickAfter(es', |es|)
    ensures |es'| > |es| && FiresAt(cfg, trace', es', |es'| - 1, d.instance)
    ensures var s, t := trace[|es|], trace'[|es'|];
            t == s.(step := t.step, nodes := t.nodes, watchers := s.watchers[d := Healing])
  {
    var trace1, es1 := WatcherIsReady(cfg, trace, es, now, d);
    trace', es', later := WatcherFires(cfg, trace1, es1, now, d);
    GoesOnAndOn(cfg, trace, es, trace1, es1, now, trace', es', later);
  }

  lemma NeverUpWithoutTicks(cfg: Config, es: seq<Event>, n: nat, x: string)
    requires 0 < n <= |es| && NoTickAfter(es, n)
    ensures NeverUp(cfg, es, n - 1, |es| - 1, x)
  {
  }

  /** That step is the fire of watcher c, whose channel is closed, while its instance has got another one. */
  ghost predicate EndsStale(cfg: Config, trace: seq<State>, es: seq<Event>, c: Chan) {
    EndsUnguarded(cfg, trace, es, c.instance) && es[|es| - 1].Check? && es[|es| - 1].chan == c
  }

  lemma StaleFacts(cfg: Config, trace: seq<State>, es: seq<Event>, c: Chan)
    requires Run(cfg, trace, es) && EndsStale(cfg, trace, es, c)
    ensures var n, s := |es| - 1, trace[|es| - 1];
            && Shape(s) && c in s.closed && c.instance in s.chans && c in s.watchers && s.watchers[c].Watching?
            && FiresAt(cfg, trace, es, n, c.instance)
            && trace[|es|] == s.(step := s.step + 1, watchers := s.watchers[c := Healing])
  {
    RunKeepsShape(cfg, trace, es, |es| - 1);
    assert StepAt(cfg, trace, es, |es| - 1);
  }

  lemma FiredBefore(cfg: Config, trace: seq<State>, es: seq<Event>, c: Chan, d: Chan)
    requires Run(cfg, trace, es) && EndsStale(cfg, trace, es, c)
    requires Heals(trace[|es| - 1], d) && Named(trace[|es| - 1], d) && d.instance == c.instance
    ensures FiresTwice(cfg, trace, es, |es| - 1, c.instance)
  {
    var n := |es| - 1;
    StaleFacts(cfg, trace, es, c);
    var i := HealingHasFired(cfg, trace, es, n, d);
    assert FiresAt(cfg, trace, es, i, c.instance) && NeverUp(cfg, es, i, n, c.instance);
    assert FiredSinceUp(cfg, trace, es, n, c.instance);
  }

  lemma FiresAfter(cfg: Config, trace: seq<State>, es: seq<Event>, c: Chan, d: Chan, now: Instant)
    returns (trace': seq<State>, es': seq<Event>, later: Instant)
    requires TimedRun(cfg, trace, es, now) && EndsStale(cfg, trace, es, c)
    requires d in trace[|es| - 1].watchers && d !in trace[|es| - 1].closed && d.instance == c.instance
    requires !Heals(trace[|es| - 1], d) && !trace[|es|].done
    ensures GoesOn(cfg, trace, es, trace', es', later) && GuardedAfter(cfg, |es|, trace', es')
    ensures FiresTwice(cfg, trace', es', |es| - 1, c.instance)
  {
    StaleFacts(cfg, trace, es, c);
    trace', es', later := ReadyAndFires(cfg, trace, es, now, d);
    NeverUpWithoutTicks(cfg, es', |es|, c.instance);
    assert FiresAt(cfg, trace', es', |es| - 1, c.instance);
    assert FiredSinceUp(cfg, trace', es', |es'| - 1, c.instance);
  }

  /** A cancelled watcher has just fired. If its instance has got another one, that one has fired before it or can do
      so after it, however guarded all other steps are. */
  lemma StaleFireBreaks(cfg: Config, trace: seq<State>, es: seq<Event>, now: Instant, c: Chan)
    returns (trace': seq<State>, es': seq<Event>, later: Instant)
    requires TimedRun(cfg, trace, es, now) && EndsStale(cfg, trace, es, c) && !trace[|es|].done
    ensures GoesOn(cfg, trace, es, trace', es', later) && GuardedAfter(cfg, |es|, trace', es')
    ensures FiresTwice(cfg, trace', es', |es| - 1, c.instance)
  {
    StaleFacts(cfg, trace, es, c);
    var d := trace[|es| - 1].chans[c.instance];
    if Heals(trace[|es| - 1], d) {
      FiredBefore(cfg, trace, es, c, d);
      trace', es', later := trace, es, now;
    } else {
      trace', es', later := FiresAfter(cfg, trace, es, c, d, now);
    }
  }

  /** So the guard is not stricter than it must be: whatever step goes against it, in any run of a healer that has not
      been stopped, there is a continuation in which all steps are guarded, and the instance is healed
      twice in one outage. */
  lemma UnguardedStepBreaks(cfg: Config, trace: seq<State>, es: seq<Event>, now: Instant, x: string)
    returns (trace': seq<State>, es': seq<Event>, later: Instant)
    requires TimedRun(cfg, trace, es, now) && EndsUnguarded(cfg, trace, es, x) && !trace[|es|].done
    ensures GoesOn(cfg, trace, es, trace', es', later) && GuardedAfter(cfg, |es|, trace', es')
    ensures FiresTwice(cfg, trace', es', |es| - 1, x)
  {
    if es[|es| - 1].Tick? {
      trace', es', later := UnguardedTickBreaks(cfg, trace, es, now, x);
    } else {
      trace', es', later := StaleFireBreaks(cfg, trace, es, now, es[|es| - 1].chan);
    }
  }

  // ----- all this happens -----

  function Cleared(s: State): State {
    Emptied(s).(step := s.step + 2, silences := map[])
  }

  /** Everything comes up, and no silence is left. */
  lemma EverythingComesUp(cfg: Config, trace: seq<State>, es: seq<Event>, now: Instant)
    returns (trace': seq<State>, es': seq<Event>)
    requires TimedRun(cfg, trace, es, now) && cfg.active && !trace[|es|].done
    ensures GoesOn(cfg, trace, es, trace', es', now) && GuardedAfter(cfg, |es|, trace', es')
    ensures trace'[|es'|] == Cleared(trace[|es|])
  {
    var trace1, es1 := NothingIsReported(cfg, trace, es, now);
    trace', es' := SilencesAreLifted(cfg, trace1, es1, now);
    GoesOnAndOn(cfg, trace, es, trace1, es1, now, trace', es', now);
  }

  lemma AdmissionDoubles(s: State, c: Chan, t: State)
    requires Heals(s, c) && BornOk(s) && !s.done && t == Single(s, c.instance).(step := s.step + 1)
    ensures Doubled(t, c, Chan(s.step, c.instance))
  {
  }

  ghost predicate GuardedBefore(cfg: Config, trace: seq<State>, es: seq<Event>, n: nat)
    requires n <= |es| && n <= |trace|
  {
    forall i: nat | i < n :: Enabled(trace[i], es[i]) && AllGuarded(cfg, trace[i], es[i])
  }

  /** Event n is the one step of the run that is not guarded. */
  ghost predicate OnlyUnguarded(cfg: Config, trace: seq<State>, es: seq<Event>, n: nat)
    requires |trace| == |es| + 1
  {
    && n < |es| && GuardedBefore(cfg, trace, es, n) && Enabled(trace[n], es[n]) && !AllGuarded(cfg, trace[n], es[n])
    && GuardedAfter(cfg, n + 1, trace, es)
  }

  lemma StillOnlyUnguarded(cfg: Config, trace: seq<State>, es: seq<Event>, n: nat, trace': seq<State>, es': seq<Event>)
    requires |trace| == |es| + 1 && |trace'| == |es'| + 1 && trace <= trace' && es <= es'
    requires n == |es| - 1 && GuardedBefore(cfg, trace, es, n)
    requires Enabled(trace[n], es[n]) && !AllGuarded(cfg, trace[n], es[n]) && GuardedAfter(cfg, |es|, trace', es')
    ensures OnlyUnguarded(cfg, trace', es', n)
  {
    forall i: nat | i < n ensures Enabled(trace'[i], es'[i]) && AllGuarded(cfg, trace'[i], es'[i]) {
      assert trace'[i] == trace[i] && es'[i] == es[i];
    }
  }

  /** x, and nothing else, is being watched in this way. */
  ghost predicate Only(s: State, c: Chan, p: Phase) {
    && !s.done && s.watchers == map[c := p] && s.chans == map[c.instance := c]
    && s.whitelist == {} && s.silences == map[]
  }

  lemma OnlyOneIsAdmitted(s: State, x: string)
    requires s == Single(INIT, x).(step := 1)
    ensures Only(s, Chan(0, x), Resolving)
  {
    assert INIT.watchers[Chan(0, x) := Resolving] == map[Chan(0, x) := Resolving];
  }

  /** Run into the healing of x, from scratch. */
  lemma HealingBegins(cfg: Config, x: string, now: Instant)
    returns (trace: seq<State>, es: seq<Event>, later: Instant, c: Chan)
    requires cfg.active && cfg.level >= 1 && Strip(x) == x && UNIX_EPOCH <= now
    ensures TimedRun(cfg, trace, es, later) && GuardedAfter(cfg, 0, trace, es)
    ensures Only(trace[|es|], c, Healing) && c.instance == x
  {
    var trace1, es1 := InstanceIsAdmitted(cfg, [INIT], [], now, x);
    c := Chan(0, x);
    OnlyOneIsAdmitted(trace1[|es1|], x);
    trace, es, later := ReadyAndFires(cfg, trace1, es1, now, c);
    GoesOnAndOn(cfg, [INIT], [], trace1, es1, now, trace, es, later);
    RunKeepsShape(cfg, trace, es, |es|);
    OnlyStays(trace1[|es1|], trace[|es|], c, Resolving, Healing);
  }

  lemma OnlyStays(s: State, t: State, c: Chan, p: Phase, q: Phase)
    requires Only(s, c, p) && t == s.(step := t.step, nodes := t.nodes, watchers := s.watchers[c := q])
    ensures Only(t, c, q)
  {
    assert map[c := p][c := q] == map[c := q];
  }

  /** The rest of the story, once the channel table is empty and c still heals. */
  lemma AdmittedWhileHealing(cfg: Config, trace1: seq<State>, es1: seq<Event>, now: Instant, c: Chan)
    returns (trace: seq<State>, es: seq<Event>, later: Instant, n: nat)
    requires cfg.active && cfg.level >= 1 && TimedRun(cfg, trace1, es1, now) && GuardedAfter(cfg, 0, trace1, es1)
    requires var s := trace1[|es1|]; s.watchers == map[c := Healing] && s.chans == map[] && s.whitelist == {}
                                     && s.silences == map[] && !s.done
    ensures GoesOn(cfg, trace1, es1, trace, es, later) && FiresTwice(cfg, trace, es, n, c.instance)
    ensures n == |es1| && OnlyUnguarded(cfg, trace, es, n) && es[n].Tick?
  {
    n := |es1|;
    var s := trace1[n];
    RunKeepsShape(cfg, trace1, es1, |es1|);
    assert Heals(s, c) && !Free(s, c.instance);
    var trace2, es2 := InstanceIsAdmitted(cfg, trace1, es1, now, c.instance);
    AdmissionDoubles(s, c, trace2[|es2|]);
    trace, es, later := DoubledFiresTwice(cfg, trace2, es2, now, c, Chan(s.step, c.instance));
    GoesOnAndOn(cfg, trace1, es1, trace2, es2, now, trace, es, later);
    GuardedUntil(cfg, trace1, es1, trace2, es2);
    StillOnlyUnguarded(cfg, trace2, es2, n, trace, es);
  }

  lemma GuardedUntil(cfg: Config, trace: seq<State>, es: seq<Event>, trace': seq<State>, es': seq<Event>)
    requires |trace| == |es| + 1 && |trace'| == |es'| + 1 && trace <= trace' && es <= es'
    requires GuardedAfter(cfg, 0, trace, es)
    ensures GuardedBefore(cfg, trace', es', |es|)
  {
    forall i: nat | i < |es| ensures Enabled(trace'[i], es'[i]) && AllGuarded(cfg, trace'[i], es'[i]) {
      assert trace'[i] == trace[i] && es'[i] == es[i];
    }
  }

  /** An instance that comes up and goes down again while it is being healed is healed twice in its second outage. */
  lemma UpWhileHealingFiresTwice(cfg: Config, x: string, now: Instant)
    returns (trace: seq<State>, es: seq<Event>, later: Instant, n: nat)
    requires cfg.active && cfg.level >= 1 && Strip(x) == x && UNIX_EPOCH <= now
    ensures TimedRun(cfg, trace, es, later) && FiresTwice(cfg, trace, es, n, x)
    ensures OnlyUnguarded(cfg, trace, es, n) && es[n].Tick?
  {
    var trace0, es0, now0, c := HealingBegins(cfg, x, now);
    var trace1, es1 := EverythingComesUp(cfg, trace0, es0, now0);
    RunFromScratch(cfg, trace0, es0, now0);
    GoesOnAndOn(cfg, [INIT], [], trace0, es0, now0, trace1, es1, now0);
    trace, es, later, n := AdmittedWhileHealing(cfg, trace1, es1, now0, c);
  }

  lemma RunFromScratch(cfg: Config, trace: seq<State>, es: seq<Event>, now: Instant)
    requires TimedRun(cfg, trace, es, now)
    ensures GoesOn(cfg, [INIT], [], trace, es, now)
  {
  }

  // A storm: three more instances besides one that is busy.

  const BUSY := "x"

  function Many(n: nat): seq<string> {
    Copies("a", n) + Copies("b", n) + Copies("c", n) + Copies(BUSY, n)
  }

  predicate Reports(n: nat, x: string) {
    x in Stripped(Many(n)) && multiset(Stripped(Many(n)))[x] == n
  }

  lemma ManyAreCounted(n: nat)
    requires n >= 1
    ensures Reports(n, "a") && Reports(n, "b") && Reports(n, "c") && Reports(n, BUSY)
  {
    CopiesAre("a", n);
    CopiesAre("b", n);
    CopiesAre("c", n);
    CopiesAre(BUSY, n);
    assert forall i | 0 <= i < |Many(n)| :: Many(n)[i] in {"a", "b", "c", BUSY};
    StripsNothing();
    assert Stripped(Many(n)) == Many(n);
    assert Many(n)[0] == "a" && Many(n)[n] == "b" && Many(n)[2 * n] == "c" && Many(n)[3 * n] == BUSY;
  }

  lemma StripsNothing()
    ensures forall x | x in {"a", "b", "c", BUSY} :: Strip(x) == x
  {
    assert "a"[1..] == "" && "b"[1..] == "" && "c"[1..] == "" && BUSY[1..] == "";
  }

  lemma {:induction false} CopiesAre(x: string, n: nat)
    ensures forall y :: multiset(Copies(x, n))[y] == if y == x then n else 0
  {
    if n > 0 {
      CopiesAre(x, n - 1);
      assert Copies(x, n) == Copies(x, n - 1) + [x];
    }
  }

  lemma FourAreWanted(cfg: Config, s: State, c: Chan)
    requires cfg.level >= 1 && s.chans == map[BUSY := c] && s.whitelist == {} && s.silences == map[]
    ensures var labels := Many(cfg.level);
            {"a", "b", "c"} <= Wanted(cfg, s, labels) && BUSY in Reported(labels)
  {
    ManyAreCounted(cfg.level);
    CountedIsWanted(cfg, s, Many(cfg.level), "a");
    CountedIsWanted(cfg, s, Many(cfg.level), "b");
    CountedIsWanted(cfg, s, Many(cfg.level), "c");
  }

  lemma CountedIsWanted(cfg: Config, s: State, labels: seq<string>, x: string)
    requires x in Stripped(labels) && multiset(Stripped(labels))[x] == cfg.level
    requires x !in s.chans && x !in s.whitelist && s.silences == map[]
    ensures x in Wanted(cfg, s, labels)
  {
  }

  lemma FourAreTooMany(s: State, c: Chan, reported: set<string>, wanted: set<string>)
    requires s.chans == map[BUSY := c] && s.whitelist == {} && {"a", "b", "c"} <= wanted && BUSY in reported
    ensures Crowded(s, reported, wanted) && Updated(s, reported, wanted) == Emptied(s)
  {
    assert Kept(s.chans, reported) == map[BUSY := c];
    assert wanted == {"a", "b", "c"} + (wanted - {"a", "b", "c"});
    assert |{"a", "b", "c"}| == 3;
    assert s.whitelist * reported == {};
  }

  lemma StormTick(cfg: Config, s: State, c: Chan, now: Instant)
    requires cfg.active && cfg.level >= 1 && !s.done
    requires s.chans == map[BUSY := c] && s.whitelist == {} && s.silences == map[]
    ensures var e := Tick(now, Many(cfg.level));
            && Moves(cfg, s, e, Emptied(s).(step := s.step + 1))
            && Storm(cfg, s, e.labels) && AllGuarded(cfg, s, e)
  {
    FourAreWanted(cfg, s, c);
    FourAreTooMany(s, c, Reported(Many(cfg.level)), Wanted(cfg, s, Many(cfg.level)));
  }

  /** A storm that cancels a watcher that is still healing has its instance healed twice in one outage. */
  lemma StormWhileHealingFiresTwice(cfg: Config, now: Instant)
    returns (trace: seq<State>, es: seq<Event>, later: Instant, n: nat)
    requires cfg.active && cfg.level >= 1 && UNIX_EPOCH <= now
    ensures TimedRun(cfg, trace, es, later) && FiresTwice(cfg, trace, es, n, BUSY)
    ensures OnlyUnguarded(cfg, trace, es, n) && es[n].Tick?
    ensures n > 0 && es[n - 1].Tick? && Storm(cfg, trace[n - 1], es[n - 1].labels)
  {
    StripsNothing();
    var trace0, es0, now0, c := HealingBegins(cfg, BUSY, now);
    var trace1, es1 := StormComes(cfg, trace0, es0, now0, c);
    trace, es, later, n := AdmittedWhileHealing(cfg, trace1, es1, now0, c);
    assert trace[n - 1] == trace1[n - 1] && es[n - 1] == es1[n - 1];
  }

  lemma StormComes(cfg: Config, trace: seq<State>, es: seq<Event>, now: Instant, c: Chan)
    returns (trace': seq<State>, es': seq<Event>)
    requires TimedRun(cfg, trace, es, now) && GuardedAfter(cfg, 0, trace, es) && cfg.active && cfg.level >= 1
    requires Only(trace[|es|], c, Healing) && c.instance == BUSY
    ensures TimedRun(cfg, trace', es', now) && GuardedAfter(cfg, 0, trace', es') && |es'| == |es| + 1
    ensures trace'[|es'|] == Emptied(trace[|es|]).(step := trace[|es|].step + 1)
    ensures es'[|es|].Tick? && Storm(cfg, trace'[|es|], es'[|es|].labels)
  {
    var s, e := trace[|es|], Tick(now, Many(cfg.level));
    StormTick(cfg, s, c, now);
    RunFromScratch(cfg, trace, es, now);
    Grows(cfg, [INIT], [], trace, es, now, e, Emptied(s).(step := s.step + 1), now);
    trace', es' := trace + [Emptied(s).(step := s.step + 1)], es + [e];
  }

  /** Run into a state where x is watched by d, and its former watcher c has been cancelled but has not seen it yet. */
  lemma CancelledWatcherLingers(cfg: Config, x: string, now: Instant)
    returns (trace: seq<State>, es: seq<Event>, c: Chan)
    requires cfg.active && cfg.level >= 1 && Strip(x) == x && UNIX_EPOCH <= now
    ensures TimedRun(cfg, trace, es, now) && GuardedAfter(cfg, 0, trace, es)
    ensures var s := trace[|es|];
            && !s.done && c.instance == x && x in s.chans && c in s.closed
            && c in s.watchers && s.watchers[c].Watching?
  {
    var trace1, es1 := InstanceIsAdmitted(cfg, [INIT], [], now, x);
    c := Chan(0, x);
    OnlyOneIsAdmitted(trace1[|es1|], x);
    var trace2, es2 := WatcherIsReady(cfg, trace1, es1, now, c);
    GoesOnAndOn(cfg, [INIT], [], trace1, es1, now, trace2, es2, now);
    OnlyStays(trace1[|es1|], trace2[|es2|], c, Resolving, trace2[|es2|].watchers[c]);
    trace, es := ComesUpAndGoesDown(cfg, trace2, es2, now, c, trace2[|es2|].watchers[c]);
  }

  lemma ComesUpAndGoesDown(cfg: Config, trace: seq<State>, es: seq<Event>, now: Instant, c: Chan, p: Phase)
    returns (trace': seq<State>, es': seq<Event>)
    requires TimedRun(cfg, trace, es, now) && GuardedAfter(cfg, 0, trace, es) && cfg.active && cfg.level >= 1
    requires Only(trace[|es|], c, p) && p.Watching?
    requires Strip(c.instance) == c.instance
    ensures TimedRun(cfg, trace', es', now) && GuardedAfter(cfg, 0, trace', es')
    ensures var s := trace'[|es'|];
            && !s.done && c.instance in s.chans && c in s.closed && c in s.watchers && s.watchers[c].Watching?
  {
    RunFromScratch(cfg, trace, es, now);
    RunKeepsShape(cfg, trace, es, |es|);
    assert trace[|es|].chans[c.instance] in trace[|es|].chans.Values;
    var trace1, es1 := EverythingComesUp(cfg, trace, es, now);
    GoesOnAndOn(cfg, [INIT], [], trace, es, now, trace1, es1, now);
    RunKeepsShape(cfg, trace1, es1, |es1|);
    trace', es' := InstanceIsAdmitted(cfg, trace1, es1, now, c.instance);
    GoesOnAndOn(cfg, [INIT], [], trace1, es1, now, trace', es', now);
  }

  /** A watcher that takes its ticker although its channel is closed heals an instance that another one goes on to
      heal in the same outage. */
  lemma StaleWatcherFiresTwice(cfg: Config, x: string, now: Instant)
    returns (trace: seq<State>, es: seq<Event>, later: Instant, n: nat)
    requires cfg.active && cfg.level >= 1 && Strip(x) == x && UNIX_EPOCH <= now
    ensures TimedRun(cfg, trace, es, later) && FiresTwice(cfg, trace, es, n, x)
    ensures OnlyUnguarded(cfg, trace, es, n) && es[n].Check? && es[n].chan in trace[n].closed
  {
    var trace1, es1, c := CancelledWatcherLingers(cfg, x, now);
    var trace2, es2, now2 := WatcherFires(cfg, trace1, es1, now, c);
    n := |es1|;
    GuardedUntil(cfg, trace1, es1, trace2, es2);
    trace, es, later := StaleFireBreaks(cfg, trace2, es2, now2, c);
    StillOnlyUnguarded(cfg, trace2, es2, n, trace, es);
  }
}
