/** What a healer's maps hold in any state of any run, told by nothing but the events of the run: who is watched, by
    whom, who has been cancelled, who is whitelisted, and when a watcher fires. */
module HealerHistory {
  import opened Clock
  import opened Healers
  import opened Latches
  import Alerts

  // ----- names -----

  /** The part of an address before its first colon. */
  lemma {:induction false} StripExactly(text: string)
    ensures Strip(text) <= text && ':' !in Strip(text)
    ensures Strip(text) == text || text[|Strip(text)|] == ':'
  {
    if text != "" && text[0] != ':' {
      StripExactly(text[1..]);
    }
  }

  // ----- a tick, in terms of what is reported -----

  /** How many results name the instance, with whatever port. */
  function Results(labels: seq<string>, x: string): nat {
    if labels == [] then 0
    else Results(labels[..|labels| - 1], x) + if Strip(labels[|labels| - 1]) == x then 1 else 0
  }

  lemma {:induction false} ResultsAreCounted(labels: seq<string>, x: string)
    ensures Results(labels, x) == multiset(Stripped(labels))[x]
    ensures Results(labels, x) > 0 <==> x in Reported(labels)
  {
    if labels != [] {
      var n := |labels| - 1;
      ResultsAreCounted(labels[..n], x);
      assert Stripped(labels) == Stripped(labels[..n]) + [Strip(labels[n])];
    }
  }

  /** The tick has reason to heal x: just as many results name it as the level asks for, at least one, it is neither
      whitelisted nor watched, and no silence matches it. */
  predicate Wants(cfg: Config, s: State, labels: seq<string>, x: string) {
    && Results(labels, x) == cfg.level > 0 && x !in s.whitelist && x !in s.chans
    && forall id | id in s.silences :: !cfg.matches(s.silences[id].pattern, x)
  }

  function DueNow(cfg: Config, s: State, labels: seq<string>): set<string> {
    set i | 0 <= i < |labels| && Wants(cfg, s, labels, Strip(labels[i])) :: Strip(labels[i])
  }

  function StillWatched(s: State, labels: seq<string>): set<string> {
    set x | x in s.chans && Results(labels, x) > 0
  }

  /** There would be more than three instances, with those watched already and still reported. */
  predicate TooMany(cfg: Config, s: State, labels: seq<string>) {
    cfg.active && |DueNow(cfg, s, labels)| + |StillWatched(s, labels)| > 3
  }

  lemma WantsExactly(cfg: Config, s: State, labels: seq<string>, x: string)
    ensures Wants(cfg, s, labels, x) <==> x in Wanted(cfg, s, labels)
  {
    ResultsAreCounted(labels, x);
  }

  lemma WantedAreDue(cfg: Config, s: State, labels: seq<string>)
    ensures DueNow(cfg, s, labels) == Wanted(cfg, s, labels)
  {
    forall x ensures x in DueNow(cfg, s, labels) <==> x in Wanted(cfg, s, labels) {
      WantsExactly(cfg, s, labels, x);
      if x in Wanted(cfg, s, labels) {
        var i :| 0 <= i < |labels| && Stripped(labels)[i] == x;
      }
    }
  }

  lemma KeptAreWatched(s: State, labels: seq<string>)
    ensures StillWatched(s, labels) == Kept(s.chans, Reported(labels)).Keys
  {
    forall x ensures x in StillWatched(s, labels) <==> x in Kept(s.chans, Reported(labels)) {
      ResultsAreCounted(labels, x);
    }
  }

  lemma TooManyExactly(cfg: Config, s: State, labels: seq<string>)
    ensures TooMany(cfg, s, labels) <==> cfg.active && Storm(cfg, s, labels)
  {
    WantedAreDue(cfg, s, labels);
    KeptAreWatched(s, labels);
    assert |Kept(s.chans, Reported(labels))| == |Kept(s.chans, Reported(labels)).Keys|;
  }

  // ----- the events of a run that matter -----

  ghost predicate AdmitsAt(cfg: Config, trace: seq<State>, es: seq<Event>, i: nat, x: string)
    requires i < |es| && i < |trace|
  {
    && cfg.active && es[i].Tick? && !TooMany(cfg, trace[i], es[i].labels)
    && Wants(cfg, trace[i], es[i].labels, x)
  }

  /** A successful active tick does not report x, or finds too many instances. */
  ghost predicate CancelsAt(cfg: Config, trace: seq<State>, es: seq<Event>, i: nat, x: string)
    requires i < |es| && i < |trace|
  {
    cfg.active && es[i].Tick? && (Results(es[i].labels, x) == 0 || TooMany(cfg, trace[i], es[i].labels))
  }

  predicate Leaves(e: Event, c: Chan) {
    e == Event.Cancel(c) || e == Event.Finish(c) || e == Event.Quit(c)
  }

  /** do returns for the instance. */
  predicate Healed(e: Event, x: string) {
    e.Finish? && e.chan.instance == x
  }

  /** A successful active tick does not report x. */
  predicate FindsUp(cfg: Config, e: Event, x: string) {
    cfg.active && e.Tick? && Results(e.labels, x) == 0
  }

  lemma StepAsReported(cfg: Config, trace: seq<State>, es: seq<Event>, i: nat, x: string)
    requires i < |es| && i < |trace|
    ensures AdmitsAt(cfg, trace, es, i, x) <==> Admits(cfg, trace[i], es[i], x)
    ensures CancelsAt(cfg, trace, es, i, x) <==> Closes(cfg, trace[i], es[i], x)
    ensures FindsUp(cfg, es[i], x) <==> UpAgain(cfg, es[i], x)
  {
    if es[i].Tick? {
      TooManyExactly(cfg, trace[i], es[i].labels);
      WantsExactly(cfg, trace[i], es[i].labels, x);
      ResultsAreCounted(es[i].labels, x);
    }
  }

  // ----- who is whitelisted, and which silences are known -----

  /** x was healed in step m, and no tick has found it up since. */
  ghost predicate HealedSinceUp(cfg: Config, es: seq<Event>, m: nat, n: nat, x: string)
    requires n <= |es|
  {
    m < n && Healed(es[m], x) && forall l | m < l < n :: !FindsUp(cfg, es[l], x)
  }

  lemma StepToWhitelist(cfg: Config, s: State, e: Event, t: State, x: string)
    requires Moves(cfg, s, e, t)
    ensures x in t.whitelist <==> Healed(e, x) || (x in s.whitelist && !UpAgain(cfg, e, x))
  {
  }

  /** An instance is whitelisted if and only if it has been healed, and has not been found up since. */
  lemma WhitelistedExactly(cfg: Config, trace: seq<State>, es: seq<Event>, n: nat, x: string)
    requires Run(cfg, trace, es) && n < |trace|
    ensures x in trace[n].whitelist <==> exists m: nat :: HealedSinceUp(cfg, es, m, n, x)
  {
    var holds := seq(|trace|, i requires 0 <= i < |trace| => x in trace[i].whitelist);
    var causes := seq(|es|, i requires 0 <= i < |es| => Healed(es[i], x));
    var ends := seq(|es|, i requires 0 <= i < |es| => FindsUp(cfg, es[i], x));
    forall i: nat | i < |es| ensures holds[i + 1] <==> causes[i] || (holds[i] && !ends[i]) {
      assert StepAt(cfg, trace, es, i);
      StepToWhitelist(cfg, trace[i], es[i], trace[i + 1], x);
      StepAsReported(cfg, trace, es, i, x);
    }
    LatchExactly(holds, causes, ends, n);
    assert forall l | 0 <= l < |es| :: ends[l] <==> FindsUp(cfg, es[l], x);
    assert forall m: nat | m < n :: Lasts(causes, ends, m, n) <==> HealedSinceUp(cfg, es, m, n, x);
  }

  ghost predicate SetSinceGone(es: seq<Event>, m: nat, n: nat, id: string, silence: Silence)
    requires n <= |es|
  {
    && m < n && es[m] == Event.SilenceSet(id, silence)
    && forall l | m < l < n :: !SetsAnew(es[l], id)
  }

  predicate SetsAnew(e: Event, id: string) {
    (e.SilenceSet? && e.id == id) || (e.SilenceGone? && id in e.ids)
  }

  lemma StepToSilences(cfg: Config, s: State, e: Event, t: State, id: string, silence: Silence)
    requires Moves(cfg, s, e, t)
    ensures id in t.silences && t.silences[id] == silence <==>
            e == Event.SilenceSet(id, silence) || (id in s.silences && s.silences[id] == silence && !SetsAnew(e, id))
  {
  }

  /** A silence is known as it was set last, unless it has gone since. */
  lemma SilencesExactly(cfg: Config, trace: seq<State>, es: seq<Event>, n: nat, id: string, silence: Silence)
    requires Run(cfg, trace, es) && n < |trace|
    ensures id in trace[n].silences && trace[n].silences[id] == silence <==>
            exists m: nat :: SetSinceGone(es, m, n, id, silence)
  {
    var holds := seq(|trace|, i requires 0 <= i < |trace| =>
                       id in trace[i].silences && trace[i].silences[id] == silence);
    var causes := seq(|es|, i requires 0 <= i < |es| => es[i] == Event.SilenceSet(id, silence));
    var ends := seq(|es|, i requires 0 <= i < |es| => SetsAnew(es[i], id));
    forall i: nat | i < |es| ensures holds[i + 1] <==> causes[i] || (holds[i] && !ends[i]) {
      assert StepAt(cfg, trace, es, i);
      StepToSilences(cfg, trace[i], es[i], trace[i + 1], id, silence);
    }
    LatchExactly(holds, causes, ends, n);
    assert forall l | 0 <= l < |es| :: ends[l] <==> SetsAnew(es[l], id);
    assert forall m: nat | m < n :: Lasts(causes, ends, m, n) <==> SetSinceGone(es, m, n, id, silence);
  }

  /** The name of x's node was last given in step m. */
  ghost predicate NamedLast(es: seq<Event>, m: nat, n: nat, x: string, name: string)
    requires n <= |es|
  {
    && m < n && Gives(es[m], x) && es[m].names[x] == name
    && forall l | m < l < n :: !Gives(es[l], x)
  }

  predicate Gives(e: Event, x: string) {
    e.NodeUpdate? && x in e.names
  }

  lemma StepToNames(cfg: Config, s: State, e: Event, t: State, x: string, name: string)
    requires Moves(cfg, s, e, t)
    ensures x in t.nodes && t.nodes[x] == name <==>
            (Gives(e, x) && e.names[x] == name) || (x in s.nodes && s.nodes[x] == name && !Gives(e, x))
  {
  }

  /** A node's name is known as it was given last, from then on. */
  lemma NamesExactly(cfg: Config, trace: seq<State>, es: seq<Event>, n: nat, x: string, name: string)
    requires Run(cfg, trace, es) && n < |trace|
    ensures x in trace[n].nodes && trace[n].nodes[x] == name <==> exists m: nat :: NamedLast(es, m, n, x, name)
  {
    var holds := seq(|trace|, i requires 0 <= i < |trace| => x in trace[i].nodes && trace[i].nodes[x] == name);
    var causes := seq(|es|, i requires 0 <= i < |es| => Gives(es[i], x) && es[i].names[x] == name);
    var ends := seq(|es|, i requires 0 <= i < |es| => Gives(es[i], x));
    forall i: nat | i < |es| ensures holds[i + 1] <==> causes[i] || (holds[i] && !ends[i]) {
      assert StepAt(cfg, trace, es, i);
      StepToNames(cfg, trace[i], es[i], trace[i + 1], x, name);
    }
    LatchExactly(holds, causes, ends, n);
    assert forall l | 0 <= l < |es| :: ends[l] <==> Gives(es[l], x);
    assert forall m: nat | m < n :: Lasts(causes, ends, m, n) <==> NamedLast(es, m, n, x, name);
  }

  // ----- who is watched, and by whom -----

  /** The instance was admitted when the watcher was born, and the watcher has not returned since. */
  ghost predicate RunsSince(cfg: Config, trace: seq<State>, es: seq<Event>, n: nat, c: Chan)
    requires n <= |es| && n <= |trace|
  {
    && c.born < n && AdmitsAt(cfg, trace, es, c.born, c.instance)
    && forall l | c.born < l < n :: !Leaves(es[l], c)
  }

  lemma StepToRunning(cfg: Config, s: State, e: Event, t: State, c: Chan)
    requires Moves(cfg, s, e, t)
    ensures c in t.watchers <==>
            (c.born == s.step && Admits(cfg, s, e, c.instance)) || (c in s.watchers && !Leaves(e, c))
  {
    if e.Tick? && cfg.active {
      UpdateToRunning(s, Reported(e.labels), Wanted(cfg, s, e.labels), c);
    } else {
      OthersKeepRunning(cfg, s, e, t, c);
    }
  }

  lemma OthersKeepRunning(cfg: Config, s: State, e: Event, t: State, c: Chan)
    requires Moves(cfg, s, e, t) && !(e.Tick? && cfg.active)
    ensures c in t.watchers <==> c in s.watchers && !Leaves(e, c)
  {
  }

  lemma UpdateToRunning(s: State, reported: set<string>, wanted: set<string>, c: Chan)
    ensures c in Updated(s, reported, wanted).watchers <==>
            (c.born == s.step && c.instance in wanted && !Crowded(s, reported, wanted)) || c in s.watchers
  {
  }

  lemma RunningOneMore(cfg: Config, trace: seq<State>, es: seq<Event>, n: nat, c: Chan)
    requires Run(cfg, trace, es) && 0 < n < |trace|
    ensures c in trace[n].watchers <==>
            || (c.born == n - 1 && AdmitsAt(cfg, trace, es, n - 1, c.instance))
            || (c in trace[n - 1].watchers && !Leaves(es[n - 1], c))
  {
    RunningStep(cfg, trace, es, n, c);
    StepAsReported(cfg, trace, es, n - 1, c.instance);
  }

  lemma RunningStep(cfg: Config, trace: seq<State>, es: seq<Event>, n: nat, c: Chan)
    requires Run(cfg, trace, es) && 0 < n < |trace|
    ensures c in trace[n].watchers <==>
            || (c.born == n - 1 && Admits(cfg, trace[n - 1], es[n - 1], c.instance))
            || (c in trace[n - 1].watchers && !Leaves(es[n - 1], c))
  {
    StepOfRun(cfg, trace, es, n);
    StepToRunning(cfg, trace[n - 1], es[n - 1], trace[n], c);
  }

  lemma RunsOneMore(cfg: Config, trace: seq<State>, es: seq<Event>, n: nat, c: Chan)
    requires 0 < n <= |es| && n <= |trace|
    ensures RunsSince(cfg, trace, es, n, c) <==>
            || (c.born == n - 1 && AdmitsAt(cfg, trace, es, n - 1, c.instance))
            || (RunsSince(cfg, trace, es, n - 1, c) && !Leaves(es[n - 1], c))
  {
  }

  /** Every instance that a tick has reason to heal is watched from then on, unless there are too many; and nobody else
      is. The watcher stays until it is cancelled, has healed, or finds the healer stopped. */
  lemma {:induction false} RunningExactly(cfg: Config, trace: seq<State>, es: seq<Event>, n: nat, c: Chan)
    requires Run(cfg, trace, es) && n < |trace|
    ensures c in trace[n].watchers <==> RunsSince(cfg, trace, es, n, c)
  {
    if n == 0 {
      assert trace[0].watchers == map[];
    } else {
      RunningExactly(cfg, trace, es, n - 1, c);
      RunningOneMore(cfg, trace, es, n, c);
      RunsOneMore(cfg, trace, es, n, c);
    }
  }

  /** The instance was admitted when the watcher was born, no tick has cancelled it since, and no watcher has healed
      it. */
  ghost predicate WatchedSince(cfg: Config, trace: seq<State>, es: seq<Event>, n: nat, c: Chan)
    requires n <= |es| && n <= |trace|
  {
    && c.born < n && AdmitsAt(cfg, trace, es, c.born, c.instance)
    && forall l | c.born < l < n :: !CancelsAt(cfg, trace, es, l, c.instance) && !Healed(es[l], c.instance)
  }

  lemma StepToTable(cfg: Config, s: State, e: Event, t: State, c: Chan)
    requires Shape(s) && Moves(cfg, s, e, t)
    ensures Named(t, c) <==>
            || (c.born == s.step && Admits(cfg, s, e, c.instance))
            || (Named(s, c) && !Closes(cfg, s, e, c.instance) && !Healed(e, c.instance))
    ensures c in t.closed <==> c in s.closed || (Named(s, c) && Closes(cfg, s, e, c.instance))
  {
    if e.Tick? && cfg.active {
      WantedIsNew(cfg, s, e.labels);
      UpdateToTable(s, Reported(e.labels), Wanted(cfg, s, e.labels), c);
    }
  }

  lemma UpdateToTable(s: State, reported: set<string>, wanted: set<string>, c: Chan)
    requires TableOk(s) && wanted !! s.chans.Keys && wanted <= reported
    ensures var t, crowded := Updated(s, reported, wanted), Crowded(s, reported, wanted);
            && (Named(t, c) <==>
                  || (c.born == s.step && c.instance in wanted && !crowded)
                  || (Named(s, c) && c.instance in reported && !crowded))
            && (c in t.closed <==> c in s.closed || (Named(s, c) && (c.instance !in reported || crowded)))
  {
    TableIsNamed(s, c);
    var t := Updated(s, reported, wanted);
    if Named(s, c) {
      assert c.instance in s.chans && s.chans[c.instance] == c;
    }
  }

  lemma TableIsNamed(s: State, c: Chan)
    requires TableOk(s)
    ensures c in s.chans.Values <==> Named(s, c)
    ensures forall reported :: c in Dropped(s.chans, reported) <==> Named(s, c) && c.instance !in reported
  {
  }

  lemma TableStep(cfg: Config, trace: seq<State>, es: seq<Event>, n: nat, c: Chan)
    requires Run(cfg, trace, es) && 0 < n < |trace|
    ensures Named(trace[n], c) <==>
            || (c.born == n - 1 && Admits(cfg, trace[n - 1], es[n - 1], c.instance))
            || (Named(trace[n - 1], c) && !Closes(cfg, trace[n - 1], es[n - 1], c.instance)
                && !Healed(es[n - 1], c.instance))
    ensures c in trace[n].closed <==>
            c in trace[n - 1].closed
            || (Named(trace[n - 1], c) && Closes(cfg, trace[n - 1], es[n - 1], c.instance))
  {
    StepOfRun(cfg, trace, es, n);
    StepToTable(cfg, trace[n - 1], es[n - 1], trace[n], c);
  }

  /** The table names a watcher exactly so long. */
  lemma {:induction false} NamedExactly(cfg: Config, trace: seq<State>, es: seq<Event>, n: nat, c: Chan)
    requires Run(cfg, trace, es) && n < |trace|
    ensures Named(trace[n], c) <==> WatchedSince(cfg, trace, es, n, c)
  {
    if n > 0 {
      NamedExactly(cfg, trace, es, n - 1, c);
      TableStep(cfg, trace, es, n, c);
      StepAsReported(cfg, trace, es, n - 1, c.instance);
    }
  }

  /** And a watcher has been cancelled by exactly those ticks that found it in the table. */
  lemma {:induction false} CancelledExactly(cfg: Config, trace: seq<State>, es: seq<Event>, n: nat, c: Chan)
    requires Run(cfg, trace, es) && n < |trace|
    ensures c in trace[n].closed <==>
            exists m: nat :: m < n && WatchedSince(cfg, trace, es, m, c) && CancelsAt(cfg, trace, es, m, c.instance)
  {
    if n > 0 {
      CancelledExactly(cfg, trace, es, n - 1, c);
      TableStep(cfg, trace, es, n, c);
      StepAsReported(cfg, trace, es, n - 1, c.instance);
      NamedExactly(cfg, trace, es, n - 1, c);
    }
  }

  // ----- when a watcher fires -----

  predicate Checks(e: Event, c: Chan) {
    e.Check? && e.chan == c
  }

  /** Before step n the watcher's alert has not been started, or has been by its first check. */
  ghost predicate AlertTells(es: seq<Event>, n: nat, c: Chan, p: Phase)
    requires n <= |es|
  {
    match p
    case Resolving => forall l | 0 <= l < n :: !Checks(es[l], c)
    case Watching(a) =>
      if a.state.active then exists m: nat :: FirstCheck(es, m, n, c) && es[m].startAt == a.state.startedAt
      else forall l | 0 <= l < n :: !Checks(es[l], c)
    case Healing => true
  }

  ghost predicate FirstCheck(es: seq<Event>, m: nat, n: nat, c: Chan)
    requires n <= |es|
  {
    m < n && Checks(es[m], c) && forall l | 0 <= l < m :: !Checks(es[l], c)
  }

  lemma StepToPhase(cfg: Config, s: State, e: Event, t: State, c: Chan)
    requires Shape(s) && Moves(cfg, s, e, t) && c in t.watchers
    ensures c !in s.watchers ==> t.watchers[c] == Resolving && c.born == s.step && !Checks(e, c)
    ensures c in s.watchers ==>
              var p, q := s.watchers[c], t.watchers[c];
              && (q.Resolving? ==> p == q && !Checks(e, c))
              && (q.Watching? ==>
                    || (p == q && !Checks(e, c))
                    || (p.Resolving? && !q.alarm.state.active && !Checks(e, c))
                    || (p.Watching? && Checks(e, c) && q.alarm == Woken(p.alarm, e.startAt)))
  {
    if e.Tick? && cfg.active {
      UpdateToPhase(s, Reported(e.labels), Wanted(cfg, s, e.labels), c);
    }
  }

  lemma UpdateToPhase(s: State, reported: set<string>, wanted: set<string>, c: Chan)
    requires BornOk(s) && c in Updated(s, reported, wanted).watchers
    ensures c in s.watchers ==> Updated(s, reported, wanted).watchers[c] == s.watchers[c]
    ensures c !in s.watchers ==> Updated(s, reported, wanted).watchers[c] == Resolving && c.born == s.step
  {
  }

  lemma {:induction false} NoCheckBeforeBirth(cfg: Config, trace: seq<State>, es: seq<Event>, n: nat, c: Chan)
    requires Run(cfg, trace, es) && n < |trace| && n <= c.born + 1
    ensures forall l | 0 <= l < n :: !Checks(es[l], c)
  {
    forall l: nat | l < n ensures !Checks(es[l], c) {
      assert StepAt(cfg, trace, es, l);
      RunKeepsShape(cfg, trace, es, l);
    }
  }

  lemma AlertTellsOneMore(es: seq<Event>, n: nat, c: Chan, p: Phase, q: Phase)
    requires n < |es| && AlertTells(es, n, c, p)
    requires q.Resolving? ==> p == q && !Checks(es[n], c)
    requires q.Watching? ==>
               || (p == q && !Checks(es[n], c))
               || (p.Resolving? && !q.alarm.state.active && !Checks(es[n], c))
               || (p.Watching? && Checks(es[n], c) && q.alarm == Woken(p.alarm, es[n].startAt))
    ensures AlertTells(es, n + 1, c, q)
  {
    if q.Watching? && q.alarm.state.active {
      if p.Watching? && p.alarm.state.active {
        var m: nat :| FirstCheck(es, m, n, c) && es[m].startAt == p.alarm.state.startedAt;
        assert FirstCheck(es, m, n + 1, c);
      } else {
        assert FirstCheck(es, n, n + 1, c);
      }
    }
  }

  lemma {:induction false} AlertIsTold(cfg: Config, trace: seq<State>, es: seq<Event>, n: nat, c: Chan)
    requires Run(cfg, trace, es) && n < |trace| && c in trace[n].watchers
    ensures AlertTells(es, n, c, trace[n].watchers[c])
  {
    assert n > 0;
    StepOfRun(cfg, trace, es, n);
    StepToPhase(cfg, trace[n - 1], es[n - 1], trace[n], c);
    if c in trace[n - 1].watchers {
      AlertIsTold(cfg, trace, es, n - 1, c);
      AlertTellsOneMore(es, n - 1, c, trace[n - 1].watchers[c], trace[n].watchers[c]);
    } else {
      NoCheckBeforeBirth(cfg, trace, es, n, c);
    }
  }

  /** A check heals its instance if and only if the duration has passed since the first check of its watcher: a watcher
      heals as soon as that is so, and never before. */
  lemma FiresExactly(cfg: Config, trace: seq<State>, es: seq<Event>, j: nat, m: nat, c: Chan)
    requires Run(cfg, trace, es) && j < |es| && Checks(es[j], c) && FirstCheck(es, m, j + 1, c)
    ensures FiresAt(cfg, trace, es, j, c.instance) <==> es[j].checkAt - es[m].startAt >= cfg.duration
  {
    assert StepAt(cfg, trace, es, j);
    AlertIsTold(cfg, trace, es, j, c);
  }
}
