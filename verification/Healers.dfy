/** pkg/autohealer/healer.go: the healer's ticks and the watchers they spawn, as a transition system.
    The loop edits its three maps at every tick; each watcher waits for the name of its node, then
    evaluates an alert of its own, heals, and only afterwards writes back into the maps. */
module Healers {
  import opened Clock
  import Alerts

  const MAX_INSTANCES := 3

  datatype Silence = Silence(pattern: string, expiredAt: Instant)

  datatype Config = Config(
    active: bool,
    level: int,                                // EvaluationLevel
    duration: Setting,
    matches: (string, string) -> bool          // pattern, instance: the regular expression engine
  )

  /** A cancel channel, identified by the step that made it and the instance it was made for. */
  datatype Chan = Chan(born: nat, instance: string)

  /** What a watcher's goroutine is doing: waiting for its node's name, evaluating, or inside do. */
  datatype Phase = Resolving | Watching(alarm: Alerts.Alarm) | Healing

  datatype State = State(
    step: nat,
    nodes: map<string, string>,                // instance address -> host name
    silences: map<string, Silence>,
    chans: map<string, Chan>,
    whitelist: set<string>,
    closed: set<Chan>,
    watchers: map<Chan, Phase>,                // the goroutines still running
    done: bool
  )

  const INIT := State(0, map[], map[], map[], {}, {}, map[], false)

  // ----- a tick -----

  /** strings.Split(label, ":")[0]. */
  function Strip(text: string): string {
    if text == "" || text[0] == ':' then "" else [text[0]] + Strip(text[1..])
  }

  function Stripped(labels: seq<string>): seq<string> {
    seq(|labels|, i requires 0 <= i < |labels| => Strip(labels[i]))
  }

  predicate Silenced(cfg: Config, silences: map<string, Silence>, instance: string) {
    exists id | id in silences :: cfg.matches(silences[id].pattern, instance)
  }

  /** The instances a tick wants to heal: reported exactly as often as the evaluation level asks for,
      not whitelisted, not yet watched, and matched by no silence. */
  function Survivors(cfg: Config, labels: seq<string>, whitelist: set<string>, chans: map<string, Chan>,
                     silences: map<string, Silence>): set<string>
  {
    var seen := multiset(Stripped(labels));
    set x | x in Stripped(labels) && x !in whitelist && seen[x] == cfg.level && x !in chans
            && !Silenced(cfg, silences, x)
  }

  /** The channels that stay open: those of instances still reported. */
  function Kept(chans: map<string, Chan>, reported: set<string>): map<string, Chan> {
    map x | x in chans && x in reported :: chans[x]
  }

  function Reported(labels: seq<string>): set<string> {
    set x | x in Stripped(labels)
  }

  /** The instances that would be admitted, were there no limit on their number. */
  function Wanted(cfg: Config, s: State, labels: seq<string>): set<string> {
    Survivors(cfg, labels, s.whitelist, Kept(s.chans, Reported(labels)), s.silences)
  }

  /** The channels of instances no longer reported. */
  function Dropped(chans: map<string, Chan>, reported: set<string>): set<Chan> {
    set x | x in chans && x !in reported :: chans[x]
  }

  /** The channels a tick makes, and their entries in the channel table. */
  function Made(step: nat, wanted: set<string>): set<Chan> {
    set x | x in wanted :: Chan(step, x)
  }

  function Entries(step: nat, wanted: set<string>): map<string, Chan> {
    map x | x in wanted :: Chan(step, x)
  }

  function Spawned(watchers: map<Chan, Phase>, made: set<Chan>): map<Chan, Phase> {
    map c | c in watchers.Keys + made :: if c in made then Resolving else watchers[c]
  }

  /** Too many instances, counting those already being watched. */
  predicate Crowded(s: State, reported: set<string>, wanted: set<string>) {
    |wanted| + |Kept(s.chans, reported)| > MAX_INSTANCES
  }

  /** The maps after a tick that got these instances reported and wants to heal some of them. */
  function Updated(s: State, reported: set<string>, wanted: set<string>): State {
    var kept := Kept(s.chans, reported);
    if Crowded(s, reported, wanted) then
      s.(whitelist := s.whitelist * reported, chans := map[], closed := s.closed + s.chans.Values)
    else
      s.(whitelist := s.whitelist * reported,
         chans := kept + Entries(s.step, wanted),
         closed := s.closed + Dropped(s.chans, reported),
         watchers := Spawned(s.watchers, Made(s.step, wanted)))
  }

  predicate Storm(cfg: Config, s: State, labels: seq<string>) {
    Crowded(s, Reported(labels), Wanted(cfg, s, labels))
  }

  function Ticked(cfg: Config, s: State, labels: seq<string>): State {
    Updated(s, Reported(labels), Wanted(cfg, s, labels))
  }

  // ----- the transition system -----

  datatype Event =
    | Tick(now: Instant, labels: seq<string>)                 // a query that succeeds
    | TickFailed
    | NodeUpdate(names: map<string, string>)
    | SilenceSet(id: string, silence: Silence)
    | SilenceGone(ids: set<string>)
    | Resolve(chan: Chan)                                     // a watcher learns its node's name
    | Check(chan: Chan, startAt: Instant, checkAt: Instant)   // a watcher's own ticker
    | Cancel(chan: Chan)                                      // a watcher sees its channel closed
    | Finish(chan: Chan)                                      // do returns, and the maps are updated
    | Stop
    | Quit(chan: Chan)                                        // a watcher sees the healer stopped

  /** A select with several channels ready takes any of them: a watcher whose channel is closed, or
      whose healer is stopped, may still take its ticker. */
  predicate Enabled(s: State, e: Event) {
    match e
    case Tick(_, _) => !s.done
    case TickFailed => !s.done
    case NodeUpdate(_) => !s.done
    case SilenceSet(_, _) => !s.done
    case SilenceGone(_) => !s.done
    case Resolve(c) => c in s.watchers && s.watchers[c].Resolving? && c.instance in s.nodes
    case Check(c, _, _) => c in s.watchers && s.watchers[c].Watching?
    case Cancel(c) => c in s.watchers && s.watchers[c].Watching? && c in s.closed
    case Finish(c) => c in s.watchers && s.watchers[c].Healing?
    case Stop => !s.done
    case Quit(c) => c in s.watchers && s.watchers[c].Watching? && s.done
  }

  function Woken(a: Alerts.Alarm, startAt: Instant): Alerts.Alarm {
    if a.state.active then a else a.Started(startAt)
  }

  /** The check finds the alert active for the whole duration: the actions are executed. */
  predicate Fires(cfg: Config, s: State, e: Event)
    requires Enabled(s, e)
  {
    e.Check? && Woken(s.watchers[e.chan].alarm, e.startAt).ShouldFire(e.checkAt, cfg.duration)
  }

  function Apply(cfg: Config, s: State, e: Event): State
    requires Enabled(s, e)
  {
    var t := s.(step := s.step + 1);
    match e
    case Tick(_, labels) => if cfg.active then Ticked(cfg, s, labels).(step := t.step) else t
    case TickFailed => t
    case NodeUpdate(names) => t.(nodes := s.nodes + names)
    case SilenceSet(id, silence) => t.(silences := s.silences[id := silence])
    case SilenceGone(ids) => t.(silences := s.silences - ids)
    case Resolve(c) => t.(watchers := s.watchers[c := Watching(Alerts.Alarm(Alerts.QUIET, false))])
    case Check(c, startAt, checkAt) =>
      t.(watchers := s.watchers[c := if Fires(cfg, s, e) then Healing
                                     else Watching(Woken(s.watchers[c].alarm, startAt))])
    case Cancel(c) => t.(watchers := s.watchers - {c})
    case Finish(c) =>
      t.(whitelist := s.whitelist + {c.instance}, chans := s.chans - {c.instance}, watchers := s.watchers - {c})
    case Stop => t.(done := true)
    case Quit(c) => t.(watchers := s.watchers - {c})
  }

  ghost predicate Moves(cfg: Config, s: State, e: Event, t: State) {
    Enabled(s, e) && t == Apply(cfg, s, e)
  }

  ghost predicate Run(cfg: Config, trace: seq<State>, es: seq<Event>) {
    && |trace| == |es| + 1 && trace[0] == INIT
    && forall i: nat | i < |es| :: StepAt(cfg, trace, es, i)
  }

  ghost predicate StepAt(cfg: Config, trace: seq<State>, es: seq<Event>, i: nat)
    requires |trace| == |es| + 1 && i < |es|
  {
    Moves(cfg, trace[i], es[i], trace[i + 1])
  }

  ghost predicate FiresAt(cfg: Config, trace: seq<State>, es: seq<Event>, i: nat, x: string)
    requires |trace| == |es| + 1
  {
    i < |es| && Enabled(trace[i], es[i]) && Fires(cfg, trace[i], es[i]) && es[i].chan.instance == x
  }

  /** The end of an outage, as the healer sees it: a successful active tick that does not report x. */
  ghost predicate UpAgain(cfg: Config, e: Event, x: string) {
    cfg.active && e.Tick? && x !in Reported(e.labels)
  }

  predicate Heals(s: State, c: Chan) {
    c in s.watchers && s.watchers[c].Healing?
  }

  /** Nobody is healing x. */
  ghost predicate Free(s: State, x: string) {
    forall c | Heals(s, c) :: c.instance != x
  }

  /** As to x: a cancelled watcher does not fire while x has got another one, and no tick admits x while it is still
      being healed. The source ensures neither: a watcher may take its ticker after its channel has been closed, and
      do is slow enough for its instance to come up, or to be caught in a storm, and to go down again meanwhile. */
  ghost predicate Guarded(cfg: Config, s: State, e: Event, x: string)
    requires Enabled(s, e)
  {
    && (Fires(cfg, s, e) && e.chan.instance == x ==> e.chan !in s.closed || x !in s.chans)
    && (Admits(cfg, s, e, x) ==> Free(s, x))
  }

  predicate Admits(cfg: Config, s: State, e: Event, x: string) {
    cfg.active && e.Tick? && !Storm(cfg, s, e.labels) && x in Wanted(cfg, s, e.labels)
  }

  ghost predicate NobodyWatches(s: State, x: string) {
    forall c | c in s.watchers :: c.instance != x
  }

  /** From some state p on, at which x has no watcher, all steps up to state n are guarded as to x. Whatever has
      happened before does not matter. */
  ghost predicate GuardedSince(cfg: Config, trace: seq<State>, es: seq<Event>, p: nat, n: nat, x: string)
    requires n <= |es| && n < |trace|
  {
    && p <= n && NobodyWatches(trace[p], x)
    && forall i: nat | p <= i < n :: Enabled(trace[i], es[i]) && Guarded(cfg, trace[i], es[i], x)
  }

  // ----- the shape of the maps -----

  /** Every entry of the channel table is the open channel of a watcher for that instance. */
  ghost predicate TableOk(s: State) {
    && (forall x | x in s.chans :: s.chans[x].instance == x && s.chans[x] !in s.closed)
    && (forall x | x in s.chans && !s.done :: s.chans[x] in s.watchers)
  }

  /** At most three instances are watched, and no whitelisted one is. */
  ghost predicate CountOk(s: State) {
    |s.chans| <= MAX_INSTANCES && s.chans.Keys !! s.whitelist
  }

  /** Every channel was made by an earlier step, for an address without a port. */
  ghost predicate BornOk(s: State) {
    forall c | c in s.watchers || c in s.closed :: c.born < s.step && Strip(c.instance) == c.instance
  }

  ghost predicate Shape(s: State) {
    TableOk(s) && CountOk(s) && BornOk(s)
  }

  /** Every watcher for x whose channel is open is in the channel table. */
  ghost predicate WatchedOk(s: State, x: string) {
    forall c | c in s.watchers && c.instance == x && c !in s.closed :: x in s.chans && s.chans[x] == c
  }

  /** While a cancelled watcher for x is still healing, x has no other one. */
  ghost predicate HealedOk(s: State, x: string) {
    forall c | Heals(s, c) && c.instance == x && c in s.closed :: x !in s.chans
  }

  lemma EntryIsKept(s: State, reported: set<string>, wanted: set<string>, x: string)
    requires TableOk(s) && BornOk(s) && !s.done && !Crowded(s, reported, wanted)
    requires x in s.chans && x in reported && x !in wanted
    ensures var t := Updated(s, reported, wanted);
            t.chans[x] == s.chans[x] && s.chans[x] in t.watchers && s.chans[x] !in t.closed
  {
    assert x in Kept(s.chans, reported);
  }

  lemma EntryIsMade(s: State, reported: set<string>, wanted: set<string>, x: string)
    requires TableOk(s) && BornOk(s) && !s.done && !Crowded(s, reported, wanted) && x in wanted
    ensures var t := Updated(s, reported, wanted);
            t.chans[x] == Chan(s.step, x) && t.chans[x] in t.watchers && t.chans[x] !in t.closed
  {
    assert Chan(s.step, x) in Made(s.step, wanted);
    assert forall y | y in s.chans :: s.chans[y].born < s.step;
  }

  lemma UpdateKeepsTable(s: State, reported: set<string>, wanted: set<string>)
    requires Shape(s) && !s.done
    ensures TableOk(Updated(s, reported, wanted))
  {
    var t := Updated(s, reported, wanted);
    if !Crowded(s, reported, wanted) {
      forall x | x in t.chans
        ensures t.chans[x].instance == x && t.chans[x] in t.watchers && t.chans[x] !in t.closed
      {
        if x in wanted {
          EntryIsMade(s, reported, wanted, x);
        } else {
          EntryIsKept(s, reported, wanted, x);
        }
      }
    }
  }

  lemma UpdateKeepsWatched(s: State, reported: set<string>, wanted: set<string>, x: string)
    requires Shape(s) && WatchedOk(s, x) && !s.done && wanted !! s.chans.Keys
    ensures WatchedOk(Updated(s, reported, wanted), x)
  {
    var t := Updated(s, reported, wanted);
    forall c | c in t.watchers && c.instance == x && c !in t.closed ensures x in t.chans && t.chans[x] == c {
      if c in s.watchers && c !in s.closed {
        assert s.chans[x] in s.chans.Values;
      }
    }
  }

  lemma MergedSize(kept: map<string, Chan>, made: map<string, Chan>)
    ensures |kept + made| <= |kept| + |made|
  {
    assert (kept + made).Keys == kept.Keys + made.Keys;
    assert |kept.Keys + made.Keys| <= |kept.Keys| + |made.Keys|;
  }

  lemma UpdateKeepsCount(s: State, reported: set<string>, wanted: set<string>)
    requires CountOk(s) && wanted !! s.whitelist
    ensures CountOk(Updated(s, reported, wanted))
  {
    if !Crowded(s, reported, wanted) {
      MergedSize(Kept(s.chans, reported), Entries(s.step, wanted));
      assert Entries(s.step, wanted).Keys == wanted;
      assert |Entries(s.step, wanted)| == |Entries(s.step, wanted).Keys|;
    }
  }

  lemma {:induction false} StrippedTwice(text: string)
    ensures Strip(Strip(text)) == Strip(text)
  {
    if text != "" && text[0] != ':' {
      StrippedTwice(text[1..]);
      assert Strip(text)[1..] == Strip(text[1..]);
    }
  }

  lemma WantedIsStripped(cfg: Config, s: State, labels: seq<string>, x: string)
    requires x in Wanted(cfg, s, labels)
    ensures Strip(x) == x && multiset(Stripped(labels))[x] == cfg.level >= 1
  {
    assert x in Stripped(labels);
    var i :| 0 <= i < |labels| && Stripped(labels)[i] == x;
    StrippedTwice(labels[i]);
  }

  lemma UpdateKeepsBirths(s: State, reported: set<string>, wanted: set<string>)
    requires Shape(s) && !s.done && forall x | x in wanted :: Strip(x) == x
    ensures BornOk(Updated(s, reported, wanted).(step := s.step + 1))
  {
    var t := Updated(s, reported, wanted);
    forall c | c in t.watchers || c in t.closed ensures c.born < s.step + 1 && Strip(c.instance) == c.instance {
      if c in t.closed && c !in s.closed {
        assert c in s.chans.Values;
      }
    }
  }

  lemma WantedIsNew(cfg: Config, s: State, labels: seq<string>)
    ensures Wanted(cfg, s, labels) !! s.whitelist && Wanted(cfg, s, labels) !! s.chans.Keys
    ensures Wanted(cfg, s, labels) <= Reported(labels)
  {
  }

  lemma TickKeepsShape(cfg: Config, s: State, labels: seq<string>)
    requires Shape(s) && !s.done
    ensures Shape(Ticked(cfg, s, labels).(step := s.step + 1))
  {
    var reported, wanted := Reported(labels), Wanted(cfg, s, labels);
    WantedIsNew(cfg, s, labels);
    forall x | x in wanted ensures Strip(x) == x {
      WantedIsStripped(cfg, s, labels, x);
    }
    UpdateKeepsTable(s, reported, wanted);
    UpdateKeepsCount(s, reported, wanted);
    UpdateKeepsBirths(s, reported, wanted);
    assert TableOk(Updated(s, reported, wanted).(step := s.step + 1));
  }

  lemma FinishKeepsShape(cfg: Config, s: State, e: Event)
    requires Shape(s) && Enabled(s, e) && e.Finish?
    ensures Shape(Apply(cfg, s, e))
  {
    var t := Apply(cfg, s, e);
    assert t.chans.Keys == s.chans.Keys - {e.chan.instance};
    assert |t.chans| == |t.chans.Keys| && |s.chans| == |s.chans.Keys|;
    assert TableOk(t);
  }

  lemma WatcherStepKeepsShape(cfg: Config, s: State, e: Event)
    requires Shape(s) && Enabled(s, e) && (e.Resolve? || e.Check? || e.Cancel? || e.Quit?)
    ensures Shape(Apply(cfg, s, e))
  {
    assert TableOk(Apply(cfg, s, e));
  }

  lemma StepKeepsShape(cfg: Config, s: State, e: Event)
    requires Shape(s) && Enabled(s, e)
    ensures Shape(Apply(cfg, s, e))
  {
    if e.Tick? && cfg.active {
      TickKeepsShape(cfg, s, e.labels);
    } else if e.Finish? {
      FinishKeepsShape(cfg, s, e);
    } else if e.Resolve? || e.Check? || e.Cancel? || e.Quit? {
      WatcherStepKeepsShape(cfg, s, e);
    } else {
      var t := Apply(cfg, s, e);
      assert t.chans == s.chans && t.closed == s.closed && t.watchers == s.watchers && t.whitelist == s.whitelist;
    }
  }

  /** In every state of every run, whatever watchers and ticks get up to: at most three instances are watched, each by a
      live watcher whose channel is open, and none of them is whitelisted. */
  lemma {:induction false} RunKeepsShape(cfg: Config, trace: seq<State>, es: seq<Event>, n: nat)
    requires Run(cfg, trace, es) && n < |trace|
    ensures Shape(trace[n]) && trace[n].step == n
  {
    if n == 0 {
      InitIsShaped();
    } else {
      RunKeepsShape(cfg, trace, es, n - 1);
      StepIsMove(cfg, trace, es, n);
      MoveKeepsShape(cfg, trace[n - 1], es[n - 1], trace[n]);
    }
  }

  lemma InitIsShaped()
    ensures Shape(INIT)
  {
  }

  lemma StepIsMove(cfg: Config, trace: seq<State>, es: seq<Event>, n: nat)
    requires Run(cfg, trace, es) && 0 < n < |trace|
    ensures Moves(cfg, trace[n - 1], es[n - 1], trace[n])
  {
    assert StepAt(cfg, trace, es, n - 1);
  }

  lemma MoveKeepsShape(cfg: Config, s: State, e: Event, t: State)
    requires Shape(s) && Moves(cfg, s, e, t)
    ensures Shape(t) && t.step == s.step + 1
  {
    StepKeepsShape(cfg, s, e);
  }

  lemma StepOfRun(cfg: Config, trace: seq<State>, es: seq<Event>, n: nat)
    requires Run(cfg, trace, es) && 0 < n < |trace|
    ensures Moves(cfg, trace[n - 1], es[n - 1], trace[n]) && Shape(trace[n - 1])
    ensures trace[n - 1].step == n - 1 && trace[n].step == n
  {
    RunKeepsShape(cfg, trace, es, n - 1);
    assert StepAt(cfg, trace, es, n - 1);
  }

  // ----- the watchers of one instance -----

  /** do returns for a watcher whose instance has got another one meanwhile: that one is forgotten as well, but
      its channel stays open. */
  ghost predicate Orphans(s: State, e: Event, x: string) {
    && e.Finish? && e.chan.instance == x && x in s.chans && s.chans[x] != e.chan && s.chans[x] in s.watchers
  }

  /** Of all that can happen, this alone leaves a watcher with an open channel that is not in the table. */
  lemma StepKeepsWatchedExactly(cfg: Config, s: State, e: Event, x: string)
    requires Shape(s) && WatchedOk(s, x) && Enabled(s, e)
    ensures WatchedOk(Apply(cfg, s, e), x) <==> !Orphans(s, e, x)
  {
    var t := Apply(cfg, s, e);
    if e.Tick? && cfg.active {
      WantedIsNew(cfg, s, e.labels);
      UpdateKeepsWatched(s, Reported(e.labels), Wanted(cfg, s, e.labels), x);
    } else if e.Finish? {
      FinishKeepsWatchedExactly(cfg, s, e, x);
    } else {
      assert t.chans == s.chans && t.closed == s.closed && t.watchers.Keys <= s.watchers.Keys;
    }
  }

  lemma FinishKeepsWatchedExactly(cfg: Config, s: State, e: Event, x: string)
    requires Shape(s) && WatchedOk(s, x) && Enabled(s, e) && e.Finish?
    ensures WatchedOk(Apply(cfg, s, e), x) <==> !Orphans(s, e, x)
  {
    if Orphans(s, e, x) {
      assert s.chans[x] in Apply(cfg, s, e).watchers && s.chans[x] !in s.closed;
    }
  }

  lemma HealedIsNotOrphaning(s: State, e: Event, x: string)
    requires WatchedOk(s, x) && HealedOk(s, x) && Enabled(s, e)
    ensures !Orphans(s, e, x)
  {
  }

  lemma UpdateKeepsHealed(s: State, reported: set<string>, wanted: set<string>, x: string)
    requires Shape(s) && HealedOk(s, x) && !s.done && wanted <= reported
    requires !Crowded(s, reported, wanted) && x in wanted ==> Free(s, x)
    ensures HealedOk(Updated(s, reported, wanted), x)
  {
    var t := Updated(s, reported, wanted);
    forall c | Heals(t, c) && c.instance == x && c in t.closed ensures x !in t.chans {
      assert Heals(s, c);
      if c !in s.closed {
        assert s.chans[x] == c;
      }
    }
  }

  lemma StepKeepsHealed(cfg: Config, s: State, e: Event, x: string)
    requires Shape(s) && HealedOk(s, x) && Enabled(s, e) && Guarded(cfg, s, e, x)
    ensures HealedOk(Apply(cfg, s, e), x)
  {
    if e.Tick? && cfg.active {
      WantedIsNew(cfg, s, e.labels);
      UpdateKeepsHealed(s, Reported(e.labels), Wanted(cfg, s, e.labels), x);
    } else {
      OtherStepKeepsHealed(cfg, s, e, x);
    }
  }

  lemma OtherStepKeepsHealed(cfg: Config, s: State, e: Event, x: string)
    requires HealedOk(s, x) && Enabled(s, e) && Guarded(cfg, s, e, x) && !(e.Tick? && cfg.active)
    ensures HealedOk(Apply(cfg, s, e), x)
  {
    var t := Apply(cfg, s, e);
    assert t.closed == s.closed && t.chans.Keys <= s.chans.Keys;
    assert forall c | Heals(t, c) :: Heals(s, c) || (Fires(cfg, s, e) && c == e.chan);
  }

  lemma {:induction false} RunKeepsWatched(cfg: Config, trace: seq<State>, es: seq<Event>, p: nat, n: nat, x: string)
    requires Run(cfg, trace, es) && n < |trace| && GuardedSince(cfg, trace, es, p, n, x)
    ensures WatchedOk(trace[n], x) && HealedOk(trace[n], x)
  {
    if p < n {
      SinceBack(cfg, trace, es, p, n, x);
      RunKeepsWatched(cfg, trace, es, p, n - 1, x);
      StepOfRun(cfg, trace, es, n);
      GuardedStepKeeps(cfg, trace[n - 1], es[n - 1], x);
    }
  }

  lemma SinceBack(cfg: Config, trace: seq<State>, es: seq<Event>, p: nat, n: nat, x: string)
    requires n <= |es| && n < |trace| && GuardedSince(cfg, trace, es, p, n, x) && p < n
    ensures GuardedSince(cfg, trace, es, p, n - 1, x)
    ensures Enabled(trace[n - 1], es[n - 1]) && Guarded(cfg, trace[n - 1], es[n - 1], x)
  {
  }

  lemma GuardedStepKeeps(cfg: Config, s: State, e: Event, x: string)
    requires Shape(s) && WatchedOk(s, x) && HealedOk(s, x) && Enabled(s, e) && Guarded(cfg, s, e, x)
    ensures WatchedOk(Apply(cfg, s, e), x) && HealedOk(Apply(cfg, s, e), x)
  {
    HealedIsNotOrphaning(s, e, x);
    StepKeepsWatchedExactly(cfg, s, e, x);
    StepKeepsHealed(cfg, s, e, x);
  }

  /** A tick that finds too many instances leaves no live watcher uncancelled. */
  lemma StormCancelsAll(cfg: Config, s: State, labels: seq<string>, c: Chan)
    requires WatchedOk(s, c.instance) && Storm(cfg, s, labels)
    ensures var t := Ticked(cfg, s, labels); t.chans == map[] && (c in t.watchers ==> c in t.closed)
  {
    if c in s.watchers && c !in s.closed {
      assert s.chans[c.instance] in s.chans.Values;
    }
  }

  // ----- at most once per outage -----

  ghost predicate NeverUp(cfg: Config, es: seq<Event>, i: nat, n: nat, x: string)
    requires n <= |es|
  {
    forall m: nat | i < m < n :: !UpAgain(cfg, es[m], x)
  }

  /** x has been healed, or is being healed. */
  ghost predicate Remembered(s: State, x: string) {
    x in s.whitelist || !Free(s, x)
  }

  lemma HealerStays(cfg: Config, s: State, e: Event, c: Chan)
    requires Enabled(s, e) && Heals(s, c) && e != Finish(c) && BornOk(s)
    ensures Heals(Apply(cfg, s, e), c)
  {
    if e.Tick? && cfg.active {
      assert c !in Made(s.step, Wanted(cfg, s, e.labels));
    }
  }

  lemma RememberedUntilUp(cfg: Config, s: State, e: Event, x: string)
    requires Enabled(s, e) && Remembered(s, x) && !UpAgain(cfg, e, x) && BornOk(s)
    ensures Remembered(Apply(cfg, s, e), x)
  {
    if x !in s.whitelist {
      var c :| Heals(s, c) && c.instance == x;
      if e != Finish(c) {
        HealerStays(cfg, s, e, c);
      }
    }
  }

  /** The watcher the channel table names is the only one with an open channel, and its instance is not remembered. */
  lemma OpenIsForgotten(s: State, c: Chan)
    requires Shape(s) && WatchedOk(s, c.instance) && HealedOk(s, c.instance)
    requires c in s.watchers && c !in s.closed && !Heals(s, c)
    ensures c.instance in s.chans && s.chans[c.instance] == c && !Remembered(s, c.instance)
  {
  }

  lemma {:induction false} RememberedStays(cfg: Config, trace: seq<State>, es: seq<Event>, i: nat, n: nat, x: string)
    requires Run(cfg, trace, es) && i < n < |trace|
    requires Remembered(trace[i + 1], x) && NeverUp(cfg, es, i, n, x)
    ensures Remembered(trace[n], x)
  {
    if i < n - 1 {
      RememberedStays(cfg, trace, es, i, n - 1, x);
      StepOfRun(cfg, trace, es, n);
      RememberedUntilUp(cfg, trace[n - 1], es[n - 1], x);
    }
  }

  lemma FiredIsRemembered(cfg: Config, trace: seq<State>, es: seq<Event>, i: nat, x: string)
    requires Run(cfg, trace, es) && FiresAt(cfg, trace, es, i, x)
    ensures Remembered(trace[i + 1], x)
  {
    assert StepAt(cfg, trace, es, i);
    assert Heals(trace[i + 1], es[i].chan);
  }

  /** Between two fires for the same instance there is a tick that found the instance up again: in any run, if at the
      later one the instance is neither whitelisted nor being healed; and if steps have been guarded since there was
      last no watcher for it, if only the later one is not that of a cancelled watcher. */
  lemma AtMostOncePerOutage(cfg: Config, trace: seq<State>, es: seq<Event>, i: nat, j: nat, p: nat, x: string)
    requires Run(cfg, trace, es) && i < j && FiresAt(cfg, trace, es, i, x) && FiresAt(cfg, trace, es, j, x)
    requires !Remembered(trace[j], x)
             || (es[j].chan !in trace[j].closed && GuardedSince(cfg, trace, es, p, j, x))
    ensures exists m: nat :: i < m < j && UpAgain(cfg, es[m], x)
  {
    if NeverUp(cfg, es, i, j, x) {
      FiredIsRemembered(cfg, trace, es, i, x);
      RememberedStays(cfg, trace, es, i, j, x);
      RunKeepsShape(cfg, trace, es, j);
      RunKeepsWatched(cfg, trace, es, p, j, x);
      OpenIsForgotten(trace[j], es[j].chan);
    }
  }

  /** x has fired, and has not been up since. */
  ghost predicate FiredSinceUp(cfg: Config, trace: seq<State>, es: seq<Event>, n: nat, x: string)
    requires |trace| == |es| + 1 && n <= |es|
  {
    exists i: nat :: i < n && FiresAt(cfg, trace, es, i, x) && NeverUp(cfg, es, i, n, x)
  }

  /** x is healed twice in one outage, the second time at step n or later. */
  ghost predicate FiresTwice(cfg: Config, trace: seq<State>, es: seq<Event>, n: nat, x: string)
    requires |trace| == |es| + 1
  {
    exists j: nat :: n <= j < |es| && FiresAt(cfg, trace, es, j, x) && FiredSinceUp(cfg, trace, es, j, x)
  }

  /** As long as steps are guarded, that takes a cancelled watcher whose instance has got no other one. */
  lemma SecondFireIsStale(cfg: Config, trace: seq<State>, es: seq<Event>, p: nat, j: nat, x: string)
    requires Run(cfg, trace, es) && FiresAt(cfg, trace, es, j, x) && FiredSinceUp(cfg, trace, es, j, x)
    requires GuardedSince(cfg, trace, es, p, j, x) && Guarded(cfg, trace[j], es[j], x)
    ensures es[j].chan in trace[j].closed && x !in trace[j].chans && Remembered(trace[j], x)
  {
    var i: nat :| i < j && FiresAt(cfg, trace, es, i, x) && NeverUp(cfg, es, i, j, x);
    if es[j].chan !in trace[j].closed || !Remembered(trace[j], x) {
      AtMostOncePerOutage(cfg, trace, es, i, j, p, x);
    }
  }

  // ----- every fire is justified -----

  function FirstReading(e: Event): Instant
    requires e.Tick? || e.Check?
  {
    if e.Tick? then e.now else e.startAt
  }

  function LastReading(e: Event): Instant
    requires e.Tick? || e.Check?
  {
    if e.Tick? then e.now else e.checkAt
  }

  /** The clock does not run backwards. */
  ghost predicate WellTimed(es: seq<Event>) {
    && (forall i | 0 <= i < |es| && (es[i].Tick? || es[i].Check?) :: FirstReading(es[i]) <= LastReading(es[i]))
    && (forall i, j | 0 <= i < j < |es| && (es[i].Tick? || es[i].Check?) && (es[j].Tick? || es[j].Check?) ::
          LastReading(es[i]) <= FirstReading(es[j]))
  }

  /** Tick k admits x: no storm, and x is reported exactly as often as the level asks for, not
      whitelisted, not already watched, and not silenced. */
  ghost predicate AdmittedAt(cfg: Config, trace: seq<State>, es: seq<Event>, k: nat, x: string)
    requires k < |es| && k < |trace|
  {
    && cfg.active && es[k].Tick? && !Storm(cfg, trace[k], es[k].labels)
    && multiset(Stripped(es[k].labels))[x] == cfg.level && x in Stripped(es[k].labels)
    && x !in trace[k].whitelist && x !in trace[k].chans && !Silenced(cfg, trace[k].silences, x)
  }

  /** From tick k up to event n, every successful active tick reports x, and none is a storm. */
  ghost predicate DownThroughout(cfg: Config, trace: seq<State>, es: seq<Event>, k: nat, n: nat, x: string)
    requires n <= |es| && n <= |trace|
  {
    forall m: nat | k <= m < n && cfg.active && es[m].Tick? ::
      x in Reported(es[m].labels) && !Storm(cfg, trace[m], es[m].labels)
  }

  ghost predicate StartedAt(es: seq<Event>, c: Chan, m: nat, at: Instant) {
    c.born < m < |es| && es[m].Check? && es[m].chan == c && es[m].startAt == at
  }

  lemma UpdateSpawns(s: State, reported: set<string>, wanted: set<string>, c: Chan)
    requires c !in s.watchers && c in Updated(s, reported, wanted).watchers
    ensures !Crowded(s, reported, wanted) && c.born == s.step && c.instance in wanted
    ensures Updated(s, reported, wanted).watchers[c] == Resolving
  {
  }

  lemma WantedIsAdmitted(cfg: Config, s: State, labels: seq<string>, x: string)
    requires x in Wanted(cfg, s, labels)
    ensures multiset(Stripped(labels))[x] == cfg.level && x in Stripped(labels)
    ensures x !in s.whitelist && x !in s.chans && !Silenced(cfg, s.silences, x)
  {
  }

  /** What is known of any watcher, cancelled or not. */
  ghost predicate Admitted(cfg: Config, trace: seq<State>, es: seq<Event>, n: nat, c: Chan, p: Phase)
    requires n <= |es| && n <= |trace|
  {
    c.born < n && AdmittedAt(cfg, trace, es, c.born, c.instance) && StartedNoLaterThan(es, n, c, p)
  }

  ghost predicate StartedNoLaterThan(es: seq<Event>, n: nat, c: Chan, p: Phase) {
    p.Watching? && p.alarm.state.active ==> exists m: nat :: m < n && StartedAt(es, c, m, p.alarm.state.startedAt)
  }

  /** How one step treats a watcher. */
  ghost predicate Treated(e: Event, c: Chan, p: Phase, q: Phase) {
    || p == q || !q.Watching? || !q.alarm.state.active
    || (e.Check? && e.chan == c && p.Watching? && q.alarm == Woken(p.alarm, e.startAt))
  }

  lemma StepOfWatcher(cfg: Config, s: State, e: Event, t: State, c: Chan)
    requires BornOk(s) && Moves(cfg, s, e, t) && c in s.watchers && c in t.watchers
    ensures Treated(e, c, s.watchers[c], t.watchers[c])
  {
    if e.Tick? && cfg.active {
      assert c !in Made(s.step, Wanted(cfg, s, e.labels));
    }
  }

  lemma StepToWatcher(cfg: Config, s: State, e: Event, t: State, c: Chan)
    requires Moves(cfg, s, e, t) && c in t.watchers && c !in s.watchers
    ensures cfg.active && e.Tick? && !Storm(cfg, s, e.labels) && c.born == s.step
    ensures c.instance in Wanted(cfg, s, e.labels) && t.watchers[c] == Resolving
  {
    UpdateSpawns(s, Reported(e.labels), Wanted(cfg, s, e.labels), c);
  }

  lemma StartIsKept(es: seq<Event>, n: nat, c: Chan, e: Event, p: Phase, q: Phase)
    requires n < |es| && es[n] == e && c.born < n && StartedNoLaterThan(es, n, c, p) && Treated(e, c, p, q)
    ensures StartedNoLaterThan(es, n + 1, c, q)
  {
    if q.Watching? && q.alarm.state.active {
      if p.Watching? && p.alarm.state.active {
        var m: nat :| m < n && StartedAt(es, c, m, p.alarm.state.startedAt);
      } else {
        assert StartedAt(es, c, n, q.alarm.state.startedAt);
      }
    }
  }

  /** Every watcher of every run has been admitted, and its alert has started after that. */
  lemma {:induction false} WatcherIsAdmitted(cfg: Config, trace: seq<State>, es: seq<Event>, n: nat, c: Chan)
    requires Run(cfg, trace, es) && n < |trace| && c in trace[n].watchers
    ensures Admitted(cfg, trace, es, n, c, trace[n].watchers[c])
  {
    assert n > 0;
    StepOfRun(cfg, trace, es, n);
    if c in trace[n - 1].watchers {
      WatcherIsAdmitted(cfg, trace, es, n - 1, c);
      StepOfWatcher(cfg, trace[n - 1], es[n - 1], trace[n], c);
      StartIsKept(es, n - 1, c, es[n - 1], trace[n - 1].watchers[c], trace[n].watchers[c]);
    } else {
      StepToWatcher(cfg, trace[n - 1], es[n - 1], trace[n], c);
      WantedIsAdmitted(cfg, trace[n - 1], es[n - 1].labels, c.instance);
    }
  }

  /** Every fire of every run, whoever fires: the instance was admitted, and at least the duration has passed since a
      check of its own watcher, made after the admission. */
  lemma FireIsJustified(cfg: Config, trace: seq<State>, es: seq<Event>, j: nat, x: string) returns (k: nat, m: nat)
    requires Run(cfg, trace, es) && WellTimed(es) && FiresAt(cfg, trace, es, j, x)
    ensures k < m <= j && AdmittedAt(cfg, trace, es, k, x)
    ensures es[j].chan == Chan(k, x) && es[m].Check? && es[m].chan == Chan(k, x)
    ensures es[k].now <= es[m].startAt && es[j].checkAt - es[m].startAt >= cfg.duration
  {
    WatcherIsAdmitted(cfg, trace, es, j, es[j].chan);
    m := StartOfFire(cfg, trace[j], es, j);
    k := es[j].chan.born;
    AdmittedBefore(es, k, m);
  }

  lemma AdmittedBefore(es: seq<Event>, k: nat, m: nat)
    requires WellTimed(es) && k < m < |es| && es[k].Tick? && es[m].Check?
    ensures es[k].now <= es[m].startAt
  {
    assert LastReading(es[k]) <= FirstReading(es[m]);
  }

  lemma StartOfFire(cfg: Config, s: State, es: seq<Event>, j: nat) returns (m: nat)
    requires j < |es| && Enabled(s, es[j]) && Fires(cfg, s, es[j])
    requires es[j].chan.born < j && StartedNoLaterThan(es, j, es[j].chan, s.watchers[es[j].chan])
    ensures m <= j && m < |es| && es[m].Check? && StartedAt(es, es[j].chan, m, es[m].startAt)
    ensures es[j].checkAt - es[m].startAt >= cfg.duration
  {
    var a := s.watchers[es[j].chan].alarm;
    if a.state.active {
      m :| m < j && StartedAt(es, es[j].chan, m, a.state.startedAt);
    } else {
      m := j;
    }
  }

  // ----- and for which of them the instance has stayed down -----

  ghost predicate Named(s: State, c: Chan) {
    c.instance in s.chans && s.chans[c.instance] == c
  }

  lemma StepToNamed(cfg: Config, s: State, e: Event, t: State, c: Chan)
    requires Shape(s) && Moves(cfg, s, e, t) && Named(t, c)
    ensures Named(s, c) || (c.born == s.step && Admits(cfg, s, e, c.instance))
    ensures !Closes(cfg, s, e, c.instance)
  {
    if e.Tick? && cfg.active {
      WantedIsNew(cfg, s, e.labels);
    }
  }

  lemma DownGrows(cfg: Config, trace: seq<State>, es: seq<Event>, k: nat, n: nat, x: string)
    requires k <= n < |es| && n < |trace| && (k < n ==> DownThroughout(cfg, trace, es, k, n, x))
    requires !Closes(cfg, trace[n], es[n], x)
    ensures DownThroughout(cfg, trace, es, k, n + 1, x)
  {
  }

  /** As long as the channel table names a watcher, in whatever run, its instance has been reported by every successful
      active tick since it was admitted, and there has been no storm. */
  lemma {:induction false} NamedHasStayedDown(cfg: Config, trace: seq<State>, es: seq<Event>, n: nat, c: Chan)
    requires Run(cfg, trace, es) && n < |trace| && Named(trace[n], c)
    ensures c.born < n && DownThroughout(cfg, trace, es, c.born, n, c.instance)
  {
    assert n > 0;
    StepOfRun(cfg, trace, es, n);
    StepToNamed(cfg, trace[n - 1], es[n - 1], trace[n], c);
    if Named(trace[n - 1], c) {
      NamedHasStayedDown(cfg, trace, es, n - 1, c);
    }
    DownGrows(cfg, trace, es, c.born, n - 1, c.instance);
  }

  /** Event e closes the channel of a watcher for x: it misses x, or it is a storm. */
  ghost predicate Closes(cfg: Config, s: State, e: Event, x: string) {
    cfg.active && e.Tick? && (x !in Reported(e.labels) || Storm(cfg, s, e.labels))
  }

  lemma StepToClosed(cfg: Config, s: State, e: Event, t: State, c: Chan)
    requires Shape(s) && Moves(cfg, s, e, t) && c in t.watchers && c in t.closed
    ensures c.born < s.step && c in s.watchers
    ensures c in s.closed || Closes(cfg, s, e, c.instance)
  {
    if c in s.closed {
      if c !in s.watchers {
        StepToWatcher(cfg, s, e, t, c);
      }
    } else {
      assert cfg.active && e.Tick?;
      assert c in s.chans.Values;
    }
  }

  /** The channel of a live watcher is closed only by such a tick. */
  lemma {:induction false} ClosedHasCause(cfg: Config, trace: seq<State>, es: seq<Event>, n: nat, c: Chan)
    returns (m: nat)
    requires Run(cfg, trace, es) && n < |trace| && c in trace[n].watchers && c in trace[n].closed
    ensures c.born < m < n && Closes(cfg, trace[m], es[m], c.instance)
  {
    assert n > 0;
    StepOfRun(cfg, trace, es, n);
    StepToClosed(cfg, trace[n - 1], es[n - 1], trace[n], c);
    if c in trace[n - 1].closed {
      m := ClosedHasCause(cfg, trace, es, n - 1, c);
    } else {
      m := n - 1;
    }
  }

  /** In every run, a watcher that fires heals an instance that has stayed down since it was admitted if the channel
      table names the watcher, and one that has not if the watcher has been cancelled. No other one fires, unless the
      table has lost it: see Orphans. */
  lemma FireIsJustifiedExactly(cfg: Config, trace: seq<State>, es: seq<Event>, j: nat, p: nat, x: string)
    requires Run(cfg, trace, es) && FiresAt(cfg, trace, es, j, x)
    ensures var c, down := es[j].chan, DownThroughout(cfg, trace, es, es[j].chan.born, j, x);
            && (Named(trace[j], c) ==> down) && (c in trace[j].closed ==> !down)
            && (WatchedOk(trace[j], x) ==> (down <==> Named(trace[j], c)) && (down <==> c !in trace[j].closed))
    ensures GuardedSince(cfg, trace, es, p, j, x) ==> WatchedOk(trace[j], x)
  {
    var c := es[j].chan;
    if Named(trace[j], c) {
      NamedHasStayedDown(cfg, trace, es, j, c);
    }
    if c in trace[j].closed {
      var m := ClosedHasCause(cfg, trace, es, j, c);
    }
    if GuardedSince(cfg, trace, es, p, j, x) {
      RunKeepsWatched(cfg, trace, es, p, j, x);
    }
  }
}
