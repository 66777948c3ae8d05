/** pkg/scheduler/manager.go and pkg/model/scheduler.go: when a scheduler's "from" and "to" actions run.
    The two directions are alike: each holds the occurrence it waits for and a cron that finds the next. */
module Schedules {
  import opened Clock

  /** The manager's tick, which is also how early an action may run. */
  const INTERVAL: int := 30 * SECOND

  /** cron.Schedule.Next, left abstract. */
  type Cron = Instant -> Instant

  ghost predicate Occurs(next: Cron, y: Instant) {
    exists t :: next(t) == y
  }

  /** Next yields the least occurrence after the given time. (For an expression without any
      occurrence in five years it yields the zero time instead; see NeverDueRunsAlways.) */
  ghost predicate LeastSuccessor(next: Cron) {
    && (forall t :: next(t) > t)
    && (forall t, y :: Occurs(next, y) && y > t ==> next(t) <= y)
  }

  ghost predicate Apart(next: Cron, gap: int) {
    forall y, z :: Occurs(next, y) && Occurs(next, z) && y < z ==> z - y > gap
  }

  // ----- one direction -----

  /** The two clock readings of a tick for one direction: when it compares, and, after the actions, when
      it moves on. */
  datatype Visit = Visit(at: Instant, done: Instant)

  predicate Due(held: Instant, v: Visit) {
    Sub(held, v.at) < INTERVAL
  }

  /** ForwardFromNextExec, ForwardToNextExec: only an occurrence strictly in the past is given up. */
  function Forward(next: Cron, held: Instant, now: Instant): Instant {
    if held < now then next(now) else held
  }

  function Visited(next: Cron, held: Instant, v: Visit): Instant {
    if Due(held, v) then Forward(next, held, v.done) else held
  }

  /** The occurrence held before visit n. */
  function Held(next: Cron, first: Instant, vs: seq<Visit>, n: nat): Instant
    requires n <= |vs|
  {
    if n == 0 then first else Visited(next, Held(next, first, vs, n - 1), vs[n - 1])
  }

  /** Visit i runs the actions for occurrence y. */
  predicate RunsFor(next: Cron, first: Instant, vs: seq<Visit>, i: nat, y: Instant)
    requires i < |vs|
  {
    Held(next, first, vs, i) == y && Due(y, vs[i])
  }

  /** Clock readings in order, and each visit over within the given time of the previous one's start;
      the first within that time of the registration at start. */
  ghost predicate Steady(start: Instant, vs: seq<Visit>, gap: int) {
    && (forall i: nat | i < |vs| :: vs[i].at <= vs[i].done)
    && (forall i: nat | 0 < i < |vs| :: vs[i - 1].done <= vs[i].at && vs[i].done - vs[i - 1].at <= gap)
    && (vs != [] ==> start <= vs[0].at && vs[0].done - start <= gap)
  }

  function Previous(start: Instant, vs: seq<Visit>, n: nat): Instant
    requires n <= |vs|
  {
    if n == 0 then start else vs[n - 1].at
  }

  /** No occurrence is held for longer than it may be: it is not yet past when the last visit began. */
  lemma {:induction false} HeldIsRecent(next: Cron, first: Instant, start: Instant, vs: seq<Visit>, gap: int, n: nat)
    requires LeastSuccessor(next) && Steady(start, vs, gap) && start <= first && Occurs(next, first) && n <= |vs|
    ensures Previous(start, vs, n) <= Held(next, first, vs, n) && Occurs(next, Held(next, first, vs, n))
  {
    if n > 0 {
      HeldIsRecent(next, first, start, vs, gap, n - 1);
      var held, v := Held(next, first, vs, n - 1), vs[n - 1];
      assert Due(held, v) || held - v.at >= INTERVAL;
      assert Occurs(next, next(v.done));
    }
  }

  /** Moving on from an occurrence skips another one exactly when there is one that is past as well. */
  lemma ForwardSkipsExactly(next: Cron, held: Instant, now: Instant)
    requires LeastSuccessor(next) && Occurs(next, held) && held < now
    ensures Forward(next, held, now) == next(held) <==> forall y | Occurs(next, y) && held < y :: now < y
  {
    assert Occurs(next, next(held)) && Occurs(next, next(now));
  }

  /** Registration leaves a scheduler as the laws below suppose: it waits for an occurrence that is not yet
      past, and no other one to come is earlier. */
  lemma RegisteredInTime(next: Cron, at: Instant, now: Instant, y: Instant)
    requires LeastSuccessor(next) && at <= now
    ensures var held := Forward(next, next(at), now);
            && Occurs(next, held) && now <= held
            && (Occurs(next, y) && now < y ==> held <= y)
  {
    assert Occurs(next, next(at)) && Occurs(next, next(now));
  }

  /** With occurrences further apart than visits, a visit keeps the occurrence or moves to the very next. */
  lemma NeverSkips(next: Cron, first: Instant, start: Instant, vs: seq<Visit>, gap: int, i: nat)
    requires LeastSuccessor(next) && Steady(start, vs, gap) && start <= first && Occurs(next, first)
    requires Apart(next, gap) && i < |vs|
    ensures var held := Held(next, first, vs, i);
            Held(next, first, vs, i + 1) == if held < vs[i].done && Due(held, vs[i]) then next(held) else held
  {
    HeldIsRecent(next, first, start, vs, gap, i);
    var held := Held(next, first, vs, i);
    if held < vs[i].done {
      forall y | Occurs(next, y) && held < y ensures vs[i].done < y {
        assert vs[i].done - Previous(start, vs, i) <= gap;
      }
      ForwardSkipsExactly(next, held, vs[i].done);
    }
  }

  /** No occurrence is missed: every one from the first held up to the one held now has had a run. */
  lemma {:induction false} NoOccurrenceMissed(next: Cron, first: Instant, start: Instant, vs: seq<Visit>, gap: int,
                                              n: nat, y: Instant)
    requires LeastSuccessor(next) && Steady(start, vs, gap) && start <= first && Occurs(next, first)
    requires Apart(next, gap) && n <= |vs|
    requires Occurs(next, y) && first <= y < Held(next, first, vs, n)
    ensures exists i: nat :: i < n && RunsFor(next, first, vs, i, y)
  {
    if n > 0 {
      var held := Held(next, first, vs, n - 1);
      NeverSkips(next, first, start, vs, gap, n - 1);
      if y < held {
        NoOccurrenceMissed(next, first, start, vs, gap, n - 1, y);
      } else {
        assert y == held;
        assert RunsFor(next, first, vs, n - 1, y);
      }
    }
  }

  /** Nor does any run come at the wrong time: less than the interval early, at most the gap late. */
  lemma RunsAreTimely(next: Cron, first: Instant, start: Instant, vs: seq<Visit>, gap: int, i: nat, y: Instant)
    requires LeastSuccessor(next) && Steady(start, vs, gap) && start <= first && Occurs(next, first)
    requires i < |vs| && RunsFor(next, first, vs, i, y)
    ensures -gap <= y - vs[i].at < INTERVAL
  {
    HeldIsRecent(next, first, start, vs, gap, i);
    assert vs[i].done - Previous(start, vs, i) <= gap;
  }

  // ----- from the opening tick on -----

  predicate Near(y: Instant, at: Instant, gap: int) {
    -gap <= y - at <= if INTERVAL > gap then INTERVAL else gap
  }

  lemma SteadyFrom(start: Instant, vs: seq<Visit>, gap: int, o: nat)
    requires Steady(start, vs, gap) && o < |vs|
    ensures Steady(vs[o].at, vs[o + 1..], gap)
  {
    var rest := vs[o + 1..];
    assert forall i: nat | i < |rest| :: rest[i] == vs[o + 1 + i];
  }

  /** An occurrence that is due by the last visit and has been held all the time runs at some visit. */
  lemma DueByThenRuns(next: Cron, first: Instant, start: Instant, vs: seq<Visit>, gap: int, y: Instant) returns (i: nat)
    requires LeastSuccessor(next) && Steady(start, vs, gap) && start <= first && Occurs(next, first) && Apart(next, gap)
    requires vs != [] && Occurs(next, y) && first <= y <= vs[|vs| - 1].at
    ensures i < |vs| && RunsFor(next, first, vs, i, y)
  {
    var n := |vs|;
    HeldIsRecent(next, first, start, vs, gap, n);
    if y < Held(next, first, vs, n) {
      NoOccurrenceMissed(next, first, start, vs, gap, n, y);
      i :| i < n && RunsFor(next, first, vs, i, y);
    } else {
      NeverSkips(next, first, start, vs, gap, n - 1);
      i := n - 1;
    }
  }

  /** The first visit that looks at the occurrence may find it long past. It then runs for all the occurrences up to
      its own end, and later visits for all that follow: none that it does not find too late is missed. */
  lemma OpenedThenRuns(next: Cron, first: Instant, start: Instant, vs: seq<Visit>, gap: int, o: nat, y: Instant)
    returns (i: nat)
    requires LeastSuccessor(next) && Steady(start, vs, gap) && Occurs(next, first) && Apart(next, gap)
    requires o < |vs| && Occurs(next, y) && first <= y <= vs[|vs| - 1].at && vs[o].at - gap <= y
    ensures o <= i < |vs| && Due(Held(next, first, vs[o..], i - o), vs[i]) && Near(y, vs[i].at, gap)
    ensures Held(next, first, vs[o..], i - o) == y || (i == o && y <= vs[o].done)
  {
    if Due(first, vs[o]) && y <= vs[o].done {
      i := o;
      assert o > 0 ==> vs[o - 1].at <= vs[o - 1].done;
      assert Held(next, first, vs[o..], 0) == first;
    } else {
      i := RunsAfterOpening(next, first, start, vs, gap, o, y);
    }
  }

  lemma RunsAfterOpening(next: Cron, first: Instant, start: Instant, vs: seq<Visit>, gap: int, o: nat, y: Instant)
    returns (i: nat)
    requires LeastSuccessor(next) && Steady(start, vs, gap) && Occurs(next, first) && Apart(next, gap)
    requires o < |vs| && Occurs(next, y) && first <= y <= vs[|vs| - 1].at
    requires !(Due(first, vs[o]) && y <= vs[o].done)
    ensures o < i < |vs| && Due(Held(next, first, vs[o..], i - o), vs[i]) && Near(y, vs[i].at, gap)
    ensures Held(next, first, vs[o..], i - o) == y
  {
    var seen, rest := vs[o..], vs[o + 1..];
    assert seen[0] == vs[o] && seen[1..] == rest;
    SteadyFrom(start, vs, gap, o);
    var held := Held(next, first, seen, 1);
    HeldAfterOne(next, first, seen);
    HeldForLater(next, first, vs[o], y);
    var j := DueByThenRuns(next, held, vs[o].at, rest, gap, y);
    RunsAreTimely(next, held, vs[o].at, rest, gap, j, y);
    i := o + 1 + j;
    HeldSplits(next, first, seen, j);
  }

  lemma HeldForLater(next: Cron, first: Instant, v: Visit, y: Instant)
    requires LeastSuccessor(next) && Occurs(next, first) && Occurs(next, y) && first <= y && v.at <= v.done
    requires !(Due(first, v) && y <= v.done)
    ensures v.at <= Visited(next, first, v) <= y && Occurs(next, Visited(next, first, v))
  {
    assert Occurs(next, next(v.done));
  }

  lemma HeldAfterOne(next: Cron, first: Instant, vs: seq<Visit>)
    requires vs != []
    ensures Held(next, first, vs, 0) == first && Held(next, first, vs, 1) == Visited(next, first, vs[0])
  {
    assert Held(next, first, vs, 0) == first;
  }

  lemma {:induction false} HeldSplits(next: Cron, first: Instant, vs: seq<Visit>, j: nat)
    requires j < |vs|
    ensures Held(next, Held(next, first, vs, 1), vs[1..], j) == Held(next, first, vs, j + 1)
  {
    if j > 0 {
      HeldSplits(next, first, vs, j - 1);
      assert vs[1..][j - 1] == vs[j];
    }
  }

  // ----- how often an occurrence runs -----

  /** Ticks exactly one interval apart, with actions that take no time. */
  ghost predicate Exact(vs: seq<Visit>) {
    && (forall i: nat | i < |vs| :: vs[i].done == vs[i].at)
    && (forall i: nat | 0 < i < |vs| :: vs[i].at == vs[i - 1].at + INTERVAL)
  }

  lemma {:induction false} ExactAt(vs: seq<Visit>, i: nat, j: nat)
    requires Exact(vs) && i <= j < |vs|
    ensures vs[j].at == vs[i].at + (j - i) * INTERVAL
  {
    if i < j {
      ExactAt(vs, i, j - 1);
    }
  }

  /** What is held never goes back. */
  lemma {:induction false} HeldGrows(next: Cron, first: Instant, vs: seq<Visit>, i: nat, j: nat)
    requires LeastSuccessor(next) && i <= j <= |vs|
    ensures Held(next, first, vs, i) <= Held(next, first, vs, j)
  {
    if i < j {
      HeldGrows(next, first, vs, i, j - 1);
    }
  }

  /** An occurrence held at visit j is still held at visit k if visit k - 1 began no later than it. */
  lemma {:induction false} HeldUntilPast(next: Cron, first: Instant, vs: seq<Visit>, j: nat, k: nat)
    requires LeastSuccessor(next) && Exact(vs) && j <= k <= |vs|
    requires j < k ==> vs[k - 1].at <= Held(next, first, vs, j)
    ensures Held(next, first, vs, k) == Held(next, first, vs, j)
  {
    if j < k {
      if j < k - 1 {
        assert vs[k - 1].at == vs[k - 2].at + INTERVAL;
      }
      HeldUntilPast(next, first, vs, j, k - 1);
    }
  }

  /** The visit of a series of exact ticks in whose interval y lies. */
  function Slot(vs: seq<Visit>, j: nat, y: Instant): nat
    requires j < |vs| && vs[j].at <= y
  {
    j + (y - vs[j].at) / INTERVAL
  }

  lemma AtSlot(vs: seq<Visit>, j: nat, i: nat, y: Instant)
    requires Exact(vs) && j <= i < |vs| && vs[j].at <= y
    ensures var k := Slot(vs, j, y);
            && (i < k ==> y - vs[i].at >= INTERVAL)
            && (i == k ==> 0 <= y - vs[i].at < INTERVAL)
            && (i == k + 1 ==> -INTERVAL <= y - vs[i].at < 0)
  {
    ExactAt(vs, j, i);
    SlotBounds(vs, j, i, y);
  }

  lemma RunsUpToSlot(next: Cron, first: Instant, vs: seq<Visit>, j: nat, i: nat, y: Instant)
    requires LeastSuccessor(next) && Exact(vs) && j <= i < |vs|
    requires Held(next, first, vs, j) == y && vs[j].at <= y && i <= Slot(vs, j, y) + 1
    ensures RunsFor(next, first, vs, i, y) <==> i == Slot(vs, j, y) || i == Slot(vs, j, y) + 1
    ensures i == Slot(vs, j, y) + 1 ==> Held(next, first, vs, i + 1) > y
  {
    AtSlot(vs, j, i, y);
    if j < i {
      AtSlot(vs, j, i - 1, y);
    }
    HeldUntilPast(next, first, vs, j, i);
  }

  /** An occurrence that is not yet past when first visited runs exactly twice: at the last tick that is
      not after it, and, since an occurrence is only given up once it is past, at the next tick again. */
  lemma RunsExactlyTwice(next: Cron, first: Instant, vs: seq<Visit>, j: nat, i: nat, y: Instant)
    requires LeastSuccessor(next) && Exact(vs) && j < |vs| && i < |vs|
    requires Held(next, first, vs, j) == y && vs[j].at <= y
    requires j == 0 || Held(next, first, vs, j - 1) != y
    ensures RunsFor(next, first, vs, i, y) <==> i == Slot(vs, j, y) || i == Slot(vs, j, y) + 1
  {
    var k := Slot(vs, j, y);
    SlotIsLater(vs, j, y);
    if i < j {
      HeldGrows(next, first, vs, i, j - 1);
      HeldGrows(next, first, vs, j - 1, j);
    } else if i <= k + 1 {
      RunsUpToSlot(next, first, vs, j, i, y);
    } else {
      RunsUpToSlot(next, first, vs, j, k + 1, y);
      HeldGrows(next, first, vs, k + 2, i);
    }
  }

  lemma SlotIsLater(vs: seq<Visit>, j: nat, y: Instant)
    requires j < |vs| && vs[j].at <= y
    ensures j <= Slot(vs, j, y)
  {
  }

  lemma SlotBounds(vs: seq<Visit>, j: nat, i: nat, y: Instant)
    requires j <= i < |vs| && vs[j].at <= y && vs[i].at == vs[j].at + (i - j) * INTERVAL
    ensures var k := Slot(vs, j, y);
            && (i < k ==> y - vs[i].at >= INTERVAL)
            && (i == k ==> 0 <= y - vs[i].at < INTERVAL)
            && (i == k + 1 ==> -INTERVAL <= y - vs[i].at < 0)
  {
    var q, r := (y - vs[j].at) / INTERVAL, (y - vs[j].at) % INTERVAL;
    assert y - vs[j].at == q * INTERVAL + r;
    assert y - vs[i].at == (q - (i - j)) * INTERVAL + r;
    if i - j < q {
      assert (q - (i - j)) * INTERVAL >= INTERVAL;
    }
  }

  /** Five-field cron expressions have whole minutes between their occurrences. With exact ticks every
      later occurrence is then met before it is past, and so runs exactly twice; never just once. */
  lemma MinutesAreMetInTime(next: Cron, first: Instant, vs: seq<Visit>, j: nat)
    requires LeastSuccessor(next) && Exact(vs) && 0 < j < |vs|
    requires forall y, z :: Occurs(next, y) && Occurs(next, z) && y < z ==> z - y >= 2 * INTERVAL
    requires Occurs(next, Held(next, first, vs, j - 1))
    requires Held(next, first, vs, j - 1) != Held(next, first, vs, j)
    requires vs[j - 1].at - INTERVAL <= Held(next, first, vs, j - 1)
    ensures vs[j].at <= Held(next, first, vs, j)
  {
    assert Occurs(next, next(vs[j - 1].done));
  }

  /** So, ticking exactly, every occurrence that is held at all runs exactly twice. */
  lemma EveryOccurrenceRunsTwice(next: Cron, first: Instant, vs: seq<Visit>, j: nat, i: nat)
    requires LeastSuccessor(next) && Exact(vs) && Occurs(next, first) && j < |vs| && i < |vs| && vs[0].at <= first
    requires forall y, z :: Occurs(next, y) && Occurs(next, z) && y < z ==> z - y >= 2 * INTERVAL
    requires j == 0 || Held(next, first, vs, j - 1) != Held(next, first, vs, j)
    ensures var y := Held(next, first, vs, j);
            && vs[j].at <= y
            && (RunsFor(next, first, vs, i, y) <==> i == Slot(vs, j, y) || i == Slot(vs, j, y) + 1)
  {
    assert Steady(vs[0].at, vs, INTERVAL);
    if j > 0 {
      HeldIsRecent(next, first, vs[0].at, vs, INTERVAL, j - 1);
      MinutesAreMetInTime(next, first, vs, j);
    }
    RunsExactlyTwice(next, first, vs, j, i, Held(next, first, vs, j));
  }

  // ----- a whole scheduler -----

  datatype Config = Config(active: bool, fromDateTime: Instant, toDateTime: Instant, fromCron: Cron, toCron: Cron)

  predicate IsActive(cfg: Config, now: Instant) {
    cfg.fromDateTime < now && cfg.active
  }

  predicate IsExpired(cfg: Config, now: Instant) {
    cfg.toDateTime < now
  }

  /** The clock readings of one manager tick for one scheduler. */
  datatype Reading = Reading(active: Instant, expired: Instant, from: Visit, to: Visit)

  datatype State = State(registered: bool, fromNext: Instant, toNext: Instant)

  predicate Looks(cfg: Config, s: State, r: Reading) {
    s.registered && IsActive(cfg, r.active)
  }

  /** An expired scheduler is removed, and its actions are considered all the same. */
  function Step(cfg: Config, s: State, r: Reading): State {
    if !Looks(cfg, s, r) then s
    else State(!IsExpired(cfg, r.expired),
               Visited(cfg.fromCron, s.fromNext, r.from), Visited(cfg.toCron, s.toNext, r.to))
  }

  function After(cfg: Config, s: State, rs: seq<Reading>, n: nat): State
    requires n <= |rs|
  {
    if n == 0 then s else Step(cfg, After(cfg, s, rs, n - 1), rs[n - 1])
  }

  predicate RunsFrom(cfg: Config, s: State, rs: seq<Reading>, i: nat)
    requires i < |rs|
  {
    Looks(cfg, After(cfg, s, rs, i), rs[i]) && Due(After(cfg, s, rs, i).fromNext, rs[i].from)
  }

  predicate RunsTo(cfg: Config, s: State, rs: seq<Reading>, i: nat)
    requires i < |rs|
  {
    Looks(cfg, After(cfg, s, rs, i), rs[i]) && Due(After(cfg, s, rs, i).toNext, rs[i].to)
  }

  /** While the scheduler is looked at, each direction is a run of visits as above. */
  lemma {:induction false} DirectionsAreVisits(cfg: Config, s: State, rs: seq<Reading>, froms: seq<Visit>,
                                               tos: seq<Visit>, n: nat)
    requires n <= |rs| == |froms| == |tos|
    requires forall i: nat | i < |rs| :: froms[i] == rs[i].from && tos[i] == rs[i].to
    requires forall i: nat | i < n :: Looks(cfg, After(cfg, s, rs, i), rs[i])
    ensures After(cfg, s, rs, n).fromNext == Held(cfg.fromCron, s.fromNext, froms, n)
    ensures After(cfg, s, rs, n).toNext == Held(cfg.toCron, s.toNext, tos, n)
  {
    if n > 0 {
      DirectionsAreVisits(cfg, s, rs, froms, tos, n - 1);
      assert Looks(cfg, After(cfg, s, rs, n - 1), rs[n - 1]);
    }
  }

  // ----- the whole of a scheduler's life -----

  /** The readings of the manager's ticks are in order, and each tick is over within the gap of the one before. */
  ghost predicate Timed(start: Instant, rs: seq<Reading>, gap: int) {
    && (forall i: nat | i < |rs| :: Ordered(rs[i]))
    && (forall i: nat | 0 < i < |rs| :: rs[i - 1].to.done <= rs[i].active && rs[i].to.done - rs[i - 1].active <= gap)
    && (rs != [] ==> start <= rs[0].active && rs[0].to.done - start <= gap)
  }

  predicate Ordered(r: Reading) {
    r.active <= r.expired <= r.from.at <= r.from.done <= r.to.at <= r.to.done
  }

  function Froms(rs: seq<Reading>): seq<Visit> {
    seq(|rs|, i requires 0 <= i < |rs| => rs[i].from)
  }

  function Tos(rs: seq<Reading>): seq<Visit> {
    seq(|rs|, i requires 0 <= i < |rs| => rs[i].to)
  }

  lemma TimedIsSteady(start: Instant, rs: seq<Reading>, gap: int)
    requires Timed(start, rs, gap)
    ensures Steady(start, Froms(rs), gap) && Steady(start, Tos(rs), gap)
  {
  }

  /** The first tick that finds the scheduler active. */
  lemma {:induction false} Opening(cfg: Config, start: Instant, rs: seq<Reading>, gap: int, n: nat) returns (o: nat)
    requires Timed(start, rs, gap) && n < |rs| && IsActive(cfg, rs[n].active)
    ensures o <= n && IsActive(cfg, rs[o].active) && forall i: nat | i < o :: !IsActive(cfg, rs[i].active)
    ensures forall i: nat | o <= i <= n :: IsActive(cfg, rs[i].active)
  {
    if n > 0 && IsActive(cfg, rs[n - 1].active) {
      o := Opening(cfg, start, rs, gap, n - 1);
    } else {
      o := n;
      NeverBefore(cfg, start, rs, gap, n);
    }
  }

  lemma {:induction false} NeverBefore(cfg: Config, start: Instant, rs: seq<Reading>, gap: int, n: nat)
    requires Timed(start, rs, gap) && n < |rs| && (n > 0 ==> !IsActive(cfg, rs[n - 1].active)) && cfg.active
    ensures forall i: nat | i < n :: !IsActive(cfg, rs[i].active)
  {
    if n > 1 {
      assert Ordered(rs[n - 2]);
      NeverBefore(cfg, start, rs, gap, n - 1);
    }
  }

  lemma {:induction false} AfterSplits(cfg: Config, s: State, rs: seq<Reading>, o: nat, k: nat)
    requires o + k <= |rs|
    ensures After(cfg, After(cfg, s, rs, o), rs[o..], k) == After(cfg, s, rs, o + k)
  {
    if k > 0 {
      AfterSplits(cfg, s, rs, o, k - 1);
      assert rs[o..][k - 1] == rs[o + k - 1];
    }
  }

  /** The tick finds the scheduler active, and its ToDateTime past. */
  predicate Expires(cfg: Config, r: Reading) {
    cfg.active && cfg.fromDateTime < r.active && cfg.toDateTime < r.expired
  }

  /** A scheduler stays registered until such a tick, and no longer. */
  lemma {:induction false} RegisteredExactly(cfg: Config, s: State, rs: seq<Reading>, n: nat)
    requires n <= |rs|
    ensures After(cfg, s, rs, n).registered <==> s.registered && forall i: nat | i < n :: !Expires(cfg, rs[i])
  {
    if n > 0 {
      RegisteredExactly(cfg, s, rs, n - 1);
    }
  }

  lemma {:induction false} RegisteredBefore(cfg: Config, s: State, rs: seq<Reading>, i: nat, j: nat)
    requires i <= j <= |rs| && After(cfg, s, rs, j).registered
    ensures After(cfg, s, rs, i).registered
  {
    if i < j {
      RegisteredBefore(cfg, s, rs, i, j - 1);
    }
  }

  /** From tick o up to tick n the scheduler is looked at, and before that it is not. */
  ghost predicate OpenFrom(cfg: Config, s: State, rs: seq<Reading>, o: nat, n: nat)
    requires n < |rs|
  {
    && o <= n && After(cfg, s, rs, n).registered
    && (forall j: nat | j < o :: !IsActive(cfg, rs[j].active))
    && (forall j: nat | o <= j <= n :: IsActive(cfg, rs[j].active))
  }

  lemma LooksSinceOpening(cfg: Config, s: State, rs: seq<Reading>, o: nat, n: nat, k: nat)
    requires n < |rs| && OpenFrom(cfg, s, rs, o, n) && o + k <= n
    ensures Looks(cfg, After(cfg, s, rs, o + k), rs[o + k])
    ensures Looks(cfg, After(cfg, s, rs[o..], k), rs[o..][k])
    ensures After(cfg, s, rs[o..], k) == After(cfg, s, rs, o + k)
  {
    AsleepUntilActive(cfg, s, rs, o);
    AfterSplits(cfg, s, rs, o, k);
    RegisteredBefore(cfg, s, rs, o + k, n);
  }

  /** What is held at a tick from the opening one on, told by the visits. */
  lemma HeldSinceOpening(cfg: Config, s: State, rs: seq<Reading>, o: nat, n: nat, i: nat)
    requires n < |rs| && OpenFrom(cfg, s, rs, o, n) && o <= i <= n
    ensures Looks(cfg, After(cfg, s, rs, i), rs[i])
    ensures After(cfg, s, rs, i).fromNext == Held(cfg.fromCron, s.fromNext, Froms(rs)[o..], i - o)
    ensures After(cfg, s, rs, i).toNext == Held(cfg.toCron, s.toNext, Tos(rs)[o..], i - o)
  {
    forall k: nat | k < i - o ensures Looks(cfg, After(cfg, s, rs[o..], k), rs[o..][k]) {
      LooksSinceOpening(cfg, s, rs, o, n, k);
    }
    LooksSinceOpening(cfg, s, rs, o, n, i - o);
    VisitsSinceOpening(rs, o);
    DirectionsAreVisits(cfg, s, rs[o..], Froms(rs)[o..], Tos(rs)[o..], i - o);
  }

  lemma VisitsSinceOpening(rs: seq<Reading>, o: nat)
    requires o <= |rs|
    ensures |rs[o..]| == |Froms(rs)[o..]| == |Tos(rs)[o..]|
    ensures forall k: nat | k < |rs[o..]| :: Froms(rs)[o..][k] == rs[o..][k].from && Tos(rs)[o..][k] == rs[o..][k].to
  {
  }

  lemma {:induction false} AfterPrefix(cfg: Config, s: State, rs: seq<Reading>, n: nat, i: nat)
    requires i <= n <= |rs|
    ensures After(cfg, s, rs[..n], i) == After(cfg, s, rs, i)
  {
    if i > 0 {
      AfterPrefix(cfg, s, rs, n, i - 1);
    }
  }

  lemma TimedPrefix(start: Instant, rs: seq<Reading>, gap: int, n: nat)
    requires Timed(start, rs, gap) && n <= |rs|
    ensures Timed(start, rs[..n], gap)
  {
    var now := rs[..n];
    assert forall i: nat | i < n :: now[i] == rs[i];
  }

  lemma NotTooLate(cfg: Config, start: Instant, rs: seq<Reading>, gap: int, o: nat, y: Instant)
    requires Timed(start, rs, gap) && o < |rs| && start <= y && (o > 0 ==> rs[o - 1].active < y)
    ensures rs[o].from.at - gap <= y && rs[o].to.at - gap <= y
  {
    assert Ordered(rs[o]);
  }

  /** Tick i runs the "from" actions for y, at about its time: it holds y, or it is the opening tick, which runs them
      once for all the occurrences up to its own end. */
  ghost predicate MeetsFrom(cfg: Config, s: State, rs: seq<Reading>, gap: int, i: nat, y: Instant) {
    && i < |rs| && RunsFrom(cfg, s, rs, i) && Near(y, rs[i].from.at, gap)
    && (After(cfg, s, rs, i).fromNext == y || (Opens(cfg, rs, i) && y <= rs[i].from.done))
  }

  ghost predicate MeetsTo(cfg: Config, s: State, rs: seq<Reading>, gap: int, i: nat, y: Instant) {
    && i < |rs| && RunsTo(cfg, s, rs, i) && Near(y, rs[i].to.at, gap)
    && (After(cfg, s, rs, i).toNext == y || (Opens(cfg, rs, i) && y <= rs[i].to.done))
  }

  /** Tick i is the first one to find the scheduler active. */
  ghost predicate Opens(cfg: Config, rs: seq<Reading>, i: nat) {
    i < |rs| && IsActive(cfg, rs[i].active) && forall j: nat | j < i :: !IsActive(cfg, rs[j].active)
  }

  /** What a direction is registered with: see RegisteredInTime. */
  ghost predicate WellHeld(next: Cron, held: Instant, start: Instant, gap: int) {
    LeastSuccessor(next) && Apart(next, gap) && Occurs(next, held) && start <= held
  }

  lemma FromsAreMet(cfg: Config, s: State, rs: seq<Reading>, start: Instant, gap: int, o: nat, y: Instant)
    returns (i: nat)
    requires rs != [] && Timed(start, rs, gap) && OpenFrom(cfg, s, rs, o, |rs| - 1) && cfg.active
    requires WellHeld(cfg.fromCron, s.fromNext, start, gap) && Occurs(cfg.fromCron, y)
    requires s.fromNext <= y && cfg.fromDateTime < y <= rs[|rs| - 1].expired
    ensures MeetsFrom(cfg, s, rs, gap, i, y)
  {
    NotTooLate(cfg, start, rs, gap, o, y);
    TimedIsSteady(start, rs, gap);
    assert Ordered(rs[|rs| - 1]);
    var froms := Froms(rs);
    assert y <= froms[|froms| - 1].at && rs[o].from.at - gap <= y;
    i := OpenedThenRuns(cfg.fromCron, s.fromNext, start, froms, gap, o, y);
    HeldSinceOpening(cfg, s, rs, o, |rs| - 1, i);
    assert froms[i] == rs[i].from && Opens(cfg, rs, o);
  }

  lemma TosAreMet(cfg: Config, s: State, rs: seq<Reading>, start: Instant, gap: int, o: nat, y: Instant)
    returns (i: nat)
    requires rs != [] && Timed(start, rs, gap) && OpenFrom(cfg, s, rs, o, |rs| - 1) && cfg.active
    requires WellHeld(cfg.toCron, s.toNext, start, gap) && Occurs(cfg.toCron, y)
    requires s.toNext <= y && cfg.fromDateTime < y <= rs[|rs| - 1].expired
    ensures MeetsTo(cfg, s, rs, gap, i, y)
  {
    NotTooLate(cfg, start, rs, gap, o, y);
    TimedIsSteady(start, rs, gap);
    assert Ordered(rs[|rs| - 1]);
    var tos := Tos(rs);
    assert y <= tos[|tos| - 1].at && rs[o].to.at - gap <= y;
    i := OpenedThenRuns(cfg.toCron, s.toNext, start, tos, gap, o, y);
    HeldSinceOpening(cfg, s, rs, o, |rs| - 1, i);
    assert tos[i] == rs[i].to && Opens(cfg, rs, o);
  }

  lemma OpenedAtLast(cfg: Config, s: State, rs: seq<Reading>, start: Instant, gap: int) returns (o: nat)
    requires rs != [] && Timed(start, rs, gap) && IsActive(cfg, rs[|rs| - 1].active)
    requires After(cfg, s, rs, |rs| - 1).registered
    ensures OpenFrom(cfg, s, rs, o, |rs| - 1)
  {
    o := Opening(cfg, start, rs, gap, |rs| - 1);
  }

  lemma MeetsInPrefix(cfg: Config, s: State, rs: seq<Reading>, gap: int, n: nat, i: nat, y: Instant)
    requires i < n <= |rs|
    ensures MeetsFrom(cfg, s, rs[..n], gap, i, y) <==> MeetsFrom(cfg, s, rs, gap, i, y)
    ensures MeetsTo(cfg, s, rs[..n], gap, i, y) <==> MeetsTo(cfg, s, rs, gap, i, y)
  {
    AfterPrefix(cfg, s, rs, n, i);
    assert rs[..n][i] == rs[i] && forall j: nat | j < i :: rs[..n][j] == rs[j];
  }

  /** Both directions meet y by tick n, if it is an occurrence of theirs that they may have to wait for. */
  ghost predicate Met(cfg: Config, s: State, rs: seq<Reading>, start: Instant, gap: int, n: nat, y: Instant) {
    && (WellHeld(cfg.fromCron, s.fromNext, start, gap) && Occurs(cfg.fromCron, y) && s.fromNext <= y ==>
          exists i: nat :: i <= n && MeetsFrom(cfg, s, rs, gap, i, y))
    && (WellHeld(cfg.toCron, s.toNext, start, gap) && Occurs(cfg.toCron, y) && s.toNext <= y ==>
          exists i: nat :: i <= n && MeetsTo(cfg, s, rs, gap, i, y))
  }

  lemma MetWhileRegistered(cfg: Config, s: State, rs: seq<Reading>, start: Instant, gap: int, n: nat, y: Instant)
    requires cfg.active && Timed(start, rs, gap) && n < |rs| && After(cfg, s, rs, n).registered
    requires IsActive(cfg, rs[n].active) && cfg.fromDateTime < y <= rs[n].expired
    ensures Met(cfg, s, rs, start, gap, n, y)
  {
    var now := rs[..n + 1];
    TimedPrefix(start, rs, gap, n + 1);
    AfterPrefix(cfg, s, rs, n + 1, n);
    var o := OpenedAtLast(cfg, s, now, start, gap);
    if WellHeld(cfg.fromCron, s.fromNext, start, gap) && Occurs(cfg.fromCron, y) && s.fromNext <= y {
      var i := FromsAreMet(cfg, s, now, start, gap, o, y);
      MeetsInPrefix(cfg, s, rs, gap, n + 1, i, y);
    }
    if WellHeld(cfg.toCron, s.toNext, start, gap) && Occurs(cfg.toCron, y) && s.toNext <= y {
      var i := TosAreMet(cfg, s, now, start, gap, o, y);
      MeetsInPrefix(cfg, s, rs, gap, n + 1, i, y);
    }
  }

  lemma {:induction false} FirstExpiry(cfg: Config, rs: seq<Reading>, n: nat) returns (e: nat)
    requires n <= |rs|
    ensures e <= n && (e < n ==> Expires(cfg, rs[e])) && forall i: nat | i < e :: !Expires(cfg, rs[i])
  {
    e := 0;
    if n > 0 {
      e := FirstExpiry(cfg, rs, n - 1);
      if e == n - 1 && !Expires(cfg, rs[n - 1]) {
        e := n;
      }
    }
  }

  /** Whether its time has begun or not when it is registered: an active scheduler runs its actions for every
      occurrence after FromDateTime and up to ToDateTime, or to the last tick before it expires, in both
      directions, and never more than the gap late, nor more than the interval (or the gap) early. */
  lemma NothingIsMissed(cfg: Config, s: State, rs: seq<Reading>, start: Instant, gap: int, n: nat, y: Instant)
    requires cfg.active && s.registered && Timed(start, rs, gap) && n < |rs|
    requires cfg.fromDateTime < y <= rs[n].active
    requires y <= cfg.toDateTime || forall i: nat | i < n :: !Expires(cfg, rs[i])
    ensures WellHeld(cfg.fromCron, s.fromNext, start, gap) && Occurs(cfg.fromCron, y) && s.fromNext <= y ==>
              exists i: nat :: i <= n && MeetsFrom(cfg, s, rs, gap, i, y)
    ensures WellHeld(cfg.toCron, s.toNext, start, gap) && Occurs(cfg.toCron, y) && s.toNext <= y ==>
              exists i: nat :: i <= n && MeetsTo(cfg, s, rs, gap, i, y)
  {
    var e := FirstExpiry(cfg, rs, n);
    RegisteredExactly(cfg, s, rs, e);
    assert Ordered(rs[e]);
    MetWhileRegistered(cfg, s, rs, start, gap, e, y);
  }

  lemma {:induction false} RemovedForGood(cfg: Config, s: State, rs: seq<Reading>, i: nat, j: nat)
    requires i <= j <= |rs| && !After(cfg, s, rs, i).registered
    ensures !After(cfg, s, rs, j).registered
  {
    if i < j {
      RemovedForGood(cfg, s, rs, i, j - 1);
    }
  }

  /** Nothing runs at or before FromDateTime, and at most one tick that finds ToDateTime past runs anything. */
  lemma {:induction false} RunsStayInWindow(cfg: Config, s: State, rs: seq<Reading>, i: nat, j: nat)
    requires i < j < |rs| && (RunsFrom(cfg, s, rs, j) || RunsTo(cfg, s, rs, j))
    ensures cfg.active && cfg.fromDateTime < rs[j].active
    ensures RunsFrom(cfg, s, rs, i) || RunsTo(cfg, s, rs, i) ==> rs[i].expired <= cfg.toDateTime
  {
    if RunsFrom(cfg, s, rs, i) || RunsTo(cfg, s, rs, i) {
      if rs[i].expired > cfg.toDateTime {
        RemovedForGood(cfg, s, rs, i + 1, j);
      }
    }
  }

  lemma {:induction false} AsleepUntilActive(cfg: Config, s: State, rs: seq<Reading>, n: nat)
    requires n <= |rs| && forall i: nat | i < n :: !IsActive(cfg, rs[i].active)
    ensures After(cfg, s, rs, n) == s
  {
    if n > 0 {
      AsleepUntilActive(cfg, s, rs, n - 1);
    }
  }

  /** Before FromDateTime nothing moves on, so the first active tick runs the actions for whatever was held at
      registration: for an occurrence that the window excludes, exactly when that occurrence precedes it. */
  lemma FirstActiveTickRunsStale(cfg: Config, s: State, rs: seq<Reading>, n: nat)
    requires n < |rs| && s.registered && IsActive(cfg, rs[n].active)
    requires forall i: nat | i < n :: !IsActive(cfg, rs[i].active)
    requires rs[n].active <= rs[n].from.at
    requires rs[n].active <= rs[n].to.at
    ensures RunsFrom(cfg, s, rs, n) && After(cfg, s, rs, n).fromNext <= cfg.fromDateTime
            <==> s.fromNext <= cfg.fromDateTime
    ensures RunsTo(cfg, s, rs, n) && After(cfg, s, rs, n).toNext <= cfg.fromDateTime
            <==> s.toNext <= cfg.fromDateTime
  {
    AsleepUntilActive(cfg, s, rs, n);
  }

  /** A cron expression that never comes true yields the zero time, which is always due: its actions run at
      every single tick. */
  lemma {:induction false} NeverDueRunsAlways(next: Cron, vs: seq<Visit>, i: nat)
    requires forall t :: next(t) == ZERO
    requires i < |vs| && forall k: nat | k < |vs| :: UNIX_EPOCH <= vs[k].at
    ensures RunsFor(next, ZERO, vs, i, ZERO)
  {
    if i > 0 {
      NeverDueRunsAlways(next, vs, i - 1);
    }
  }

  // ----- the objects -----

  class Scheduler {
    const cfg: Config
    var fromNextExec: Instant
    var toNextExec: Instant

    /** newScheduler, whose validation sets both occurrences from the clock, whatever was stored. */
    constructor (cfg: Config, fromAt: Instant, toAt: Instant)
      ensures this.cfg == cfg && fromNextExec == cfg.fromCron(fromAt) && toNextExec == cfg.toCron(toAt)
    {
      this.cfg := cfg;
      fromNextExec, toNextExec := cfg.fromCron(fromAt), cfg.toCron(toAt);
    }

    ghost function Value(registered: bool): State
      reads this
    {
      State(registered, fromNextExec, toNextExec)
    }

    method ForwardFromNextExec(now: Instant)
      modifies this`fromNextExec
      ensures fromNextExec == Forward(cfg.fromCron, old(fromNextExec), now)
    {
      if fromNextExec < now {
        fromNextExec := cfg.fromCron(now);
      }
    }

    method ForwardToNextExec(now: Instant)
      modifies this`toNextExec
      ensures toNextExec == Forward(cfg.toCron, old(toNextExec), now)
    {
      if toNextExec < now {
        toNextExec := cfg.toCron(now);
      }
    }

    /** The part of the manager's tick that looks at one scheduler. */
    method Look(r: Reading) returns (removed: bool, ranFrom: bool, ranTo: bool)
      modifies this
      ensures Value(!removed) == Step(cfg, old(Value(true)), r)
      ensures removed <==> cfg.active && cfg.fromDateTime < r.active && cfg.toDateTime < r.expired
      ensures ranFrom <==> cfg.active && cfg.fromDateTime < r.active && old(fromNextExec) < r.from.at + INTERVAL
      ensures ranTo <==> cfg.active && cfg.fromDateTime < r.active && old(toNextExec) < r.to.at + INTERVAL
    {
      removed, ranFrom, ranTo := false, false, false;
      if !(cfg.fromDateTime < r.active && cfg.active) {
        return;
      }
      if cfg.toDateTime < r.expired {
        removed := true;
      }
      if Sub(fromNextExec, r.from.at) < INTERVAL {
        ranFrom := true;
        ForwardFromNextExec(r.from.done);
      }
      if Sub(toNextExec, r.to.at) < INTERVAL {
        ranTo := true;
        ForwardToNextExec(r.to.done);
      }
    }
  }

  class Manager {
    var items: map<string, Scheduler>

    ghost predicate Valid()
      reads this
    {
      forall k, l | k in items && l in items && k != l :: items[k] != items[l]
    }

    constructor ()
      ensures Valid() && items == map[]
    {
      items := map[];
    }

    /** storeScheduler: a scheduler that belongs elsewhere is ignored; otherwise it is built, and brought up
        to the present, whatever was registered under its name before. */
    method StoreScheduler(name: string, mine: bool, cfg: Config, fromAt: Instant, toAt: Instant,
                          fromNow: Instant, toNow: Instant)
      requires Valid()
      modifies this
      ensures Valid()
      ensures !mine ==> items == old(items)
      ensures mine ==> name in items && items == old(items)[name := items[name]] && fresh(items[name])
      ensures mine ==> items[name].cfg == cfg
      ensures mine ==> items[name].fromNextExec == Forward(cfg.fromCron, cfg.fromCron(fromAt), fromNow)
      ensures mine ==> items[name].toNextExec == Forward(cfg.toCron, cfg.toCron(toAt), toNow)
    {
      if !mine {
        return;
      }
      var s := new Scheduler(cfg, fromAt, toAt);
      s.ForwardFromNextExec(fromNow);
      s.ForwardToNextExec(toNow);
      items := items[name := s];
    }

    /** One tick over a snapshot of the registry, in any order. Every scheduler takes its own step, and
        those that have expired are gone afterwards. Their keys are deleted in etcd, too, unless that fails. */
    method Tick(readings: map<string, Reading>, failing: set<string>) returns (gone: set<string>, deleted: set<string>)
      requires Valid() && items.Keys <= readings.Keys
      modifies this, items.Values
      ensures Valid() && items == old(items) - gone && gone <= old(items).Keys && deleted == gone - failing
      ensures forall k | k in old(items) ::
                old(items)[k].Value(k !in gone) == Step(old(items)[k].cfg, old(items[k].Value(true)), readings[k])
      ensures gone == set k | k in old(items) && Expires(old(items)[k].cfg, readings[k])
    {
      gone, deleted := {}, {};
      var todo := items.Keys;
      ghost var all := items;
      while todo != {}
        invariant todo <= all.Keys && gone <= all.Keys - todo && items == all - gone
        invariant deleted == gone - failing
        invariant gone == set k | k in all.Keys - todo && Expires(all[k].cfg, readings[k])
        invariant forall k | k in todo :: all[k].Value(true) == old(all[k].Value(true))
        invariant forall k | k in all.Keys - todo ::
                    all[k].Value(k !in gone) == Step(all[k].cfg, old(all[k].Value(true)), readings[k])
      {
        var k :| k in todo;
        assert all[k] in all.Values;
        var removed, ranFrom, ranTo := items[k].Look(readings[k]);
        if removed {
          items := items - {k};
          gone := gone + {k};
          if k !in failing {
            deleted := deleted + {k};
          }
        }
        todo := todo - {k};
      }
    }
  }
}
