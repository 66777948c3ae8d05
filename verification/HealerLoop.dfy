/** pkg/autohealer/healer.go: the loop body itself, which edits its maps while it ranges over them. */
module HealerLoop {
  import opened Clock
  import opened Healers
  import Alerts

  lemma MadeOneMore(step: nat, done: set<string>, x: string)
    ensures Made(step, done + {x}) == Made(step, done) + {Chan(step, x)}
    ensures Entries(step, done + {x}) == Entries(step, done)[x := Chan(step, x)]
  {
  }

  lemma SpawnedOneMore(watchers: map<Chan, Phase>, made: set<Chan>, c: Chan)
    ensures Spawned(watchers, made + {c}) == Spawned(watchers, made)[c := Resolving]
    ensures Spawned(watchers, {}) == watchers
  {
  }

  lemma DroppedOrKept(chans: map<string, Chan>, reported: set<string>)
    ensures Dropped(chans, reported) + Kept(chans, reported).Values == chans.Values
  {
    var kept := Kept(chans, reported);
    forall c | c in chans.Values ensures c in Dropped(chans, reported) || c in kept.Values {
      var x :| x in chans && chans[x] == c;
      assert x in reported ==> x in kept && kept[x] == c;
    }
  }

  lemma SetUnionIsAssociative(a: set<Chan>, b: set<Chan>, c: set<Chan>)
    ensures a + b + c == a + (b + c)
  {
  }

  lemma NothingReported(cfg: Config, s: State, labels: seq<string>)
    requires Reported(labels) == {}
    ensures Wanted(cfg, s, labels) == {}
    ensures var t := Trimmed(s, Reported(labels));
            t == s.(whitelist := t.whitelist, chans := map[], closed := s.closed + s.chans.Values)
  {
    WantedIsNew(cfg, s, labels);
    DroppedOrKept(s.chans, {});
    assert Kept(s.chans, {}) == map[];
  }

  /** The entries the filter leaves: counted as often as the level asks for, not whitelisted, without a
      channel, and matched by no silence. */
  function Left(cfg: Config, counts: map<string, int>, whitelist: set<string>, chans: map<string, Chan>,
                silences: map<string, Silence>): set<string>
  {
    set x | x in counts && x !in whitelist && counts[x] == cfg.level && x !in chans && !Silenced(cfg, silences, x)
  }

  lemma LeftIsWanted(cfg: Config, s: State, labels: seq<string>, counts: map<string, int>)
    requires counts.Keys == Reported(labels)
    requires forall x | x in counts :: counts[x] == multiset(Stripped(labels))[x]
    ensures var t := Trimmed(s, Reported(labels));
            Left(cfg, counts, t.whitelist, t.chans, t.silences) == Wanted(cfg, s, labels)
  {
    assert forall x :: x in Reported(labels) <==> x in Stripped(labels);
  }

  /** The last part of a tick: admit the wanted instances, or close everything when they are too many. */
  function Decided(s: State, wanted: set<string>): State {
    if |wanted| + |s.chans| > MAX_INSTANCES then
      s.(chans := map[], closed := s.closed + s.chans.Values)
    else
      s.(chans := s.chans + Entries(s.step, wanted), watchers := Spawned(s.watchers, Made(s.step, wanted)))
  }

  /** The first part of a tick: forget the instances that are no longer reported. */
  function Trimmed(s: State, reported: set<string>): State {
    s.(whitelist := s.whitelist * reported, chans := Kept(s.chans, reported),
       closed := s.closed + Dropped(s.chans, reported))
  }

  /** Closing first what is no longer reported, and then perhaps the rest, amounts to one update. */
  lemma UpdateInTwoParts(s: State, reported: set<string>, wanted: set<string>)
    ensures Decided(Trimmed(s, reported), wanted) == Updated(s, reported, wanted)
  {
    DroppedOrKept(s.chans, reported);
    SetUnionIsAssociative(s.closed, Dropped(s.chans, reported), Kept(s.chans, reported).Values);
  }

  class Loop {
    const cfg: Config
    var step: nat
    var nodes: map<string, string>
    var silences: map<string, Silence>
    var chans: map<string, Chan>
    var whitelist: set<string>
    var closed: set<Chan>
    var watchers: map<Chan, Phase>
    var done: bool

    constructor (cfg: Config)
      ensures this.cfg == cfg && Value() == INIT
    {
      this.cfg := cfg;
      step, nodes, silences, chans := 0, map[], map[], map[];
      whitelist, closed, watchers, done := {}, {}, map[], false;
    }

    ghost function Value(): State
      reads this
    {
      State(step, nodes, silences, chans, whitelist, closed, watchers, done)
    }

    method UpdateNodes(names: map<string, string>) returns (ghost update: map<string, string>)
      modifies this`nodes
      ensures nodes == old(nodes) + update
      ensures forall ip | ip in update :: exists a :: a in names && Strip(a) == ip && update[ip] == names[a]
      ensures forall a | a in names :: Strip(a) in update
    {
      var todo := names.Keys;
      update := map[];
      while todo != {}
        invariant todo <= names.Keys
        invariant nodes == old(nodes) + update
        invariant forall ip | ip in update :: exists a :: a in names && Strip(a) == ip && update[ip] == names[a]
        invariant forall a | a in names.Keys - todo :: Strip(a) in update
      {
        var a :| a in todo;
        nodes := nodes[Strip(a) := names[a]];
        update := update[Strip(a) := names[a]];
        todo := todo - {a};
      }
    }

    /** validateSilence: drop what has expired by now. */
    method ValidateSilence(now: Instant)
      modifies this`silences
      ensures silences == map id | id in old(silences) && old(silences)[id].expiredAt > now :: old(silences)[id]
    {
      var todo := silences.Keys;
      while todo != {}
        invariant todo <= old(silences).Keys
        invariant silences == map id | id in old(silences)
                                       && (id in todo || old(silences)[id].expiredAt > now) :: old(silences)[id]
      {
        var id :| id in todo;
        if silences[id].expiredAt <= now {
          silences := silences - {id};
        }
        todo := todo - {id};
      }
    }

    /** How many results each instance has, ports apart. */
    method Count(labels: seq<string>) returns (counts: map<string, int>)
      ensures counts.Keys == Reported(labels)
      ensures forall x | x in counts :: counts[x] == multiset(Stripped(labels))[x]
    {
      counts := map[];
      ghost var all := Stripped(labels);
      for i := 0 to |labels|
        invariant counts.Keys == set x | x in all[..i]
        invariant forall x | x in counts :: counts[x] == multiset(all[..i])[x]
      {
        var x := Strip(labels[i]);
        assert all[..i + 1] == all[..i] + [x];
        assert x in counts <==> x in multiset(all[..i]);
        counts := counts[x := (if x in counts then counts[x] else 0) + 1];
      }
      assert all[..|labels|] == all;
    }

    /** Instances that are up again leave the whitelist. */
    method ClearWhitelist(reported: set<string>)
      modifies this`whitelist
      ensures whitelist == old(whitelist) * reported
    {
      var todo := whitelist;
      while todo != {}
        invariant todo <= old(whitelist)
        invariant whitelist == old(whitelist) * (reported + todo)
      {
        var k :| k in todo;
        if k !in reported {
          whitelist := whitelist - {k};
        }
        todo := todo - {k};
      }
    }

    /** Close and forget the channels of instances no longer reported. */
    method CloseAbsent(reported: set<string>)
      modifies this`chans, this`closed
      ensures chans == Kept(old(chans), reported)
      ensures closed == old(closed) + Dropped(old(chans), reported)
    {
      var todo := chans.Keys;
      while todo != {}
        invariant todo <= old(chans).Keys
        invariant chans == Kept(old(chans), reported + todo)
        invariant closed == old(closed) + Dropped(old(chans), reported + todo)
      {
        var k :| k in todo;
        if k !in reported {
          closed := closed + {chans[k]};
          chans := chans - {k};
        }
        todo := todo - {k};
      }
    }

    method CloseAll()
      modifies this`chans, this`closed
      ensures chans == map[] && closed == old(closed) + old(chans).Values
    {
      CloseAbsent({});
    }

    /** Whether some silence matches, asking them in any order. */
    method IsSilenced(x: string) returns (matched: bool)
      ensures matched == Silenced(cfg, silences, x)
      ensures matched <==> exists id :: id in silences && cfg.matches(silences[id].pattern, x)
    {
      matched := false;
      var todo := silences.Keys;
      while todo != {}
        invariant todo <= silences.Keys
        invariant matched <==> exists id | id in silences.Keys - todo :: cfg.matches(silences[id].pattern, x)
      {
        var id :| id in todo;
        if cfg.matches(silences[id].pattern, x) {
          matched := true;
        }
        todo := todo - {id};
      }
    }

    /** Delete from the counts, while ranging over them, whatever is not to be healed now. */
    method Filter(counts: map<string, int>) returns (left: map<string, int>)
      ensures left.Keys == Left(cfg, counts, whitelist, chans, silences)
    {
      left := counts;
      var todo := counts.Keys;
      while todo != {}
        invariant todo <= counts.Keys
        invariant left.Keys == todo + Left(cfg, counts, whitelist, chans, silences)
      {
        var k :| k in todo;
        if k in whitelist || counts[k] != cfg.level {
          left := left - {k};
        }
        if k in chans {
          left := left - {k};
        }
        var matched := IsSilenced(k);
        if matched {
          left := left - {k};
        }
        todo := todo - {k};
      }
    }

    /** Spawn a watcher for every instance that has none. */
    method Admit(wanted: set<string>)
      requires wanted !! chans.Keys
      modifies this`chans, this`watchers
      ensures chans == old(chans) + Entries(step, wanted)
      ensures watchers == Spawned(old(watchers), Made(step, wanted))
    {
      var todo := wanted;
      ghost var made := {};
      assert Entries(step, {}) == map[] && Spawned(watchers, {}) == watchers;
      while todo != {}
        invariant todo <= wanted
        invariant made == Made(step, wanted - todo)
        invariant chans == old(chans) + Entries(step, wanted - todo)
        invariant watchers == Spawned(old(watchers), made)
      {
        var x :| x in todo;
        if x !in chans {
          chans := chans[x := Chan(step, x)];
          watchers := watchers[Chan(step, x) := Resolving];
        }
        MadeOneMore(step, wanted - todo, x);
        SpawnedOneMore(old(watchers), made, Chan(step, x));
        made := made + {Chan(step, x)};
        assert wanted - (todo - {x}) == wanted - todo + {x};
        todo := todo - {x};
      }
      assert wanted - todo == wanted;
    }

    /** Admit the wanted instances, or close everything when they would be too many. */
    method AdmitUnlessStorm(wanted: set<string>)
      requires wanted !! chans.Keys
      modifies this`chans, this`closed, this`watchers
      ensures Value() == Decided(old(Value()), wanted)
    {
      if |wanted| > MAX_INSTANCES || |wanted| + |chans| > MAX_INSTANCES {
        CloseAll();
        return;
      }
      Admit(wanted);
    }

    /** Forget what is no longer reported, and filter what is. */
    method Sift(labels: seq<string>) returns (left: map<string, int>)
      modifies this`whitelist, this`chans, this`closed
      ensures Value() == Trimmed(old(Value()), Reported(labels))
      ensures left.Keys == Wanted(cfg, old(Value()), labels)
    {
      ghost var s := Value();
      var counts := Count(labels);
      ClearWhitelist(counts.Keys);
      if |counts| == 0 {
        CloseAll();
        assert counts.Keys == {} && Reported(labels) == {};
        NothingReported(cfg, s, labels);
        return map[];
      }
      CloseAbsent(counts.Keys);
      ghost var t := Value();
      assert t == Trimmed(s, Reported(labels));
      left := Filter(counts);
      assert left.Keys == Left(cfg, counts, t.whitelist, t.chans, t.silences) && Value() == t;
      LeftIsWanted(cfg, s, labels, counts);
    }

    /** The whole body of the ticker's case, for a query that succeeded. */
    method Evaluate(labels: seq<string>)
      modifies this
      ensures Value() == if cfg.active then Ticked(cfg, old(Value()), labels).(step := old(step) + 1)
                         else old(Value()).(step := old(step) + 1)
    {
      if !cfg.active {
        step := step + 1;
        return;
      }
      ghost var s := Value();
      var left := Sift(labels);
      UpdateInTwoParts(s, Reported(labels), left.Keys);
      WantedIsNew(cfg, s, labels);
      AdmitUnlessStorm(left.Keys);
      step := step + 1;
    }

    // ----- the watchers -----

    /** A watcher finds its node's name, and starts evaluating an alert of its own. */
    method Resolve(c: Chan)
      requires Enabled(Value(), Event.Resolve(c))
      modifies this
      ensures Value() == Apply(cfg, old(Value()), Event.Resolve(c))
    {
      watchers := watchers[c := Watching(Alerts.Alarm(Alerts.QUIET, false))];
      step := step + 1;
    }

    /** The ticker's case of a watcher, up to the call of do. */
    method Check(c: Chan, startAt: Instant, checkAt: Instant) returns (fires: bool)
      requires Enabled(Value(), Event.Check(c, startAt, checkAt))
      modifies this
      ensures fires == Fires(cfg, old(Value()), Event.Check(c, startAt, checkAt))
      ensures Value() == Apply(cfg, old(Value()), Event.Check(c, startAt, checkAt))
    {
      var alert := new Alerts.Alert(watchers[c].alarm.state);
      if !alert.IsActive() {
        alert.Start(startAt);
      }
      fires := alert.ShouldFire(checkAt, cfg.duration);
      var next := if fires then Healing else Watching(Alerts.Alarm(alert.state, watchers[c].alarm.cooling));
      watchers := watchers[c := next];
      step := step + 1;
    }

    /** After do: the instance is whitelisted, and its channel forgotten. */
    method Finish(c: Chan)
      requires Enabled(Value(), Event.Finish(c))
      modifies this
      ensures Value() == Apply(cfg, old(Value()), Event.Finish(c))
      ensures whitelist == old(whitelist) + {c.instance} && chans == old(chans) - {c.instance}
      ensures watchers == old(watchers) - {c}
    {
      whitelist := whitelist + {c.instance};
      chans := chans - {c.instance};
      watchers := watchers - {c};
      step := step + 1;
    }
  }
}
