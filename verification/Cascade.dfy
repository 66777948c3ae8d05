/** pkg/autohealer/manager.go: every node runs a name resolver for each cloud, and the owner of a healer's
    key runs that healer. Deleting a cloud takes both away again, by way of keys derived from each other. */
module Cascade {
  import opened Etcd
  import opened Options
  import opened Clusters
  import opened Managers
  import opened HealerManagers
  import opened Latches
  import Nodes

  // ----- the protocol -----
  // Clouds and healers are named by the cloud's ID here, as the lemmas of HealerKeys allow. A node's healers come and
  // go as the workers of Nodes do; only which of them run is of interest, so modifications, which the source ignores,
  // do no harm there.

  datatype Node = Node(clouds: nat, resolving: set<string>, healing: Nodes.Node)

  datatype System = System(
    clouds: seq<Event<string>>,      // what happened to the keys of clouds, and
    healers: seq<Event<Worker>>,     // to those of healers: the two watches go on independently
    resolvers: set<string>,          // the keys of name resolvers, which nobody watches
    nodes: map<string, Node>
  )

  function Live<V>(log: seq<Event<V>>): set<string> {
    Contents(log, |log|).Keys
  }

  const INIT := System([], [], {}, map[])

  /** What works when a node hears of a cloud: to have its backend, to put its resolver's key, to delete that key, and
      to delete its healer's key. */
  datatype Works = Works(backend: bool, put: bool, resolver: bool, healer: bool)

  datatype Step =
    | StoreCloud(cloud: string, data: string)
    | DeleteCloud(cloud: string)
    | StoreHealer(cloud: string, healer: Worker)           // refused for an unknown cloud
    | DeleteHealer(cloud: string)
    | HearCloud(id: string, works: Works)                  // a node handles its next event of a cloud
    | HearHealer(id: string, backend: bool)                // and of a healer
    | Turn(id: string, ring: set<string>)                  // a node's ring turns
    | Reload(id: string, rev: nat, failing: set<string>, puts: seq<Event<Worker>>)
    | Join(id: string, ring: set<string>, failing: set<string>, unstarted: set<string>)
    | Leave(id: string, failing: set<string>, unput: set<string>, puts: seq<Event<Worker>>)
    | Crash(id: string)

  ghost predicate Enabled(hash: Hash, s: System, step: Step) {
    match step
    case StoreCloud(_, _) => true
    case DeleteCloud(c) => c in Live(s.clouds)
    case StoreHealer(c, _) => c in Live(s.clouds)
    case DeleteHealer(c) => c in Live(s.healers)
    case HearCloud(id, _) => id in s.nodes && s.nodes[id].clouds < |s.clouds|
    case HearHealer(id, backend) =>
      // a backend is asked for only when there is something to start
      && id in s.nodes && s.nodes[id].healing.at < |s.healers|
      && (backend || IsCreate(s.healers, s.nodes[id].healing.at))
    case Turn(id, _) => id in s.nodes
    case Reload(id, rev, failing, puts) =>
      && id in s.nodes && s.nodes[id].healing.at <= rev && s.nodes[id].healing.snap <= rev <= |s.healers|
      && Writes(puts, s.nodes[id].healing.items, Handed(hash, s, id, rev, failing))
    case Join(id, _, _, _) => id !in s.nodes
    case Leave(id, failing, _, puts) =>
      id in s.nodes && Writes(puts, s.nodes[id].healing.items, s.nodes[id].healing.items.Keys - failing)
    case Crash(id) => id in s.nodes
  }

  /** The healers a reload hands over. */
  function Handed(hash: Hash, s: System, id: string, rev: nat, failing: set<string>): set<string>
    requires id in s.nodes && rev <= |s.healers|
  {
    var n := s.nodes[id].healing;
    Moved(n.items, Contents(s.healers, rev), hash, n.ring, id, failing)
  }

  /** Deleting a key that is not there is no event. */
  function Deleting(log: seq<Event<Worker>>, key: string): seq<Event<Worker>> {
    if key in Live(log) then log + [Delete(key)] else log
  }

  /** As to which healers run, this is what the workers of Nodes do. */
  lemma HealingIsPlacement(hash: Hash, log: seq<Event<Worker>>, id: string, n: Nodes.Node, backend: bool)
    requires n.at < |log| && (backend || IsCreate(log, n.at))
    ensures Nodes.Consuming(hash, log, id, n, backend).items.Keys ==
            Healing(Nodes.Mine(hash, id, n, log[n.at].key), backend, n.items.Keys, log[n.at], IsCreate(log, n.at))
  {
  }

  /** And so is what a reload hands over and starts: in a ring with members, and of the healers, which are all it looks
      at. */
  lemma RebalanceIsPlacement(hash: Hash, ring: set<string>, id: string, items: map<string, Worker>,
                             stored: map<string, Worker>, rqt: set<Task>, failing: set<string>)
    requires ring != {} && forall c :: Healer(c) in rqt <==> c in items
    ensures var owner, todo := c => hash(ring, c), stored.Keys - failing;
            var handed := HandedOver(rqt, owner, id, todo);
            && handed == (set c | c in Moved(items, stored, hash, ring, id, failing) :: Healer(c))
            && forall c :: Healer(c) in rqt - handed + Owned(owner, id, todo) <==>
                             c in Rebalanced(items, stored, hash, ring, id, failing)
  {
  }

  function Heard(s: System, id: string, works: Works): System
    requires id in s.nodes && s.nodes[id].clouds < |s.clouds|
  {
    var n := s.nodes[id];
    var e, create := s.clouds[n.clouds], IsCreate(s.clouds, n.clouds);
    System(s.clouds,
           if e.Delete? && works.healer then Deleting(s.healers, e.key) else s.healers,
           if create && works.put then s.resolvers + {e.key}
           else if e.Delete? && e.key in n.resolving && works.resolver then s.resolvers - {e.key}
           else s.resolvers,
           s.nodes[id := n.(clouds := n.clouds + 1, resolving := Resolving(works.backend, n.resolving, e, create))])
  }

  /** load: resolvers and healers are started only for clouds that are there. */
  function Loaded(hash: Hash, s: System, id: string, ring: set<string>, failing: set<string>, unstarted: set<string>)
    : Node
  {
    Node(|s.clouds|, s.resolvers * Live(s.clouds) - unstarted,
         Nodes.Joining(hash, s.healers, ring, 0, id, Unloaded(s, failing)))
  }

  function Unloaded(s: System, failing: set<string>): set<string> {
    failing + (Live(s.healers) - Live(s.clouds))
  }

  /** So a node that joins resolves names for just the clouds whose resolver's key is there, and runs just the healers
      it owns whose key is there, and in either case whose cloud is. */
  lemma LoadedExactly(hash: Hash, s: System, id: string, ring: set<string>, failing: set<string>,
                      unstarted: set<string>, c: string)
    ensures var n := Loaded(hash, s, id, ring, failing, unstarted);
            && (c in n.resolving <==> c in s.resolvers && c in Live(s.clouds) && c !in unstarted)
            && (c in n.healing.items <==>
                  c in Live(s.healers) && c in Live(s.clouds) && IsWorker(hash, ring, id, c) && c !in failing)
  {
  }

  function With(s: System, id: string, healing: Nodes.Node): System
    requires id in s.nodes
  {
    s.(nodes := s.nodes[id := s.nodes[id].(healing := healing)])
  }

  function Without(s: System, id: string): System {
    s.(nodes := s.nodes - {id})
  }

  ghost function Apply(hash: Hash, s: System, step: Step): System
    requires Enabled(hash, s, step)
  {
    match step
    case StoreCloud(c, data) => s.(clouds := s.clouds + [Put(c, data)])
    case DeleteCloud(c) => s.(clouds := s.clouds + [Delete(c)])
    case StoreHealer(c, healer) => s.(healers := s.healers + [Put(c, healer)])
    case DeleteHealer(c) => s.(healers := s.healers + [Delete(c)])
    case HearCloud(id, works) => Heard(s, id, works)
    case HearHealer(id, backend) =>
      With(s, id, Nodes.Consuming(hash, s.healers, id, s.nodes[id].healing, backend))
    case Turn(id, ring) => With(s, id, s.nodes[id].healing.(ring := ring, turned := true))
    case Reload(id, rev, failing, puts) =>
      With(s, id, Nodes.Reloading(hash, s.healers, id, s.nodes[id].healing, rev, failing)).(healers := s.healers + puts)
    case Join(id, ring, failing, unstarted) =>
      s.(nodes := s.nodes[id := Loaded(hash, s, id, ring, failing, unstarted)])
    case Leave(id, _, unput, puts) =>
      Without(s, id).(healers := s.healers + puts, resolvers := s.resolvers + (s.nodes[id].resolving - unput))
    case Crash(id) => Without(s, id)
  }

  ghost predicate StepAt(hash: Hash, trace: seq<System>, steps: seq<Step>, i: nat)
    requires |trace| == |steps| + 1 && i < |steps|
  {
    Enabled(hash, trace[i], steps[i]) && trace[i + 1] == Apply(hash, trace[i], steps[i])
  }

  ghost predicate Run(hash: Hash, trace: seq<System>, steps: seq<Step>) {
    |trace| == |steps| + 1 && trace[0] == INIT && forall i: nat | i < |steps| :: StepAt(hash, trace, steps, i)
  }

  // ----- what every step keeps -----

  /** A node resolves names only for clouds it has heard of. */
  ghost predicate CloudsOk(s: System, id: string)
    requires id in s.nodes
  {
    var n := s.nodes[id];
    n.clouds <= |s.clouds| && n.resolving <= Contents(s.clouds, n.clouds).Keys
  }

  /** Its healers are as Nodes has it. */
  ghost predicate RunningOk(hash: Hash, s: System, id: string)
    requires id in s.nodes
  {
    var n := s.nodes[id].healing;
    && n.at <= |s.healers| && n.snap <= |s.healers|
    && forall c :: Nodes.KeyInv(hash, s.healers, id, n, c)
  }

  ghost predicate Inv(hash: Hash, s: System) {
    forall id | id in s.nodes :: CloudsOk(s, id) && RunningOk(hash, s, id)
  }

  lemma LogGrows<V>(log: seq<Event<V>>, e: Event<V>, n: nat)
    requires n <= |log|
    ensures Contents(log + [e], n) == Contents(log, n)
    ensures Live(log + [e]) == if e.Put? then Live(log) + {e.key} else Live(log) - {e.key}
  {
    ContentsOfPrefix(log, [e], n);
    ContentsOfPrefix(log, [e], |log|);
  }

  /** What is put is there afterwards, and nothing else has changed. */
  lemma {:induction false} LiveAfterPuts(log: seq<Event<Worker>>, puts: seq<Event<Worker>>)
    requires forall i | 0 <= i < |puts| :: puts[i].Put?
    ensures Live(log + puts) == Live(log) + set i | 0 <= i < |puts| :: puts[i].key
  {
    if puts == [] {
      assert log + puts == log;
    } else {
      var n := |puts| - 1;
      LiveAfterPuts(log, puts[..n]);
      assert log + puts == (log + puts[..n]) + [puts[n]];
      LogGrows(log + puts[..n], puts[n], 0);
      assert (set i | 0 <= i < |puts| :: puts[i].key) == (set i | 0 <= i < n :: puts[..n][i].key) + {puts[n].key};
    }
  }

  lemma LiveAfterWrites(log: seq<Event<Worker>>, puts: seq<Event<Worker>>, items: map<string, Worker>,
                        keys: set<string>)
    requires Writes(puts, items, keys)
    ensures Live(log + puts) == Live(log) + keys
  {
    LiveAfterPuts(log, puts);
    forall c | c in keys ensures c in set i | 0 <= i < |puts| :: puts[i].key {
      var i :| 0 <= i < |puts| && puts[i].key == c;
    }
  }

  lemma CloudLogGrows(hash: Hash, s: System, e: Event<string>)
    requires Inv(hash, s)
    ensures Inv(hash, s.(clouds := s.clouds + [e]))
  {
    var t := s.(clouds := s.clouds + [e]);
    forall id | id in t.nodes ensures CloudsOk(t, id) && RunningOk(hash, t, id) {
      assert CloudsOk(s, id) && RunningOk(hash, s, id);
      LogGrows(s.clouds, e, s.nodes[id].clouds);
    }
  }

  lemma HealerLogGrows(hash: Hash, s: System, more: seq<Event<Worker>>)
    requires Inv(hash, s)
    ensures Inv(hash, s.(healers := s.healers + more))
  {
    var t := s.(healers := s.healers + more);
    forall id | id in t.nodes ensures CloudsOk(t, id) && RunningOk(hash, t, id) {
      assert CloudsOk(s, id) && RunningOk(hash, s, id);
      forall c ensures Nodes.KeyInv(hash, t.healers, id, t.nodes[id].healing, c) {
        Nodes.LogGrows(hash, s.healers, more, id, s.nodes[id].healing, c);
      }
    }
  }

  lemma HearingKeepsInv(hash: Hash, s: System, id: string, works: Works)
    requires Inv(hash, s) && Enabled(hash, s, HearCloud(id, works))
    ensures Inv(hash, Heard(s, id, works))
  {
    var t := Heard(s, id, works);
    var more := t.healers[|s.healers|..];
    assert t.healers == s.healers + more;
    var mid := s.(healers := t.healers);
    HealerLogGrows(hash, s, more);
    forall m | m in t.nodes ensures CloudsOk(t, m) && RunningOk(hash, t, m) {
      assert CloudsOk(mid, m) && RunningOk(hash, mid, m);
    }
  }

  /** A node's own healers change, and the log stays as it is. */
  lemma NodeChangeKeepsInv(hash: Hash, s: System, id: string, n: Nodes.Node)
    requires Inv(hash, s) && id in s.nodes && n.at <= |s.healers| && n.snap <= |s.healers|
    requires forall c :: Nodes.KeyInv(hash, s.healers, id, n, c)
    ensures Inv(hash, With(s, id, n))
  {
    var t := With(s, id, n);
    forall m | m in t.nodes ensures CloudsOk(t, m) && RunningOk(hash, t, m) {
      assert CloudsOk(s, m) && RunningOk(hash, s, m);
    }
  }

  lemma HealerStepKeepsInv(hash: Hash, s: System, step: Step)
    requires Inv(hash, s) && Enabled(hash, s, step) && (step.HearHealer? || step.Turn?)
    ensures Inv(hash, Apply(hash, s, step))
  {
    var id, n := step.id, s.nodes[step.id].healing;
    assert RunningOk(hash, s, id);
    var m := Apply(hash, s, step).nodes[id].healing;
    forall c ensures Nodes.KeyInv(hash, s.healers, id, m, c) {
      assert Nodes.KeyInv(hash, s.healers, id, n, c);
      if step.Turn? {
        Nodes.TurnKeepsKey(hash, s.healers, id, n, step.ring, n.heard, c);
      } else if s.healers[n.at].key == c {
        Nodes.ConsumeKeepsItsKey(hash, s.healers, id, n, step.backend);
      } else {
        Nodes.ConsumeKeepsOtherKey(hash, s.healers, id, n, step.backend, c);
      }
    }
    NodeChangeKeepsInv(hash, s, id, m);
  }

  lemma ReloadKeepsInv(hash: Hash, s: System, step: Step)
    requires Inv(hash, s) && Enabled(hash, s, step) && step.Reload?
    ensures Inv(hash, Apply(hash, s, step))
  {
    var id, n := step.id, s.nodes[step.id].healing;
    assert RunningOk(hash, s, id);
    var m := Nodes.Reloading(hash, s.healers, id, n, step.rev, step.failing);
    forall c ensures Nodes.KeyInv(hash, s.healers, id, m, c) {
      Nodes.ReloadKeepsKey(hash, s.healers, id, n, step.rev, step.failing, c);
    }
    NodeChangeKeepsInv(hash, s, id, m);
    HealerLogGrows(hash, With(s, id, m), step.puts);
  }

  lemma JoinKeepsInv(hash: Hash, s: System, step: Step)
    requires Inv(hash, s) && Enabled(hash, s, step) && step.Join?
    ensures Inv(hash, Apply(hash, s, step))
  {
    var t := Apply(hash, s, step);
    forall m | m in t.nodes ensures CloudsOk(t, m) && RunningOk(hash, t, m) {
      if m == step.id {
        var n := t.nodes[m].healing;
        forall c ensures Nodes.KeyInv(hash, s.healers, m, n, c) {
          Nodes.JoiningIsOk(hash, s.healers, step.ring, 0, m, Unloaded(s, step.failing), c);
        }
      } else {
        assert CloudsOk(s, m) && RunningOk(hash, s, m);
      }
    }
  }

  lemma LosingKeepsInv(hash: Hash, s: System, id: string)
    requires Inv(hash, s)
    ensures Inv(hash, Without(s, id))
  {
    forall m | m in Without(s, id).nodes ensures CloudsOk(Without(s, id), m) && RunningOk(hash, Without(s, id), m) {
      assert CloudsOk(s, m) && RunningOk(hash, s, m);
    }
  }

  lemma SameKeepsInv(hash: Hash, s: System, resolvers: set<string>)
    requires Inv(hash, s)
    ensures Inv(hash, s.(resolvers := resolvers))
  {
    var t := s.(resolvers := resolvers);
    forall m | m in t.nodes ensures CloudsOk(t, m) && RunningOk(hash, t, m) {
      assert CloudsOk(s, m) && RunningOk(hash, s, m);
    }
  }

  lemma LeaveKeepsInv(hash: Hash, s: System, step: Step)
    requires Inv(hash, s) && Enabled(hash, s, step) && step.Leave?
    ensures Inv(hash, Apply(hash, s, step))
  {
    var mid := Without(s, step.id);
    LosingKeepsInv(hash, s, step.id);
    HealerLogGrows(hash, mid, step.puts);
    SameKeepsInv(hash, mid.(healers := s.healers + step.puts), Apply(hash, s, step).resolvers);
  }

  lemma StepKeepsInv(hash: Hash, s: System, step: Step)
    requires Inv(hash, s) && Enabled(hash, s, step)
    ensures Inv(hash, Apply(hash, s, step))
  {
    match step
    case StoreCloud(c, data) => CloudLogGrows(hash, s, Put(c, data));
    case DeleteCloud(c) => CloudLogGrows(hash, s, Delete(c));
    case StoreHealer(c, healer) => HealerLogGrows(hash, s, [Put(c, healer)]);
    case DeleteHealer(c) => HealerLogGrows(hash, s, [Delete(c)]);
    case HearCloud(id, works) => HearingKeepsInv(hash, s, id, works);
    case HearHealer(_, _) => HealerStepKeepsInv(hash, s, step);
    case Turn(_, _) => HealerStepKeepsInv(hash, s, step);
    case Reload(_, _, _, _) => ReloadKeepsInv(hash, s, step);
    case Join(_, _, _, _) => JoinKeepsInv(hash, s, step);
    case Leave(_, _, _, _) => LeaveKeepsInv(hash, s, step);
    case Crash(id) => LosingKeepsInv(hash, s, id);
  }

  lemma {:induction false} RunKeepsInv(hash: Hash, trace: seq<System>, steps: seq<Step>, n: nat)
    requires Run(hash, trace, steps) && n < |trace|
    ensures Inv(hash, trace[n])
  {
    if n > 0 {
      RunKeepsInv(hash, trace, steps, n - 1);
      assert StepAt(hash, trace, steps, n - 1);
      StepKeepsInv(hash, trace[n - 1], steps[n - 1]);
    }
  }

  // ----- keys of healers whose cloud is gone -----

  /** Some node has yet to hear of a deletion of the cloud. */
  ghost predicate Pending(s: System, c: string) {
    exists id ::
      id in s.nodes && s.nodes[id].clouds <= |s.clouds| && Deleted(s.clouds, s.nodes[id].clouds, |s.clouds|, c)
  }

  /** The key of c's healer is there, that of c is not, and nobody will hear of a deletion any more. */
  ghost predicate HealerStranded(s: System, c: string) {
    c in Live(s.healers) && c !in Live(s.clouds) && !Pending(s, c)
  }

  /** The state in which a node has passed over its next event of a cloud. */
  function Passed(s: System, id: string): System
    requires id in s.nodes
  {
    s.(nodes := s.nodes[id := s.nodes[id].(clouds := s.nodes[id].clouds + 1)])
  }

  /** The steps that strand the key of c's healer: it is put, or not deleted, and there is nobody left to delete it
      later. */
  ghost predicate StrandsHealer(hash: Hash, s: System, step: Step, c: string)
    requires Enabled(hash, s, step)
  {
    match step
    case DeleteCloud(d) =>
      d == c && c in Live(s.healers) && s.nodes == map[]
    case HearCloud(id, works) =>
      && s.clouds[s.nodes[id].clouds] == Delete(c) && !works.healer
      && c in Live(s.healers) && c !in Live(s.clouds) && !Pending(Passed(s, id), c)
    case Reload(id, rev, failing, _) =>
      c in Handed(hash, s, id, rev, failing) && c !in Live(s.clouds) && !Pending(s, c)
    case Leave(id, failing, _, _) =>
      && (c in Live(s.healers) || c in s.nodes[id].healing.items.Keys - failing)
      && c !in Live(s.clouds) && !Pending(Without(s, id), c)
    case Crash(id) =>
      c in Live(s.healers) && c !in Live(s.clouds) && !Pending(Without(s, id), c)
    case _ => false
  }

  /** A client stores the cloud anew, or deletes the healer itself. */
  predicate RescuesHealer(step: Step, c: string) {
    (step.StoreCloud? && step.cloud == c) || (step.DeleteHealer? && step.cloud == c)
  }

  /** No node is about to hear of c. */
  lemma SamePending(s: System, t: System, c: string)
    requires s.clouds == t.clouds && s.nodes.Keys == t.nodes.Keys
    requires forall m | m in s.nodes :: t.nodes[m].clouds == s.nodes[m].clouds
    ensures Pending(s, c) <==> Pending(t, c)
  {
    if Pending(s, c) {
      var m :| m in s.nodes && s.nodes[m].clouds <= |s.clouds| && Deleted(s.clouds, s.nodes[m].clouds, |s.clouds|, c);
      assert m in t.nodes;
    }
    if Pending(t, c) {
      var m :| m in t.nodes && t.nodes[m].clouds <= |t.clouds| && Deleted(t.clouds, t.nodes[m].clouds, |t.clouds|, c);
      assert m in s.nodes;
    }
  }

  lemma StillToCome<V>(log: seq<Event<V>>, p: nat, c: string)
    requires p < |log| && log[p] != Delete(c)
    ensures Deleted(log, p, |log|, c) <==> Deleted(log, p + 1, |log|, c)
  {
  }

  lemma PassingKeepsPending(s: System, id: string, c: string)
    requires id in s.nodes && s.nodes[id].clouds < |s.clouds| && s.clouds[s.nodes[id].clouds] != Delete(c)
    ensures Pending(s, c) <==> Pending(Passed(s, id), c)
  {
    var t := Passed(s, id);
    StillToCome(s.clouds, s.nodes[id].clouds, c);
    if Pending(s, c) {
      var m :| m in s.nodes && s.nodes[m].clouds <= |s.clouds| && Deleted(s.clouds, s.nodes[m].clouds, |s.clouds|, c);
      assert m in t.nodes && Deleted(t.clouds, t.nodes[m].clouds, |t.clouds|, c);
    }
    if Pending(t, c) {
      var m :| m in t.nodes && t.nodes[m].clouds <= |t.clouds| && Deleted(t.clouds, t.nodes[m].clouds, |t.clouds|, c);
      assert m in s.nodes && Deleted(s.clouds, s.nodes[m].clouds, |s.clouds|, c);
    }
  }

  lemma NextDeletionIsPending(s: System, id: string, c: string)
    requires id in s.nodes && s.nodes[id].clouds < |s.clouds| && s.clouds[s.nodes[id].clouds] == Delete(c)
    ensures Pending(s, c)
  {
    assert Deleted(s.clouds, s.nodes[id].clouds, |s.clouds|, c);
  }

  lemma GrowthKeepsPending(s: System, e: Event<string>, c: string)
    requires forall id | id in s.nodes :: s.nodes[id].clouds <= |s.clouds|
    ensures var t := s.(clouds := s.clouds + [e]);
            Pending(t, c) <==> Pending(s, c) || (e == Delete(c) && s.nodes != map[])
  {
    var t := s.(clouds := s.clouds + [e]);
    if Pending(s, c) {
      var m :| m in s.nodes && Deleted(s.clouds, s.nodes[m].clouds, |s.clouds|, c);
      var i :| s.nodes[m].clouds <= i < |s.clouds| && s.clouds[i] == Delete(c);
      assert t.clouds[i] == Delete(c);
      assert Deleted(t.clouds, t.nodes[m].clouds, |t.clouds|, c);
    }
    if e == Delete(c) && s.nodes != map[] {
      var m :| m in s.nodes;
      assert t.clouds[|s.clouds|] == Delete(c);
      assert Deleted(t.clouds, t.nodes[m].clouds, |t.clouds|, c);
    }
    if Pending(t, c) {
      var m :| m in t.nodes && t.nodes[m].clouds <= |t.clouds| && Deleted(t.clouds, t.nodes[m].clouds, |t.clouds|, c);
      var i :| t.nodes[m].clouds <= i < |t.clouds| && t.clouds[i] == Delete(c);
      if i < |s.clouds| {
        assert s.clouds[i] == Delete(c);
        assert Deleted(s.clouds, s.nodes[m].clouds, |s.clouds|, c);
      }
    }
  }

  lemma JoinKeepsPending(s: System, id: string, n: Node, c: string)
    requires id !in s.nodes && n.clouds == |s.clouds|
    ensures Pending(s.(nodes := s.nodes[id := n]), c) <==> Pending(s, c)
  {
    var t := s.(nodes := s.nodes[id := n]);
    if Pending(s, c) {
      var m :| m in s.nodes && s.nodes[m].clouds <= |s.clouds| && Deleted(s.clouds, s.nodes[m].clouds, |s.clouds|, c);
      assert m in t.nodes && t.nodes[m] == s.nodes[m];
    }
    if Pending(t, c) {
      var m :| m in t.nodes && t.nodes[m].clouds <= |t.clouds| && Deleted(t.clouds, t.nodes[m].clouds, |t.clouds|, c);
      assert m in s.nodes && t.nodes[m] == s.nodes[m];
    }
  }

  lemma FewerArePending(s: System, id: string, c: string)
    ensures Pending(Without(s, id), c) ==> Pending(s, c)
  {
    var t := Without(s, id);
    if Pending(t, c) {
      var m :| m in t.nodes && t.nodes[m].clouds <= |t.clouds| && Deleted(t.clouds, t.nodes[m].clouds, |t.clouds|, c);
      assert m in s.nodes && t.nodes[m] == s.nodes[m];
    }
  }

  /** What the law below says of one step. */
  ghost predicate HealerLaw(hash: Hash, s: System, step: Step, c: string)
    requires Enabled(hash, s, step)
  {
    HealerStranded(Apply(hash, s, step), c) <==>
      StrandsHealer(hash, s, step, c) || (HealerStranded(s, c) && !RescuesHealer(step, c))
  }

  lemma HealerLawOfClients(hash: Hash, s: System, step: Step, c: string)
    requires Inv(hash, s) && Enabled(hash, s, step)
    requires step.StoreCloud? || step.DeleteCloud? || step.StoreHealer? || step.DeleteHealer?
    ensures HealerLaw(hash, s, step, c)
  {
    assert forall id | id in s.nodes :: CloudsOk(s, id);
    match step
    case StoreCloud(d, data) =>
      LogGrows(s.clouds, Put(d, data), 0);
      GrowthKeepsPending(s, Put(d, data), c);
    case DeleteCloud(d) =>
      LogGrows(s.clouds, Delete(d), 0);
      GrowthKeepsPending(s, Delete(d), c);
    case StoreHealer(d, healer) =>
      LogGrows(s.healers, Put(d, healer), 0);
      SamePending(s, Apply(hash, s, step), c);
    case DeleteHealer(d) =>
      LogGrows(s.healers, Delete(d), 0);
      SamePending(s, Apply(hash, s, step), c);
  }

  lemma HealerLawOfHearing(hash: Hash, s: System, id: string, works: Works, c: string)
    requires Enabled(hash, s, HearCloud(id, works))
    ensures HealerLaw(hash, s, HearCloud(id, works), c)
  {
    var e := s.clouds[s.nodes[id].clouds];
    LogGrows(s.healers, Delete(e.key), 0);
    SamePending(Passed(s, id), Heard(s, id, works), c);
    if e == Delete(c) {
      NextDeletionIsPending(s, id, c);
    } else {
      PassingKeepsPending(s, id, c);
    }
  }

  lemma HealerLawOfNodes(hash: Hash, s: System, step: Step, c: string)
    requires Enabled(hash, s, step)
    requires step.HearHealer? || step.Turn? || step.Reload? || step.Join? || step.Leave? || step.Crash?
    ensures HealerLaw(hash, s, step, c)
  {
    var t := Apply(hash, s, step);
    match step
    case Reload(id, rev, failing, puts) =>
      LiveAfterWrites(s.healers, puts, s.nodes[id].healing.items, Handed(hash, s, id, rev, failing));
      SamePending(s, t, c);
    case Join(id, _, _, _) =>
      JoinKeepsPending(s, id, t.nodes[id], c);
    case Leave(id, failing, _, puts) =>
      LiveAfterWrites(s.healers, puts, s.nodes[id].healing.items, s.nodes[id].healing.items.Keys - failing);
      FewerArePending(s, id, c);
      SamePending(Without(s, id), t, c);
    case Crash(id) =>
      FewerArePending(s, id, c);
    case HearHealer(_, _) =>
      SamePending(s, t, c);
    case Turn(_, _) =>
      SamePending(s, t, c);
  }

  /** After any step, the key of c's healer is stranded exactly if the step strands it, or if it was stranded before and
      the step does not rescue it. */
  lemma StrandsHealerExactly(hash: Hash, s: System, step: Step, c: string)
    requires Inv(hash, s) && Enabled(hash, s, step)
    ensures HealerStranded(Apply(hash, s, step), c) <==>
              StrandsHealer(hash, s, step, c) || (HealerStranded(s, c) && !RescuesHealer(step, c))
  {
    match step
    case HearCloud(id, works) => HealerLawOfHearing(hash, s, id, works, c);
    case StoreCloud(_, _) => HealerLawOfClients(hash, s, step, c);
    case DeleteCloud(_) => HealerLawOfClients(hash, s, step, c);
    case StoreHealer(_, _) => HealerLawOfClients(hash, s, step, c);
    case DeleteHealer(_) => HealerLawOfClients(hash, s, step, c);
    case _ => HealerLawOfNodes(hash, s, step, c);
  }

  /** Step m has stranded the key of c's healer, and no later one has rescued it. */
  ghost predicate LeftHealer(hash: Hash, trace: seq<System>, steps: seq<Step>, m: nat, n: nat, c: string)
    requires |trace| == |steps| + 1 && n < |trace|
  {
    && m < n && Enabled(hash, trace[m], steps[m]) && StrandsHealer(hash, trace[m], steps[m], c)
    && forall l | m < l < n :: !RescuesHealer(steps[l], c)
  }

  /** So in every run, for every cloud, it is known which step to blame. */
  lemma HealerStrandedExactly(hash: Hash, trace: seq<System>, steps: seq<Step>, n: nat, c: string)
    requires Run(hash, trace, steps) && n < |trace|
    ensures HealerStranded(trace[n], c) <==> exists m: nat :: LeftHealer(hash, trace, steps, m, n, c)
  {
    var holds := seq(|trace|, i requires 0 <= i < |trace| => HealerStranded(trace[i], c));
    var causes := seq(|steps|, i requires 0 <= i < |steps| =>
                        Enabled(hash, trace[i], steps[i]) && StrandsHealer(hash, trace[i], steps[i], c));
    var ends := seq(|steps|, i requires 0 <= i < |steps| => RescuesHealer(steps[i], c));
    forall i: nat | i < |steps| ensures holds[i + 1] <==> causes[i] || (holds[i] && !ends[i]) {
      assert StepAt(hash, trace, steps, i);
      RunKeepsInv(hash, trace, steps, i);
      StrandsHealerExactly(hash, trace[i], steps[i], c);
    }
    LatchExactly(holds, causes, ends, n);
    assert forall l | 0 <= l < |steps| :: ends[l] <==> RescuesHealer(steps[l], c);
    forall m: nat ensures Lasts(causes, ends, m, n) <==> LeftHealer(hash, trace, steps, m, n, c) {
      if LeftHealer(hash, trace, steps, m, n, c) {
        assert causes[m];
      }
    }
  }

  // ----- keys of resolvers -----

  /** The cloud is created at p or later. */
  ghost predicate Created(log: seq<Event<string>>, p: nat, c: string) {
    exists k: nat :: p <= k < |log| && log[k].key == c && IsCreate(log, k)
  }

  /** The node runs c's resolver, or is still to hear of a creation of c. */
  ghost predicate Concerned(s: System, id: string, c: string)
    requires id in s.nodes
  {
    c in s.nodes[id].resolving || Created(s.clouds, s.nodes[id].clouds, c)
  }

  ghost predicate AnyConcerned(s: System, c: string) {
    exists id :: id in s.nodes && Concerned(s, id, c)
  }

  /** The key of c's resolver is there, that of c is not, and nobody runs the resolver or is going to. */
  ghost predicate ResolverStranded(s: System, c: string) {
    c in s.resolvers && c !in Live(s.clouds) && !AnyConcerned(s, c)
  }

  /** The node is about to hear of c, and nobody will be concerned with c after that, unless it starts the resolver. */
  ghost predicate LastToHear(s: System, id: string, c: string)
    requires id in s.nodes && s.nodes[id].clouds < |s.clouds|
  {
    && s.clouds[s.nodes[id].clouds].key == c && !AnyConcerned(Without(s, id), c)
    && !Created(s.clouds, s.nodes[id].clouds + 1, c)
  }

  ghost predicate StrandsResolver(hash: Hash, s: System, step: Step, c: string)
    requires Enabled(hash, s, step)
  {
    match step
    case DeleteCloud(d) =>
      d == c && c in s.resolvers && !AnyConcerned(s, c)
    case HearCloud(id, works) =>
      && LastToHear(s, id, c) && c !in Live(s.clouds)
      && (if IsCreate(s.clouds, s.nodes[id].clouds) then (works.put || c in s.resolvers) && !works.backend
          else
            && s.clouds[s.nodes[id].clouds].Delete? && c in s.nodes[id].resolving
            && c in s.resolvers && !works.resolver)
    case Leave(id, _, unput, _) =>
      && (c in s.resolvers || c in s.nodes[id].resolving - unput)
      && c !in Live(s.clouds) && !AnyConcerned(Without(s, id), c)
    case Crash(id) =>
      c in s.resolvers && c !in Live(s.clouds) && !AnyConcerned(Without(s, id), c)
    case _ => false
  }

  predicate RescuesResolver(step: Step, c: string) {
    step.StoreCloud? && step.cloud == c
  }

  lemma CreatedAfterGrowth(log: seq<Event<string>>, e: Event<string>, p: nat, c: string)
    requires p <= |log|
    ensures Created(log + [e], p, c) <==> Created(log, p, c) || (e.Put? && e.key == c && c !in Live(log))
  {
    var more := log + [e];
    forall k: nat | k <= |log| ensures Contents(more, k) == Contents(log, k) {
      ContentsOfPrefix(log, [e], k);
    }
    if k: nat :| p <= k < |more| && more[k].key == c && IsCreate(more, k) {
      assert k < |log| ==> log[k].key == c && IsCreate(log, k);
    }
    if k: nat :| p <= k < |log| && log[k].key == c && IsCreate(log, k) {
      assert more[k].key == c && IsCreate(more, k);
    }
    if e.Put? && e.key == c && c !in Live(log) {
      assert more[|log|].key == c && IsCreate(more, |log|);
    }
  }

  lemma CreatedAfterOne(log: seq<Event<string>>, p: nat, c: string)
    requires p < |log|
    ensures Created(log, p, c) <==> (log[p].key == c && IsCreate(log, p)) || Created(log, p + 1, c)
  {
  }

  lemma GrowthKeepsConcern(s: System, e: Event<string>, c: string)
    requires forall id | id in s.nodes :: s.nodes[id].clouds <= |s.clouds|
    requires e.key != c || e.Delete?
    ensures AnyConcerned(s.(clouds := s.clouds + [e]), c) <==> AnyConcerned(s, c)
  {
    var t := s.(clouds := s.clouds + [e]);
    forall id | id in s.nodes ensures Concerned(s, id, c) <==> Concerned(t, id, c) {
      CreatedAfterGrowth(s.clouds, e, s.nodes[id].clouds, c);
    }
  }

  lemma SameConcern(s: System, t: System, c: string)
    requires s.clouds == t.clouds && s.nodes.Keys == t.nodes.Keys
    requires forall m | m in s.nodes ::
               t.nodes[m].clouds == s.nodes[m].clouds && t.nodes[m].resolving == s.nodes[m].resolving
    ensures AnyConcerned(s, c) <==> AnyConcerned(t, c)
  {
    forall id | id in s.nodes ensures Concerned(s, id, c) <==> Concerned(t, id, c) {
    }
  }

  lemma OneOrAnother(s: System, id: string, c: string)
    requires id in s.nodes
    ensures AnyConcerned(s, c) <==> Concerned(s, id, c) || AnyConcerned(Without(s, id), c)
  {
    var t := Without(s, id);
    forall m | m in t.nodes ensures Concerned(s, m, c) <==> Concerned(t, m, c) {
    }
  }

  /** The node of a run that hears of c is concerned with c only if it is about to hear of another creation, or runs c.
      */
  lemma ConcernAfterHearing(hash: Hash, s: System, id: string, works: Works, c: string)
    requires Inv(hash, s) && Enabled(hash, s, HearCloud(id, works))
    ensures var t, p := Heard(s, id, works), s.nodes[id].clouds;
            && AnyConcerned(Without(t, id), c) == AnyConcerned(Without(s, id), c)
            && (Concerned(s, id, c) <==>
                  || c in s.nodes[id].resolving
                  || (s.clouds[p].key == c && IsCreate(s.clouds, p))
                  || Created(s.clouds, p + 1, c))
            && (Concerned(t, id, c) <==> c in t.nodes[id].resolving || Created(s.clouds, p + 1, c))
            && (IsCreate(s.clouds, p) && s.clouds[p].key == c ==> c !in s.nodes[id].resolving)
  {
    assert CloudsOk(s, id);
    CreatedAfterOne(s.clouds, s.nodes[id].clouds, c);
    var t := Heard(s, id, works);
    SameConcern(Without(s, id), Without(t, id), c);
  }

  ghost predicate ResolverLaw(hash: Hash, s: System, step: Step, c: string)
    requires Enabled(hash, s, step)
  {
    ResolverStranded(Apply(hash, s, step), c) <==>
      StrandsResolver(hash, s, step, c) || (ResolverStranded(s, c) && !RescuesResolver(step, c))
  }

  lemma ResolverLawOfClients(hash: Hash, s: System, step: Step, c: string)
    requires Inv(hash, s) && Enabled(hash, s, step)
    requires step.StoreCloud? || step.DeleteCloud? || step.StoreHealer? || step.DeleteHealer?
    ensures ResolverLaw(hash, s, step, c)
  {
    assert forall id | id in s.nodes :: CloudsOk(s, id);
    match step
    case StoreCloud(d, data) =>
      LogGrows(s.clouds, Put(d, data), 0);
      if d != c {
        GrowthKeepsConcern(s, Put(d, data), c);
      }
    case DeleteCloud(d) =>
      LogGrows(s.clouds, Delete(d), 0);
      GrowthKeepsConcern(s, Delete(d), c);
    case StoreHealer(_, _) =>
      SameConcern(s, Apply(hash, s, step), c);
    case DeleteHealer(_) =>
      SameConcern(s, Apply(hash, s, step), c);
  }

  lemma ResolverLawOfHearing(hash: Hash, s: System, id: string, works: Works, c: string)
    requires Inv(hash, s) && Enabled(hash, s, HearCloud(id, works))
    ensures ResolverLaw(hash, s, HearCloud(id, works), c)
  {
    var t := Heard(s, id, works);
    ConcernAfterHearing(hash, s, id, works, c);
    OneOrAnother(s, id, c);
    OneOrAnother(t, id, c);
  }

  lemma JoinKeepsConcern(s: System, id: string, n: Node, c: string)
    requires id !in s.nodes && n.clouds == |s.clouds| && c !in n.resolving
    ensures AnyConcerned(s.(nodes := s.nodes[id := n]), c) <==> AnyConcerned(s, c)
  {
    var t := s.(nodes := s.nodes[id := n]);
    OneOrAnother(t, id, c);
    SameConcern(s, Without(t, id), c);
  }

  lemma ResolverLawOfNodes(hash: Hash, s: System, step: Step, c: string)
    requires Enabled(hash, s, step)
    requires step.HearHealer? || step.Turn? || step.Reload? || step.Join? || step.Leave? || step.Crash?
    ensures ResolverLaw(hash, s, step, c)
  {
    var t := Apply(hash, s, step);
    match step
    case Join(id, _, _, _) =>
      if c !in Live(s.clouds) {
        JoinKeepsConcern(s, id, t.nodes[id], c);
      }
    case Leave(id, _, _, _) =>
      OneOrAnother(s, id, c);
      SameConcern(Without(s, id), t, c);
    case Crash(id) =>
      OneOrAnother(s, id, c);
    case HearHealer(_, _) =>
      SameConcern(s, t, c);
    case Turn(_, _) =>
      SameConcern(s, t, c);
    case Reload(_, _, _, _) =>
      SameConcern(s, t, c);
  }

  /** The same law holds of the key of c's resolver. */
  lemma StrandsResolverExactly(hash: Hash, s: System, step: Step, c: string)
    requires Inv(hash, s) && Enabled(hash, s, step)
    ensures ResolverStranded(Apply(hash, s, step), c) <==>
              StrandsResolver(hash, s, step, c) || (ResolverStranded(s, c) && !RescuesResolver(step, c))
  {
    match step
    case HearCloud(id, works) => ResolverLawOfHearing(hash, s, id, works, c);
    case StoreCloud(_, _) => ResolverLawOfClients(hash, s, step, c);
    case DeleteCloud(_) => ResolverLawOfClients(hash, s, step, c);
    case StoreHealer(_, _) => ResolverLawOfClients(hash, s, step, c);
    case DeleteHealer(_) => ResolverLawOfClients(hash, s, step, c);
    case _ => ResolverLawOfNodes(hash, s, step, c);
  }

  ghost predicate LeftResolver(hash: Hash, trace: seq<System>, steps: seq<Step>, m: nat, n: nat, c: string)
    requires |trace| == |steps| + 1 && n < |trace|
  {
    && m < n && Enabled(hash, trace[m], steps[m]) && StrandsResolver(hash, trace[m], steps[m], c)
    && forall l | m < l < n :: !RescuesResolver(steps[l], c)
  }

  lemma ResolverStrandedExactly(hash: Hash, trace: seq<System>, steps: seq<Step>, n: nat, c: string)
    requires Run(hash, trace, steps) && n < |trace|
    ensures ResolverStranded(trace[n], c) <==> exists m: nat :: LeftResolver(hash, trace, steps, m, n, c)
  {
    var holds := seq(|trace|, i requires 0 <= i < |trace| => ResolverStranded(trace[i], c));
    var causes := seq(|steps|, i requires 0 <= i < |steps| =>
                        Enabled(hash, trace[i], steps[i]) && StrandsResolver(hash, trace[i], steps[i], c));
    var ends := seq(|steps|, i requires 0 <= i < |steps| => RescuesResolver(steps[i], c));
    forall i: nat | i < |steps| ensures holds[i + 1] <==> causes[i] || (holds[i] && !ends[i]) {
      assert StepAt(hash, trace, steps, i);
      RunKeepsInv(hash, trace, steps, i);
      StrandsResolverExactly(hash, trace[i], steps[i], c);
    }
    LatchExactly(holds, causes, ends, n);
    assert forall l | 0 <= l < |steps| :: ends[l] <==> RescuesResolver(steps[l], c);
    forall m: nat ensures Lasts(causes, ends, m, n) <==> LeftResolver(hash, trace, steps, m, n, c) {
      if LeftResolver(hash, trace, steps, m, n, c) {
        assert causes[m];
      }
    }
  }

  // ----- resolvers that do not run, and keys that are not there -----

  /** The node knows of the cloud, but does not resolve names for it. */
  ghost predicate Idle(s: System, id: string, c: string) {
    && id in s.nodes && s.nodes[id].clouds <= |s.clouds|
    && c in Contents(s.clouds, s.nodes[id].clouds) && c !in s.nodes[id].resolving
  }

  /** The node hears of the cloud's creation but cannot have its backend; or it loads, and the resolver's key is not
      there, or its backend cannot be had. */
  ghost predicate LeavesIdle(hash: Hash, s: System, step: Step, id: string, c: string)
    requires Enabled(hash, s, step)
  {
    match step
    case HearCloud(id', works) =>
      && id' == id && !works.backend
      && s.clouds[s.nodes[id].clouds].key == c && IsCreate(s.clouds, s.nodes[id].clouds)
    case Join(id', _, _, unstarted) =>
      id' == id && c in Live(s.clouds) && (c !in s.resolvers || c in unstarted)
    case _ => false
  }

  ghost predicate EndsIdle(hash: Hash, s: System, step: Step, id: string, c: string)
    requires Enabled(hash, s, step)
  {
    match step
    case HearCloud(id', _) => id' == id && s.clouds[s.nodes[id].clouds] == Delete(c)
    case Leave(id', _, _, _) => id' == id
    case Crash(id') => id' == id
    case _ => false
  }

  lemma LeavesIdleExactly(hash: Hash, s: System, step: Step, id: string, c: string)
    requires Inv(hash, s) && Enabled(hash, s, step)
    ensures Idle(Apply(hash, s, step), id, c) <==>
              LeavesIdle(hash, s, step, id, c) || (Idle(s, id, c) && !EndsIdle(hash, s, step, id, c))
  {
    if id in s.nodes {
      assert CloudsOk(s, id);
      match step
      case StoreCloud(d, data) => LogGrows(s.clouds, Put(d, data), s.nodes[id].clouds);
      case DeleteCloud(d) => LogGrows(s.clouds, Delete(d), s.nodes[id].clouds);
      case _ =>
    }
  }

  /** In step m the node has failed to start c's resolver, and since then it has not heard of a deletion of c. */
  ghost predicate LeftIdle(hash: Hash, trace: seq<System>, steps: seq<Step>, m: nat, n: nat, id: string, c: string)
    requires |trace| == |steps| + 1 && n < |trace|
  {
    && m < n && Enabled(hash, trace[m], steps[m]) && LeavesIdle(hash, trace[m], steps[m], id, c)
    && forall l: nat | m < l < n :: Enabled(hash, trace[l], steps[l]) && !EndsIdle(hash, trace[l], steps[l], id, c)
  }

  lemma IdleExactly(hash: Hash, trace: seq<System>, steps: seq<Step>, n: nat, id: string, c: string)
    requires Run(hash, trace, steps) && n < |trace|
    ensures Idle(trace[n], id, c) <==> exists m: nat :: LeftIdle(hash, trace, steps, m, n, id, c)
  {
    var holds := seq(|trace|, i requires 0 <= i < |trace| => Idle(trace[i], id, c));
    var causes := seq(|steps|, i requires 0 <= i < |steps| =>
                        Enabled(hash, trace[i], steps[i]) && LeavesIdle(hash, trace[i], steps[i], id, c));
    var ends := seq(|steps|, i requires 0 <= i < |steps| =>
                      !Enabled(hash, trace[i], steps[i]) || EndsIdle(hash, trace[i], steps[i], id, c));
    forall i: nat | i < |steps| ensures holds[i + 1] <==> causes[i] || (holds[i] && !ends[i]) {
      assert StepAt(hash, trace, steps, i);
      RunKeepsInv(hash, trace, steps, i);
      LeavesIdleExactly(hash, trace[i], steps[i], id, c);
    }
    LatchExactly(holds, causes, ends, n);
    forall m: nat ensures Lasts(causes, ends, m, n) <==> LeftIdle(hash, trace, steps, m, n, id, c) {
      if LeftIdle(hash, trace, steps, m, n, id, c) {
        assert causes[m] && forall l: nat | m < l < n :: !ends[l];
      }
      if Lasts(causes, ends, m, n) {
        forall l: nat | m < l < n
          ensures Enabled(hash, trace[l], steps[l]) && !EndsIdle(hash, trace[l], steps[l], id, c)
        {
          assert !ends[l];
        }
      }
    }
  }

  ghost predicate AnyToHear(s: System, c: string) {
    exists id :: id in s.nodes && Created(s.clouds, s.nodes[id].clouds, c)
  }

  /** The cloud is there, but the key of its resolver is not, and nobody is going to hear of its creation. */
  ghost predicate Keyless(s: System, c: string) {
    c !in s.resolvers && c in Live(s.clouds) && !AnyToHear(s, c)
  }

  /** There is nobody to hear of the cloud's creation; or the last one to hear of it fails to put the key, or goes. */
  ghost predicate LosesKey(hash: Hash, s: System, step: Step, c: string)
    requires Enabled(hash, s, step)
  {
    c !in s.resolvers &&
    match step
    case StoreCloud(d, _) => d == c && c !in Live(s.clouds) && s.nodes == map[]
    case HearCloud(id, works) =>
      var p := s.nodes[id].clouds;
      && s.clouds[p].key == c && IsCreate(s.clouds, p) && !works.put
      && c in Live(s.clouds) && !AnyToHear(Without(s, id), c) && !Created(s.clouds, p + 1, c)
    case Leave(id, _, unput, _) =>
      c !in s.nodes[id].resolving - unput && c in Live(s.clouds) && !AnyToHear(Without(s, id), c)
    case Crash(id) => c in Live(s.clouds) && !AnyToHear(Without(s, id), c)
    case _ => false
  }

  /** The cloud is deleted, or a node that leaves puts the key back. */
  ghost predicate EndsKeyless(hash: Hash, s: System, step: Step, c: string)
    requires Enabled(hash, s, step)
  {
    match step
    case DeleteCloud(d) => d == c
    case Leave(id, _, unput, _) => c in s.nodes[id].resolving - unput
    case _ => false
  }

  /** What was not there, and is in the end, is created on the way. */
  lemma {:induction false} ThereMeansCreated(log: seq<Event<string>>, p: nat, n: nat, c: string)
    requires p <= n <= |log| && c !in Contents(log, p) && c in Contents(log, n)
    ensures Created(log, p, c)
  {
    if !(log[n - 1].key == c && IsCreate(log, n - 1)) {
      ThereMeansCreated(log, p, n - 1, c);
    }
  }

  lemma GrowthKeepsToHear(s: System, e: Event<string>, c: string)
    requires forall id | id in s.nodes :: s.nodes[id].clouds <= |s.clouds|
    ensures AnyToHear(s.(clouds := s.clouds + [e]), c) <==>
              AnyToHear(s, c) || (s.nodes != map[] && e.Put? && e.key == c && c !in Live(s.clouds))
  {
    var t := s.(clouds := s.clouds + [e]);
    forall id | id in s.nodes
      ensures Created(t.clouds, t.nodes[id].clouds, c) <==>
              Created(s.clouds, s.nodes[id].clouds, c) || (e.Put? && e.key == c && c !in Live(s.clouds))
    {
      CreatedAfterGrowth(s.clouds, e, s.nodes[id].clouds, c);
    }
    if s.nodes != map[] {
      var id :| id in s.nodes;
      assert id in t.nodes;
    }
  }

  lemma SameToHear(s: System, t: System, c: string)
    requires s.clouds == t.clouds && s.nodes.Keys == t.nodes.Keys
    requires forall m | m in s.nodes :: t.nodes[m].clouds == s.nodes[m].clouds
    ensures AnyToHear(s, c) <==> AnyToHear(t, c)
  {
    assert forall m | m in s.nodes ::
             Created(s.clouds, s.nodes[m].clouds, c) == Created(t.clouds, t.nodes[m].clouds, c);
  }

  lemma OneOrAnotherHears(s: System, id: string, c: string)
    requires id in s.nodes
    ensures AnyToHear(s, c) <==> Created(s.clouds, s.nodes[id].clouds, c) || AnyToHear(Without(s, id), c)
  {
    var t := Without(s, id);
    assert forall m | m in t.nodes ::
             Created(s.clouds, s.nodes[m].clouds, c) == Created(t.clouds, t.nodes[m].clouds, c);
  }

  ghost predicate KeyLaw(hash: Hash, s: System, step: Step, c: string)
    requires Enabled(hash, s, step)
  {
    Keyless(Apply(hash, s, step), c) <==>
      LosesKey(hash, s, step, c) || (Keyless(s, c) && !EndsKeyless(hash, s, step, c))
  }

  lemma ToHearAfterHearing(hash: Hash, s: System, id: string, works: Works, c: string)
    requires Inv(hash, s) && Enabled(hash, s, HearCloud(id, works))
    ensures var p, others := s.nodes[id].clouds, AnyToHear(Without(s, id), c);
            && (AnyToHear(s, c) <==>
                  (s.clouds[p].key == c && IsCreate(s.clouds, p)) || Created(s.clouds, p + 1, c) || others)
            && (AnyToHear(Heard(s, id, works), c) <==> Created(s.clouds, p + 1, c) || others)
  {
    var t, p := Heard(s, id, works), s.nodes[id].clouds;
    OneOrAnotherHears(s, id, c);
    OneOrAnotherHears(t, id, c);
    SameToHear(Without(s, id), Without(t, id), c);
    CreatedAfterOne(s.clouds, p, c);
  }

  lemma DeletedThenThere(log: seq<Event<string>>, p: nat, c: string)
    requires p < |log| && log[p] == Delete(c) && c in Live(log)
    ensures Created(log, p + 1, c)
  {
    ThereMeansCreated(log, p + 1, |log|, c);
  }

  lemma KeyLawOfHearing(hash: Hash, s: System, id: string, works: Works, c: string)
    requires Inv(hash, s) && Enabled(hash, s, HearCloud(id, works))
    ensures KeyLaw(hash, s, HearCloud(id, works), c)
  {
    assert CloudsOk(s, id);
    ToHearAfterHearing(hash, s, id, works, c);
    var p := s.nodes[id].clouds;
    if s.clouds[p] == Delete(c) && c in Live(s.clouds) {
      DeletedThenThere(s.clouds, p, c);
    }
  }

  lemma KeyLawOfClients(hash: Hash, s: System, step: Step, c: string)
    requires Inv(hash, s) && Enabled(hash, s, step)
    requires step.StoreCloud? || step.DeleteCloud? || step.StoreHealer? || step.DeleteHealer?
    ensures KeyLaw(hash, s, step, c)
  {
    assert forall id | id in s.nodes :: CloudsOk(s, id);
    match step
    case StoreCloud(d, data) =>
      LogGrows(s.clouds, Put(d, data), 0);
      GrowthKeepsToHear(s, Put(d, data), c);
      if s.nodes == map[] {
        assert !AnyToHear(s, c);
      }
    case DeleteCloud(d) =>
      LogGrows(s.clouds, Delete(d), 0);
      GrowthKeepsToHear(s, Delete(d), c);
    case StoreHealer(_, _) =>
      SameToHear(s, Apply(hash, s, step), c);
    case DeleteHealer(_) =>
      SameToHear(s, Apply(hash, s, step), c);
  }

  lemma KeyLawOfNodes(hash: Hash, s: System, step: Step, c: string)
    requires Enabled(hash, s, step)
    requires step.HearHealer? || step.Turn? || step.Reload? || step.Join? || step.Leave? || step.Crash?
    ensures KeyLaw(hash, s, step, c)
  {
    var t := Apply(hash, s, step);
    match step
    case Join(id, _, _, _) =>
      OneOrAnotherHears(t, id, c);
      SameToHear(s, Without(t, id), c);
    case Leave(id, _, _, _) =>
      OneOrAnotherHears(s, id, c);
      SameToHear(Without(s, id), t, c);
    case Crash(id) =>
      OneOrAnotherHears(s, id, c);
    case HearHealer(_, _) =>
      SameToHear(s, t, c);
    case Turn(_, _) =>
      SameToHear(s, t, c);
    case Reload(_, _, _, _) =>
      SameToHear(s, t, c);
  }

  lemma LosesKeyExactly(hash: Hash, s: System, step: Step, c: string)
    requires Inv(hash, s) && Enabled(hash, s, step)
    ensures Keyless(Apply(hash, s, step), c) <==>
              LosesKey(hash, s, step, c) || (Keyless(s, c) && !EndsKeyless(hash, s, step, c))
  {
    match step
    case HearCloud(id, works) => KeyLawOfHearing(hash, s, id, works, c);
    case StoreCloud(_, _) => KeyLawOfClients(hash, s, step, c);
    case DeleteCloud(_) => KeyLawOfClients(hash, s, step, c);
    case StoreHealer(_, _) => KeyLawOfClients(hash, s, step, c);
    case DeleteHealer(_) => KeyLawOfClients(hash, s, step, c);
    case _ => KeyLawOfNodes(hash, s, step, c);
  }

  ghost predicate LeftKeyless(hash: Hash, trace: seq<System>, steps: seq<Step>, m: nat, n: nat, c: string)
    requires |trace| == |steps| + 1 && n < |trace|
  {
    && m < n && Enabled(hash, trace[m], steps[m]) && LosesKey(hash, trace[m], steps[m], c)
    && forall l: nat | m < l < n :: Enabled(hash, trace[l], steps[l]) && !EndsKeyless(hash, trace[l], steps[l], c)
  }

  lemma KeylessExactly(hash: Hash, trace: seq<System>, steps: seq<Step>, n: nat, c: string)
    requires Run(hash, trace, steps) && n < |trace|
    ensures Keyless(trace[n], c) <==> exists m: nat :: LeftKeyless(hash, trace, steps, m, n, c)
  {
    var holds := seq(|trace|, i requires 0 <= i < |trace| => Keyless(trace[i], c));
    var causes := seq(|steps|, i requires 0 <= i < |steps| =>
                        Enabled(hash, trace[i], steps[i]) && LosesKey(hash, trace[i], steps[i], c));
    var ends := seq(|steps|, i requires 0 <= i < |steps| =>
                      !Enabled(hash, trace[i], steps[i]) || EndsKeyless(hash, trace[i], steps[i], c));
    forall i: nat | i < |steps| ensures holds[i + 1] <==> causes[i] || (holds[i] && !ends[i]) {
      assert StepAt(hash, trace, steps, i);
      RunKeepsInv(hash, trace, steps, i);
      LosesKeyExactly(hash, trace[i], steps[i], c);
    }
    LatchExactly(holds, causes, ends, n);
    forall m: nat ensures Lasts(causes, ends, m, n) <==> LeftKeyless(hash, trace, steps, m, n, c) {
      if LeftKeyless(hash, trace, steps, m, n, c) {
        assert causes[m] && forall l: nat | m < l < n :: !ends[l];
      }
      if Lasts(causes, ends, m, n) {
        forall l: nat | m < l < n
          ensures Enabled(hash, trace[l], steps[l]) && !EndsKeyless(hash, trace[l], steps[l], c)
        {
          assert !ends[l];
        }
      }
    }
  }

  // ----- the history of each node's healers -----

  function Seen(trace: seq<System>, id: string): seq<Nodes.View> {
    seq(|trace|, i requires 0 <= i < |trace| => SeenOf(trace[i], id))
  }

  function SeenOf(s: System, id: string): Nodes.View {
    Nodes.View(s.healers, if id in s.nodes then Some(s.nodes[id].healing) else None)
  }

  /** What a step is to the healers of the given node. */
  function DeedOf(s: System, step: Step, id: string): Nodes.Deed {
    match step
    case Join(id', ring, failing, _) =>
      if id' == id then Nodes.Loaded(ring, 0, Unloaded(s, failing)) else Otherwise(s, id)
    case HearHealer(id', backend) => if id' == id then Nodes.Consumed(backend) else Otherwise(s, id)
    case Reload(id', rev, failing, _) => if id' == id then Nodes.Reloaded(rev, failing) else Otherwise(s, id)
    case Leave(id', _, _, _) => if id' == id then Nodes.Absent else Otherwise(s, id)
    case Crash(id') => if id' == id then Nodes.Absent else Otherwise(s, id)
    case _ => Otherwise(s, id)
  }

  function Otherwise(s: System, id: string): Nodes.Deed {
    if id in s.nodes then Nodes.Rested else Nodes.Absent
  }

  function Done(trace: seq<System>, steps: seq<Step>, id: string): seq<Nodes.Deed>
    requires |trace| == |steps| + 1
  {
    seq(|steps|, i requires 0 <= i < |steps| => DeedOf(trace[i], steps[i], id))
  }

  lemma StepIsDeed(hash: Hash, s: System, step: Step, id: string)
    requires Enabled(hash, s, step)
    ensures Nodes.Does(hash, id, SeenOf(s, id), DeedOf(s, step, id), SeenOf(Apply(hash, s, step), id))
  {
    var t := Apply(hash, s, step);
    assert s.healers <= t.healers;
    if step.Reload? && step.id == id {
      forall c | c in Handed(hash, s, id, step.rev, step.failing)
        ensures Written(t.healers, |s.healers|, |t.healers|, c)
      {
        var x :| 0 <= x < |step.puts| && step.puts[x].key == c;
        assert t.healers[|s.healers| + x].key == c;
      }
    }
  }

  lemma RunIsHistory(hash: Hash, trace: seq<System>, steps: seq<Step>, id: string)
    requires Run(hash, trace, steps)
    ensures Nodes.History(hash, id, Seen(trace, id), Done(trace, steps, id))
  {
    var vs, ds := Seen(trace, id), Done(trace, steps, id);
    forall i: nat | i < |vs| && vs[i].node.Some? ensures vs[i].node.value.at <= |vs[i].log| {
      RunKeepsInv(hash, trace, steps, i);
      assert RunningOk(hash, trace[i], id);
    }
    forall i: nat | i < |ds| ensures Nodes.DoesAt(hash, id, vs, ds, i) {
      assert StepAt(hash, trace, steps, i);
      StepIsDeed(hash, trace[i], steps[i], id);
    }
  }

  /** In some step the node ignored the event about c's healer that is the last one there is at state n. */
  ghost predicate HasIgnored(hash: Hash, trace: seq<System>, steps: seq<Step>, n: nat, id: string, c: string)
    requires |trace| == |steps| + 1 && n < |trace|
  {
    exists j: nat ::
      Nodes.IgnoredFor(hash, id, Seen(trace, id), Done(trace, steps, id), j, n, |trace[n].healers|, c)
  }

  /** In some step the node failed to start c's healer, or to hand it over, and since then there has been no new
      attempt, no deletion of the healer, and no event about it after which it runs. */
  ghost predicate HasFailed(hash: Hash, trace: seq<System>, steps: seq<Step>, n: nat, id: string, c: string)
    requires |trace| == |steps| + 1 && n < |trace|
  {
    exists j: nat :: Nodes.FailedFor(hash, id, Seen(trace, id), Done(trace, steps, id), j, n, c)
  }

  /** The marks a node bears tell what has happened to it. */
  lemma MarksAreExact(hash: Hash, trace: seq<System>, steps: seq<Step>, n: nat, id: string, c: string)
    requires Run(hash, trace, steps) && n < |trace| && id in trace[n].nodes
    requires trace[n].nodes[id].healing.at == |trace[n].healers|
    ensures c in trace[n].nodes[id].healing.missed <==> HasIgnored(hash, trace, steps, n, id, c)
    ensures c in trace[n].nodes[id].healing.failed <==> HasFailed(hash, trace, steps, n, id, c)
  {
    RunIsHistory(hash, trace, steps, id);
    Nodes.MissedExactly(hash, id, Seen(trace, id), Done(trace, steps, id), n, c);
    Nodes.FailedExactly(hash, id, Seen(trace, id), Done(trace, steps, id), n, c);
  }

  // ----- where it ends -----

  /** Every node has heard of everything that has happened to clouds. */
  ghost predicate CloudsHeard(s: System) {
    forall id | id in s.nodes :: s.nodes[id].clouds == |s.clouds|
  }

  /** The node has heard of everything that has happened to healers, and reloaded since its ring turned. */
  ghost predicate Settled(s: System, id: string) {
    id in s.nodes && s.nodes[id].healing.at == |s.healers| && !s.nodes[id].healing.turned
  }

  lemma HealersRunExactly(hash: Hash, s: System, id: string, c: string)
    requires Inv(hash, s) && Settled(s, id)
    ensures var n := s.nodes[id].healing;
            c in n.items <==>
              if c in n.failed then !IsWorker(hash, n.ring, id, c)
              else (c in Live(s.healers) && IsWorker(hash, n.ring, id, c)) || c in n.missed
    ensures c in s.nodes[id].healing.failed ==> c in Live(s.healers)
  {
    var n := s.nodes[id].healing;
    assert RunningOk(hash, s, id);
    assert Nodes.KeyInv(hash, s.healers, id, n, c);
    assert !Deleted(s.healers, |s.healers|, |s.healers|, c);
    if c in n.items && c !in n.missed {
      var q: nat :| Nodes.CarriesAt(s.healers, n, c, q);
    }
    if c in n.failed {
      var q: nat :| Nodes.StoredAt(s.healers, n, c, q);
    }
  }

  /** A settled node runs c's healer if it owns it, and also if it has ignored the last event about it; unless it has
      failed to start it, or to hand it over, which leaves it just where it should not be. A healer whose key is gone
      runs on just those nodes that have ignored its deletion. */
  lemma HealersRun(hash: Hash, trace: seq<System>, steps: seq<Step>, n: nat, id: string, c: string)
    requires Run(hash, trace, steps) && n < |trace| && Settled(trace[n], id)
    ensures var s := trace[n];
            var owned := IsWorker(hash, s.nodes[id].healing.ring, id, c);
            && (c in s.nodes[id].healing.items <==>
                  if HasFailed(hash, trace, steps, n, id, c) then !owned
                  else (c in Live(s.healers) && owned) || HasIgnored(hash, trace, steps, n, id, c))
            && (c !in Live(s.healers) ==>
                  (c in s.nodes[id].healing.items <==> HasIgnored(hash, trace, steps, n, id, c)))
  {
    RunKeepsInv(hash, trace, steps, n);
    HealersRunExactly(hash, trace[n], id, c);
    MarksAreExact(hash, trace, steps, n, id, c);
  }

  lemma HeardMeansSettledKeys(s: System, c: string)
    requires CloudsHeard(s) && forall id | id in s.nodes :: CloudsOk(s, id)
    ensures HealerStranded(s, c) <==> c in Live(s.healers) && c !in Live(s.clouds)
    ensures ResolverStranded(s, c) <==> c in s.resolvers && c !in Live(s.clouds)
    ensures Keyless(s, c) <==> c !in s.resolvers && c in Live(s.clouds)
    ensures forall id | id in s.nodes :: c in s.nodes[id].resolving <==> c in Live(s.clouds) && !Idle(s, id, c)
  {
    assert !Pending(s, c) && !AnyToHear(s, c);
    assert c !in Live(s.clouds) ==> !AnyConcerned(s, c);
  }

  /** Whatever clouds and healers, nodes and rings have been through: once every node has heard of all clouds, it is
      known exactly what is there of each. The keys of a cloud that is gone are there if a step has stranded them, and
      none has rescued them; a cloud that is there has its resolver's key, if it has not been lost; and a node resolves
      names for it, if it has not failed to start doing so. */
  lemma CascadeCompletes(hash: Hash, trace: seq<System>, steps: seq<Step>, n: nat, c: string)
    requires Run(hash, trace, steps) && n < |trace| && CloudsHeard(trace[n])
    ensures c !in Live(trace[n].clouds) ==>
              && (c in Live(trace[n].healers) <==> exists m: nat :: LeftHealer(hash, trace, steps, m, n, c))
              && (c in trace[n].resolvers <==> exists m: nat :: LeftResolver(hash, trace, steps, m, n, c))
              && forall id | id in trace[n].nodes :: c !in trace[n].nodes[id].resolving
    ensures c in Live(trace[n].clouds) ==>
              && (c !in trace[n].resolvers <==> exists m: nat :: LeftKeyless(hash, trace, steps, m, n, c))
              && forall id | id in trace[n].nodes ::
                   c !in trace[n].nodes[id].resolving <==> exists m: nat :: LeftIdle(hash, trace, steps, m, n, id, c)
  {
    RunKeepsInv(hash, trace, steps, n);
    HeardMeansSettledKeys(trace[n], c);
    HealerStrandedExactly(hash, trace, steps, n, c);
    ResolverStrandedExactly(hash, trace, steps, n, c);
    KeylessExactly(hash, trace, steps, n, c);
    forall id | id in trace[n].nodes
      ensures Idle(trace[n], id, c) <==> exists m: nat :: LeftIdle(hash, trace, steps, m, n, id, c)
    {
      IdleExactly(hash, trace, steps, n, id, c);
    }
  }

  /** And of a cloud that is gone no healer runs on a settled node, unless its key has been stranded, or the node has
      ignored its deletion. */
  lemma NothingRunsOn(hash: Hash, trace: seq<System>, steps: seq<Step>, n: nat, id: string, c: string)
    requires Run(hash, trace, steps) && n < |trace| && CloudsHeard(trace[n]) && Settled(trace[n], id)
    requires c !in Live(trace[n].clouds) && !HealerStranded(trace[n], c)
    ensures c in trace[n].nodes[id].healing.items <==> HasIgnored(hash, trace, steps, n, id, c)
  {
    RunKeepsInv(hash, trace, steps, n);
    HeardMeansSettledKeys(trace[n], c);
    HealersRun(hash, trace, steps, n, id, c);
  }
}
