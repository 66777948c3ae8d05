/** Any number of nodes share the workers etcd holds. Every node replays the membership events into
    its ring and the worker events into its registry, each at its own pace, and reloads from a
    snapshot of etcd whenever its ring has turned. This module is about whole runs of that protocol. */
module Placement {
  import opened Etcd
  import opened Clusters
  import opened Managers
  import opened Nodes
  import opened Options
  import Alerts

  datatype System = System(log: seq<Event<Worker>>, changes: seq<Change>, nodes: map<string, Node>)

  const INIT := System([], [], map[])

  // ----- the protocol -----

  datatype Step =
    | Store(key: string, data: Worker)                  // a client creates or replaces a worker
    | Remove(key: string)                               // a client deletes a worker
    | Join(id: string, failing: set<string>)            // a node joins and loads
    | Leave(id: string, failing: set<string>, puts: seq<Event<Worker>>)  // a node saves its workers and leaves
    | Crash(id: string)                                 // a node dies without a word
    | Expire(id: string)                                // etcd drops a member whose lease ran out
    | Consume(id: string, backend: bool)                // a node handles its next worker event
    | Turn(id: string, upTo: nat)                       // a node replays membership events into its ring
    | Reload(id: string, rev: nat, failing: set<string>, puts: seq<Event<Worker>>)
    | Evaluate(id: string, key: string, alert: Alerts.State)  // a scaler's tick moves its alert

  ghost predicate Enabled(hash: Hash, s: System, step: Step) {
    match step
    case Store(_, _) => true
    case Remove(key) => key in Contents(s.log, |s.log|)
    case Join(id, _) => id !in s.nodes && id !in Ring(s.changes, |s.changes|)
    case Leave(id, failing, puts) => id in s.nodes && Writes(puts, s.nodes[id].items, s.nodes[id].items.Keys - failing)
    case Crash(id) => id in s.nodes
    case Expire(id) => id in Ring(s.changes, |s.changes|)
    case Consume(id, _) => id in s.nodes && s.nodes[id].at < |s.log|
    case Turn(id, upTo) => id in s.nodes && s.nodes[id].heard < upTo <= |s.changes|
    case Reload(id, rev, failing, puts) =>
      // reads of etcd are linearizable: no get is older than an earlier get or a delivered event
      && id in s.nodes && s.nodes[id].at <= rev && s.nodes[id].snap <= rev <= |s.log|
      && var n := s.nodes[id];
         Writes(puts, n.items, Moved(n.items, Contents(s.log, rev), hash, n.ring, id, failing))
    case Evaluate(id, key, _) => id in s.nodes && key in s.nodes[id].items
  }

  ghost function Apply(hash: Hash, s: System, step: Step): System
    requires Enabled(hash, s, step)
  {
    match step
    case Store(key, data) => s.(log := s.log + [Put(key, data)])
    case Remove(key) => s.(log := s.log + [Delete(key)])
    case Join(id, failing) =>
      var ring := Ring(s.changes, |s.changes|) + {id};
      s.(changes := s.changes + [Joined(id)],
         nodes := s.nodes[id := Joining(hash, s.log, ring, |s.changes| + 1, id, failing)])
    case Leave(id, _, puts) =>
      System(s.log + puts, s.changes + [Left(id)], s.nodes - {id})
    case Crash(id) => s.(nodes := s.nodes - {id})
    case Expire(id) => s.(changes := s.changes + [Left(id)])
    case Consume(id, backend) =>
      s.(nodes := s.nodes[id := Consuming(hash, s.log, id, s.nodes[id], backend)])
    case Turn(id, upTo) =>
      s.(nodes := s.nodes[id := Turning(s.changes, s.nodes[id], upTo)])
    case Reload(id, rev, failing, puts) =>
      s.(log := s.log + puts, nodes := s.nodes[id := Reloading(hash, s.log, id, s.nodes[id], rev, failing)])
    case Evaluate(id, key, alert) =>
      s.(nodes := s.nodes[id := Evaluating(s.nodes[id], key, alert)])
  }

  ghost predicate Moves(hash: Hash, s: System, step: Step, t: System) {
    Enabled(hash, s, step) && t == Apply(hash, s, step)
  }

  ghost predicate Run(hash: Hash, trace: seq<System>, steps: seq<Step>) {
    && |trace| == |steps| + 1 && trace[0] == INIT
    && forall i: nat {:trigger steps[i]} | i < |steps| :: Moves(hash, trace[i], steps[i], trace[i + 1])
  }

  // ----- the invariant -----

  ghost predicate NodeInv(hash: Hash, s: System, id: string, n: Node) {
    && n.heard <= |s.changes| && n.ring == Ring(s.changes, n.heard)
    && n.at <= |s.log| && n.snap <= |s.log|
    && forall k :: KeyInv(hash, s.log, id, n, k)
  }

  ghost predicate Inv(hash: Hash, s: System) {
    forall id | id in s.nodes :: NodeInv(hash, s, id, s.nodes[id])
  }

  // ----- every step keeps it -----

  lemma RingGrows(changes: seq<Change>, more: seq<Change>, n: nat)
    requires n <= |changes|
    ensures Ring(changes + more, n) == Ring(changes, n)
  {
    if n > 0 {
      RingGrows(changes, more, n - 1);
    }
  }

  lemma NodeOutlivesGrowth(hash: Hash, s: System, t: System, id: string, n: Node)
    requires NodeInv(hash, s, id, n) && s.log <= t.log && s.changes <= t.changes
    ensures NodeInv(hash, t, id, n)
  {
    var more := t.log[|s.log|..];
    assert t.log == s.log + more;
    assert t.changes == s.changes + t.changes[|s.changes|..];
    RingGrows(s.changes, t.changes[|s.changes|..], n.heard);
    forall k ensures KeyInv(hash, t.log, id, n, k) {
      LogGrows(hash, s.log, more, id, n, k);
    }
  }

  lemma JoinEstablishes(hash: Hash, s: System, id: string, failing: set<string>)
    ensures var ring := Ring(s.changes, |s.changes|) + {id};
            NodeInv(hash, s.(changes := s.changes + [Joined(id)]), id,
                    Joining(hash, s.log, ring, |s.changes| + 1, id, failing))
  {
    var ring := Ring(s.changes, |s.changes|) + {id};
    var n := Joining(hash, s.log, ring, |s.changes| + 1, id, failing);
    RingGrows(s.changes, [Joined(id)], |s.changes|);
    forall k ensures KeyInv(hash, s.log, id, n, k) {
      JoiningIsOk(hash, s.log, ring, |s.changes| + 1, id, failing, k);
    }
  }

  /** The node a step acts on keeps its invariant. */
  lemma ActorKeepsInv(hash: Hash, s: System, step: Step, id: string)
    requires Inv(hash, s) && Enabled(hash, s, step)
    requires step.Consume? || step.Turn? || step.Reload? || step.Evaluate?
    requires id == step.id
    ensures NodeInv(hash, s, id, Apply(hash, s, step).nodes[id])
  {
    var n := s.nodes[id];
    var m := Apply(hash, s, step).nodes[id];
    forall k ensures KeyInv(hash, s.log, id, m, k) {
      assert KeyInv(hash, s.log, id, n, k);
      match step
      case Consume(_, backend) =>
        if s.log[n.at].key == k {
          ConsumeKeepsItsKey(hash, s.log, id, n, backend);
        } else {
          ConsumeKeepsOtherKey(hash, s.log, id, n, backend, k);
        }
      case Turn(_, _) =>
        TurnKeepsKey(hash, s.log, id, n, m.ring, m.heard, k);
      case Reload(_, rev, failing, _) =>
        ReloadKeepsKey(hash, s.log, id, n, rev, failing, k);
      case Evaluate(_, key, alert) =>
        EvaluateKeepsKey(hash, s.log, id, n, key, alert, k);
    }
  }

  lemma StepKeepsInv(hash: Hash, s: System, step: Step)
    requires Inv(hash, s) && Enabled(hash, s, step)
    ensures Inv(hash, Apply(hash, s, step))
  {
    var t := Apply(hash, s, step);
    forall id | id in t.nodes ensures NodeInv(hash, t, id, t.nodes[id]) {
      if (step.Consume? || step.Turn? || step.Reload? || step.Evaluate?) && id == step.id {
        ActorKeepsInv(hash, s, step, id);
        NodeOutlivesGrowth(hash, s, t, id, t.nodes[id]);
      } else if step.Join? && id == step.id {
        JoinEstablishes(hash, s, id, step.failing);
      } else {
        NodeOutlivesGrowth(hash, s, t, id, s.nodes[id]);
      }
    }
  }

  lemma {:induction false} RunKeepsInv(hash: Hash, trace: seq<System>, steps: seq<Step>, i: nat)
    requires Run(hash, trace, steps) && i < |trace|
    ensures Inv(hash, trace[i])
  {
    if i > 0 {
      RunKeepsInv(hash, trace, steps, i - 1);
      assert Moves(hash, trace[i - 1], steps[i - 1], trace[i]);
      StepKeepsInv(hash, trace[i - 1], steps[i - 1]);
    }
  }

  // ----- what holds once the events are consumed -----

  /** The node has heard and consumed everything, and its last reload was after its last turn. */
  ghost predicate Settled(s: System, n: Node) {
    n.heard == |s.changes| && n.at == |s.log| && !n.turned
  }

  ghost predicate AllSettled(s: System) {
    forall id | id in s.nodes :: Settled(s, s.nodes[id])
  }

  /** The node runs k if and only if etcd holds it and the ring assigns it to the node, and then with its settings. */
  ghost predicate Agrees(hash: Hash, s: System, id: string, n: Node, k: string) {
    var stored := Contents(s.log, |s.log|);
    && (k in n.items <==> k in stored && IsWorker(hash, Ring(s.changes, |s.changes|), id, k))
    && (k in n.items && k in stored ==> n.items[k].spec == stored[k].spec)
  }

  /** The last event about k, if ignored, asked for nothing but what the node does already. */
  ghost predicate NoDifference(hash: Hash, s: System, id: string, n: Node, k: string) {
    var w := LastWrite(s.log, 0, k);
    && w >= 0 && s.log[w].Put? && IsWorker(hash, Ring(s.changes, |s.changes|), id, k)
    && k in n.items && n.items[k].spec == s.log[w].value.spec
  }

  lemma SettledAtKey(hash: Hash, s: System, id: string, k: string)
    requires Inv(hash, s) && id in s.nodes && Settled(s, s.nodes[id])
    ensures var n := s.nodes[id];
            Agrees(hash, s, id, n, k) <==> k !in n.failed && (k !in n.missed || NoDifference(hash, s, id, n, k))
    ensures k in s.nodes[id].items && k !in s.nodes[id].missed ==> CarriesAt(s.log, s.nodes[id], k, |s.log|)
  {
    var n := s.nodes[id];
    assert KeyInv(hash, s.log, id, n, k);
    assert !Deleted(s.log, |s.log|, |s.log|, k);
    if k in n.items && k !in n.missed {
      var q: nat :| CarriesAt(s.log, n, k, q);
    }
    if k in n.failed {
      var q: nat :| StoredAt(s.log, n, k, q);
    }
    if k in n.missed {
      LastWriteIsRead(s.log, 0, k);
    }
  }

  // ----- the history of each node -----

  function Seen(trace: seq<System>, id: string): seq<View> {
    seq(|trace|, i requires 0 <= i < |trace| => SeenOf(trace[i], id))
  }

  function SeenOf(s: System, id: string): View {
    View(s.log, if id in s.nodes then Some(s.nodes[id]) else None)
  }

  /** What step is to the given node. */
  function DeedOf(s: System, step: Step, id: string): Deed {
    match step
    case Join(id', failing) =>
      if id' == id then Loaded(Ring(s.changes, |s.changes|) + {id}, |s.changes| + 1, failing) else Otherwise(s, id)
    case Consume(id', backend) => if id' == id then Consumed(backend) else Otherwise(s, id)
    case Reload(id', rev, failing, _) => if id' == id then Reloaded(rev, failing) else Otherwise(s, id)
    case Leave(id', _, _) => if id' == id then Absent else Otherwise(s, id)
    case Crash(id') => if id' == id then Absent else Otherwise(s, id)
    case _ => Otherwise(s, id)
  }

  function Otherwise(s: System, id: string): Deed {
    if id in s.nodes then Rested else Absent
  }

  function Done(trace: seq<System>, steps: seq<Step>, id: string): seq<Deed>
    requires |trace| == |steps| + 1
  {
    seq(|steps|, i requires 0 <= i < |steps| => DeedOf(trace[i], steps[i], id))
  }

  lemma StepIsDeed(hash: Hash, s: System, step: Step, t: System, id: string)
    requires Moves(hash, s, step, t)
    ensures Does(hash, id, SeenOf(s, id), DeedOf(s, step, id), SeenOf(t, id))
  {
    assert s.log <= t.log;
    if step.Reload? && step.id == id {
      forall k | k in Moved(s.nodes[id].items, Contents(s.log, step.rev), hash, s.nodes[id].ring, id, step.failing)
        ensures Written(t.log, |s.log|, |t.log|, k)
      {
        var x :| 0 <= x < |step.puts| && step.puts[x].key == k;
        assert t.log[|s.log| + x].key == k;
      }
    }
  }

  lemma RunIsHistory(hash: Hash, trace: seq<System>, steps: seq<Step>, id: string)
    requires Run(hash, trace, steps)
    ensures History(hash, id, Seen(trace, id), Done(trace, steps, id))
  {
    var vs, ds := Seen(trace, id), Done(trace, steps, id);
    forall i: nat | i < |vs| && vs[i].node.Some? ensures vs[i].node.value.at <= |vs[i].log| {
      RunKeepsInv(hash, trace, steps, i);
    }
    forall i: nat | i < |ds| ensures DoesAt(hash, id, vs, ds, i) {
      assert Moves(hash, trace[i], steps[i], trace[i + 1]);
      StepIsDeed(hash, trace[i], steps[i], trace[i + 1], id);
    }
  }

  // ----- convergence -----

  /** In step j the node ignored an event about k, and it is the last one about k that there is at state i. */
  ghost predicate IgnoredLast(hash: Hash, trace: seq<System>, steps: seq<Step>, j: nat, i: nat, id: string, k: string)
    requires |trace| == |steps| + 1 && i < |trace|
  {
    IgnoredFor(hash, id, Seen(trace, id), Done(trace, steps, id), j, i, |trace[i].log|, k)
  }

  /** In step j the node failed to start k, or to hand it over, and since then there has been no new attempt, no
      deletion of k, and no event about k after which it runs. */
  ghost predicate FailedLast(hash: Hash, trace: seq<System>, steps: seq<Step>, j: nat, i: nat, id: string, k: string)
    requires |trace| == |steps| + 1 && i < |trace|
  {
    FailedFor(hash, id, Seen(trace, id), Done(trace, steps, id), j, i, k)
  }

  /** Snapshot and replay converge: whatever the interleaving of loads, reloads, ring turns, failures and events,
      a settled node agrees with etcd about a worker exactly when it has not failed to start it or to hand it over, and
      did not ignore the last event about it, unless that event made no difference. */
  lemma ConvergenceExactly(hash: Hash, trace: seq<System>, steps: seq<Step>, i: nat, id: string, k: string)
    requires Run(hash, trace, steps) && i < |trace| && id in trace[i].nodes && Settled(trace[i], trace[i].nodes[id])
    ensures Agrees(hash, trace[i], id, trace[i].nodes[id], k) <==>
            && !(exists j: nat :: FailedLast(hash, trace, steps, j, i, id, k))
            && (|| !(exists j: nat :: IgnoredLast(hash, trace, steps, j, i, id, k))
                || NoDifference(hash, trace[i], id, trace[i].nodes[id], k))
  {
    RunKeepsInv(hash, trace, steps, i);
    SettledAtKey(hash, trace[i], id, k);
    MarksAreExact(hash, trace, steps, i, id, k);
  }

  /** The marks a node bears tell what has happened to it. */
  lemma MarksAreExact(hash: Hash, trace: seq<System>, steps: seq<Step>, i: nat, id: string, k: string)
    requires Run(hash, trace, steps) && i < |trace| && id in trace[i].nodes && Settled(trace[i], trace[i].nodes[id])
    ensures k in trace[i].nodes[id].missed <==> exists j: nat :: IgnoredLast(hash, trace, steps, j, i, id, k)
    ensures k in trace[i].nodes[id].failed <==> exists j: nat :: FailedLast(hash, trace, steps, j, i, id, k)
  {
    RunIsHistory(hash, trace, steps, id);
    var vs, ds := Seen(trace, id), Done(trace, steps, id);
    MissedExactly(hash, id, vs, ds, i, k);
    FailedExactly(hash, id, vs, ds, i, k);
    assert forall j: nat :: IgnoredLast(hash, trace, steps, j, i, id, k) <==>
                            IgnoredFor(hash, id, vs, ds, j, i, |vs[i].log|, k);
    assert forall j: nat :: FailedLast(hash, trace, steps, j, i, id, k) <==> FailedFor(hash, id, vs, ds, j, i, k);
  }

  /** As to worker k, the registry is what one would compute from scratch: k runs if etcd holds it and the ring assigns
      it to the node, with its current settings, and with the stored alert unless an evaluation of this node has
      moved it since. */
  ghost predicate OwnedSliceAt(hash: Hash, s: System, id: string, n: Node, k: string) {
    var stored := Contents(s.log, |s.log|);
    && Agrees(hash, s, id, n, k)
    && (k in n.items && k !in n.touched ==> k in stored && n.items[k] == stored[k])
  }

  /** So it is for every worker that a settled node has neither missed nor failed to start or hand over. */
  lemma Convergence(hash: Hash, trace: seq<System>, steps: seq<Step>, i: nat, id: string, k: string)
    requires Run(hash, trace, steps) && i < |trace| && id in trace[i].nodes && Settled(trace[i], trace[i].nodes[id])
    requires k !in trace[i].nodes[id].missed && k !in trace[i].nodes[id].failed
    ensures OwnedSliceAt(hash, trace[i], id, trace[i].nodes[id], k)
  {
    RunKeepsInv(hash, trace, steps, i);
    SettledAtKey(hash, trace[i], id, k);
  }

  ghost predicate RunsOn(s: System, id: string, k: string) {
    id in s.nodes && k in s.nodes[id].items
  }

  predicate DueOn(hash: Hash, s: System, id: string, k: string) {
    k in Contents(s.log, |s.log|) && IsWorker(hash, Ring(s.changes, |s.changes|), id, k)
  }

  /** k runs exactly where it is due: on the owner if etcd holds it, and nowhere else. */
  ghost predicate RightlyPlaced(hash: Hash, s: System, k: string) {
    forall id | id in s.nodes :: RunsOn(s, id, k) <==> DueOn(hash, s, id, k)
  }

  /** A worker etcd holds runs on exactly one node, and one that it does not hold runs on none. */
  ghost predicate WellPlaced(s: System, k: string) {
    if k in Contents(s.log, |s.log|)
    then exists id :: RunsOn(s, id, k) && forall other | RunsOn(s, other, k) :: other == id
    else forall id :: !RunsOn(s, id, k)
  }

  /** No node has ignored the last event about k that either deleted k, or came when k was somebody else's. */
  ghost predicate NobodyKeeps(hash: Hash, s: System, k: string) {
    forall id | id in s.nodes && k in s.nodes[id].missed :: DueOn(hash, s, id, k)
  }

  ghost predicate NobodyFails(s: System, k: string) {
    forall id | id in s.nodes :: k !in s.nodes[id].failed
  }

  lemma RunsExactlyWhere(hash: Hash, s: System, id: string, k: string)
    requires Inv(hash, s) && id in s.nodes && Settled(s, s.nodes[id])
    ensures var n := s.nodes[id];
            RunsOn(s, id, k) <==>
              if k in n.failed then !Mine(hash, id, n, k) else DueOn(hash, s, id, k) || k in n.missed
    ensures k in s.nodes[id].failed ==> k in Contents(s.log, |s.log|)
  {
    var n := s.nodes[id];
    assert KeyInv(hash, s.log, id, n, k);
    assert !Deleted(s.log, |s.log|, |s.log|, k);
    if k !in n.missed {
      SettledAtKey(hash, s, id, k);
    }
    if k in n.failed {
      var q: nat :| StoredAt(s.log, n, k, q);
    }
  }

  lemma RightlyIsWell(hash: Hash, s: System, k: string)
    requires PicksMembers(hash) && Ring(s.changes, |s.changes|) != {} && Ring(s.changes, |s.changes|) <= s.nodes.Keys
    ensures RightlyPlaced(hash, s, k) ==> WellPlaced(s, k)
  {
    var owner := hash(Ring(s.changes, |s.changes|), k);
    assert owner in s.nodes;
    if RightlyPlaced(hash, s, k) && k in Contents(s.log, |s.log|) {
      assert DueOn(hash, s, owner, k) && RunsOn(s, owner, k);
    }
  }

  /** Whatever the history of joins, departures, crashes and expired leases: once every node is settled and every
      member is a running node, a worker runs exactly where it is due, and so on one node, exactly when no node keeps it
      by mistake or has failed to start it or to hand it over. If none has failed, it runs on one node at all
      exactly when none keeps it by mistake. */
  lemma UniquePlacement(hash: Hash, trace: seq<System>, steps: seq<Step>, i: nat, k: string)
    requires PicksMembers(hash) && Run(hash, trace, steps) && i < |trace| && AllSettled(trace[i])
    requires var members := Ring(trace[i].changes, |trace[i].changes|);
             members != {} && members <= trace[i].nodes.Keys
    ensures RightlyPlaced(hash, trace[i], k) <==> NobodyKeeps(hash, trace[i], k) && NobodyFails(trace[i], k)
    ensures RightlyPlaced(hash, trace[i], k) ==> WellPlaced(trace[i], k)
    ensures NobodyFails(trace[i], k) ==> (WellPlaced(trace[i], k) <==> NobodyKeeps(hash, trace[i], k))
  {
    RunKeepsInv(hash, trace, steps, i);
    RightlyExactly(hash, trace[i], k);
    RightlyIsWell(hash, trace[i], k);
    if NobodyFails(trace[i], k) {
      WellExactly(hash, trace[i], k);
    }
  }

  lemma RightlyExactly(hash: Hash, s: System, k: string)
    requires Inv(hash, s) && AllSettled(s)
    ensures RightlyPlaced(hash, s, k) <==> NobodyKeeps(hash, s, k) && NobodyFails(s, k)
  {
    forall id | id in s.nodes
      ensures (RunsOn(s, id, k) <==> DueOn(hash, s, id, k)) <==>
              k !in s.nodes[id].failed && (k in s.nodes[id].missed ==> DueOn(hash, s, id, k))
    {
      RunsExactlyWhere(hash, s, id, k);
      assert KeyInv(hash, s.log, id, s.nodes[id], k);
    }
  }

  lemma WellExactly(hash: Hash, s: System, k: string)
    requires PicksMembers(hash) && Ring(s.changes, |s.changes|) != {} && Ring(s.changes, |s.changes|) <= s.nodes.Keys
    requires Inv(hash, s) && AllSettled(s) && NobodyFails(s, k)
    ensures WellPlaced(s, k) <==> NobodyKeeps(hash, s, k)
  {
    var owner := hash(Ring(s.changes, |s.changes|), k);
    forall id | id in s.nodes
      ensures RunsOn(s, id, k) <==> (k in Contents(s.log, |s.log|) && id == owner) || k in s.nodes[id].missed
    {
      RunsExactlyWhere(hash, s, id, k);
    }
    if k in Contents(s.log, |s.log|) {
      assert RunsOn(s, owner, k);
    }
  }

  /** One more reload of a settled node starts exactly the workers it has failed to start, and hands over exactly those
      that it has failed to hand over, or runs by mistake and etcd has for somebody else; unless it fails again. */
  lemma ReloadOfSettledExactly(hash: Hash, s: System, id: string, failing: set<string>)
    requires Inv(hash, s) && id in s.nodes && Settled(s, s.nodes[id])
    ensures var n, stored := s.nodes[id], Contents(s.log, |s.log|);
            && Missing(n.items, stored, hash, n.ring, id, failing) ==
               (set k | k in n.failed && Mine(hash, id, n, k) && k !in failing)
            && Moved(n.items, stored, hash, n.ring, id, failing) ==
               (set k | k in n.failed + n.missed && k in stored && !Mine(hash, id, n, k) && k !in failing)
    ensures var n, m := s.nodes[id], Reloading(hash, s.log, id, s.nodes[id], |s.log|, failing);
            m.items == n.items <==>
            forall k :: k in n.failed + n.missed && k in Contents(s.log, |s.log|) && k !in failing ==>
                          Mine(hash, id, n, k) && k !in n.failed
  {
    var n, stored := s.nodes[id], Contents(s.log, |s.log|);
    var m := Reloading(hash, s.log, id, n, |s.log|, failing);
    assert forall k :: k in Moved(n.items, stored, hash, n.ring, id, failing) ==> k in n.items && k !in m.items;
    assert forall k :: k in Missing(n.items, stored, hash, n.ring, id, failing) ==> k !in n.items && k in m.items;
    forall k
      ensures k in n.items <==> if k in n.failed then !Mine(hash, id, n, k) else DueOn(hash, s, id, k) || k in n.missed
      ensures k in n.failed && Mine(hash, id, n, k) ==> k in stored
    {
      RunsExactlyWhere(hash, s, id, k);
    }
  }

  // ----- what a node runs, it goes on running -----

  /** The step stops worker k on the node, starts it anew, or evaluates it: the node goes, its next event is about k and
      the node does not ignore it, a reload hands k over, or k's scaler has a tick. */
  ghost predicate Touches(hash: Hash, s: System, step: Step, id: string, k: string)
    requires Enabled(hash, s, step) && id in s.nodes
  {
    match step
    case Leave(id', _, _) => id' == id
    case Crash(id') => id' == id
    case Consume(id', backend) =>
      && id' == id && s.log[s.nodes[id].at].key == k && Mine(hash, id, s.nodes[id], k)
      && (backend || !IsCreate(s.log, s.nodes[id].at))
    case Reload(id', rev, failing, _) =>
      id' == id && k in Contents(s.log, rev) && !Mine(hash, id, s.nodes[id], k) && k !in failing
    case Evaluate(id', key, _) => id' == id && key == k
    case _ => false
  }

  /** Nothing else changes what the node has of k; a reload least of all, if the node owns k. */
  lemma EntryStays(hash: Hash, s: System, step: Step, t: System, id: string, k: string)
    requires Moves(hash, s, step, t) && RunsOn(s, id, k) && !Touches(hash, s, step, id, k)
    ensures RunsOn(t, id, k) && t.nodes[id].items[k] == s.nodes[id].items[k]
  {
  }

  ghost predicate LeftAlone(hash: Hash, trace: seq<System>, steps: seq<Step>, j: nat, i: nat, id: string, k: string)
    requires i < |trace| && |trace| == |steps| + 1
  {
    forall m: nat | j < m < i ::
      Enabled(hash, trace[m], steps[m]) && (id in trace[m].nodes ==> !Touches(hash, trace[m], steps[m], id, k))
  }

  /** So the alert that an evaluation leaves is the one the node has, until it evaluates the worker again, hands it
      over, or handles an event about it; however often the node reloads. */
  lemma {:induction false} EvaluatedAlertStays(hash: Hash, trace: seq<System>, steps: seq<Step>, j: nat, i: nat)
    requires Run(hash, trace, steps) && j < i < |trace| && steps[j].Evaluate?
    requires LeftAlone(hash, trace, steps, j, i, steps[j].id, steps[j].key)
    ensures RunsOn(trace[i], steps[j].id, steps[j].key)
    ensures trace[i].nodes[steps[j].id].items[steps[j].key] ==
            trace[j].nodes[steps[j].id].items[steps[j].key].(alert := steps[j].alert)
  {
    assert Moves(hash, trace[i - 1], steps[i - 1], trace[i]);
    if j < i - 1 {
      EvaluatedAlertStays(hash, trace, steps, j, i - 1);
      EntryStays(hash, trace[i - 1], steps[i - 1], trace[i], steps[j].id, steps[j].key);
    }
  }

  /** And a worker that a step starts on a node, or starts anew, has the settings and the alert of the event, or of the
      revision that the node reloads from. */
  lemma StartedAsStored(hash: Hash, s: System, step: Step, t: System, id: string, k: string)
    requires Moves(hash, s, step, t) && RunsOn(t, id, k)
    requires RunsOn(s, id, k) ==> Touches(hash, s, step, id, k) && !step.Evaluate?
    ensures match step
            case Join(id', _) => id' == id && k in Contents(s.log, |s.log|)
                                 && t.nodes[id].items[k] == Contents(s.log, |s.log|)[k]
            case Consume(id', _) => id' == id && s.log[s.nodes[id].at] == Put(k, t.nodes[id].items[k])
            case Reload(id', rev, _, _) => id' == id && k in Contents(s.log, rev)
                                           && t.nodes[id].items[k] == Contents(s.log, rev)[k]
            case _ => false
  {
  }

  // ----- handing a worker over -----

  lemma {:induction false} PutIsRead(log: seq<Event<Worker>>, puts: seq<Event<Worker>>, items: map<string, Worker>,
                                     k: string, n: nat, i: nat)
    requires n <= |puts| && i < n && puts[i].key == k && k in items && puts[i] == Put(k, items[k])
    requires forall j, l | 0 <= j < l < |puts| :: puts[j].key != puts[l].key
    ensures k in Contents(log + puts, |log| + n) && Contents(log + puts, |log| + n)[k] == items[k]
  {
    assert (log + puts)[|log| + n - 1] == puts[n - 1];
    if i < n - 1 {
      PutIsRead(log, puts, items, k, n - 1, i);
      assert puts[n - 1].key != k;
    }
  }

  lemma {:induction false} LogsOnlyGrow(hash: Hash, trace: seq<System>, steps: seq<Step>, i: nat, j: nat)
    requires Run(hash, trace, steps) && i <= j < |trace|
    ensures trace[i].log <= trace[j].log
  {
    if i < j {
      LogsOnlyGrow(hash, trace, steps, i, j - 1);
      assert Moves(hash, trace[j - 1], steps[j - 1], trace[j]);
    }
  }

  /** The step puts worker k as its node has it. */
  ghost predicate HandsOver(hash: Hash, s: System, step: Step, k: string)
    requires Enabled(hash, s, step)
  {
    || (step.Leave? && k in s.nodes[step.id].items && k !in step.failing)
    || (step.Reload? && k in Moved(s.nodes[step.id].items, Contents(s.log, step.rev), hash, s.nodes[step.id].ring,
                                   step.id, step.failing))
  }

  lemma EntryHandedOver(hash: Hash, s: System, step: Step, t: System, k: string)
    requires Moves(hash, s, step, t) && HandsOver(hash, s, step, k)
    ensures k in s.nodes[step.id].items && k in Contents(t.log, |t.log|)
    ensures Contents(t.log, |t.log|)[k] == s.nodes[step.id].items[k]
  {
    assert step.Leave? ==> k in s.nodes[step.id].items.Keys - step.failing;
    var p :| 0 <= p < |step.puts| && step.puts[p].key == k;
    PutIsRead(s.log, step.puts, s.nodes[step.id].items, k, |step.puts|, p);
  }

  /** The old owner has put worker k, on a reload or on leaving, and nobody has written k since. */
  ghost predicate HandedOver(hash: Hash, trace: seq<System>, steps: seq<Step>, i: nat, j: nat, k: string)
    requires Run(hash, trace, steps) && i < j < |trace|
  {
    && Enabled(hash, trace[i], steps[i]) && HandsOver(hash, trace[i], steps[i], k)
    && |trace[i + 1].log| <= |trace[j].log| && !Written(trace[j].log, |trace[i + 1].log|, |trace[j].log|, k)
  }

  lemma HandoverStays(hash: Hash, trace: seq<System>, steps: seq<Step>, i: nat, j: nat, k: string)
    requires Run(hash, trace, steps) && i < j < |trace| && HandedOver(hash, trace, steps, i, j, k)
    ensures var after, end := trace[i + 1], trace[j];
            SameAt(Contents(after.log, |after.log|), Contents(end.log, |end.log|), k)
  {
    var after, end := trace[i + 1], trace[j];
    LogsOnlyGrow(hash, trace, steps, i + 1, j);
    ContentsOfPrefix(after.log, end.log[|after.log|..], |after.log|);
    assert end.log == after.log + end.log[|after.log|..];
    UnwrittenIsUnchanged(end.log, |after.log|, |end.log|, k);
  }

  /** When a node hands worker k over and nobody writes k afterwards, then whoever runs k in a later
      settled state has the old owner's alert, unless an evaluation has moved it since. Nothing is
      said about who reloads first, so both orders are covered. */
  lemma HandoverKeepsAlert(hash: Hash, trace: seq<System>, steps: seq<Step>, i: nat, j: nat, k: string, heir: string)
    requires Run(hash, trace, steps) && i < j < |trace|
    requires HandedOver(hash, trace, steps, i, j, k)
    requires RunsOn(trace[j], heir, k) && Settled(trace[j], trace[j].nodes[heir])
    requires k !in trace[j].nodes[heir].touched && k !in trace[j].nodes[heir].missed
    ensures k in trace[i].nodes[steps[i].id].items
    ensures trace[j].nodes[heir].items[k] == trace[i].nodes[steps[i].id].items[k]
  {
    assert Moves(hash, trace[i], steps[i], trace[i + 1]);
    EntryHandedOver(hash, trace[i], steps[i], trace[i + 1], k);
    HandoverStays(hash, trace, steps, i, j, k);
    RunKeepsInv(hash, trace, steps, j);
    SettledAtKey(hash, trace[j], heir, k);
  }

  // ----- settings that are lost on the way -----

  ghost predicate HasSpec(s: System, k: string, spec: string) {
    var stored := Contents(s.log, |s.log|);
    k in stored && stored[k].spec == spec
  }

  /** There is no event about k that the node has yet to handle, or has ignored; or the last such event is a put
      that leaves the settings as the node has them. */
  ghost predicate Fresh(log: seq<Event<Worker>>, n: Node, k: string)
    requires k in n.items
  {
    var w := LastWrite(log, if k in n.missed then 0 else n.at, k);
    w == -1 || (log[w].Put? && log[w].value.spec == n.items[k].spec)
  }

  /** What a node would put is what etcd has, as far as settings go, exactly when the node is up to date about it. */
  lemma FreshExactly(hash: Hash, s: System, id: string, k: string)
    requires Inv(hash, s) && id in s.nodes && k in s.nodes[id].items
    ensures Fresh(s.log, s.nodes[id], k) <==> HasSpec(s, k, s.nodes[id].items[k].spec)
  {
    var n := s.nodes[id];
    assert KeyInv(hash, s.log, id, n, k);
    LastWriteIsRead(s.log, if k in n.missed then 0 else n.at, k);
    if k !in n.missed && LastWrite(s.log, n.at, k) == -1 {
      var q: nat :| CarriesAt(s.log, n, k, q);
      UnwrittenIsUnchanged(s.log, q, |s.log|, k);
    }
  }

  lemma EntryLeftAlone(hash: Hash, s: System, step: Step, t: System, k: string)
    requires Moves(hash, s, step, t) && !(step.Store? && step.key == k) && !(step.Remove? && step.key == k)
    requires !HandsOver(hash, s, step, k)
    ensures SameAt(Contents(s.log, |s.log|), Contents(t.log, |t.log|), k)
  {
    var more := t.log[|s.log|..];
    assert t.log == s.log + more;
    assert forall x | 0 <= x < |more| :: more[x].key != k;
    assert forall x | |s.log| <= x < |t.log| :: t.log[x] == more[x - |s.log|];
    ContentsOfPrefix(s.log, more, |s.log|);
    UnwrittenIsUnchanged(t.log, |s.log|, |t.log|, k);
  }

  lemma StepKeepsSettingsExactly(hash: Hash, s: System, step: Step, t: System, k: string, spec: string)
    requires Inv(hash, s) && Moves(hash, s, step, t) && HasSpec(s, k, spec)
    requires !(step.Store? && step.key == k) && !(step.Remove? && step.key == k)
    ensures HasSpec(t, k, spec) <==> FreshAt(hash, s, step, k)
  {
    if HandsOver(hash, s, step, k) {
      EntryHandedOver(hash, s, step, t, k);
      FreshExactly(hash, s, step.id, k);
    } else {
      EntryLeftAlone(hash, s, step, t, k);
    }
  }

  /** Step j stores worker k for a client, and no client touches it again before state i. */
  ghost predicate LastStored(hash: Hash, trace: seq<System>, steps: seq<Step>, j: nat, i: nat, k: string)
    requires Run(hash, trace, steps)
  {
    && j < i < |trace| && steps[j].Store? && steps[j].key == k
    && forall m | j < m < i :: !(steps[m].Store? && steps[m].key == k) && !(steps[m].Remove? && steps[m].key == k)
  }

  ghost predicate FreshAt(hash: Hash, s: System, step: Step, k: string) {
    Enabled(hash, s, step) && HandsOver(hash, s, step, k) ==> Fresh(s.log, s.nodes[step.id], k)
  }

  ghost predicate AlwaysFresh(hash: Hash, trace: seq<System>, steps: seq<Step>, j: nat, i: nat, k: string)
    requires i < |trace| && |trace| == |steps| + 1
  {
    forall m: nat | j < m < i :: FreshAt(hash, trace[m], steps[m], k)
  }

  ghost predicate AlwaysHas(trace: seq<System>, j: nat, i: nat, k: string, spec: string)
    requires i < |trace|
  {
    forall m: nat | j < m <= i :: HasSpec(trace[m], k, spec)
  }

  lemma AlwaysOneMore(hash: Hash, trace: seq<System>, steps: seq<Step>, j: nat, i: nat, k: string, spec: string)
    requires |trace| == |steps| + 1 && j < i < |steps|
    ensures AlwaysHas(trace, j, i + 1, k, spec) <==> AlwaysHas(trace, j, i, k, spec) && HasSpec(trace[i + 1], k, spec)
    ensures AlwaysFresh(hash, trace, steps, j, i + 1, k) <==>
            AlwaysFresh(hash, trace, steps, j, i, k) && FreshAt(hash, trace[i], steps[i], k)
  {
  }

  /** From the last time a client has stored it, a worker keeps its settings exactly when every node that hands it
      over, by a reload or on leaving, is up to date about it. */
  lemma {:induction false} SettingsKeptExactly(hash: Hash, trace: seq<System>, steps: seq<Step>, j: nat, i: nat,
                                               k: string)
    requires Run(hash, trace, steps) && LastStored(hash, trace, steps, j, i, k)
    ensures AlwaysHas(trace, j, i, k, steps[j].data.spec) <==> AlwaysFresh(hash, trace, steps, j, i, k)
  {
    var spec := steps[j].data.spec;
    assert Moves(hash, trace[i - 1], steps[i - 1], trace[i]);
    if i == j + 1 {
      assert HasSpec(trace[i], k, spec);
    } else {
      SettingsKeptExactly(hash, trace, steps, j, i - 1, k);
      AlwaysOneMore(hash, trace, steps, j, i - 1, k, spec);
      RunKeepsInv(hash, trace, steps, i - 1);
      if HasSpec(trace[i - 1], k, spec) {
        StepKeepsSettingsExactly(hash, trace[i - 1], steps[i - 1], trace[i], k, spec);
      }
    }
  }

  /** In that case any node that runs the worker, settled or not, does so with those settings if and only if it is up to
      date about it, as a settled node is that has not ignored the last event. */
  lemma RunsWithLastSettings(hash: Hash, trace: seq<System>, steps: seq<Step>, j: nat, i: nat, id: string, k: string)
    requires Run(hash, trace, steps) && LastStored(hash, trace, steps, j, i, k)
    requires AlwaysFresh(hash, trace, steps, j, i, k) && RunsOn(trace[i], id, k)
    ensures var n := trace[i].nodes[id];
            && (n.items[k].spec == steps[j].data.spec <==> Fresh(trace[i].log, n, k))
            && (Settled(trace[i], n) && !(exists l: nat :: IgnoredLast(hash, trace, steps, l, i, id, k)) ==>
                  n.items[k].spec == steps[j].data.spec)
  {
    SettingsKeptExactly(hash, trace, steps, j, i, k);
    RunKeepsInv(hash, trace, steps, i);
    FreshExactly(hash, trace[i], id, k);
    if Settled(trace[i], trace[i].nodes[id]) {
      SettledAtKey(hash, trace[i], id, k);
      MarksAreExact(hash, trace, steps, i, id, k);
    }
  }
}
