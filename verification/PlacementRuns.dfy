/** Two runs of the protocol that end in settled states one would not want: in the first a node ignores an event, in
    the second one undoes an update it has yet to hear of. */
module PlacementRuns {
  import opened Etcd
  import opened Clusters
  import opened Managers
  import opened Nodes
  import opened Placement
  import Alerts

  // ----- what an ignored event can do -----

  /** A hash that prefers node b. */
  ghost function PreferB(ring: set<string>, key: string): string {
    if "b" in ring then "b" else if ring == {} then "" else var id :| id in ring; id
  }

  lemma PreferBPicks()
    ensures PicksMembers(PreferB)
    ensures forall k :: PreferB({"a"}, k) == "a" && PreferB({"a", "b"}, k) == "b"
  {
  }

  const WORKER := Worker("", Alerts.QUIET)
  const RUNNING: map<string, Worker> := map["w" := WORKER]
  const LOG: seq<Event<Worker>> := [Put("w", WORKER), Delete("w"), Put("w", WORKER)]
  const CHANGES: seq<Change> := [Joined("a"), Joined("b")]

  lemma LogContents()
    ensures Contents(LOG[..1], 0) == map[] && Contents(LOG[..1], 1) == RUNNING
    ensures Contents(LOG[..2], 1) == RUNNING && Contents(LOG[..2], 2) == map[]
    ensures Contents(LOG, 2) == map[] && Contents(LOG, 3) == RUNNING
    ensures Ring(CHANGES[..1], 1) == {"a"} && Ring(CHANGES, 2) == {"a", "b"}
  {
    assert Contents(LOG[..1], 0) == map[];
    assert Contents(LOG[..2], 0) == map[];
    assert Contents(LOG, 0) == map[];
    assert Contents(LOG, 1) == RUNNING;
    assert Ring(CHANGES, 1) == {"a"};
  }

  ghost function NodeA(turned: bool, at: nat, snap: nat, pending: bool): Node {
    Node(if turned then {"a", "b"} else {"a"}, if turned then 2 else 1, at, snap, RUNNING, {},
         if at > 1 then {"w"} else {}, pending, {})
  }

  ghost function NodeB(at: nat, items: map<string, Worker>): Node {
    Node({"a", "b"}, 2, at, 1, items, {}, {}, false, {})
  }

  ghost function Pair(n: nat, a: Node, b: Node): System
    requires n <= 3
  {
    System(LOG[..n], CHANGES, map["a" := a, "b" := b])
  }

  lemma StoredAndLoaded()
    ensures Moves(PreferB, INIT, Store("w", WORKER), System(LOG[..1], [], map[]))
    ensures Moves(PreferB, System(LOG[..1], [], map[]), Join("a", {}),
                  System(LOG[..1], CHANGES[..1], map["a" := NodeA(false, 1, 1, false)]))
  {
    PreferBPicks();
    LogContents();
    var s := System(LOG[..1], [], map[]);
    assert Joining(PreferB, s.log, Ring(s.changes, |s.changes|) + {"a"}, |s.changes| + 1, "a", {}).ring == {"a"};
    assert Joining(PreferB, s.log, Ring(s.changes, |s.changes|) + {"a"}, |s.changes| + 1, "a", {}).items == RUNNING;
    assert Joining(PreferB, s.log, Ring(s.changes, |s.changes|) + {"a"}, |s.changes| + 1, "a", {}).failed == {};
  }

  lemma SecondNodeJoins()
    ensures Moves(PreferB, System(LOG[..1], CHANGES[..1], map["a" := NodeA(false, 1, 1, false)]), Join("b", {}),
                  Pair(1, NodeA(false, 1, 1, false), NodeB(1, RUNNING)))
    ensures Moves(PreferB, Pair(1, NodeA(false, 1, 1, false), NodeB(1, RUNNING)), Turn("a", 2),
                  Pair(1, NodeA(true, 1, 1, true), NodeB(1, RUNNING)))
  {
    PreferBPicks();
    LogContents();
    var s := System(LOG[..1], CHANGES[..1], map["a" := NodeA(false, 1, 1, false)]);
    assert Joining(PreferB, s.log, Ring(s.changes, |s.changes|) + {"b"}, |s.changes| + 1, "b", {}).ring == {"a", "b"};
    assert Joining(PreferB, s.log, Ring(s.changes, |s.changes|) + {"b"}, |s.changes| + 1, "b", {}).items == RUNNING;
    assert Joining(PreferB, s.log, Ring(s.changes, |s.changes|) + {"b"}, |s.changes| + 1, "b", {}).failed == {};
  }

  lemma WorkerIsRemoved()
    ensures Moves(PreferB, Pair(1, NodeA(true, 1, 1, true), NodeB(1, RUNNING)), Remove("w"),
                  Pair(2, NodeA(true, 1, 1, true), NodeB(1, RUNNING)))
    ensures Moves(PreferB, Pair(2, NodeA(true, 1, 1, true), NodeB(1, RUNNING)), Consume("a", true),
                  Pair(2, NodeA(true, 2, 1, true), NodeB(1, RUNNING)))
    ensures Moves(PreferB, Pair(2, NodeA(true, 2, 1, true), NodeB(1, RUNNING)), Consume("b", true),
                  Pair(2, NodeA(true, 2, 1, true), NodeB(2, map[])))
  {
    PreferBPicks();
    LogContents();
    var n := Consuming(PreferB, LOG[..2], "a", NodeA(true, 1, 1, true), true);
    assert n.touched == {} && n.missed == {"w"};
    assert Consuming(PreferB, LOG[..2], "b", NodeB(1, RUNNING), true).touched == {};
    assert Consuming(PreferB, LOG[..2], "b", NodeB(1, RUNNING), true).items == map[];
  }

  lemma ReloadSeesNothing()
    ensures Moves(PreferB, Pair(2, NodeA(true, 2, 1, true), NodeB(2, map[])), Reload("a", 2, {}, []),
                  Pair(2, NodeA(true, 2, 2, false), NodeB(2, map[])))
    ensures Moves(PreferB, Pair(2, NodeA(true, 2, 2, false), NodeB(2, map[])), Store("w", WORKER),
                  Pair(3, NodeA(true, 2, 2, false), NodeB(2, map[])))
  {
    PreferBPicks();
    LogContents();
    var n := Reloading(PreferB, LOG[..2], "a", NodeA(true, 2, 1, true), 2, {});
    assert n.items == RUNNING && n.touched == {} && n.missed == {"w"} && n.failed == {};
    assert LOG[..2] + [] == LOG[..2];
    assert LOG[..3] == LOG;
  }

  lemma WorkerIsCreatedAnew()
    ensures Moves(PreferB, Pair(3, NodeA(true, 2, 2, false), NodeB(2, map[])), Consume("a", true),
                  Pair(3, NodeA(true, 3, 2, false), NodeB(2, map[])))
    ensures Moves(PreferB, Pair(3, NodeA(true, 3, 2, false), NodeB(2, map[])), Consume("b", true),
                  Pair(3, NodeA(true, 3, 2, false), NodeB(3, RUNNING)))
  {
    PreferBPicks();
    LogContents();
    assert LOG[..3] == LOG;
    var n := Consuming(PreferB, LOG, "a", NodeA(true, 2, 2, false), true);
    assert n.touched == {} && n.missed == {"w"};
    assert Consuming(PreferB, LOG, "b", NodeB(2, map[]), true).touched == {};
    assert Consuming(PreferB, LOG, "b", NodeB(2, map[]), true).items == RUNNING;
  }

  ghost function BadSteps(): seq<Step> {
    [Store("w", WORKER), Join("a", {}), Join("b", {}), Turn("a", 2), Remove("w"), Consume("a", true),
     Consume("b", true), Reload("a", 2, {}, []), Store("w", WORKER), Consume("a", true), Consume("b", true)]
  }

  ghost function BadTrace(): seq<System> {
    [INIT, System(LOG[..1], [], map[]),
     System(LOG[..1], CHANGES[..1], map["a" := NodeA(false, 1, 1, false)]),
     Pair(1, NodeA(false, 1, 1, false), NodeB(1, RUNNING)), Pair(1, NodeA(true, 1, 1, true), NodeB(1, RUNNING)),
     Pair(2, NodeA(true, 1, 1, true), NodeB(1, RUNNING)), Pair(2, NodeA(true, 2, 1, true), NodeB(1, RUNNING)),
     Pair(2, NodeA(true, 2, 1, true), NodeB(2, map[])), Pair(2, NodeA(true, 2, 2, false), NodeB(2, map[])),
     Pair(3, NodeA(true, 2, 2, false), NodeB(2, map[])), Pair(3, NodeA(true, 3, 2, false), NodeB(2, map[])),
     Pair(3, NodeA(true, 3, 2, false), NodeB(3, RUNNING))]
  }

  lemma BadMove(i: nat)
    requires i < 11
    ensures Moves(PreferB, BadTrace()[i], BadSteps()[i], BadTrace()[i + 1])
  {
    if i < 2 {
      StoredAndLoaded();
    } else if i < 4 {
      SecondNodeJoins();
    } else if i < 7 {
      WorkerIsRemoved();
    } else if i < 9 {
      ReloadSeesNothing();
    } else {
      WorkerIsCreatedAnew();
    }
  }

  lemma BadRun()
    ensures Run(PreferB, BadTrace(), BadSteps())
  {
    forall i: nat | i < 11 ensures Moves(PreferB, BadTrace()[i], BadSteps()[i], BadTrace()[i + 1]) {
      BadMove(i);
    }
  }

  lemma BadEnd(s: System)
    requires s == Pair(3, NodeA(true, 3, 2, false), NodeB(3, RUNNING))
    ensures AllSettled(s) && Ring(s.changes, |s.changes|) == s.nodes.Keys
    ensures RunsOn(s, "a", "w") && RunsOn(s, "b", "w") && !WellPlaced(s, "w")
  {
    LogContents();
    assert LOG[..3] == LOG;
    forall id | RunsOn(s, id, "w") ensures exists other :: RunsOn(s, other, "w") && other != id {
      assert RunsOn(s, if id == "a" then "b" else "a", "w");
    }
  }

  /** An ignored event can make one worker run twice for good: node a hears of a deletion only after its ring
      has given the worker to b, its reload does not see the worker, and the worker is created anew. */
  lemma IgnoredEventDuplicates()
    ensures exists trace, steps ::
              && Run(PreferB, trace, steps)
              && var s := trace[|steps|];
                 && AllSettled(s) && Ring(s.changes, |s.changes|) == s.nodes.Keys
                 && RunsOn(s, "a", "w") && RunsOn(s, "b", "w") && !WellPlaced(s, "w")
  {
    BadRun();
    BadEnd(BadTrace()[11]);
    assert |BadSteps()| == 11;
  }

  // ----- what a hand-over of old settings can do -----

  const CHANGED := Worker("changed", Alerts.QUIET)
  const LOST: seq<Event<Worker>> := [Put("w", WORKER), Put("w", CHANGED), Put("w", WORKER)]

  ghost function Without(at: nat): Node {
    Node({"a", "b"}, 2, at, 2, map[], {}, {}, false, {})
  }

  ghost function With(at: nat, w: Worker): Node {
    NodeB(at, map["w" := w])
  }

  ghost function Lost(n: nat, a: Node, b: Node): System
    requires n <= 3
  {
    System(LOST[..n], CHANGES, map["a" := a, "b" := b])
  }

  lemma LostContents()
    ensures Contents(LOST[..2], 1) == RUNNING && Contents(LOST[..2], 2) == map["w" := CHANGED]
    ensures Contents(LOST, 1) == RUNNING && Contents(LOST, 2) == map["w" := CHANGED] && Contents(LOST, 3) == RUNNING
    ensures LOST[..1] == LOG[..1] && LOST[..3] == LOST && Ring(CHANGES, 2) == {"a", "b"}
  {
    LogContents();
    assert Contents(LOST[..2], 0) == map[];
    assert Contents(LOST, 0) == map[];
  }

  lemma OldSettingsArePut()
    ensures Moves(PreferB, Pair(1, NodeA(true, 1, 1, true), NodeB(1, RUNNING)), Store("w", CHANGED),
                  Lost(2, NodeA(true, 1, 1, true), With(1, WORKER)))
    ensures Moves(PreferB, Lost(2, NodeA(true, 1, 1, true), With(1, WORKER)),
                  Reload("a", 2, {}, [Put("w", WORKER)]), Lost(3, Without(1), With(1, WORKER)))
  {
    PreferBPicks();
    LostContents();
    assert LOG[..1] + [Put("w", CHANGED)] == LOST[..2];
    assert LOST[..2] + [Put("w", WORKER)] == LOST;
    var a := NodeA(true, 1, 1, true);
    assert Moved(a.items, Contents(LOST[..2], 2), PreferB, a.ring, "a", {}) == {"w"};
    assert Writes([Put("w", WORKER)], a.items, {"w"});
    assert Reloading(PreferB, LOST[..2], "a", a, 2, {}) == Without(1) by {
      assert Reloading(PreferB, LOST[..2], "a", a, 2, {}).items == map[];
    }
  }

  lemma OldSettingsAreHeard()
    ensures Moves(PreferB, Lost(3, Without(1), With(1, WORKER)), Consume("a", true),
                  Lost(3, Without(2), With(1, WORKER)))
    ensures Moves(PreferB, Lost(3, Without(2), With(1, WORKER)), Consume("a", true),
                  Lost(3, Without(3), With(1, WORKER)))
    ensures Moves(PreferB, Lost(3, Without(3), With(1, WORKER)), Consume("b", true),
                  Lost(3, Without(3), With(2, CHANGED)))
    ensures Moves(PreferB, Lost(3, Without(3), With(2, CHANGED)), Consume("b", true),
                  Lost(3, Without(3), With(3, WORKER)))
  {
    PreferBPicks();
    LostContents();
    assert Consuming(PreferB, LOST, "a", Without(1), true) == Without(2);
    assert Consuming(PreferB, LOST, "a", Without(2), true) == Without(3);
    assert Consuming(PreferB, LOST, "b", With(1, WORKER), true) == With(2, CHANGED);
    assert Consuming(PreferB, LOST, "b", With(2, CHANGED), true) == With(3, WORKER);
  }

  ghost function LosingSteps(): seq<Step> {
    BadSteps()[..4] + [Store("w", CHANGED), Reload("a", 2, {}, [Put("w", WORKER)]),
                       Consume("a", true), Consume("a", true), Consume("b", true), Consume("b", true)]
  }

  ghost function LosingTrace(): seq<System> {
    BadTrace()[..5] + [Lost(2, NodeA(true, 1, 1, true), With(1, WORKER)), Lost(3, Without(1), With(1, WORKER)),
                       Lost(3, Without(2), With(1, WORKER)), Lost(3, Without(3), With(1, WORKER)),
                       Lost(3, Without(3), With(2, CHANGED)), Lost(3, Without(3), With(3, WORKER))]
  }

  lemma LosingMove(i: nat)
    requires i < 10
    ensures Moves(PreferB, LosingTrace()[i], LosingSteps()[i], LosingTrace()[i + 1])
  {
    if i < 4 {
      BadMove(i);
    } else if i < 6 {
      OldSettingsArePut();
    } else {
      OldSettingsAreHeard();
    }
  }

  lemma LosingRun()
    ensures Run(PreferB, LosingTrace(), LosingSteps())
    ensures LastStored(PreferB, LosingTrace(), LosingSteps(), 4, 10, "w")
  {
    forall i: nat | i < 10 ensures Moves(PreferB, LosingTrace()[i], LosingSteps()[i], LosingTrace()[i + 1]) {
      LosingMove(i);
    }
  }

  lemma LosingEnd(s: System)
    requires s == Lost(3, Without(3), With(3, WORKER))
    ensures AllSettled(s) && RunsOn(s, "b", "w") && s.nodes["b"].items["w"].spec != CHANGED.spec
    ensures forall id | id in s.nodes :: s.nodes[id].missed == {}
  {
  }

  /** A node puts a worker it hands over as it has it, not as etcd has it by then: an update it has yet to hear of is
      undone, and a settled node runs with settings that a client has replaced. No event is ignored. */
  lemma HandoverLosesUpdate() returns (trace: seq<System>, steps: seq<Step>)
    ensures Run(PreferB, trace, steps) && |steps| == 10 && LastStored(PreferB, trace, steps, 4, 10, "w")
    ensures AllSettled(trace[10]) && forall id | id in trace[10].nodes :: trace[10].nodes[id].missed == {}
    ensures RunsOn(trace[10], "b", "w") && trace[10].nodes["b"].items["w"].spec != steps[4].data.spec
  {
    trace, steps := LosingTrace(), LosingSteps();
    LosingRun();
    LosingEnd(trace[10]);
  }
}
