/** Runs that end with something left of a cloud that is gone, although every node has heard everything: the key of its
    healer, the healer itself, or the key of its resolver. */
module CascadeRuns {
  import opened Etcd
  import opened Clusters
  import opened Managers
  import opened Cascade
  import Alerts
  import Nodes

  /** The ring {"a"} gives everything to a, the ring {"b"} to somebody else. */
  function ToA(ring: set<string>, key: string): string {
    if "a" in ring then "a" else "b"
  }

  const HEALER := Worker("", Alerts.QUIET)
  const RUNNING: map<string, Worker> := map["c" := HEALER]
  const CLOUDS: seq<Event<string>> := [Put("c", ""), Delete("c")]
  const HEALERS: seq<Event<Worker>> := [Put("c", HEALER), Delete("c"), Put("c", HEALER)]

  /** The node's healers: its ring, its place in the log, the revision it has read, and what it runs. */
  function Healers(ring: set<string>, at: nat, snap: nat, items: map<string, Worker>, missed: set<string>, turned: bool)
    : Nodes.Node
  {
    Nodes.Node(ring, 0, at, snap, items, {}, missed, turned, {})
  }

  const IDLE := Healers({"a"}, 0, 0, map[], {}, false)
  const WORKING := Works(true, true, true, true)

  function Only(clouds: nat, healers: nat, heard: nat, known: set<string>, healing: Nodes.Node): System
    requires clouds <= 2 && healers <= 3
  {
    System(CLOUDS[..clouds], HEALERS[..healers], known, map["a" := Node(heard, known, healing)])
  }

  predicate Succeeds(step: Step) {
    match step
    case HearCloud(_, works) => works == WORKING
    case HearHealer(_, backend) => backend
    case Reload(_, _, failing, _) => failing == {}
    case Join(_, _, failing, unstarted) => failing == {} && unstarted == {}
    case Leave(_, failing, unput, _) => failing == {} && unput == {}
    case Crash(_) => false
    case _ => true
  }

  /** In the runs below nothing fails. */
  ghost predicate Moves(s: System, step: Step, t: System) {
    Enabled(ToA, s, step) && t == Apply(ToA, s, step) && Succeeds(step)
  }

  lemma LogContents()
    ensures Contents(CLOUDS[..1], 0) == map[] && Contents(CLOUDS[..1], 1) == map["c" := ""]
    ensures Contents(CLOUDS[..2], 1) == map["c" := ""] && Contents(CLOUDS[..2], 2) == map[]
    ensures Contents(HEALERS[..1], 0) == map[] && Contents(HEALERS[..1], 1) == RUNNING
    ensures Contents(HEALERS[..2], 0) == map[] && Contents(HEALERS[..2], 1) == RUNNING
    ensures Contents(HEALERS[..2], 2) == map[]
    ensures Contents(HEALERS[..3], 1) == RUNNING && Contents(HEALERS[..3], 2) == map[]
    ensures Contents(HEALERS[..3], 3) == RUNNING
  {
    assert Contents(CLOUDS[..2], 0) == map[];
    assert Contents(HEALERS[..3], 0) == map[];
  }

  // ----- a cloud and its healer come and go, and then the ring turns -----

  function Begun(i: nat): System {
    match i
    case 0 => INIT
    case 1 => Only(0, 0, 0, {}, IDLE)
    case 2 => Only(1, 0, 0, {}, IDLE)
    case 3 => Only(1, 1, 0, {}, IDLE)
    case 4 => Only(1, 1, 1, {"c"}, IDLE)
    case 5 => Only(1, 1, 1, {"c"}, Healers({"a"}, 1, 0, RUNNING, {}, false))
    case 6 => Only(2, 1, 1, {"c"}, Healers({"a"}, 1, 0, RUNNING, {}, false))
    case 7 => Only(2, 2, 2, {}, Healers({"a"}, 1, 0, RUNNING, {}, false))
    case _ => Only(2, 2, 2, {}, Healers({"b"}, 1, 0, RUNNING, {}, true))
  }

  function Beginning(i: nat): Step {
    match i
    case 0 => Join("a", {"a"}, {}, {})
    case 1 => StoreCloud("c", "")
    case 2 => StoreHealer("c", HEALER)
    case 3 => HearCloud("a", WORKING)
    case 4 => HearHealer("a", true)
    case 5 => DeleteCloud("c")
    case 6 => HearCloud("a", WORKING)
    case _ => Turn("a", {"b"})
  }

  lemma NodeJoins(id: string, s: System)
    requires id !in s.nodes && s.healers == [] && s.resolvers == {}
    ensures Moves(s, Join(id, {"a"}, {}, {}), s.(nodes := s.nodes[id := Node(|s.clouds|, {}, IDLE)]))
  {
    assert Contents(s.healers, 0) == map[];
    var n := Nodes.Joining(ToA, s.healers, {"a"}, 0, id, Unloaded(s, {}));
    assert n.items == map[] && n.failed == {};
    assert Loaded(ToA, s, id, {"a"}, {}, {}) == Node(|s.clouds|, {}, IDLE);
  }

  lemma CloudIsStored(i: nat)
    requires 1 <= i < 4
    ensures Moves(Begun(i), Beginning(i), Begun(i + 1))
  {
    LogContents();
    assert CLOUDS[..0] + [Put("c", "")] == CLOUDS[..1] && HEALERS[..0] + [Put("c", HEALER)] == HEALERS[..1];
    assert {} + {"c"} == {"c"};
  }

  lemma HealerIsStarted()
    ensures Moves(Begun(4), Beginning(4), Begun(5))
  {
    LogContents();
    var n := Nodes.Consuming(ToA, HEALERS[..1], "a", IDLE, true);
    assert n.items == RUNNING && n.touched == {} && n.missed == {} && n.failed == {};
  }

  lemma CloudIsDeleted(i: nat)
    requires 5 <= i < 8
    ensures Moves(Begun(i), Beginning(i), Begun(i + 1))
  {
    LogContents();
    assert CLOUDS[..1] + [Delete("c")] == CLOUDS[..2] && HEALERS[..1] + [Delete("c")] == HEALERS[..2];
    assert {"c"} - {"c"} == {};
  }

  lemma BegunMove(i: nat)
    requires i < 8
    ensures Moves(Begun(i), Beginning(i), Begun(i + 1))
  {
    if i == 0 {
      NodeJoins("a", INIT);
    } else if i < 4 {
      CloudIsStored(i);
    } else if i == 4 {
      HealerIsStarted();
    } else {
      CloudIsDeleted(i);
    }
  }

  // ----- the healer is handed over, although everybody has heard that its cloud is gone -----

  function Stranding(i: nat): System {
    if i <= 8 then Begun(i)
    else Only(2, 3, 2, {}, Healers({"b"}, if i <= 11 then i - 8 else 3, 1, map[], {}, false))
  }

  function StrandingStep(i: nat): Step {
    if i < 8 then Beginning(i)
    else if i == 8 then Reload("a", 1, {}, [Put("c", HEALER)])
    else HearHealer("a", true)
  }

  lemma HandedOverTooLate()
    ensures Moves(Stranding(8), StrandingStep(8), Stranding(9))
  {
    LogContents();
    var n := Healers({"b"}, 1, 0, RUNNING, {}, true);
    assert HEALERS[..2] + [Put("c", HEALER)] == HEALERS[..3];
    assert Handed(ToA, Stranding(8), "a", 1, {}) == {"c"};
    assert Writes([Put("c", HEALER)], n.items, {"c"});
    var m := Nodes.Reloading(ToA, HEALERS[..2], "a", n, 1, {});
    assert m.items == map[] && m.touched == {} && m.missed == {} && m.failed == {};
  }

  lemma StrandingMove(i: nat)
    requires i < 11
    ensures Moves(Stranding(i), StrandingStep(i), Stranding(i + 1))
  {
    LogContents();
    if i < 8 {
      BegunMove(i);
    } else if i == 8 {
      HandedOverTooLate();
    } else {
      var n := Nodes.Consuming(ToA, HEALERS[..3], "a", Healers({"b"}, i - 8, 1, map[], {}, false), true);
      assert n.items == map[] && n.touched == {} && n.missed == {} && n.failed == {};
    }
  }

  /** A run in which nothing fails, and that ends settled, with the key of a healer whose cloud is gone. */
  lemma LateHandoverStrands() returns (trace: seq<System>, steps: seq<Step>)
    ensures Run(ToA, trace, steps) && CloudsHeard(trace[|steps|]) && Settled(trace[|steps|], "a")
    ensures forall i | 0 <= i < |steps| :: Succeeds(steps[i])
    ensures HealerStranded(trace[|steps|], "c")
  {
    trace, steps := seq(12, (i: nat) => Stranding(i)), seq(11, (i: nat) => StrandingStep(i));
    forall i: nat | i < 11
      ensures StepAt(ToA, trace, steps, i) && Succeeds(steps[i])
    {
      StrandingMove(i);
    }
    LogContents();
    assert trace[11] == Only(2, 3, 2, {}, Healers({"b"}, 3, 1, map[], {}, false));
    assert !Pending(trace[11], "c");
  }

  // ----- or its deletion is heard only after the turn -----

  function Ignoring(i: nat): System {
    if i <= 8 then Begun(i)
    else if i == 9 then Only(2, 2, 2, {}, Healers({"b"}, 2, 0, RUNNING, {"c"}, true))
    else Only(2, 2, 2, {}, Healers({"b"}, 2, 2, RUNNING, {"c"}, false))
  }

  function IgnoringStep(i: nat): Step {
    if i < 8 then Beginning(i)
    else if i == 8 then HearHealer("a", true)
    else Reload("a", 2, {}, [])
  }

  lemma DeletionIsIgnored()
    ensures Moves(Ignoring(8), IgnoringStep(8), Ignoring(9))
  {
    LogContents();
    var n := Nodes.Consuming(ToA, HEALERS[..2], "a", Healers({"b"}, 1, 0, RUNNING, {}, true), true);
    assert n.items == RUNNING && n.touched == {} && n.missed == {"c"} && n.failed == {};
  }

  lemma NothingIsHandedOver()
    ensures Moves(Ignoring(9), IgnoringStep(9), Ignoring(10))
    ensures !StrandsHealer(ToA, Ignoring(9), IgnoringStep(9), "c")
  {
    LogContents();
    var n := Healers({"b"}, 2, 0, RUNNING, {"c"}, true);
    assert Handed(ToA, Ignoring(9), "a", 2, {}) == {};
    assert HEALERS[..2] + [] == HEALERS[..2];
    var m := Nodes.Reloading(ToA, HEALERS[..2], "a", n, 2, {});
    assert m.items == RUNNING && m.touched == {} && m.missed == {"c"} && m.failed == {};
  }

  lemma IgnoringMove(i: nat)
    requires i < 10
    ensures Moves(Ignoring(i), IgnoringStep(i), Ignoring(i + 1))
    ensures !StrandsHealer(ToA, Ignoring(i), IgnoringStep(i), "c")
  {
    if i < 8 {
      BegunMove(i);
      assert i > 0 ==> "a" in Ignoring(i).nodes;
    } else if i == 8 {
      DeletionIsIgnored();
    } else {
      NothingIsHandedOver();
    }
  }

  /** A run in which no step strands the healer's key, and which ends settled with a healer that runs although its
      cloud and its key are gone. */
  lemma IgnoredDeletionLeavesHealer() returns (trace: seq<System>, steps: seq<Step>)
    ensures Run(ToA, trace, steps) && CloudsHeard(trace[|steps|]) && Settled(trace[|steps|], "a")
    ensures forall i: nat | i < |steps| :: StepAt(ToA, trace, steps, i) && !StrandsHealer(ToA, trace[i], steps[i], "c")
    ensures var s := trace[|steps|];
            && "c" !in Live(s.clouds) && "c" !in Live(s.healers)
            && "c" in s.nodes["a"].healing.items
  {
    trace, steps := seq(11, (i: nat) => Ignoring(i)), seq(10, (i: nat) => IgnoringStep(i));
    forall i: nat | i < 10
      ensures StepAt(ToA, trace, steps, i) && !StrandsHealer(ToA, trace[i], steps[i], "c")
    {
      IgnoringMove(i);
    }
    LogContents();
    assert trace[10] == Only(2, 2, 2, {}, Healers({"b"}, 2, 2, RUNNING, {"c"}, false));
  }

  // ----- or one of two nodes leaves before it has heard of the cloud's deletion -----

  function Both(clouds: nat, known: set<string>, a: Node, b: Node): System
    requires clouds <= 2
  {
    System(CLOUDS[..clouds], [], known, map["a" := a, "b" := b])
  }

  function Leaving(i: nat): System {
    match i
    case 0 => INIT
    case 1 => Only(0, 0, 0, {}, IDLE)
    case 2 => Both(0, {}, Node(0, {}, IDLE), Node(0, {}, IDLE))
    case 3 => Both(1, {}, Node(0, {}, IDLE), Node(0, {}, IDLE))
    case 4 => Both(1, {"c"}, Node(1, {"c"}, IDLE), Node(0, {}, IDLE))
    case 5 => Both(1, {"c"}, Node(1, {"c"}, IDLE), Node(1, {"c"}, IDLE))
    case 6 => Both(2, {"c"}, Node(1, {"c"}, IDLE), Node(1, {"c"}, IDLE))
    case 7 => Both(2, {}, Node(1, {"c"}, IDLE), Node(2, {}, IDLE))
    case _ => System(CLOUDS, [], {"c"}, map["b" := Node(2, {}, IDLE)])
  }

  function LeavingStep(i: nat): Step {
    match i
    case 0 => Join("a", {"a"}, {}, {})
    case 1 => Join("b", {"a"}, {}, {})
    case 2 => StoreCloud("c", "")
    case 3 => HearCloud("a", WORKING)
    case 4 => HearCloud("b", WORKING)
    case 5 => DeleteCloud("c")
    case 6 => HearCloud("b", WORKING)
    case _ => Leave("a", {}, {}, [])
  }

  lemma BothHearOfCloud(i: nat)
    requires 2 <= i < 5
    ensures Moves(Leaving(i), LeavingStep(i), Leaving(i + 1))
  {
    LogContents();
    assert CLOUDS[..0] + [Put("c", "")] == CLOUDS[..1];
    assert {} + {"c"} == {"c"} && {"c"} + {"c"} == {"c"};
  }

  lemma OneHearsOfDeletion(i: nat)
    requires 5 <= i < 8
    ensures Moves(Leaving(i), LeavingStep(i), Leaving(i + 1))
  {
    LogContents();
    assert CLOUDS[..1] + [Delete("c")] == CLOUDS[..2] && CLOUDS[..2] == CLOUDS;
    assert {"c"} - {"c"} == {} && {} + ({"c"} - {}) == {"c"};
    assert Live<Worker>([]) == {};
    var s := Leaving(7);
    assert s.nodes - {"a"} == map["b" := Node(2, {}, IDLE)];
    assert Writes([], s.nodes["a"].healing.items, {});
  }

  lemma LeavingMove(i: nat)
    requires i < 8
    ensures Moves(Leaving(i), LeavingStep(i), Leaving(i + 1))
  {
    if i == 0 {
      NodeJoins("a", INIT);
    } else if i == 1 {
      NodeJoins("b", Only(0, 0, 0, {}, IDLE));
    } else if i < 5 {
      BothHearOfCloud(i);
    } else {
      OneHearsOfDeletion(i);
    }
  }

  /** A run in which nothing fails, and whose last node has heard everything, but which ends with the key of a resolver
      whose cloud is gone. */
  lemma LeaveStrandsResolver() returns (trace: seq<System>, steps: seq<Step>)
    ensures Run(ToA, trace, steps) && CloudsHeard(trace[|steps|]) && Settled(trace[|steps|], "b")
    ensures forall i | 0 <= i < |steps| :: Succeeds(steps[i])
    ensures ResolverStranded(trace[|steps|], "c")
  {
    trace, steps := seq(9, (i: nat) => Leaving(i)), seq(8, (i: nat) => LeavingStep(i));
    forall i: nat | i < 8
      ensures StepAt(ToA, trace, steps, i) && Succeeds(steps[i])
    {
      LeavingMove(i);
    }
    LogContents();
    assert CLOUDS == CLOUDS[..2];
    assert trace[8] == System(CLOUDS, [], {"c"}, map["b" := Node(2, {}, IDLE)]);
    assert !AnyConcerned(trace[8], "c");
  }
}
