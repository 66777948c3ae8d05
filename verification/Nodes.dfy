/** One node that shares the workers etcd holds with others: what it does with its next event, with a turn of its
    ring and with a reload, and what that keeps, worker by worker. Scaling and healing managers both work like this. */
module Nodes {
  import opened Etcd
  import opened Options
  import opened Clusters
  import opened Managers
  import Alerts

  /** One running node. */
  datatype Node = Node(
    ring: set<string>,
    heard: nat,                  // membership events replayed into the ring
    at: nat,                     // worker events consumed
    snap: nat,                   // revision of the last get of all workers
    items: map<string, Worker>,  // the registry
    touched: set<string>,        // workers whose alert an evaluation has moved since they were started
    missed: set<string>,         // workers still running although their last event has been ignored
    turned: bool,                // the ring has turned since the last reload
    failed: set<string>          // workers whose start or hand-over has failed the last time it was tried
  )

  // ----- what it does -----

  predicate Mine(hash: Hash, id: string, n: Node, k: string) {
    IsWorker(hash, n.ring, id, k)
  }

  /** The workers a reload has anything to do about. */
  function Tried(hash: Hash, items: map<string, Worker>, stored: map<string, Worker>, ring: set<string>, id: string)
    : set<string>
  {
    Moved(items, stored, hash, ring, id, {}) + Missing(items, stored, hash, ring, id, {})
  }

  function Joining(hash: Hash, log: seq<Event<Worker>>, ring: set<string>, heard: nat, id: string, failing: set<string>)
    : Node
  {
    var stored := Contents(log, |log|);
    Node(ring, heard, |log|, |log|, Rebalanced(map[], stored, hash, ring, id, failing),
         {}, {}, false, Tried(hash, map[], stored, ring, id) * failing)
  }

  /** The node's next event is about a worker it runs, and is ignored all the same: because its ring has given the
      worker away, or because the worker is created anew and its backend cannot be had. */
  predicate Skips(hash: Hash, log: seq<Event<Worker>>, id: string, n: Node, backend: bool)
    requires n.at < |log|
  {
    var k := log[n.at].key;
    k in n.items && (!Mine(hash, id, n, k) || (IsCreate(log, n.at) && !backend))
  }

  /** The node's next event makes it start a worker: one that is created, or replaced while it runs. */
  predicate Starts(hash: Hash, log: seq<Event<Worker>>, id: string, n: Node)
    requires n.at < |log|
  {
    var k := log[n.at].key;
    log[n.at].Put? && Mine(hash, id, n, k) && (IsCreate(log, n.at) || k in n.items)
  }

  function Consuming(hash: Hash, log: seq<Event<Worker>>, id: string, n: Node, backend: bool): Node
    requires n.at < |log|
  {
    var e := log[n.at];
    var items := Handled(n.items, e, e.key in Contents(log, n.at), Mine(hash, id, n, e.key), backend);
    n.(items := items,
       at := n.at + 1,
       touched := if backend then n.touched - {e.key} else n.touched,
       missed := if Skips(hash, log, id, n, backend) then n.missed + {e.key} else n.missed - {e.key},
       failed := if e.Delete? || e.key in items then n.failed - {e.key}
                 else if Starts(hash, log, id, n) && !backend then n.failed + {e.key}
                 else n.failed)
  }

  function Turning(changes: seq<Change>, n: Node, upTo: nat): Node
    requires upTo <= |changes|
  {
    n.(ring := Ring(changes, upTo), heard := upTo, turned := true)
  }

  function Reloading(hash: Hash, log: seq<Event<Worker>>, id: string, n: Node, rev: nat, failing: set<string>)
    : Node
    requires rev <= |log|
  {
    var stored := Contents(log, rev);
    n.(items := Rebalanced(n.items, stored, hash, n.ring, id, failing),
       snap := rev,
       touched := n.touched - Missing(n.items, stored, hash, n.ring, id, failing),
       missed := n.missed - Moved(n.items, stored, hash, n.ring, id, failing),
       turned := false,
       failed := Tried(hash, n.items, stored, n.ring, id) * failing)
  }

  function Evaluating(n: Node, k: string, alert: Alerts.State): Node
    requires k in n.items
  {
    n.(items := n.items[k := n.items[k].(alert := alert)], touched := n.touched + {k})
  }

  // ----- what every step keeps, worker by worker -----

  /** A registered worker carries the settings etcd held at revision q, and the very alert while
      no evaluation has moved it. */
  ghost predicate CarriesAt(log: seq<Event<Worker>>, n: Node, k: string, q: nat) {
    && q <= |log| && n.at <= q && (q == n.at || q <= n.snap)
    && k in n.items && k in Contents(log, q)
    && n.items[k].spec == Contents(log, q)[k].spec
    && (k !in n.touched ==> n.items[k] == Contents(log, q)[k])
  }

  /** Etcd held k at revision q, which the node has reached, or read. */
  ghost predicate StoredAt(log: seq<Event<Worker>>, n: Node, k: string, q: nat) {
    q <= |log| && n.at <= q && (q == n.at || q <= n.snap) && k in Contents(log, q)
  }

  ghost predicate KeyInv(hash: Hash, log: seq<Event<Worker>>, id: string, n: Node, k: string)
    requires n.at <= |log|
  {
    RunningInv(hash, log, id, n, k) && MissedInv(log, n, k) && FailedInv(hash, log, id, n, k)
  }

  /** A registered worker has been read from etcd; and it is registered just where it should be, if the node is not
      about to find out otherwise. */
  ghost predicate RunningInv(hash: Hash, log: seq<Event<Worker>>, id: string, n: Node, k: string)
    requires n.at <= |log|
  {
    && (k in n.items && k !in n.missed ==> exists q: nat :: CarriesAt(log, n, k, q))
    && (k !in n.items && Mine(hash, id, n, k) ==>
          n.turned || k in n.failed || k !in Contents(log, n.at) || Deleted(log, n.at, |log|, k))
    && (k in n.items && k !in n.missed && !Mine(hash, id, n, k) ==>
          n.turned || k in n.failed || Deleted(log, n.at, |log|, k))
  }

  ghost predicate MissedInv(log: seq<Event<Worker>>, n: Node, k: string)
    requires n.at <= |log|
  {
    k in n.missed ==> k in n.items && Written(log, 0, n.at, k)
  }

  /** What has failed to start is stored, but does not run; what has failed to be handed over is stored, and runs. */
  ghost predicate FailedInv(hash: Hash, log: seq<Event<Worker>>, id: string, n: Node, k: string)
    requires n.at <= |log|
  {
    && (k in n.failed && !n.turned ==> (k in n.items <==> !Mine(hash, id, n, k)))
    && (k in n.failed ==> exists q: nat :: StoredAt(log, n, k, q))
  }

  lemma DeletedLater(log: seq<Event<Worker>>, more: seq<Event<Worker>>, p: nat, k: string)
    requires Deleted(log, p, |log|, k)
    ensures Deleted(log + more, p, |log + more|, k)
  {
    var i :| p <= i < |log| && log[i] == Delete(k);
    assert (log + more)[i] == Delete(k);
  }

  lemma LogGrows(hash: Hash, log: seq<Event<Worker>>, more: seq<Event<Worker>>, id: string, n: Node, k: string)
    requires n.at <= |log| && KeyInv(hash, log, id, n, k)
    ensures KeyInv(hash, log + more, id, n, k)
  {
    if k in n.items && k !in n.missed {
      var q: nat :| CarriesAt(log, n, k, q);
      ContentsOfPrefix(log, more, q);
      assert CarriesAt(log + more, n, k, q);
    }
    if k in n.missed {
      var i :| 0 <= i < n.at && log[i].key == k;
      assert (log + more)[i].key == k;
    }
    if k in n.failed {
      var q: nat :| StoredAt(log, n, k, q);
      ContentsOfPrefix(log, more, q);
      assert StoredAt(log + more, n, k, q);
    }
    ContentsOfPrefix(log, more, n.at);
    if Deleted(log, n.at, |log|, k) {
      DeletedLater(log, more, n.at, k);
    }
  }

  lemma ConsumeKeepsOtherKey(hash: Hash, log: seq<Event<Worker>>, id: string, n: Node, backend: bool, k: string)
    requires n.at < |log| && KeyInv(hash, log, id, n, k) && log[n.at].key != k
    ensures KeyInv(hash, log, id, Consuming(hash, log, id, n, backend), k)
  {
    var m := Consuming(hash, log, id, n, backend);
    assert (k in m.items <==> k in n.items) && (k in n.items ==> m.items[k] == n.items[k]);
    assert SameAt(Contents(log, n.at), Contents(log, n.at + 1), k);
    if k in n.items && k !in n.missed {
      var q: nat :| CarriesAt(log, n, k, q);
      assert CarriesAt(log, m, k, if q == n.at then n.at + 1 else q);
    }
    if k in n.failed {
      var q: nat :| StoredAt(log, n, k, q);
      assert StoredAt(log, m, k, if q == n.at then n.at + 1 else q);
    }
    if Deleted(log, n.at, |log|, k) {
      var i :| n.at <= i < |log| && log[i] == Delete(k);
      assert i != n.at;
    }
  }

  lemma ConsumeKeepsItsKey(hash: Hash, log: seq<Event<Worker>>, id: string, n: Node, backend: bool)
    requires n.at < |log| && KeyInv(hash, log, id, n, log[n.at].key)
    ensures KeyInv(hash, log, id, Consuming(hash, log, id, n, backend), log[n.at].key)
  {
    var e := log[n.at];
    var k := e.key;
    var m := Consuming(hash, log, id, n, backend);
    assert Written(log, 0, n.at + 1, k);
    if k in m.items && k !in m.missed {
      assert CarriesAt(log, m, k, n.at + 1);
    }
    if e.Put? {
      assert StoredAt(log, m, k, n.at + 1);
    }
    if Deleted(log, n.at, |log|, k) && e.Put? {
      var i :| n.at <= i < |log| && log[i] == Delete(k);
      assert i != n.at;
    }
  }

  lemma ReloadKeepsKey(hash: Hash, log: seq<Event<Worker>>, id: string, n: Node, rev: nat, failing: set<string>,
                       k: string)
    requires n.at <= rev <= |log| && n.snap <= rev && KeyInv(hash, log, id, n, k)
    ensures KeyInv(hash, log, id, Reloading(hash, log, id, n, rev, failing), k)
  {
    var m := Reloading(hash, log, id, n, rev, failing);
    var stored := Contents(log, rev);
    if k in m.failed {
      assert StoredAt(log, m, k, rev);
    }
    if k in n.items && k !in n.missed {
      var q: nat :| CarriesAt(log, n, k, q);
      if k in m.items {
        assert CarriesAt(log, m, k, q);
        if !Mine(hash, id, m, k) && k !in m.failed {
          assert k !in stored;
          GoneMeansDeleted(log, q, rev, k);
        }
      }
    } else if k in m.items && k !in n.items {
      assert CarriesAt(log, m, k, rev);
    } else if k !in n.items && Mine(hash, id, m, k) && k !in m.failed && k in Contents(log, n.at) {
      assert k !in stored;
      GoneMeansDeleted(log, n.at, rev, k);
    }
  }

  lemma TurnKeepsKey(hash: Hash, log: seq<Event<Worker>>, id: string, n: Node, ring: set<string>, heard: nat, k: string)
    requires n.at <= |log| && KeyInv(hash, log, id, n, k)
    ensures KeyInv(hash, log, id, n.(ring := ring, heard := heard, turned := true), k)
  {
    var m := n.(ring := ring, heard := heard, turned := true);
    if k in n.items && k !in n.missed {
      var q: nat :| CarriesAt(log, n, k, q);
      assert CarriesAt(log, m, k, q);
    }
    if k in n.failed {
      var q: nat :| StoredAt(log, n, k, q);
      assert StoredAt(log, m, k, q);
    }
  }

  lemma EvaluateKeepsKey(hash: Hash, log: seq<Event<Worker>>, id: string, n: Node, key: string, alert: Alerts.State,
                         k: string)
    requires n.at <= |log| && key in n.items && KeyInv(hash, log, id, n, k)
    ensures KeyInv(hash, log, id, Evaluating(n, key, alert), k)
  {
    if k in n.items && k !in n.missed {
      var q: nat :| CarriesAt(log, n, k, q);
      assert CarriesAt(log, Evaluating(n, key, alert), k, q);
    }
    if k in n.failed {
      var q: nat :| StoredAt(log, n, k, q);
      assert StoredAt(log, Evaluating(n, key, alert), k, q);
    }
  }

  lemma JoiningIsOk(hash: Hash, log: seq<Event<Worker>>, ring: set<string>, heard: nat, id: string,
                    failing: set<string>, k: string)
    ensures KeyInv(hash, log, id, Joining(hash, log, ring, heard, id, failing), k)
  {
    var n := Joining(hash, log, ring, heard, id, failing);
    if k in n.items {
      assert CarriesAt(log, n, k, |log|);
    }
    if k in n.failed {
      assert StoredAt(log, n, k, |log|);
    }
  }

  // ----- the history of a node -----

  /** What a run shows of one node: the log, and the node while it is there. */
  datatype View = View(log: seq<Event<Worker>>, node: Option<Node>)

  /** What one step of a run is to the node. */
  datatype Deed =
    | Absent                                                  // it is not there, or goes away
    | Loaded(ring: set<string>, heard: nat, failing: set<string>)
    | Consumed(backend: bool)
    | Reloaded(rev: nat, failing: set<string>)
    | Rested                                                  // none of these

  ghost predicate Does(hash: Hash, id: string, v: View, d: Deed, w: View) {
    v.log <= w.log &&
    match d
    case Absent => w.node.None?
    case Loaded(ring, heard, failing) =>
      && v.node.None? && w.log == v.log
      && w.node == Some(Joining(hash, v.log, ring, heard, id, failing))
    case Consumed(backend) =>
      && v.node.Some? && w.log == v.log && v.node.value.at < |v.log|
      && w.node == Some(Consuming(hash, v.log, id, v.node.value, backend))
    case Reloaded(rev, failing) =>
      && v.node.Some? && rev <= |v.log|
      && w.node == Some(Reloading(hash, v.log, id, v.node.value, rev, failing))
      && forall k | k in Moved(v.node.value.items, Contents(v.log, rev), hash, v.node.value.ring, id, failing) ::
           Written(w.log, |v.log|, |w.log|, k)
    case Rested =>
      && v.node.Some? && w.node.Some? && w.node.value.at == v.node.value.at
      && w.node.value.missed == v.node.value.missed && w.node.value.failed == v.node.value.failed
  }

  ghost predicate DoesAt(hash: Hash, id: string, vs: seq<View>, ds: seq<Deed>, i: nat)
    requires |vs| == |ds| + 1 && i < |ds|
  {
    Does(hash, id, vs[i], ds[i], vs[i + 1])
  }

  ghost predicate History(hash: Hash, id: string, vs: seq<View>, ds: seq<Deed>) {
    && |vs| == |ds| + 1
    && (vs[0].node.Some? ==> vs[0].node.value.missed == {} && vs[0].node.value.failed == {})
    && (forall i: nat | i < |vs| && vs[i].node.Some? :: vs[i].node.value.at <= |vs[i].log|)
    && (forall i: nat | i < |ds| :: DoesAt(hash, id, vs, ds, i))
  }

  lemma DeedOfHistory(hash: Hash, id: string, vs: seq<View>, ds: seq<Deed>, i: nat)
    requires History(hash, id, vs, ds) && 0 < i < |vs|
    ensures Does(hash, id, vs[i - 1], ds[i - 1], vs[i])
  {
    assert DoesAt(hash, id, vs, ds, i - 1);
  }

  /** The deed is about worker k: its event is consumed. */
  predicate IsAbout(v: View, d: Deed, k: string) {
    d.Consumed? && v.node.Some? && v.node.value.at < |v.log| && v.log[v.node.value.at].key == k
  }

  // ----- which events it has missed -----

  /** The node's next event is about k, and the node ignores it. */
  predicate Ignores(hash: Hash, id: string, v: View, d: Deed, k: string) {
    IsAbout(v, d, k) && Skips(hash, v.log, id, v.node.value, d.backend)
  }

  /** In deed j the node ignored an event about k, it is still there at view i, and nothing has been written about k
      from then up to revision r. */
  ghost predicate IgnoredFor(hash: Hash, id: string, vs: seq<View>, ds: seq<Deed>, j: nat, i: nat, r: nat, k: string) {
    && j < i < |vs| && |vs| == |ds| + 1 && Ignores(hash, id, vs[j], ds[j], k)
    && var p := vs[j].node.value.at;
       && p < r <= |vs[i].log| && !Written(vs[i].log, p + 1, r, k)
       && forall m: nat | j < m <= i :: vs[m].node.Some? && p < vs[m].node.value.at
  }

  /** What a deed does to the place and the missed workers of a node that stays. */
  lemma DeedAndMissed(hash: Hash, id: string, v: View, d: Deed, w: View, k: string)
    requires Does(hash, id, v, d, w) && w.node.Some?
    ensures v.node.None? ==> w.node.value.missed == {}
    ensures v.node.Some? ==>
              var n, m := v.node.value, w.node.value;
              && n.at <= m.at <= n.at + 1
              && (k in m.missed && !Ignores(hash, id, v, d, k) ==>
                    k in n.missed && (m.at == n.at || (n.at < |w.log| && w.log[n.at].key != k)))
              && (k in n.missed && k !in m.missed ==>
                    (n.at < m.at && n.at < |w.log| && w.log[n.at].key == k) || Written(w.log, |v.log|, |w.log|, k))
  {
  }

  lemma IgnoredStays(hash: Hash, id: string, vs: seq<View>, ds: seq<Deed>, j: nat, i: nat, r: nat, r': nat, k: string)
    requires i + 1 < |vs| && IgnoredFor(hash, id, vs, ds, j, i, r, k) && vs[i + 1].node.Some?
    requires vs[j].node.value.at < vs[i + 1].node.value.at
    requires vs[i].log <= vs[i + 1].log && r <= r' <= |vs[i + 1].log| && !Written(vs[i + 1].log, r, r', k)
    ensures IgnoredFor(hash, id, vs, ds, j, i + 1, r', k)
  {
    var p, log := vs[j].node.value.at, vs[i + 1].log;
    forall x | p + 1 <= x < r' ensures log[x].key != k {
      if x < r {
        assert log[x] == vs[i].log[x];
      }
    }
  }

  /** A missed worker has an ignored event behind it, and no other one since. */
  lemma {:induction false} MissedHasCause(hash: Hash, id: string, vs: seq<View>, ds: seq<Deed>, i: nat, k: string)
    returns (j: nat)
    requires History(hash, id, vs, ds) && i < |vs| && vs[i].node.Some? && k in vs[i].node.value.missed
    ensures IgnoredFor(hash, id, vs, ds, j, i, vs[i].node.value.at, k)
  {
    assert i > 0;
    DeedOfHistory(hash, id, vs, ds, i);
    DeedAndMissed(hash, id, vs[i - 1], ds[i - 1], vs[i], k);
    if Ignores(hash, id, vs[i - 1], ds[i - 1], k) {
      j := i - 1;
    } else {
      j := MissedHasCause(hash, id, vs, ds, i - 1, k);
      IgnoredStays(hash, id, vs, ds, j, i - 1, vs[i - 1].node.value.at, vs[i].node.value.at, k);
    }
  }

  /** And an ignored event makes its worker missed until there is another one. */
  lemma {:induction false} IgnoredIsMissed(hash: Hash, id: string, vs: seq<View>, ds: seq<Deed>, j: nat, i: nat,
                                           k: string)
    requires History(hash, id, vs, ds) && j < i < |vs| && IgnoredFor(hash, id, vs, ds, j, i, |vs[i].log|, k)
    ensures k in vs[i].node.value.missed
  {
    DeedOfHistory(hash, id, vs, ds, i);
    DeedAndMissed(hash, id, vs[i - 1], ds[i - 1], vs[i], k);
    if j < i - 1 {
      var p, before := vs[j].node.value.at, vs[i - 1].log;
      forall x | p + 1 <= x < |before| ensures before[x].key != k {
        assert vs[i].log[x] == before[x];
      }
      IgnoredIsMissed(hash, id, vs, ds, j, i - 1, k);
    }
  }

  /** Once it has consumed everything, the workers a node is marked as having missed are exactly those about which it
      has ignored the last event. */
  lemma MissedExactly(hash: Hash, id: string, vs: seq<View>, ds: seq<Deed>, i: nat, k: string)
    requires History(hash, id, vs, ds) && i < |vs| && vs[i].node.Some? && vs[i].node.value.at == |vs[i].log|
    ensures k in vs[i].node.value.missed <==> exists j: nat :: IgnoredFor(hash, id, vs, ds, j, i, |vs[i].log|, k)
  {
    if k in vs[i].node.value.missed {
      var j := MissedHasCause(hash, id, vs, ds, i, k);
    }
    if j: nat :| IgnoredFor(hash, id, vs, ds, j, i, |vs[i].log|, k) {
      IgnoredIsMissed(hash, id, vs, ds, j, i, k);
    }
  }

  // ----- which starts and hand-overs have failed -----

  /** The node loads, reloads or consumes an event, and fails to start worker k, or to hand it over. */
  predicate Fails(hash: Hash, id: string, v: View, d: Deed, k: string) {
    match d
    case Loaded(ring, _, failing) => k in failing && k in Tried(hash, map[], Contents(v.log, |v.log|), ring, id)
    case Consumed(backend) =>
      && !backend && IsAbout(v, d, k)
      && Starts(hash, v.log, id, v.node.value) && !Skips(hash, v.log, id, v.node.value, backend)
    case Reloaded(rev, failing) =>
      && v.node.Some? && rev <= |v.log| && k in failing
      && k in Tried(hash, v.node.value.items, Contents(v.log, rev), v.node.value.ring, id)
    case _ => false
  }

  /** An earlier failure about k is over: there is a new attempt, k is deleted, or k runs after an event about it. */
  predicate Overtakes(hash: Hash, id: string, v: View, d: Deed, k: string) {
    || d.Absent? || d.Loaded? || d.Reloaded?
    || (IsAbout(v, d, k)
        && (v.log[v.node.value.at].Delete? || k in Consuming(hash, v.log, id, v.node.value, d.backend).items))
  }

  /** In deed j the node failed at k, and it has not been overtaken up to view i. */
  ghost predicate FailedFor(hash: Hash, id: string, vs: seq<View>, ds: seq<Deed>, j: nat, i: nat, k: string) {
    && j < i < |vs| && |vs| == |ds| + 1 && Fails(hash, id, vs[j], ds[j], k)
    && forall m: nat | j < m < i :: !Overtakes(hash, id, vs[m], ds[m], k)
  }

  lemma DeedAndFailed(hash: Hash, id: string, v: View, d: Deed, w: View, k: string)
    requires Does(hash, id, v, d, w) && w.node.Some?
    ensures k in w.node.value.failed <==>
            Fails(hash, id, v, d, k) || (v.node.Some? && k in v.node.value.failed && !Overtakes(hash, id, v, d, k))
  {
  }

  lemma {:induction false} FailedHasCause(hash: Hash, id: string, vs: seq<View>, ds: seq<Deed>, i: nat, k: string)
    returns (j: nat)
    requires History(hash, id, vs, ds) && i < |vs| && vs[i].node.Some? && k in vs[i].node.value.failed
    ensures FailedFor(hash, id, vs, ds, j, i, k)
  {
    assert i > 0;
    DeedOfHistory(hash, id, vs, ds, i);
    DeedAndFailed(hash, id, vs[i - 1], ds[i - 1], vs[i], k);
    if Fails(hash, id, vs[i - 1], ds[i - 1], k) {
      j := i - 1;
    } else {
      j := FailedHasCause(hash, id, vs, ds, i - 1, k);
    }
  }

  lemma {:induction false} FailureStays(hash: Hash, id: string, vs: seq<View>, ds: seq<Deed>, j: nat, i: nat, k: string)
    requires History(hash, id, vs, ds) && FailedFor(hash, id, vs, ds, j, i, k)
    ensures vs[i].node.Some? && k in vs[i].node.value.failed
  {
    DeedOfHistory(hash, id, vs, ds, i);
    if j < i - 1 {
      FailureStays(hash, id, vs, ds, j, i - 1, k);
      assert !Overtakes(hash, id, vs[i - 1], ds[i - 1], k);
    }
    DeedAndFailed(hash, id, vs[i - 1], ds[i - 1], vs[i], k);
  }

  /** The workers a node is marked as having failed at are exactly those for which the last attempt failed. */
  lemma FailedExactly(hash: Hash, id: string, vs: seq<View>, ds: seq<Deed>, i: nat, k: string)
    requires History(hash, id, vs, ds) && i < |vs| && vs[i].node.Some?
    ensures k in vs[i].node.value.failed <==> exists j: nat :: FailedFor(hash, id, vs, ds, j, i, k)
  {
    if k in vs[i].node.value.failed {
      var j := FailedHasCause(hash, id, vs, ds, i, k);
    }
    if j: nat :| FailedFor(hash, id, vs, ds, j, i, k) {
      FailureStays(hash, id, vs, ds, j, i, k);
    }
  }
}
