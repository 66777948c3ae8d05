/** pkg/common/registry.go and pkg/autoscaler/manager.go: the workers one node runs, and how
    watch events and reloads change them. */
module Managers {
  import opened Etcd
  import opened Clusters
  import opened Options
  import Alerts

  /** A worker, as JSON holds it: its settings, and the persisted state of its alert. */
  datatype Worker = Worker(spec: string, alert: Alerts.State)

  /** The map every manager maintains. */
  class Registry {
    var items: map<string, Worker>

    constructor ()
      ensures items == map[]
    {
      items := map[];
    }

    function Get(key: string): Option<Worker>
      reads this
    {
      if key in items then Some(items[key]) else None
    }

    method Set(key: string, value: Worker)
      modifies this
      ensures items == old(items)[key := value]
    {
      items := items[key := value];
    }

    method Delete(key: string)
      modifies this
      ensures items == old(items) - {key}
    {
      items := items - {key};
    }
  }

  // ----- what the operations amount to -----

  /** The registry after one watch event: existed tells a modification from a creation, mine whether
      the ring assigns the key to this node, backend whether the metric backend can be had. */
  function Handled(items: map<string, Worker>, e: Event<Worker>, existed: bool, mine: bool, backend: bool)
    : map<string, Worker>
  {
    match e
    case Put(k, v) =>
      if existed && k !in items then items
      else if !mine then items
      else if backend then items[k := v]
      else if existed then items - {k}
      else items
    case Delete(k) =>
      if mine then items - {k} else items
  }

  /** The registered workers a reload hands over: etcd has them, and the ring gives them away. */
  function Moved(items: map<string, Worker>, stored: map<string, Worker>, hash: Hash, ring: set<string>,
                 id: string, failing: set<string>): set<string>
  {
    set k | k in stored && k in items && !IsWorker(hash, ring, id, k) && k !in failing
  }

  /** The workers a reload starts: etcd has them, the ring assigns them here, and they do not run yet. */
  function Missing(items: map<string, Worker>, stored: map<string, Worker>, hash: Hash, ring: set<string>,
                   id: string, failing: set<string>): set<string>
  {
    set k | k in stored && k !in items && IsWorker(hash, ring, id, k) && k !in failing
  }

  function Rebalanced(items: map<string, Worker>, stored: map<string, Worker>, hash: Hash, ring: set<string>,
                      id: string, failing: set<string>): map<string, Worker>
  {
    (items - Moved(items, stored, hash, ring, id, failing))
    + (map k | k in Missing(items, stored, hash, ring, id, failing) :: stored[k])
  }

  /** The puts write each of the given workers once, in whatever order the goroutines get there. */
  ghost predicate Writes(puts: seq<Event<Worker>>, items: map<string, Worker>, keys: set<string>) {
    && (forall i | 0 <= i < |puts| :: puts[i].key in keys && puts[i].key in items
                                      && puts[i] == Put(puts[i].key, items[puts[i].key]))
    && (forall i, j | 0 <= i < j < |puts| :: puts[i].key != puts[j].key)
    && (forall k | k in keys :: exists i :: 0 <= i < |puts| && puts[i].key == k)
  }

  lemma WritesOneMore(puts: seq<Event<Worker>>, items: map<string, Worker>, keys: set<string>, k: string)
    requires Writes(puts, items, keys) && k !in keys && k in items
    ensures Writes(puts + [Put(k, items[k])], items, keys + {k})
  {
    var more := puts + [Put(k, items[k])];
    assert more[|puts|].key == k;
    forall k' | k' in keys + {k} ensures exists i :: 0 <= i < |more| && more[i].key == k' {
      if k' != k {
        var i :| 0 <= i < |puts| && puts[i].key == k';
        assert more[i].key == k';
      }
    }
  }

  lemma OneFewer(keys: set<string>, todo: set<string>, k: string)
    requires k in todo
    ensures keys - (todo - {k}) == if k in keys then keys - todo + {k} else keys - todo
  {
  }

  /** The registry while a reload still has some keys to look at. */
  ghost function Partly(items: map<string, Worker>, stored: map<string, Worker>, moved: set<string>,
                        missing: set<string>, todo: set<string>): map<string, Worker>
    requires missing <= stored.Keys
  {
    (items - (moved - todo)) + (map k | k in missing - todo :: stored[k])
  }

  lemma PartlyOneMore(items: map<string, Worker>, stored: map<string, Worker>, moved: set<string>,
                      missing: set<string>, todo: set<string>, k: string)
    requires missing <= stored.Keys && moved <= items.Keys && missing !! items.Keys && k in todo
    ensures Partly(items, stored, moved, missing, todo - {k}) ==
            var now := Partly(items, stored, moved, missing, todo);
            if k in moved then now - {k} else if k in missing then now[k := stored[k]] else now
    ensures k in Partly(items, stored, moved, missing, todo) <==> k in items
    ensures k in items ==> Partly(items, stored, moved, missing, todo)[k] == items[k]
  {
  }

  class Manager {
    const rgt: Registry
    const cluster: Cluster

    constructor (cluster: Cluster)
      ensures this.cluster == cluster && fresh(rgt) && rgt.items == map[]
    {
      this.cluster := cluster;
      this.rgt := new Registry();
    }

    /** load, at start-up: every stored worker whose provider and backend can be had is started. */
    method Load(stored: map<string, Worker>, failing: set<string>)
      requires rgt.items == map[]
      modifies rgt
      ensures rgt.items == Rebalanced(map[], stored, cluster.hash, cluster.ring, cluster.local.id, failing)
      ensures rgt.items == map k | k in stored && cluster.LocalIsWorker(k) && k !in failing :: stored[k]
    {
      var todo := stored.Keys;
      ghost var missing := Missing(map[], stored, cluster.hash, cluster.ring, cluster.local.id, failing);
      while todo != {}
        invariant todo <= stored.Keys
        invariant rgt.items == map k | k in missing - todo :: stored[k]
      {
        var name :| name in todo;
        if name !in failing {
          StartScaler(name, stored[name], true);
        }
        assert missing - (todo - {name}) ==
               if name in missing then missing - todo + {name} else missing - todo;
        todo := todo - {name};
      }
      assert missing - todo == missing;
    }

    method StartScaler(name: string, data: Worker, backend: bool)
      modifies rgt
      ensures rgt.items ==
              if cluster.LocalIsWorker(name) && backend then old(rgt.items)[name := data] else old(rgt.items)
    {
      if !cluster.LocalIsWorker(name) {
        return;
      }
      if !backend {
        return;
      }
      rgt.Set(name, data);
    }

    method StopScaler(name: string)
      modifies rgt
      ensures rgt.items == if cluster.LocalIsWorker(name) then old(rgt.items) - {name} else old(rgt.items)
    {
      if !cluster.LocalIsWorker(name) {
        return;
      }
      rgt.Delete(name);
    }

    /** One event of the watch in Run. It is about its own worker only, which somebody else may own; a deletion stops
        it, a creation starts it, and a modification starts it anew if it runs, or just stops it without a backend. */
    method Handle(e: Event<Worker>, existed: bool, backend: bool)
      modifies rgt
      ensures rgt.items == Handled(old(rgt.items), e, existed, cluster.LocalIsWorker(e.key), backend)
      ensures rgt.items - {e.key} == old(rgt.items) - {e.key}
      ensures !cluster.LocalIsWorker(e.key) ==> rgt.items == old(rgt.items)
      ensures cluster.LocalIsWorker(e.key) && e.Delete? ==> e.key !in rgt.items
      ensures e.Put? && existed && e.key !in old(rgt.items) ==> rgt.items == old(rgt.items)
      ensures e.Put? && !existed && !backend ==> rgt.items == old(rgt.items)
      ensures cluster.LocalIsWorker(e.key) && e.Put? && existed && !backend ==> e.key !in rgt.items
      ensures cluster.LocalIsWorker(e.key) && e.Put? && (!existed || e.key in old(rgt.items)) && backend ==>
                e.key in rgt.items && rgt.items[e.key] == e.value
    {
      match e {
        case Put(name, data) =>
          if !existed {
            StartScaler(name, data, backend);
          } else {
            if rgt.Get(name).Some? {
              StopScaler(name);
              StartScaler(name, data, backend);
            }
          }
        case Delete(name) =>
          if rgt.Get(name).Some? {
            StopScaler(name);
          }
      }
    }

    /** rebalance for one stored worker, in its own goroutine. */
    method RebalanceOne(name: string, data: Worker, failing: bool) returns (put: bool)
      modifies rgt
      ensures put <==> !cluster.LocalIsWorker(name) && name in old(rgt.items) && !failing
      ensures rgt.items ==
              if put then old(rgt.items) - {name}
              else if cluster.LocalIsWorker(name) && name !in old(rgt.items) && !failing
                then old(rgt.items)[name := data]
              else old(rgt.items)
    {
      put := false;
      var running := rgt.Get(name);
      if !cluster.LocalIsWorker(name) {
        if running.Some? && !failing {
          put := true;
          rgt.Delete(name);
        }
      } else if running.None? {
        StartScaler(name, data, !failing);
      }
    }

    /** rebalance, given the stored workers it reads. A key fails when its put, its provider or its
        backend does; the result is what was put, in order. A worker that runs and is not handed over stays just as
        it is, and what is put is just what the registry loses. */
    method Rebalance(stored: map<string, Worker>, failing: set<string>) returns (puts: seq<Event<Worker>>)
      modifies rgt
      ensures rgt.items ==
              Rebalanced(old(rgt.items), stored, cluster.hash, cluster.ring, cluster.local.id, failing)
      ensures Writes(puts, old(rgt.items),
                     Moved(old(rgt.items), stored, cluster.hash, cluster.ring, cluster.local.id, failing))
      ensures Writes(puts, old(rgt.items), old(rgt.items).Keys - rgt.items.Keys)
      ensures forall k | k in old(rgt.items) ::
                if k in stored && !cluster.LocalIsWorker(k) && k !in failing then k !in rgt.items
                else k in rgt.items && rgt.items[k] == old(rgt.items)[k]
      ensures forall k | k !in old(rgt.items) ::
                if k in stored && cluster.LocalIsWorker(k) && k !in failing
                then k in rgt.items && rgt.items[k] == stored[k]
                else k !in rgt.items
    {
      puts := [];
      var todo := stored.Keys;
      ghost var items := rgt.items;
      ghost var moved := Moved(items, stored, cluster.hash, cluster.ring, cluster.local.id, failing);
      ghost var missing := Missing(items, stored, cluster.hash, cluster.ring, cluster.local.id, failing);
      while todo != {}
        invariant todo <= stored.Keys
        invariant rgt.items == Partly(items, stored, moved, missing, todo)
        invariant Writes(puts, items, moved - todo)
      {
        var name :| name in todo;
        var running := rgt.Get(name);
        var put := RebalanceOne(name, stored[name], name in failing);
        PartlyOneMore(items, stored, moved, missing, todo, name);
        OneFewer(moved, todo, name);
        if put {
          WritesOneMore(puts, items, moved - todo, name);
          puts := puts + [Put(name, running.value)];
        }
        todo := todo - {name};
      }
      assert moved - todo == moved && missing - todo == missing;
      assert items.Keys - rgt.items.Keys == moved;
    }

    /** save, on the way out: everything registered is put, unless that fails, and stopped if still ours. */
    method Save(failing: set<string>) returns (puts: seq<Event<Worker>>)
      modifies rgt
      ensures Writes(puts, old(rgt.items), old(rgt.items).Keys - failing)
      ensures rgt.items == map k | k in old(rgt.items) && !cluster.LocalIsWorker(k) :: old(rgt.items)[k]
    {
      puts := [];
      var items := rgt.items;
      var todo := items.Keys;
      ghost var all := items.Keys - failing;
      while todo != {}
        invariant todo <= items.Keys
        invariant Writes(puts, items, all - todo)
        invariant rgt.items == map k | k in items && (k in todo || !cluster.LocalIsWorker(k)) :: items[k]
      {
        var name :| name in todo;
        OneFewer(all, todo, name);
        if name !in failing {
          WritesOneMore(puts, items, all - todo, name);
          puts := puts + [Put(name, items[name])];
        }
        StopScaler(name);
        todo := todo - {name};
      }
      assert all - todo == all;
    }
  }
}
