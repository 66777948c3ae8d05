/** pkg/autohealer/manager.go: the manager of one node, which runs name resolvers and healers. */
module HealerManagers {
  import opened Etcd

  // What a node runs after an event, of a cloud and of a healer.

  function Resolving(backend: bool, resolving: set<string>, e: Event<string>, create: bool): set<string> {
    if create then if backend then resolving + {e.key} else resolving
    else if e.Put? then resolving
    else resolving - {e.key}
  }

  function Healing<V>(mine: bool, backend: bool, healing: set<string>, e: Event<V>, create: bool): set<string> {
    if !mine then healing
    else if create then if backend then healing + {e.key} else healing
    else if e.Put? then healing
    else healing - {e.key}
  }

  /** The two kinds of workers in a manager's one registry. */
  datatype Task = Resolver(cloud: string) | Healer(cloud: string)

  class Manager {
    const id: string
    var owner: string -> string     // what the ring says now
    var rqt: set<Task>

    constructor (id: string, owner: string -> string)
      ensures this.id == id && this.owner == owner && rqt == {}
    {
      this.id, this.owner, rqt := id, owner, {};
    }

    ghost function Clouds(): set<string>
      reads this
    {
      set w | w in rqt && w.Resolver? :: w.cloud
    }

    ghost function Healers(): set<string>
      reads this
    {
      set w | w in rqt && w.Healer? :: w.cloud
    }

    /** Everybody starts a name resolver, but only the owner a healer, and nobody without a backend. */
    method StartWorker(w: Task, backend: bool)
      modifies this`rqt
      ensures rqt == if (w.Healer? && owner(w.cloud) != id) || !backend then old(rqt) else old(rqt) + {w}
    {
      if owner(w.cloud) != id && w.Healer? {
        return;
      }
      if !backend {
        return;
      }
      rqt := rqt + {w};
    }

    method StopWorker(w: Task)
      modifies this`rqt
      ensures rqt == if w.Healer? && owner(w.cloud) != id then old(rqt) else old(rqt) - {w}
    {
      if owner(w.cloud) != id && w.Healer? {
        return;
      }
      rqt := rqt - {w};
    }

    /** An event of the watch on clouds: which resolver's key is to be put, and which keys are to be deleted; whether
        that succeeds makes no difference to what follows. */
    method HandleCloud(e: Event<string>, create: bool, backend: bool) returns (puts: set<Task>, deletes: set<Task>)
      requires create ==> e.Put?
      modifies this`rqt
      ensures Clouds() == Resolving(backend, old(Clouds()), e, create) && Healers() == old(Healers())
      ensures puts == if create then {Resolver(e.key)} else {}
      ensures Healer(e.key) in deletes <==> e.Delete?
      ensures Resolver(e.key) in deletes <==> e.Delete? && e.key in old(Clouds())
      ensures forall w | w in deletes :: w.cloud == e.key
    {
      puts, deletes := {}, {};
      var w := Resolver(e.key);
      if create {
        puts := {w};
        StartWorker(w, backend);
      }
      if e.Delete? {
        if w in rqt {
          StopWorker(w);
          deletes := deletes + {w};
        }
        deletes := deletes + {Healer(e.key)};
      }
    }

    /** An event of the watch on healers. */
    method HandleHealer(e: Event<string>, create: bool, backend: bool)
      requires create ==> e.Put?
      modifies this`rqt
      ensures Healers() == Healing(owner(e.key) == id, backend, old(Healers()), e, create) && Clouds() == old(Clouds())
    {
      var w := Healer(e.key);
      if create {
        StartWorker(w, backend);
      }
      if e.Delete? {
        if w in rqt {
          StopWorker(w);
        }
      }
    }

    /** rebalance, over the healers that etcd holds: some are put, on their way to another node. All other workers
        that run stay, resolvers among them, and healers that this node owns and does not run start. */
    method Rebalance(stored: set<string>, failing: set<string>) returns (puts: set<Task>)
      modifies this`rqt
      ensures puts == HandedOver(old(rqt), owner, id, stored - failing)
      ensures rqt == old(rqt) - puts + Owned(owner, id, stored - failing)
      ensures forall w :: w in puts <==>
                w in old(rqt) && w.Healer? && w.cloud in stored && w.cloud !in failing && owner(w.cloud) != id
      ensures forall w :: w in rqt <==>
                if w in old(rqt) then w !in puts
                else w.Healer? && w.cloud in stored && w.cloud !in failing && owner(w.cloud) == id
    {
      puts := {};
      var todo := stored;
      while todo != {}
        invariant todo <= stored
        invariant puts == HandedOver(old(rqt), owner, id, stored - todo - failing)
        invariant rqt == old(rqt) - puts + Owned(owner, id, stored - todo - failing)
      {
        var c :| c in todo;
        if owner(c) != id {
          if Healer(c) in rqt && c !in failing {
            puts := puts + {Healer(c)};
            rqt := rqt - {Healer(c)};
          }
        } else if Healer(c) !in rqt && c !in failing {
          StartWorker(Healer(c), true);
        }
        todo := todo - {c};
      }
      assert stored - todo == stored;
    }
  }

  function HandedOver(rqt: set<Task>, owner: string -> string, id: string, stored: set<string>): set<Task> {
    set c | c in stored && Healer(c) in rqt && owner(c) != id :: Healer(c)
  }

  function Owned(owner: string -> string, id: string, stored: set<string>): set<Task> {
    set c | c in stored && owner(c) == id :: Healer(c)
  }
}
