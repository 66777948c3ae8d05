/** pkg/cluster/cluster.go: the members of a cluster and the hash ring that shares the workers out. */
module Clusters {
  import opened Etcd
  import opened Options

  datatype Member = Member(name: string, id: string, address: string)

  /** The consistent hash, left abstract: the member a ring assigns a key to. */
  type Hash = (set<string>, string) -> string

  ghost predicate PicksMembers(hash: Hash) {
    forall ring: set<string>, key: string :: ring != {} ==> hash(ring, key) in ring
  }

  /** LocalIsWorker, for the member named by an ID: an empty ring yields an error and an empty ID. */
  predicate IsWorker(hash: Hash, ring: set<string>, id: string, key: string) {
    ring != {} && hash(ring, key) == id
  }

  /** So a key has exactly one worker, as long as there are members at all, and that is a member. */
  lemma OneWorker(hash: Hash, ring: set<string>, key: string)
    requires PicksMembers(hash)
    ensures ring != {} ==> exists id :: id in ring && IsWorker(hash, ring, id, key)
                                        && forall other | IsWorker(hash, ring, other, key) :: other == id
    ensures ring == {} ==> forall id :: !IsWorker(hash, ring, id, key)
  {
    if ring != {} {
      assert hash(ring, key) in ring && IsWorker(hash, ring, hash(ring, key), key);
    }
  }

  // ----- member keys -----

  const PREFIX := "/cluster"

  /** common.Path, which joins its arguments with slashes. */
  function Path(parts: seq<string>): string {
    if parts == [] then ""
    else if |parts| == 1 then parts[0]
    else parts[0] + "/" + Path(parts[1..])
  }

  function MemberKey(id: string): string {
    Path([PREFIX, id])
  }

  function TrimPrefix(s: string, prefix: string): string {
    if prefix <= s then s[|prefix|..] else s
  }

  function TrimLeft(s: string): string {
    if s != "" && s[0] == '/' then TrimLeft(s[1..]) else s
  }

  function TrimRight(s: string): string {
    if s != "" && s[|s| - 1] == '/' then TrimRight(s[..|s| - 1]) else s
  }

  /** strings.Trim with a cutset of one slash. */
  function Trim(s: string): string {
    TrimRight(TrimLeft(s))
  }

  /** How a delete event's key is turned back into a member ID. */
  function MemberId(key: string): string {
    Trim(TrimPrefix(key, PREFIX))
  }

  predicate Bare(id: string) {
    id == "" || (id[0] != '/' && id[|id| - 1] != '/')
  }

  lemma {:induction false} TrimmedIsBare(s: string)
    ensures Bare(Trim(s))
  {
    TrimRightKeepsHead(TrimLeft(s));
    TrimLeftIsBare(s);
    TrimRightIsBare(TrimLeft(s));
  }

  lemma TrimLeftIsBare(s: string)
    ensures TrimLeft(s) == "" || TrimLeft(s)[0] != '/'
  {
  }

  lemma TrimRightIsBare(s: string)
    ensures TrimRight(s) == "" || TrimRight(s)[|TrimRight(s)| - 1] != '/'
  {
  }

  lemma TrimRightKeepsHead(s: string)
    ensures TrimRight(s) != "" ==> s != "" && TrimRight(s)[0] == s[0]
  {
  }

  /** The key of a member leads back to it exactly when its ID neither begins nor ends with a slash. */
  lemma {:induction false} MemberKeyRoundTrip(id: string)
    ensures MemberId(MemberKey(id)) == id <==> Bare(id)
  {
    assert Path([PREFIX, id][1..]) == id;
    assert MemberKey(id) == PREFIX + "/" + id;
    var rest := TrimPrefix(MemberKey(id), PREFIX);
    assert rest == "/" + id;
    assert rest[1..] == id;
    assert TrimLeft(rest) == TrimLeft(id);
    TrimmedIsBare(rest);
  }

  // ----- the ring -----

  /** What one membership event does to the ring. */
  datatype Change = Joined(id: string) | Left(id: string)

  function Decode(e: Event<Member>): Change {
    match e
    case Put(_, m) => Joined(m.id)
    case Delete(key) => Left(MemberId(key))
  }

  function Turn(ring: set<string>, c: Change): set<string> {
    match c
    case Joined(id) => ring + {id}
    case Left(id) => ring - {id}
  }

  function Turned(ring: set<string>, events: seq<Event<Member>>): set<string> {
    if events == [] then ring
    else Turn(Turned(ring, events[..|events| - 1]), Decode(events[|events| - 1]))
  }

  /** The events of a watch response whose values can be decoded. */
  function Readable(events: seq<Option<Event<Member>>>): seq<Event<Member>> {
    if events == [] then []
    else
      var last := events[|events| - 1];
      Readable(events[..|events| - 1]) + if last.Some? then [last.value] else []
  }

  /** The ring after the first n membership changes. */
  function Ring(changes: seq<Change>, n: nat): set<string>
    requires n <= |changes|
  {
    if n == 0 then {} else Turn(Ring(changes, n - 1), changes[n - 1])
  }

  function Decoded(log: seq<Event<Member>>): seq<Change> {
    seq(|log|, i requires 0 <= i < |log| => Decode(log[i]))
  }

  /** The response adds the member, or drops it; what cannot be decoded does neither. */
  predicate Adds(e: Option<Event<Member>>, id: string) {
    e.Some? && e.value.Put? && e.value.value.id == id
  }

  predicate Drops(e: Option<Event<Member>>, id: string) {
    e.Some? && e.value.Delete? && MemberId(e.value.key) == id
  }

  /** Of all the events about the member, number i is the last one, and adds it. */
  ghost predicate AddsLast(events: seq<Option<Event<Member>>>, i: nat, id: string) {
    && i < |events| && Adds(events[i], id)
    && forall j | i < j < |events| :: !Adds(events[j], id) && !Drops(events[j], id)
  }

  ghost predicate Unmentioned(events: seq<Option<Event<Member>>>, id: string) {
    forall j | 0 <= j < |events| :: !Adds(events[j], id) && !Drops(events[j], id)
  }

  /** After the events the member is known as m: so the last event about it says, or there is none, and so it was
      known before. */
  ghost predicate Tells(events: seq<Option<Event<Member>>>, before: map<string, Member>, id: string, m: Member) {
    || (exists i: nat :: AddsLast(events, i, id) && events[i].value.value == m)
    || (Unmentioned(events, id) && Knows(before, id, m))
  }

  predicate Knows(members: map<string, Member>, id: string, m: Member) {
    id in members && members[id] == m
  }

  lemma TellsOneMore(events: seq<Option<Event<Member>>>, e: Option<Event<Member>>, before: map<string, Member>,
                     id: string, m: Member)
    ensures Tells(events + [e], before, id, m) <==>
            (Adds(e, id) && e.value.value == m) || (Tells(events, before, id, m) && !Adds(e, id) && !Drops(e, id))
  {
    var more := events + [e];
    assert more[|events|] == e && forall j | 0 <= j < |events| :: more[j] == events[j];
    if Adds(e, id) {
      assert AddsLast(more, |events|, id);
    }
    if i: nat :| AddsLast(events, i, id) && events[i].value.value == m && !Adds(e, id) && !Drops(e, id) {
      assert AddsLast(more, i, id) && more[i] == events[i];
    }
    if i: nat :| AddsLast(more, i, id) && more[i].value.value == m {
      if i < |events| {
        assert AddsLast(events, i, id);
      }
    }
  }

  /** The member table after the events. */
  function Known(before: map<string, Member>, events: seq<Option<Event<Member>>>): map<string, Member> {
    if events == [] then before else Learn(Known(before, events[..|events| - 1]), events[|events| - 1])
  }

  function Learn(known: map<string, Member>, e: Option<Event<Member>>): map<string, Member> {
    match e
    case None => known
    case Some(Put(_, m)) => known[m.id := m]
    case Some(Delete(key)) => known - {MemberId(key)}
  }

  lemma {:induction false} KnownExactly(before: map<string, Member>, events: seq<Option<Event<Member>>>, id: string,
                                        m: Member)
    ensures Knows(Known(before, events), id, m) <==> Tells(events, before, id, m)
  {
    if events != [] {
      var n := |events| - 1;
      KnownExactly(before, events[..n], id, m);
      TellsOneMore(events[..n], events[n], before, id, m);
      assert events == events[..n] + [events[n]];
    }
  }

  lemma KnownAsTold(before: map<string, Member>, events: seq<Option<Event<Member>>>)
    ensures forall id, m :: Knows(Known(before, events), id, m) <==> Tells(events, before, id, m)
  {
    forall id, m ensures Knows(Known(before, events), id, m) <==> Tells(events, before, id, m) {
      KnownExactly(before, events, id, m);
    }
  }

  lemma ReplayedOneMore(ring: set<string>, before: map<string, Member>, events: seq<Option<Event<Member>>>, i: nat)
    requires i < |events|
    ensures Known(before, events[..i + 1]) == Learn(Known(before, events[..i]), events[i])
    ensures var turned := Turned(ring, Readable(events[..i]));
            Turned(ring, Readable(events[..i + 1])) ==
            if events[i].Some? then Turn(turned, Decode(events[i].value)) else turned
  {
    assert events[..i + 1][..i] == events[..i];
    var heard := Readable(events[..i]);
    if events[i].Some? {
      assert Readable(events[..i + 1]) == heard + [events[i].value];
      assert (heard + [events[i].value])[..|heard|] == heard;
    } else {
      assert Readable(events[..i + 1]) == heard + [] == heard;
    }
  }

  /** Members put themselves under their own key, deletions name such a key, and IDs are bare
      (they are hexadecimal digests). */
  ghost predicate MembershipLog(log: seq<Event<Member>>) {
    forall i | 0 <= i < |log| ::
      && (log[i].Put? ==> log[i].key == MemberKey(log[i].value.id) && Bare(log[i].value.id))
      && (log[i].Delete? ==> log[i].key == MemberKey(MemberId(log[i].key)) && Bare(MemberId(log[i].key)))
  }

  /** The ring replayed from the events holds precisely the members whose keys etcd holds. */
  lemma {:induction false} RingMirrorsEtcd(log: seq<Event<Member>>, n: nat, id: string)
    requires MembershipLog(log) && n <= |log| && Bare(id)
    ensures id in Ring(Decoded(log), n) <==> MemberKey(id) in Contents(log, n)
  {
    if n > 0 {
      RingMirrorsEtcd(log, n - 1, id);
      MemberKeyRoundTrip(id);
      var e := log[n - 1];
      assert e == log[n - 1] && Decoded(log)[n - 1] == Decode(e);
      if e.Put? {
        MemberKeyRoundTrip(e.value.id);
      }
    }
  }

  /** Turning a replayed ring by further events is replaying these as well. */
  lemma {:induction false} TurnedIsReplayed(changes: seq<Change>, es: seq<Event<Member>>, n: nat)
    requires n <= |es|
    ensures Turned(Ring(changes, |changes|), es[..n]) == Ring(changes + Decoded(es), |changes| + n)
  {
    var all := changes + Decoded(es);
    if n == 0 {
      RingOfPrefix(changes, Decoded(es), |changes|);
    } else {
      TurnedIsReplayed(changes, es, n - 1);
      assert es[..n][..n - 1] == es[..n - 1] && all[|changes| + n - 1] == Decode(es[n - 1]);
    }
  }

  lemma {:induction false} RingOfPrefix(changes: seq<Change>, more: seq<Change>, n: nat)
    requires n <= |changes|
    ensures Ring(changes + more, n) == Ring(changes, n)
  {
    if n > 0 {
      RingOfPrefix(changes, more, n - 1);
    }
  }

  /** A ring that mirrors etcd goes on doing so as it is turned by the events to come. */
  lemma {:induction false} TurnedMirrorsEtcd(ring: set<string>, log: seq<Event<Member>>, es: seq<Event<Member>>,
                                             n: nat, id: string)
    requires MembershipLog(log + es) && n <= |es| && Bare(id)
    requires id in ring <==> MemberKey(id) in Contents(log, |log|)
    ensures id in Turned(ring, es[..n]) <==> MemberKey(id) in Contents(log + es, |log| + n)
  {
    if n == 0 {
      ContentsOfPrefix(log, es, |log|);
    } else {
      TurnedMirrorsEtcd(ring, log, es, n - 1, id);
      var e := es[n - 1];
      assert es[..n][..n - 1] == es[..n - 1] && (log + es)[|log| + n - 1] == e;
      MemberKeyRoundTrip(id);
      if e.Put? {
        MemberKeyRoundTrip(e.value.id);
      }
    }
  }

  /** Etcd holds members under their own keys only. */
  lemma {:induction false} StoredUnderOwnKey(log: seq<Event<Member>>, n: nat, key: string)
    requires MembershipLog(log) && n <= |log| && key in Contents(log, n)
    ensures var m := Contents(log, n)[key]; key == MemberKey(m.id) && Bare(m.id)
  {
    if !(log[n - 1].Put? && log[n - 1].key == key) {
      StoredUnderOwnKey(log, n - 1, key);
    }
  }

  lemma PrefixIsMembershipLog(log: seq<Event<Member>>, more: seq<Event<Member>>)
    requires MembershipLog(log + more)
    ensures MembershipLog(log)
  {
    assert forall i | 0 <= i < |log| :: (log + more)[i] == log[i];
  }

  /** The members that are loaded at start-up. */
  function IdsOf(stored: map<string, Member>): set<string> {
    set m | m in stored.Values :: m.id
  }

  lemma LoadedMirrorsEtcd(log: seq<Event<Member>>, id: string)
    requires Bare(id) && MembershipLog(log)
    ensures var stored := Contents(log, |log|); id in IdsOf(stored) <==> MemberKey(id) in stored
  {
    var stored := Contents(log, |log|);
    if m :| m in stored.Values && m.id == id {
      var key :| key in stored && stored[key] == m;
      StoredUnderOwnKey(log, |log|, key);
    }
    if MemberKey(id) in stored {
      var m := stored[MemberKey(id)];
      StoredUnderOwnKey(log, |log|, MemberKey(id));
      MemberKeyRoundTrip(id);
      MemberKeyRoundTrip(m.id);
      assert m in stored.Values;
    }
  }

  lemma AnnouncedMirrorsEtcd(log: seq<Event<Member>>, local: Member, id: string)
    requires Bare(id) && Bare(local.id) && MembershipLog(log)
    ensures var joined := log + [Put(MemberKey(local.id), local)];
            id in IdsOf(Contents(log, |log|)) + {local.id} <==> MemberKey(id) in Contents(joined, |joined|)
  {
    var joined := log + [Put(MemberKey(local.id), local)];
    LoadedMirrorsEtcd(log, id);
    ContentsOfPrefix(log, [Put(MemberKey(local.id), local)], |log|);
    assert joined[|log|] == Put(MemberKey(local.id), local);
    assert Contents(joined, |joined|) == Contents(log, |log|)[MemberKey(local.id) := local];
    MemberKeyRoundTrip(id);
    MemberKeyRoundTrip(local.id);
  }

  /** So does that of a node that has loaded the members, has announced itself, and watches ever since: it holds
      precisely the members whose keys etcd holds. */
  lemma JoinedMirrorsEtcd(log: seq<Event<Member>>, local: Member, es: seq<Event<Member>>, id: string)
    requires Bare(id) && Bare(local.id) && MembershipLog(log + [Put(MemberKey(local.id), local)] + es)
    ensures var joined := log + [Put(MemberKey(local.id), local)];
            id in Turned(IdsOf(Contents(log, |log|)) + {local.id}, es) <==>
            MemberKey(id) in Contents(joined + es, |joined + es|)
  {
    var joined := log + [Put(MemberKey(local.id), local)];
    PrefixIsMembershipLog(joined, es);
    PrefixIsMembershipLog(log, [Put(MemberKey(local.id), local)]);
    AnnouncedMirrorsEtcd(log, local, id);
    TurnedMirrorsEtcd(IdsOf(Contents(log, |log|)) + {local.id}, joined, es, |es|, id);
    assert es[..|es|] == es;
  }

  class Cluster {
    const local: Member
    const hash: Hash
    var members: map<string, Member>
    var ring: set<string>

    /** The ring and the member table list the same IDs. */
    ghost predicate Valid()
      reads this
    {
      ring == members.Keys
    }

    /** New: load the members etcd holds. There is no ring yet. */
    constructor (local: Member, hash: Hash, stored: seq<Member>)
      ensures this.local == local && this.hash == hash && ring == {}
      ensures members.Keys == (set m | m in stored :: m.id) && members.Values <= (set m | m in stored) && Keyed()
    {
      this.local, this.hash := local, hash;
      this.members, this.ring := map[], {};
      new;
      for i := 0 to |stored|
        invariant members.Keys == (set m | m in stored[..i] :: m.id) && Keyed() && ring == {}
        invariant members.Values <= set m | m in stored
      {
        members := members[stored[i].id := stored[i]];
        assert stored[..i + 1] == stored[..i] + [stored[i]];
      }
      assert stored[..|stored|] == stored;
    }

    ghost predicate Keyed()
      reads this
    {
      forall id | id in members :: members[id].id == id
    }

    /** join: a node that is already a member is refused; otherwise it announces itself and
        builds the ring from the member table. Each of its three calls to etcd may fail; the ring is built
        only when all of them succeed, but the node counts itself as a member before that. */
    method Join(granted: bool, stored: bool, kept: bool) returns (ok: bool, announced: seq<Event<Member>>)
      requires Keyed() && ring == {}
      modifies this`members, this`ring
      ensures ok <==> local.id !in old(members) && granted && stored && kept
      ensures ok ==> Valid() && Keyed() && ring == old(members).Keys + {local.id}
      ensures !ok ==> ring == {}
      ensures members == if local.id !in old(members) && granted then old(members)[local.id := local] else old(members)
      ensures announced ==
              if local.id !in old(members) && granted && stored then [Put(MemberKey(local.id), local)] else []
    {
      ok, announced := false, [];
      if !granted {
        return;
      }
      if local.id in members {
        return;
      }
      members := members[local.id := local];
      if !stored {
        return;
      }
      announced := [Put(Path([PREFIX, local.id]), local)];
      if !kept {
        return;
      }
      var todo := members.Keys;
      while todo != {}
        invariant todo <= members.Keys && ring == members.Keys - todo
        invariant members == old(members)[local.id := local] && Keyed()
      {
        var id :| id in todo;
        ring := ring + {members[id].id};
        todo := todo - {id};
      }
      ok := true;
    }

    /** Run: replay one watch response, in which a put whose value cannot be decoded counts for nothing. The result
        tells whether the managers must reload. A member is known afterwards, with these very values, if the last
        event about it says so, or if there is none and it was known before. */
    method Watch(events: seq<Option<Event<Member>>>) returns (reload: bool)
      requires Valid()
      modifies this`members, this`ring
      ensures Valid() && ring == Turned(old(ring), Readable(events))
      ensures forall id, m :: Knows(members, id, m) <==> Tells(events, old(members), id, m)
      ensures reload <==> exists i :: 0 <= i < |events| && events[i].Some?
    {
      reload := false;
      ghost var ring0, members0 := ring, members;
      for i := 0 to |events|
        invariant Valid() && ring == Turned(ring0, Readable(events[..i])) && members == Known(members0, events[..i])
        invariant reload <==> exists j :: 0 <= j < i && events[j].Some?
      {
        ReplayedOneMore(ring0, members0, events, i);
        if events[i].Some? {
          match events[i].value {
            case Put(_, m) =>
              ring := ring + {m.id};
              members := members[m.id := m];
            case Delete(key) =>
              var id := TrimPrefix(key, PREFIX);
              id := Trim(id);
              ring := ring - {id};
              members := members - {id};
          }
          reload := true;
        }
      }
      assert events[..|events|] == events;
      KnownAsTold(members0, events);
    }

    predicate LocalIsWorker(key: string)
      reads this
      ensures LocalIsWorker(key) == IsWorker(hash, ring, local.id, key)
    {
      ring != {} && hash(ring, key) == local.id
    }
  }
}
