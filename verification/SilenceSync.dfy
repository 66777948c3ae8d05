/** pkg/autohealer/healer.go, syncSilencesFromBackend: one round of bringing over the silences of
    Alertmanager, into the healer's own map and into etcd. */
module SilenceSync {
  import opened Clock
  import opened Options
  import opened Silences

  const PREFIX := "[faythe]"
  const SYNCED := "Auto sync silence from Alertmanger"

  // ----- which silences are taken over -----

  /** strings.ToLower, on the letters A to Z. */
  function Lower(text: string): string {
    seq(|text|, i requires 0 <= i < |text| => LowerChar(text[i]))
  }

  function LowerChar(c: char): char {
    if 'A' <= c <= 'Z' then c + ('a' - 'A') else c
  }

  predicate PartAt(text: string, part: string, i: nat) {
    i + |part| <= |text| && text[i..i + |part|] == part
  }

  predicate Contains(text: string, part: string) {
    exists i | 0 <= i <= |text| - |part| :: PartAt(text, part, i)
  }

  function Bracketed(tag: string): string {
    "[" + tag + "]"
  }

  /** The comment is put into lower case, the tags are not. */
  predicate Eligible(tags: seq<string>, comment: string) {
    PREFIX <= Lower(comment) && forall i | 0 <= i < |tags| :: Contains(Lower(comment), Bracketed(tags[i]))
  }

  function Concat(tags: seq<string>): string {
    if tags == [] then PREFIX else Concat(tags[..|tags| - 1]) + Bracketed(tags[|tags| - 1])
  }

  lemma {:induction false} ConcatIsLower(tags: seq<string>)
    requires forall i | 0 <= i < |tags| :: Lower(tags[i]) == tags[i]
    ensures Lower(Concat(tags)) == Concat(tags)
  {
    if tags == [] {
      assert Lower(PREFIX) == PREFIX;
    } else {
      var before, last := Concat(tags[..|tags| - 1]), tags[|tags| - 1];
      ConcatIsLower(tags[..|tags| - 1]);
      BracketedIsLower(last);
      LowerOfSum(before, Bracketed(last));
    }
  }

  lemma {:induction false} ConcatHasPrefix(tags: seq<string>)
    ensures PREFIX <= Concat(tags)
  {
    if tags != [] {
      ConcatHasPrefix(tags[..|tags| - 1]);
    }
  }

  lemma BracketedIsLower(tag: string)
    requires Lower(tag) == tag
    ensures Lower(Bracketed(tag)) == Bracketed(tag)
  {
    LowerOfSum("[" + tag, "]");
    LowerOfSum("[", tag);
  }

  lemma LowerOfSum(a: string, b: string)
    ensures Lower(a + b) == Lower(a) + Lower(b)
  {
  }

  lemma {:induction false} ConcatContains(tags: seq<string>, k: nat)
    requires k < |tags|
    ensures Contains(Concat(tags), Bracketed(tags[k]))
  {
    var n := |tags| - 1;
    var before, part := Concat(tags[..n]), Bracketed(tags[k]);
    if k == n {
      assert PartAt(Concat(tags), part, |before|);
    } else {
      ConcatContains(tags[..n], k);
      assert tags[..n][k] == tags[k];
      var i :| 0 <= i <= |before| - |part| && PartAt(before, part, i);
      assert Concat(tags)[i..i + |part|] == before[i..i + |part|];
      assert PartAt(Concat(tags), part, i);
    }
  }

  lemma PartOfLower(text: string, tag: string)
    requires Contains(Lower(text), Bracketed(tag))
    ensures Lower(tag) == tag
  {
    var low, part := Lower(text), Bracketed(tag);
    var i :| 0 <= i <= |low| - |part| && PartAt(low, part, i);
    forall k | 0 <= k < |tag| ensures LowerChar(tag[k]) == tag[k] {
      assert tag[k] == part[k + 1] == low[i..i + |part|][k + 1];
    }
  }

  predicate IsCapital(c: char) {
    'A' <= c <= 'Z'
  }

  predicate HasCapital(text: string) {
    exists i :: 0 <= i < |text| && IsCapital(text[i])
  }

  /** Just the texts without capital letters are in lower case. */
  lemma LowerExactly(text: string)
    ensures Lower(text) == text <==> !HasCapital(text)
    ensures !HasCapital(Lower(text)) && |Lower(text)| == |text|
  {
    if i :| 0 <= i < |text| && IsCapital(text[i]) {
      assert Lower(text)[i] != text[i];
    }
  }

  /** The comment begins with the prefix, whatever the case of its letters. */
  predicate BeginsLikePrefix(comment: string) {
    && |comment| >= 8 && comment[0] == '[' && comment[7] == ']'
    && forall i | 1 <= i < 7 :: comment[i] == "[faythe]"[i] || comment[i] == "[FAYTHE]"[i]
  }

  /** Of a healer without tags, just the comments that begin with the prefix are eligible, whatever the case; and tags
      only make them fewer. */
  lemma PrefixIsAsked(tags: seq<string>, comment: string)
    ensures Eligible([], comment) <==> BeginsLikePrefix(comment)
    ensures Eligible(tags, comment) ==> BeginsLikePrefix(comment)
  {
    LowerPrefix(comment);
  }

  lemma LowerPrefix(comment: string)
    ensures PREFIX <= Lower(comment) <==> BeginsLikePrefix(comment)
  {
    var low := Lower(comment);
    if |comment| >= 8 {
      forall i | 0 <= i < 8
        ensures low[i] == PREFIX[i] <==> comment[i] == PREFIX[i] || (1 <= i < 7 && comment[i] == "[FAYTHE]"[i])
      {
        OneLetter(comment[i], i);
      }
    }
  }

  lemma OneLetter(c: char, i: nat)
    requires i < 8
    ensures LowerChar(c) == PREFIX[i] <==> c == PREFIX[i] || (1 <= i < 7 && c == "[FAYTHE]"[i])
  {
    if 'A' <= c <= 'Z' {
      assert LowerChar(c) as int == c as int + 32;
    }
  }

  /** A healer can have silences synced at all exactly when none of its tags has a capital letter. */
  lemma CanBeEligibleExactly(tags: seq<string>)
    ensures (exists comment :: Eligible(tags, comment)) <==> forall i | 0 <= i < |tags| :: !HasCapital(tags[i])
    ensures forall comment | Eligible(tags, comment) :: BeginsLikePrefix(comment)
  {
    forall comment | Eligible(tags, comment) ensures BeginsLikePrefix(comment) {
      PrefixIsAsked(tags, comment);
    }
    forall i | 0 <= i < |tags| ensures Lower(tags[i]) == tags[i] <==> !HasCapital(tags[i]) {
      LowerExactly(tags[i]);
    }
    if comment :| Eligible(tags, comment) {
      forall i | 0 <= i < |tags| ensures Lower(tags[i]) == tags[i] {
        PartOfLower(comment, tags[i]);
      }
    }
    if forall i | 0 <= i < |tags| :: Lower(tags[i]) == tags[i] {
      ConcatIsLower(tags);
      ConcatHasPrefix(tags);
      forall i | 0 <= i < |tags| ensures Contains(Lower(Concat(tags)), Bracketed(tags[i])) {
        ConcatContains(tags, i);
      }
      assert Eligible(tags, Concat(tags));
    }
  }

  // ----- one silence -----

  datatype Matcher = Matcher(name: string, value: string)

  /** A silence as Alertmanager has it. */
  datatype Foreign = Foreign(comment: string, startsAt: Instant, endsAt: Instant, matchers: seq<Matcher>)

  /** The value of the first matcher on "instance", or nothing. */
  function Pattern(matchers: seq<Matcher>): string {
    if matchers == [] then "" else if matchers[0].name == "instance" then matchers[0].value else Pattern(matchers[1..])
  }

  function Draft(id: string, f: Foreign): Record {
    Record(id, SYNCED, Pattern(f.matchers), false, "", f.startsAt, f.endsAt)
  }

  predicate Taken(env: Env, tags: seq<string>, id: string, f: Foreign) {
    Eligible(tags, f.comment) && Acceptable(env, Draft(id, f))
  }

  /** Whose silences are taken over, and which: those whose comment begins with the prefix and names all the tags, and
      that have both dates, and a pattern for instances that compiles. */
  lemma TakenExactly(env: Env, tags: seq<string>, id: string, f: Foreign)
    ensures Taken(env, tags, id, f) <==>
            && BeginsLikePrefix(f.comment)
            && (forall i | 0 <= i < |tags| :: Contains(Lower(f.comment), "[" + tags[i] + "]"))
            && f.startsAt != ZERO && f.endsAt != ZERO
            && Pattern(f.matchers) != "" && env.compiles(Pattern(f.matchers))
  {
    LowerPrefix(f.comment);
  }

  /** The clock readings and failures that handling one silence meets. */
  datatype Luck = Luck(first: Reading, again: Instant, second: Reading,
                       deleteFails: bool, grantFails: bool, putFails: bool)

  predicate Outdated(existing: Record, s: Record) {
    existing.expiredAt != s.expiredAt || existing.pattern != s.pattern
  }

  /** What is to be stored: the draft, or, in place of an outdated entry, one whose time starts anew. */
  function Final(env: Env, existing: Option<Record>, s: Record, luck: Luck): Record {
    if existing.Some? && Outdated(existing.value, s)
    then Validated(env, s.(createdAt := luck.again), luck.second)
    else s
  }

  /** The two entries of an ID: the healer's own, and the one in etcd. */
  datatype Entry = Entry(own: Option<Record>, stored: Option<Record>)

  /** The entries of an ID that is to be taken over with the given contents. */
  function Kept(env: Env, s: Record, luck: Luck, e: Entry): Entry {
    var outdated := e.own.Some? && Outdated(e.own.value, s);
    if outdated && luck.deleteFails then e
    else if luck.grantFails || luck.putFails then if outdated then Entry(None, None) else e
    else Entry(Some(Final(env, e.own, s, luck)), Some(Final(env, e.own, s, luck)))
  }

  function Settled(env: Env, tags: seq<string>, id: string, f: Foreign, luck: Luck, e: Entry): Entry {
    if Taken(env, tags, id, f) then Kept(env, Validated(env, Draft(id, f), luck.first), luck, e) else e
  }

  /** The end of the round: what is synced, but no longer known to Alertmanager, goes. */
  function Purged(e: Entry, known: bool, deleteFails: bool): Entry {
    if e.own.Some? && e.own.value.name == SYNCED && !known && !deleteFails then Entry(None, None) else e
  }

  function Lookup(m: map<string, Record>, k: string): Option<Record> {
    if k in m then Some(m[k]) else None
  }

  /** A delete takes every key that begins with the given one. */
  function Without(m: map<string, Record>, ids: set<string>): map<string, Record> {
    map k | k in m && !(exists id | id in ids :: id <= k) :: m[k]
  }

  /** What is synced, but no longer known to Alertmanager, and can be deleted. */
  function Doomed(silences: map<string, Record>, known: set<string>, deleteFails: set<string>): set<string> {
    set k | k in silences && silences[k].name == SYNCED && k !in known && k !in deleteFails
  }

  /** No ID is the beginning of another one. */
  ghost predicate PrefixFree(ids: set<string>) {
    forall a, b | a in ids && b in ids && a <= b :: a == b
  }

  class Syncer {
    const env: Env
    const tags: seq<string>
    var silences: map<string, Record>
    var stored: map<string, Record>     // below the path of the healer's cloud

    constructor (env: Env, tags: seq<string>, silences: map<string, Record>, stored: map<string, Record>)
      ensures this.env == env && this.tags == tags && this.silences == silences && this.stored == stored
    {
      this.env, this.tags, this.silences, this.stored := env, tags, silences, stored;
    }

    function At(id: string): Entry
      reads this
    {
      Entry(Lookup(silences, id), Lookup(stored, id))
    }

    /** The comment's condition. */
    method Ignores(comment: string) returns (ignore: bool)
      ensures ignore == !Eligible(tags, comment)
      ensures ignore <==> !BeginsLikePrefix(comment)
                          || exists i :: 0 <= i < |tags| && !Contains(Lower(comment), "[" + tags[i] + "]")
    {
      PrefixIsAsked(tags, comment);
      PrefixIsAsked([], comment);
      ignore := !(PREFIX <= Lower(comment));
      for i := 0 to |tags|
        invariant ignore == !(PREFIX <= Lower(comment))
        invariant forall j | 0 <= j < i :: Contains(Lower(comment), Bracketed(tags[j]))
      {
        if !Contains(Lower(comment), Bracketed(tags[i])) {
          return true;
        }
      }
    }

    method FindPattern(matchers: seq<Matcher>) returns (pattern: string)
      ensures pattern == Pattern(matchers)
      ensures (pattern == "" && forall j | 0 <= j < |matchers| :: matchers[j].name != "instance")
              || exists i :: && 0 <= i < |matchers| && matchers[i] == Matcher("instance", pattern)
                             && forall j | 0 <= j < i :: matchers[j].name != "instance"
    {
      for i := 0 to |matchers|
        invariant Pattern(matchers) == Pattern(matchers[i..])
        invariant forall j | 0 <= j < i :: matchers[j].name != "instance"
      {
        if matchers[i].name == "instance" {
          return matchers[i].value;
        }
      }
      return "";
    }

    /** The body of the loop over Alertmanager's silences. */
    method Settle(id: string, f: Foreign, luck: Luck)
      requires id != ""
      modifies this
      ensures At(id) == Settled(env, tags, id, f, luck, old(At(id)))
      ensures forall k | k != id :: Lookup(silences, k) == Lookup(old(silences), k)
      ensures forall k | !(id <= k) :: Lookup(stored, k) == Lookup(old(stored), k)
      ensures silences.Keys <= old(silences).Keys + {id} && stored.Keys <= old(stored).Keys + {id}
    {
      var ignore := Ignores(f.comment);
      if ignore {
        return;
      }
      var pattern := FindPattern(f.matchers);
      var s := new Silence(Record(id, SYNCED, pattern, false, "", f.startsAt, f.endsAt));
      if s.pattern == "" {
        return;
      }
      var ok := s.Validate(env, luck.first);
      if !ok {
        return;
      }
      Keep(s, luck);
    }

    /** Its second half, once the silence is known to be valid. */
    method Keep(s: Silence, luck: Luck)
      requires s.id != ""
      modifies this, s
      ensures var id := old(s.id);
              && At(id) == Kept(env, old(s.Value()), luck, old(At(id)))
              && (forall k | k != id :: Lookup(silences, k) == Lookup(old(silences), k))
              && (forall k | !(id <= k) :: Lookup(stored, k) == Lookup(old(stored), k))
              && silences.Keys <= old(silences).Keys + {id} && stored.Keys <= old(stored).Keys + {id}
    {
      var id := s.id;
      if id in silences && Outdated(silences[id], s.Value()) {
        if luck.deleteFails {
          return;
        }
        stored := Without(stored, {id});
        s.createdAt := luck.again;
        var _ := s.Validate(env, luck.second);
        silences := silences - {id};
      }
      if luck.grantFails || luck.putFails {
        return;
      }
      stored := stored[id := s.Value()];
      silences := silences[id := s.Value()];
    }

    /** The loop over the healer's own silences. */
    method Purge(known: set<string>, deleteFails: set<string>)
      modifies this
      ensures silences == old(silences) - Doomed(old(silences), known, deleteFails)
      ensures stored == Without(old(stored), Doomed(old(silences), known, deleteFails))
    {
      var todo := silences.Keys;
      ghost var doomed := Doomed(silences, known, deleteFails);
      while todo != {}
        invariant todo <= old(silences).Keys
        invariant silences == old(silences) - (doomed - todo)
        invariant stored == Without(old(stored), doomed - todo)
      {
        var id :| id in todo;
        if silences[id].name == SYNCED && id !in known && id !in deleteFails {
          WithoutOneMore(old(stored), doomed - todo, id);
          stored := Without(stored, {id});
          silences := silences - {id};
          assert doomed - (todo - {id}) == doomed - todo + {id};
        } else {
          assert doomed - (todo - {id}) == doomed - todo;
        }
        todo := todo - {id};
      }
      assert doomed - todo == doomed;
    }

    /** The loop over Alertmanager's silences. */
    method TakeOver(fetched: map<string, Foreign>, luck: string -> Luck)
      requires "" !in fetched
      modifies this
      ensures silences.Keys <= old(silences).Keys + fetched.Keys && stored.Keys <= old(stored).Keys + fetched.Keys
      ensures forall k :: Lookup(silences, k) == Halfway(env, tags, fetched, luck, fetched.Keys, k, old(At(k))).own
      ensures PrefixFree(fetched.Keys + old(stored).Keys) ==>
                forall k :: Lookup(stored, k) == Halfway(env, tags, fetched, luck, fetched.Keys, k, old(At(k))).stored
    {
      var todo := fetched.Keys;
      ghost var own, kept := silences, stored;
      while todo != {}
        invariant todo <= fetched.Keys
        invariant silences.Keys <= own.Keys + fetched.Keys && stored.Keys <= kept.Keys + fetched.Keys
        invariant Reached(env, tags, fetched, luck, fetched.Keys - todo, own, kept, silences, stored)
      {
        var id :| id in todo;
        ghost var own', kept' := silences, stored;
        Settle(id, fetched[id], luck(id));
        ReachedOneMore(env, tags, fetched, luck, fetched.Keys - todo, id, own, kept, own', kept', silences, stored);
        todo := todo - {id};
        assert fetched.Keys - todo == fetched.Keys - (todo + {id}) + {id};
      }
      assert fetched.Keys - todo == fetched.Keys;
    }

    /** A whole round, over silences read from Alertmanager without an error. */
    method Round(fetched: map<string, Foreign>, luck: string -> Luck, deleteFails: set<string>)
      requires "" !in fetched
      modifies this
      ensures forall k :: Lookup(silences, k) == After(env, tags, fetched, luck, deleteFails, k, old(At(k))).own
      ensures PrefixFree(fetched.Keys + old(silences).Keys + old(stored).Keys) ==>
                forall k :: At(k) == After(env, tags, fetched, luck, deleteFails, k, old(At(k)))
    {
      ghost var ids := fetched.Keys + silences.Keys + stored.Keys;
      TakeOver(fetched, luck);
      ghost var own, kept := silences, stored;
      Purge(fetched.Keys, deleteFails);
      OwnPurged(own, fetched.Keys, deleteFails);
      if PrefixFree(ids) {
        StoredPurged(own, kept, fetched.Keys, deleteFails, ids);
      }
    }
  }

  /** What the two maps hold once the given silences have been settled. */
  ghost predicate Reached(env: Env, tags: seq<string>, fetched: map<string, Foreign>, luck: string -> Luck,
                          settled: set<string>, own: map<string, Record>, kept: map<string, Record>,
                          own': map<string, Record>, kept': map<string, Record>)
    requires settled <= fetched.Keys
  {
    && (forall k ::
          Lookup(own', k) == Halfway(env, tags, fetched, luck, settled, k, Entry(Lookup(own, k), Lookup(kept, k))).own)
    && (PrefixFree(fetched.Keys + kept.Keys) ==>
          (forall k :: Lookup(kept', k) ==
                       Halfway(env, tags, fetched, luck, settled, k, Entry(Lookup(own, k), Lookup(kept, k))).stored))
  }

  lemma ReachedOneMore(env: Env, tags: seq<string>, fetched: map<string, Foreign>, luck: string -> Luck,
                       settled: set<string>, id: string, own: map<string, Record>, kept: map<string, Record>,
                       own': map<string, Record>, kept': map<string, Record>,
                       own'': map<string, Record>, kept'': map<string, Record>)
    requires settled <= fetched.Keys && id in fetched && id !in settled
    requires kept'.Keys <= kept.Keys + fetched.Keys && kept''.Keys <= kept'.Keys + {id}
    requires Reached(env, tags, fetched, luck, settled, own, kept, own', kept')
    requires var before := Entry(Lookup(own', id), Lookup(kept', id));
             var after := Settled(env, tags, id, fetched[id], luck(id), before);
             Lookup(own'', id) == after.own && Lookup(kept'', id) == after.stored
    requires forall k | k != id :: Lookup(own'', k) == Lookup(own', k)
    requires forall k | !(id <= k) :: Lookup(kept'', k) == Lookup(kept', k)
    ensures Reached(env, tags, fetched, luck, settled + {id}, own, kept, own'', kept'')
  {
  }

  lemma WithoutOneMore(m: map<string, Record>, ids: set<string>, id: string)
    ensures Without(m, ids + {id}) == Without(Without(m, ids), {id})
  {
  }

  lemma OwnPurged(own: map<string, Record>, known: set<string>, deleteFails: set<string>)
    ensures forall k, e: Entry | e.own == Lookup(own, k) ::
              Lookup(own - Doomed(own, known, deleteFails), k) == Purged(e, k in known, k in deleteFails).own
  {
  }

  lemma StoredPurged(own: map<string, Record>, kept: map<string, Record>, known: set<string>,
                     deleteFails: set<string>, ids: set<string>)
    requires PrefixFree(ids) && own.Keys <= ids && kept.Keys <= ids
    ensures forall k, e: Entry | e == Entry(Lookup(own, k), Lookup(kept, k)) ::
              Lookup(Without(kept, Doomed(own, known, deleteFails)), k) ==
              Purged(e, k in known, k in deleteFails).stored
  {
    var doomed := Doomed(own, known, deleteFails);
    forall k ensures k in Without(kept, doomed) <==> k in kept && k !in doomed {
    }
  }

  /** The entries of an ID, once the given ones have been settled. */
  function Halfway(env: Env, tags: seq<string>, fetched: map<string, Foreign>, luck: string -> Luck,
                   settled: set<string>, k: string, e: Entry): Entry
    requires settled <= fetched.Keys
  {
    if k in settled then Settled(env, tags, k, fetched[k], luck(k), e) else e
  }

  /** The entries of an ID after a whole round. */
  function After(env: Env, tags: seq<string>, fetched: map<string, Foreign>, luck: string -> Luck,
                 deleteFails: set<string>, k: string, e: Entry): Entry
  {
    Purged(Halfway(env, tags, fetched, luck, fetched.Keys, k, e), k in fetched, k in deleteFails)
  }

  // ----- what a round achieves -----

  predicate IsSynced(e: Option<Record>) {
    e.Some? && e.value.name == SYNCED
  }

  /** A round in which nothing fails leaves exactly this. What is synced is what has been taken over now, or
      had been before and is still known to Alertmanager. What has been taken over is in etcd just as in the
      healer, under Alertmanager's ID and with its pattern. And nothing else has changed. */
  lemma RoundSandwich(env: Env, tags: seq<string>, fetched: map<string, Foreign>, luck: string -> Luck,
                      k: string, e: Entry)
    requires k != "" && (k in fetched ==> !luck(k).deleteFails && !luck(k).grantFails && !luck(k).putFails)
    ensures var t := After(env, tags, fetched, luck, {}, k, e);
            var taken := k in fetched && Taken(env, tags, k, fetched[k]);
            && (IsSynced(t.own) <==> taken || (IsSynced(e.own) && k in fetched))
            && (taken ==> t.own.Some? && t.stored == t.own && t.own.value.id == k && t.own.value.compiled
                          && t.own.value.pattern == Pattern(fetched[k].matchers))
            && (!taken && t != e ==> IsSynced(e.own) && k !in fetched && t == Entry(None, None))
  {
    if k in fetched && Taken(env, tags, k, fetched[k]) {
      var s := Validated(env, Draft(k, fetched[k]), luck(k).first);
      assert After(env, tags, fetched, luck, {}, k, e).own == Some(Final(env, e.own, s, luck(k)));
    }
  }

  /** Whatever fails in a round: a healer and etcd that agree about an ID go on agreeing. */
  lemma AgreementStays(env: Env, tags: seq<string>, fetched: map<string, Foreign>, luck: string -> Luck,
                       deleteFails: set<string>, k: string, e: Entry)
    requires e.own == e.stored
    ensures var t := After(env, tags, fetched, luck, deleteFails, k, e); t.own == t.stored
  {
  }

  /** And the healer has just one of three things afterwards. It has nothing if it had nothing and could not store
      anything, if it has deleted an outdated entry and could not store the new one, or if Alertmanager no longer
      knows the silence. It has a new entry if the silence is to be taken over, and nothing fails. Otherwise it has
      what it had. */
  lemma RoundExactly(env: Env, tags: seq<string>, fetched: map<string, Foreign>, luck: string -> Luck,
                     deleteFails: set<string>, k: string, e: Entry)
    requires k != ""
    ensures var t := After(env, tags, fetched, luck, deleteFails, k, e);
            var taken := k in fetched && Taken(env, tags, k, fetched[k]);
            var outdated := taken && e.own.Some? &&
                            (e.own.value.expiredAt != fetched[k].endsAt
                             || e.own.value.pattern != Pattern(fetched[k].matchers));
            var stuck := outdated && luck(k).deleteFails;
            var fails := luck(k).grantFails || luck(k).putFails;
            var renewed := taken && !stuck && !fails;
            && (renewed ==> IsSynced(t.own) && t.stored == t.own && t.own.value.id == k
                            && t.own.value.pattern == Pattern(fetched[k].matchers))
            && (!renewed && ((outdated && !stuck) || (k !in fetched && IsSynced(e.own) && k !in deleteFails)) ==>
                  t == Entry(None, None))
            && (!renewed && !(outdated && !stuck) && !(k !in fetched && IsSynced(e.own) && k !in deleteFails) ==>
                  t == e)
  {
    if k in fetched && Taken(env, tags, k, fetched[k]) {
      var s := Validated(env, Draft(k, fetched[k]), luck(k).first);
      assert s.expiredAt == fetched[k].endsAt && s.pattern == Pattern(fetched[k].matchers) && s.name == SYNCED;
      assert Final(env, e.own, s, luck(k)).name == SYNCED;
    }
  }

  /** A silence taken over for the first time expires when Alertmanager's does. One that takes the place of an
      outdated entry has its time counted anew, in whole hours: it expires up to half an hour, and the time
      spent between the two readings of the clock, from there. */
  lemma ExpiryIsNear(env: Env, tags: seq<string>, id: string, f: Foreign, luck: Luck, e: Entry)
    requires Taken(env, tags, id, f) && id != ""
    requires !luck.deleteFails && !luck.grantFails && !luck.putFails && luck.again != ZERO
    requires luck.first.first <= luck.first.second && f.startsAt < luck.first.first
    requires 0 <= f.endsAt - luck.first.second <= MAX_DURATION - HOUR
    ensures var t := Settled(env, tags, id, f, luck, e).own.value;
            if e.own.Some? && Outdated(e.own.value, Validated(env, Draft(id, f), luck.first)) then
              -HOUR <= 2 * (t.expiredAt - f.endsAt - (luck.again - luck.first.second)) <= HOUR
            else t.expiredAt == f.endsAt
  {
    var s := Validated(env, Draft(id, f), luck.first);
    var d := Sub(s.expiredAt, s.createdAt);
    Redated(env, s.(createdAt := luck.again), d, luck.second);
    HoursNear(d);
  }
}
