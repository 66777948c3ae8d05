/** Etcd as its clients see it: a log of revisions, and the keys and values it amounts to. */
module Etcd {

  datatype Event<V> = Put(key: string, value: V) | Delete(key: string)

  /** What a get reads once the first n events have happened. */
  function Contents<V>(log: seq<Event<V>>, n: nat): map<string, V>
    requires n <= |log|
  {
    if n == 0 then map[]
    else
      match log[n - 1]
      case Put(k, v) => Contents(log, n - 1)[k := v]
      case Delete(k) => Contents(log, n - 1) - {k}
  }

  /** Event n of a watch is a creation when its key did not exist before (IsCreate). */
  predicate IsCreate<V>(log: seq<Event<V>>, n: nat)
    requires n < |log|
  {
    log[n].Put? && log[n].key !in Contents(log, n)
  }

  lemma {:induction false} ContentsOfPrefix<V>(log: seq<Event<V>>, more: seq<Event<V>>, n: nat)
    requires n <= |log|
    ensures Contents(log + more, n) == Contents(log, n)
  {
    if n > 0 {
      ContentsOfPrefix(log, more, n - 1);
    }
  }

  /** Key k is written somewhere from revision p up to revision r. */
  ghost predicate Written<V>(log: seq<Event<V>>, p: nat, r: nat, k: string)
    requires r <= |log|
  {
    exists i :: p <= i < r && log[i].key == k
  }

  ghost predicate Deleted<V>(log: seq<Event<V>>, p: nat, r: nat, k: string)
    requires r <= |log|
  {
    exists i :: p <= i < r && log[i] == Delete(k)
  }

  ghost predicate SameAt<V>(a: map<string, V>, b: map<string, V>, k: string) {
    (k in a <==> k in b) && (k in a && k in b ==> a[k] == b[k])
  }

  lemma {:induction false} UnwrittenIsUnchanged<V>(log: seq<Event<V>>, p: nat, r: nat, k: string)
    requires p <= r <= |log| && !Written(log, p, r, k)
    ensures SameAt(Contents(log, p), Contents(log, r), k)
  {
    if p < r {
      UnwrittenIsUnchanged(log, p, r - 1, k);
      assert log[r - 1].key != k;
    }
  }

  /** A key that is gone after having been there, or after having been written, was deleted on the way. */
  lemma {:induction false} GoneMeansDeleted<V>(log: seq<Event<V>>, p: nat, r: nat, k: string)
    requires p <= r <= |log| && k !in Contents(log, r)
    requires k in Contents(log, p) || Written(log, p, r, k)
    ensures Deleted(log, p, r, k)
  {
    if p < r && log[r - 1] != Delete(k) {
      assert log[r - 1].key != k;
      GoneMeansDeleted(log, p, r - 1, k);
    }
  }

  /** The last event from revision p on that is about key k, or -1. */
  function LastWrite<V>(log: seq<Event<V>>, p: nat, k: string): (w: int)
    ensures w == -1 || p <= w < |log|
    ensures w >= 0 ==> log[w].key == k
    ensures forall i: nat | w < i < |log| && p <= i :: log[i].key != k
  {
    if |log| <= p then -1
    else if log[|log| - 1].key == k then |log| - 1
    else LastWrite(log[..|log| - 1], p, k)
  }

  /** It decides what is read in the end. */
  lemma LastWriteIsRead<V>(log: seq<Event<V>>, p: nat, k: string)
    ensures var w, stored := LastWrite(log, p, k), Contents(log, |log|);
            && (w == -1 ==> !Written(log, p, |log|, k))
            && (w >= 0 ==> (k in stored <==> log[w].Put?) && (log[w].Put? ==> stored[k] == log[w].value))
  {
    var w := LastWrite(log, p, k);
    if w >= 0 {
      UnwrittenIsUnchanged(log, w + 1, |log|, k);
    }
  }
}
