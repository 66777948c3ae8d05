/** A condition that some steps bring about, and that then lasts until some other step ends it. */
module Latches {

  ghost predicate Lasts(causes: seq<bool>, ends: seq<bool>, m: nat, n: nat)
    requires |causes| == |ends| && n <= |causes|
  {
    m < n && causes[m] && forall l | m < l < n :: !ends[l]
  }

  /** It holds exactly when it has been brought about and not been ended since. */
  lemma {:induction false} LatchExactly(holds: seq<bool>, causes: seq<bool>, ends: seq<bool>, n: nat)
    requires |causes| == |ends| && |holds| == |causes| + 1 && n <= |causes| && !holds[0]
    requires forall i: nat | i < |causes| :: holds[i + 1] <==> causes[i] || (holds[i] && !ends[i])
    ensures holds[n] <==> exists m: nat :: Lasts(causes, ends, m, n)
  {
    if n > 0 {
      LatchExactly(holds, causes, ends, n - 1);
      if causes[n - 1] {
        assert Lasts(causes, ends, n - 1, n);
      }
      if holds[n - 1] && !ends[n - 1] {
        var m: nat :| Lasts(causes, ends, m, n - 1);
        assert Lasts(causes, ends, m, n);
      }
      if m: nat :| Lasts(causes, ends, m, n) {
        assert m < n - 1 ==> Lasts(causes, ends, m, n - 1);
      }
    }
  }
}
