/** pkg/autohealer/wflexectracker.go: running a Mistral workflow, watching its execution, and starting
    it afresh when it ends in an error. */
module Tracker {

  const MAX_RETRIES := 5

  /** What one poll of an execution shows; states other than the two final ones only prolong the wait. */
  datatype Status = Success | Error | Unfinished | Unreachable

  datatype Outcome =
    | Succeeded
    | CreationFailed
    | TooManyRetries
    | StillPolling      // the polls seen so far do not decide

  predicate IsFinal(status: Status) {
    status == Success || status == Error
  }

  /** The polls that end an execution. */
  function Endings(polls: seq<Status>): seq<Status> {
    if polls == [] then []
    else
      var last := polls[|polls| - 1];
      Endings(polls[..|polls| - 1]) + (if IsFinal(last) then [last] else [])
  }

  /** How many executions ended in an error before one succeeded. */
  function Failures(endings: seq<Status>): (n: nat)
    ensures n <= |endings|
    ensures forall i | 0 <= i < n :: endings[i] == Error
    ensures n < |endings| ==> endings[n] != Error
  {
    if endings == [] || endings[0] != Error then 0 else 1 + Failures(endings[1..])
  }

  /** The first of the next n creations (counting from 1) that fails, or n + 1. */
  function FirstRefusal(creates: nat -> bool, n: nat): (i: nat)
    ensures 1 <= i <= n + 1
    ensures forall k | 1 <= k < i :: creates(k)
    ensures i <= n ==> !creates(i)
  {
    if n == 0 then 1
    else
      var i := FirstRefusal(creates, n - 1);
      if i < n then i else if creates(n) then n + 1 else n
  }

  function Min(a: nat, b: nat): nat {
    if a <= b then a else b
  }

  /** The whole story at once: with f failures before a success there are f + 1 attempts, but never more
      than five; the first creation that is refused ends it; five failures end it; and otherwise it
      succeeds as soon as an execution does. */
  function Verdict(creates: nat -> bool, polls: seq<Status>): (Outcome, nat) {
    var endings := Endings(polls);
    var f := Failures(endings);
    var attempts := Min(f + 1, MAX_RETRIES);
    var refused := FirstRefusal(creates, attempts);
    if refused <= attempts then (CreationFailed, refused - 1)
    else if f >= MAX_RETRIES then (TooManyRetries, MAX_RETRIES)
    else if f < |endings| then (Succeeded, f + 1)
    else (StillPolling, f + 1)
  }

  class WFLExecTracker {
    var numRetried: nat
    var executions: nat       // how many executions have been created

    constructor ()
      ensures numRetried == 0 && executions == 0
    {
      numRetried, executions := 0, 0;
    }

    /** executeWFL. The environment says whether a creation succeeds. */
    method ExecuteWFL(created: bool) returns (outcome: Outcome)
      modifies this
      ensures numRetried == old(numRetried) + 1
      ensures numRetried > MAX_RETRIES ==> outcome == TooManyRetries && executions == old(executions)
      ensures numRetried <= MAX_RETRIES && !created ==> outcome == CreationFailed && executions == old(executions)
      ensures numRetried <= MAX_RETRIES && created ==> outcome == Succeeded && executions == old(executions) + 1
    {
      numRetried := numRetried + 1;
      if numRetried > MAX_RETRIES {
        return TooManyRetries;
      }
      if !created {
        return CreationFailed;
      }
      executions := executions + 1;
      return Succeeded;
    }

    /** The inner loop: poll the execution until it ends, if the polls go so far. */
    method Watch(polls: seq<Status>, from: nat) returns (seen: nat, final: bool)
      requires from <= |polls|
      ensures from <= seen <= |polls| && (final ==> from < seen) && (!final ==> seen == |polls|)
      ensures final ==> polls[seen - 1] == Success || polls[seen - 1] == Error
      ensures NothingEnds(polls, from, if final then seen - 1 else seen)
    {
      seen := from;
      while seen < |polls|
        invariant from <= seen <= |polls| && NothingEnds(polls, from, seen)
      {
        var status := polls[seen];
        seen := seen + 1;
        if IsFinal(status) {
          return seen, true;
        }
      }
      return seen, false;
    }

    /** start, as far as the given polls take it. */
    method Start(creates: nat -> bool, polls: seq<Status>) returns (outcome: Outcome, seen: nat)
      requires numRetried == 0 && executions == 0
      modifies this
      ensures seen <= |polls|
      ensures (outcome, executions) == Verdict(creates, polls)
      ensures outcome == Succeeded ==> seen > 0 && SucceedsAt(polls, seen - 1)
      ensures outcome == StillPolling ==> seen == |polls|
      ensures outcome == CreationFailed || outcome == TooManyRetries ==> EndsWithError(polls, seen, executions)
    {
      seen := 0;
      while true
        invariant executions == numRetried <= MAX_RETRIES && Tried(creates, polls, seen, numRetried)
        invariant seen > 0 ==> polls[seen - 1] == Error
        decreases MAX_RETRIES + 1 - numRetried
      {
        var executed := ExecuteWFL(creates(numRetried + 1));
        if executed != Succeeded {
          Ends(creates, polls, seen, numRetried);
          return executed, seen;
        }
        var final: bool;
        ghost var from := seen;
        seen, final := Watch(polls, seen);
        if !final {
          WaitsOn(creates, polls, from, numRetried);
          return StillPolling, seen;
        }
        if polls[seen - 1] == Success {
          SucceedsNow(creates, polls, from, seen, numRetried);
          return Succeeded, seen;
        }
        TriedOneMore(creates, polls, from, seen, numRetried);
      }
    }
  }

  predicate NothingEnds(polls: seq<Status>, from: nat, to: nat)
    requires to <= |polls|
  {
    forall i | from <= i < to :: polls[i] != Success && polls[i] != Error
  }

  /** The n-th error is the last poll that has been seen, and there has been no success. */
  predicate EndsWithError(polls: seq<Status>, seen: nat, n: nat) {
    && seen <= |polls| && NoSuccess(polls[..seen]) && Errors(polls[..seen]) == n
    && (seen > 0 ==> polls[seen - 1] == Error)
  }

  predicate Accepted(creates: nat -> bool, n: nat) {
    forall k | 1 <= k <= n :: creates(k)
  }

  ghost predicate AllErrors(endings: seq<Status>) {
    forall i | 0 <= i < |endings| :: endings[i] == Error
  }

  /** By the given poll, n executions had been created and had all ended in an error. */
  ghost predicate Tried(creates: nat -> bool, polls: seq<Status>, seen: nat, n: nat) {
    && seen <= |polls| && |Endings(polls[..seen])| == n && AllErrors(Endings(polls[..seen])) && Accepted(creates, n)
  }

  lemma {:induction false} NothingHasEnded(polls: seq<Status>, from: nat, to: nat)
    requires from <= to <= |polls| && NothingEnds(polls, from, to)
    ensures Endings(polls[..to]) == Endings(polls[..from])
    ensures to == |polls| ==> Endings(polls) == Endings(polls[..from])
  {
    assert to == |polls| ==> polls[..to] == polls;
    if from < to {
      NothingHasEnded(polls, from, to - 1);
      assert polls[..to][..to - 1] == polls[..to - 1];
    }
  }

  lemma TriedOneMore(creates: nat -> bool, polls: seq<Status>, from: nat, seen: nat, n: nat)
    requires n >= 1 && Tried(creates, polls, from, n - 1) && creates(n)
    requires from < seen <= |polls| && NothingEnds(polls, from, seen - 1) && polls[seen - 1] == Error
    ensures Tried(creates, polls, seen, n)
  {
    NothingHasEnded(polls, from, seen - 1);
    assert polls[..seen][..seen - 1] == polls[..seen - 1];
  }

  lemma {:induction false} EndingsOfPrefix(polls: seq<Status>, n: nat)
    requires n <= |polls|
    ensures Endings(polls[..n]) <= Endings(polls)
  {
    if n == |polls| {
      assert polls[..n] == polls;
    } else {
      EndingsOfPrefix(polls[..|polls| - 1], n);
      assert polls[..|polls| - 1][..n] == polls[..n];
    }
  }

  lemma {:induction false} FailuresAtLeast(endings: seq<Status>, n: nat)
    requires n <= |endings| && forall i | 0 <= i < n :: endings[i] == Error
    ensures Failures(endings) >= n
  {
    if n > 0 {
      FailuresAtLeast(endings[1..], n - 1);
    }
  }

  lemma RefusalIs(creates: nat -> bool, n: nat, i: nat)
    requires 1 <= i <= n + 1 && (forall k | 1 <= k < i :: creates(k)) && (i <= n ==> !creates(i))
    ensures FirstRefusal(creates, n) == i
  {
  }

  /** Attempt n is not made, or its creation is refused. */
  lemma Ends(creates: nat -> bool, polls: seq<Status>, seen: nat, n: nat)
    requires 1 <= n <= MAX_RETRIES + 1 && Tried(creates, polls, seen, n - 1)
    requires n <= MAX_RETRIES ==> !creates(n)
    ensures Verdict(creates, polls) == (if n > MAX_RETRIES then TooManyRetries else CreationFailed, n - 1)
    ensures NoSuccess(polls[..seen]) && Errors(polls[..seen]) == n - 1
  {
    EndingsAreErrors(polls[..seen]);
    EndingsOfPrefix(polls, seen);
    FailuresAtLeast(Endings(polls), n - 1);
    RefusalIs(creates, Min(Failures(Endings(polls)) + 1, MAX_RETRIES), n);
  }

  /** The last poll shows that the n-th execution has succeeded. */
  lemma Succeeds(creates: nat -> bool, polls: seq<Status>, seen: nat, n: nat)
    requires 0 < seen <= |polls| && 1 <= n <= MAX_RETRIES && polls[seen - 1] == Success
    requires Tried(creates, polls, seen - 1, n - 1) && creates(n)
    ensures Verdict(creates, polls) == (Succeeded, n)
    ensures SucceedsAt(polls, seen - 1)
  {
    EndingsAreErrors(polls[..seen - 1]);
    assert polls[..seen][..seen - 1] == polls[..seen - 1];
    EndingsOfPrefix(polls, seen);
    var endings, before := Endings(polls), Endings(polls[..seen - 1]);
    assert Endings(polls[..seen]) == before + [Success];
    assert endings[..n] == before + [Success];
    FailuresUntil(endings, n - 1);
    RefusalIs(creates, n, n + 1);
  }

  lemma FailuresUntil(endings: seq<Status>, n: nat)
    requires n < |endings| && endings[n] == Success && forall i | 0 <= i < n :: endings[i] == Error
    ensures Failures(endings) == n
  {
    FailuresAtLeast(endings, n);
  }

  lemma Waits(creates: nat -> bool, polls: seq<Status>, n: nat)
    requires 1 <= n <= MAX_RETRIES && AllErrors(Endings(polls)) && |Endings(polls)| == n - 1
    requires Accepted(creates, n)
    ensures Verdict(creates, polls) == (StillPolling, n)
  {
    FailuresAtLeast(Endings(polls), n - 1);
    RefusalIs(creates, n, n + 1);
  }

  lemma WaitsOn(creates: nat -> bool, polls: seq<Status>, from: nat, n: nat)
    requires 1 <= n <= MAX_RETRIES && Tried(creates, polls, from, n - 1) && creates(n)
    requires NothingEnds(polls, from, |polls|)
    ensures Verdict(creates, polls) == (StillPolling, n)
  {
    NothingHasEnded(polls, from, |polls|);
    Waits(creates, polls, n);
  }

  lemma SucceedsNow(creates: nat -> bool, polls: seq<Status>, from: nat, seen: nat, n: nat)
    requires from < seen <= |polls| && 1 <= n <= MAX_RETRIES && Tried(creates, polls, from, n - 1) && creates(n)
    requires NothingEnds(polls, from, seen - 1) && polls[seen - 1] == Success
    ensures Verdict(creates, polls) == (Succeeded, n) && SucceedsAt(polls, seen - 1)
  {
    NothingHasEnded(polls, from, seen - 1);
    Succeeds(creates, polls, seen, n);
  }

  // ----- when each outcome comes about, told by the polls alone -----

  function Errors(polls: seq<Status>): nat {
    multiset(polls)[Error]
  }

  predicate NoSuccess(polls: seq<Status>) {
    forall i | 0 <= i < |polls| :: polls[i] != Success
  }

  /** As long as nothing succeeds, each error ends an execution, and nothing else does. */
  lemma {:induction false} EndingsAreErrors(polls: seq<Status>)
    ensures NoSuccess(polls) <==> AllErrors(Endings(polls))
    ensures NoSuccess(polls) ==> |Endings(polls)| == Errors(polls)
  {
    if polls != [] {
      var before, last := polls[..|polls| - 1], polls[|polls| - 1];
      EndingsAreErrors(before);
      assert polls == before + [last];
      OneMoreStatus(before, last);
      OneMoreStatus(Endings(before), last);
    }
  }

  lemma OneMoreStatus(polls: seq<Status>, last: Status)
    ensures NoSuccess(polls + [last]) <==> NoSuccess(polls) && last != Success
    ensures AllErrors(polls + [last]) <==> AllErrors(polls) && last == Error
  {
    var more := polls + [last];
    assert more[|polls|] == last && forall i | 0 <= i < |polls| :: polls[i] == more[i];
  }

  /** The first poll that shows a success comes after n errors. */
  ghost predicate SucceedsAfter(polls: seq<Status>, n: nat) {
    exists i: nat :: SucceedsAt(polls, i) && Errors(polls[..i]) == n
  }

  ghost predicate SucceedsAt(polls: seq<Status>, i: nat) {
    i < |polls| && polls[i] == Success && NoSuccess(polls[..i])
  }

  /** The polls show n errors before any success. */
  ghost predicate FailsAfter(polls: seq<Status>, n: nat) {
    exists i: nat :: i <= |polls| && NoSuccess(polls[..i]) && Errors(polls[..i]) == n
  }

  lemma SuccessIsReported(creates: nat -> bool, polls: seq<Status>, n: nat)
    requires n < MAX_RETRIES && SucceedsAfter(polls, n) && Accepted(creates, n + 1)
    ensures Verdict(creates, polls) == (Succeeded, n + 1)
  {
    var i: nat :| SucceedsAt(polls, i) && Errors(polls[..i]) == n;
    EndingsAreErrors(polls[..i]);
    Succeeds(creates, polls, i + 1, n + 1);
  }

  lemma RefusalIsReported(creates: nat -> bool, polls: seq<Status>, n: nat)
    requires n < MAX_RETRIES && FailsAfter(polls, n) && Accepted(creates, n) && !creates(n + 1)
    ensures Verdict(creates, polls) == (CreationFailed, n)
  {
    var i: nat :| i <= |polls| && NoSuccess(polls[..i]) && Errors(polls[..i]) == n;
    EndingsAreErrors(polls[..i]);
    Ends(creates, polls, i, n + 1);
  }

  lemma FiveErrorsAreReported(creates: nat -> bool, polls: seq<Status>)
    requires FailsAfter(polls, MAX_RETRIES) && Accepted(creates, MAX_RETRIES)
    ensures Verdict(creates, polls) == (TooManyRetries, MAX_RETRIES)
  {
    var i: nat :| i <= |polls| && NoSuccess(polls[..i]) && Errors(polls[..i]) == MAX_RETRIES;
    EndingsAreErrors(polls[..i]);
    Ends(creates, polls, i, MAX_RETRIES + 1);
  }

  lemma WaitIsReported(creates: nat -> bool, polls: seq<Status>)
    requires NoSuccess(polls) && Errors(polls) < MAX_RETRIES && Accepted(creates, Errors(polls) + 1)
    ensures Verdict(creates, polls) == (StillPolling, Errors(polls) + 1)
  {
    EndingsAreErrors(polls);
    Waits(creates, polls, Errors(polls) + 1);
  }

  lemma {:induction false} FirstSuccess(polls: seq<Status>) returns (i: nat)
    ensures if NoSuccess(polls) then i == |polls| else SucceedsAt(polls, i)
  {
    i := 0;
    if polls != [] {
      var n := |polls| - 1;
      i := FirstSuccess(polls[..n]);
      assert polls == polls[..n] + [polls[n]];
      if i < n {
        assert polls[..n][..i] == polls[..i];
      } else if NoSuccess(polls) {
        i := |polls|;
      }
    }
  }

  /** Errors come one by one. */
  lemma {:induction false} ErrorsAreReached(polls: seq<Status>, n: nat)
    requires NoSuccess(polls) && n <= Errors(polls)
    ensures FailsAfter(polls, n)
  {
    assert polls[..|polls|] == polls;
    if Errors(polls) > n {
      var before := polls[..|polls| - 1];
      assert polls == before + [polls[|polls| - 1]];
      ErrorsAreReached(before, n);
      var i: nat :| i <= |before| && NoSuccess(before[..i]) && Errors(before[..i]) == n;
      assert before[..i] == polls[..i];
    }
  }

  lemma FailsAfterPrefix(polls: seq<Status>, i: nat, n: nat)
    requires i <= |polls| && FailsAfter(polls[..i], n)
    ensures FailsAfter(polls, n)
  {
    var l: nat :| l <= i && NoSuccess(polls[..i][..l]) && Errors(polls[..i][..l]) == n;
    assert polls[..i][..l] == polls[..l];
  }

  /** One of these is always the case. */
  lemma OneOfFour(creates: nat -> bool, polls: seq<Status>)
    ensures || (exists n: nat :: n < MAX_RETRIES && SucceedsAfter(polls, n) && Accepted(creates, n + 1))
            || (exists n: nat :: n < MAX_RETRIES && FailsAfter(polls, n) && Accepted(creates, n) && !creates(n + 1))
            || (FailsAfter(polls, MAX_RETRIES) && Accepted(creates, MAX_RETRIES))
            || (NoSuccess(polls) && Errors(polls) < MAX_RETRIES && Accepted(creates, Errors(polls) + 1))
  {
    var i := FirstSuccess(polls);
    var before := polls[..i];
    var attempts := Min(Errors(before) + 1, MAX_RETRIES);
    var refused := FirstRefusal(creates, attempts);
    assert NoSuccess(polls) ==> before == polls;
    if refused <= attempts {
      ErrorsAreReached(before, refused - 1);
      FailsAfterPrefix(polls, i, refused - 1);
    } else if Errors(before) >= MAX_RETRIES {
      ErrorsAreReached(before, MAX_RETRIES);
      FailsAfterPrefix(polls, i, MAX_RETRIES);
    } else if !NoSuccess(polls) {
      assert SucceedsAfter(polls, Errors(before));
    }
  }

  /** So it is known of all creations and polls what comes of them, and how many executions. Success is reported exactly
      when the first one polled comes after fewer than five errors, and every creation up to it is accepted. */
  lemma SucceedsExactly(creates: nat -> bool, polls: seq<Status>, n: nat)
    ensures Verdict(creates, polls) == (Succeeded, n + 1) <==>
            n < MAX_RETRIES && SucceedsAfter(polls, n) && Accepted(creates, n + 1)
    ensures Verdict(creates, polls).0 == Succeeded ==> Verdict(creates, polls).1 > 0
  {
    AsReported(creates, polls);
  }

  /** A refused creation ends it exactly when it follows fewer than five errors, with no success among them. */
  lemma RefusedExactly(creates: nat -> bool, polls: seq<Status>, n: nat)
    ensures Verdict(creates, polls) == (CreationFailed, n) <==>
            n < MAX_RETRIES && FailsAfter(polls, n) && Accepted(creates, n) && !creates(n + 1)
  {
    AsReported(creates, polls);
  }

  /** It gives up for too many retries exactly when the first five executions were created and all ended in
      an error. */
  lemma GivesUpExactly(creates: nat -> bool, polls: seq<Status>)
    ensures Verdict(creates, polls).0 == TooManyRetries <==>
            FailsAfter(polls, MAX_RETRIES) && Accepted(creates, MAX_RETRIES)
    ensures Verdict(creates, polls).0 == TooManyRetries ==> Verdict(creates, polls).1 == MAX_RETRIES
  {
    AsReported(creates, polls);
  }

  /** So it comes to an end as soon as five executions have ended, or one with success. It waits on exactly when all
      those ended so far are fewer than five, failed, and every creation was accepted. */
  lemma WaitsExactly(creates: nat -> bool, polls: seq<Status>)
    ensures Verdict(creates, polls).0 == StillPolling <==>
            NoSuccess(polls) && Errors(polls) < MAX_RETRIES && Accepted(creates, Errors(polls) + 1)
    ensures Verdict(creates, polls).0 == StillPolling ==> Verdict(creates, polls).1 == Errors(polls) + 1
  {
    AsReported(creates, polls);
  }

  lemma AsReported(creates: nat -> bool, polls: seq<Status>)
    ensures forall n: nat | n < MAX_RETRIES && SucceedsAfter(polls, n) && Accepted(creates, n + 1) ::
              Verdict(creates, polls) == (Succeeded, n + 1)
    ensures forall n: nat | n < MAX_RETRIES && FailsAfter(polls, n) && Accepted(creates, n) && !creates(n + 1) ::
              Verdict(creates, polls) == (CreationFailed, n)
    ensures FailsAfter(polls, MAX_RETRIES) && Accepted(creates, MAX_RETRIES) ==>
              Verdict(creates, polls) == (TooManyRetries, MAX_RETRIES)
    ensures NoSuccess(polls) && Errors(polls) < MAX_RETRIES && Accepted(creates, Errors(polls) + 1) ==>
              Verdict(creates, polls) == (StillPolling, Errors(polls) + 1)
    ensures || (exists n: nat :: n < MAX_RETRIES && SucceedsAfter(polls, n) && Accepted(creates, n + 1))
            || (exists n: nat :: n < MAX_RETRIES && FailsAfter(polls, n) && Accepted(creates, n) && !creates(n + 1))
            || (FailsAfter(polls, MAX_RETRIES) && Accepted(creates, MAX_RETRIES))
            || (NoSuccess(polls) && Errors(polls) < MAX_RETRIES && Accepted(creates, Errors(polls) + 1))
  {
    forall n: nat | n < MAX_RETRIES && SucceedsAfter(polls, n) && Accepted(creates, n + 1)
      ensures Verdict(creates, polls) == (Succeeded, n + 1)
    {
      SuccessIsReported(creates, polls, n);
    }
    forall n: nat | n < MAX_RETRIES && FailsAfter(polls, n) && Accepted(creates, n) && !creates(n + 1)
      ensures Verdict(creates, polls) == (CreationFailed, n)
    {
      RefusalIsReported(creates, polls, n);
    }
    if FailsAfter(polls, MAX_RETRIES) && Accepted(creates, MAX_RETRIES) {
      FiveErrorsAreReported(creates, polls);
    }
    if NoSuccess(polls) && Errors(polls) < MAX_RETRIES && Accepted(creates, Errors(polls) + 1) {
      WaitIsReported(creates, polls);
    }
    OneOfFour(creates, polls);
  }
}
