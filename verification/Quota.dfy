/** The document quota of a tenant: a count, a check and a later commit
    (app/documents/service.py, create_document). */
module Quota {
  import opened Sets

  type Id = nat

  /** The tenant's committed documents, and the uploads that passed the check and are not yet committed. */
  datatype State = State(committed: set<Id>, passed: set<Id>)

  const INITIAL := State({}, {})

  datatype Step = Check(id: Id) | Commit(id: Id) | Rollback(id: Id) | Delete(id: Id)

  /** At most `inFlight` uploads are between check and commit at a time; an upload sees
      committed documents only. */
  function After(maxDocuments: nat, inFlight: nat, s: State, step: Step): State {
    match step
    case Check(id) =>
      if id in s.committed + s.passed || |s.passed| >= inFlight || |s.committed| >= maxDocuments then s
      else s.(passed := s.passed + {id})
    case Commit(id) => if id in s.passed then State(s.committed + {id}, s.passed - {id}) else s
    case Rollback(id) => s.(passed := s.passed - {id})
    case Delete(id) => s.(committed := s.committed - {id})
  }

  function RunOf(maxDocuments: nat, inFlight: nat, steps: seq<Step>): State {
    if steps == [] then INITIAL
    else After(maxDocuments, inFlight, RunOf(maxDocuments, inFlight, steps[..|steps| - 1]), steps[|steps| - 1])
  }

  /** With k >= 1 uploads in flight the quota is exceeded by at most k - 1, uncommitted ones counted. */
  lemma {:induction false} Bounded(maxDocuments: nat, inFlight: nat, steps: seq<Step>)
    requires inFlight >= 1
    ensures var s := RunOf(maxDocuments, inFlight, steps);
      |s.passed| <= inFlight && |s.committed| + |s.passed| <= maxDocuments + inFlight - 1
  {
    if steps != [] {
      var p, last := steps[..|steps| - 1], steps[|steps| - 1];
      Bounded(maxDocuments, inFlight, p);
      var s := RunOf(maxDocuments, inFlight, p);
      Changed(s.passed, last.id);
      Changed(s.committed, last.id);
    }
  }

  // ---------------------------------------------------------------- the bound is reached

  lemma RunOfAppend(maxDocuments: nat, inFlight: nat, steps: seq<Step>, step: Step)
    ensures RunOf(maxDocuments, inFlight, steps + [step]) ==
      After(maxDocuments, inFlight, RunOf(maxDocuments, inFlight, steps), step)
  {
    assert (steps + [step])[..|steps|] == steps;
  }

  /** So many committed and so many passed, with identifiers below a bound. */
  ghost predicate Sized(s: State, committed: nat, passed: nat, below: nat) {
    && |s.committed| == committed && |s.passed| == passed && s.committed !! s.passed
    && forall id :: id in s.committed || id in s.passed ==> id < below
  }

  lemma CheckOne(maxDocuments: nat, inFlight: nat, s: State, committed: nat, passed: nat, id: Id)
    requires Sized(s, committed, passed, id) && passed < inFlight && committed < maxDocuments
    ensures Sized(After(maxDocuments, inFlight, s, Check(id)), committed, passed + 1, id + 1)
    ensures id in After(maxDocuments, inFlight, s, Check(id)).passed
  {
    Changed(s.passed, id);
  }

  lemma CommitOne(maxDocuments: nat, inFlight: nat, s: State, committed: nat, passed: nat, below: nat, id: Id)
    requires Sized(s, committed, passed, below) && id in s.passed
    ensures Sized(After(maxDocuments, inFlight, s, Commit(id)), committed + 1, passed - 1, below)
  {
    assert id !in s.committed;
    Changed(s.passed, id);
    Changed(s.committed, id);
  }

  /** `n` uploads one after the other. */
  lemma {:induction false} Fill(maxDocuments: nat, inFlight: nat, n: nat) returns (steps: seq<Step>)
    requires n <= maxDocuments && inFlight >= 1
    ensures Sized(RunOf(maxDocuments, inFlight, steps), n, 0, n)
  {
    hide After;
    steps := [];
    if n > 0 {
      var p := Fill(maxDocuments, inFlight, n - 1);
      var q := p + [Check(n - 1)];
      CheckOne(maxDocuments, inFlight, RunOf(maxDocuments, inFlight, p), n - 1, 0, n - 1);
      RunOfAppend(maxDocuments, inFlight, p, Check(n - 1));
      CommitOne(maxDocuments, inFlight, RunOf(maxDocuments, inFlight, q), n - 1, 1, n, n - 1);
      RunOfAppend(maxDocuments, inFlight, q, Commit(n - 1));
      steps := q + [Commit(n - 1)];
    }
  }

  /** Then `j` uploads that all count before any of them commits. */
  lemma {:induction false} Pass(maxDocuments: nat, inFlight: nat, n: nat, j: nat) returns (steps: seq<Step>)
    requires n < maxDocuments && j <= inFlight && inFlight >= 1
    ensures Sized(RunOf(maxDocuments, inFlight, steps), n, j, n + j)
  {
    if j == 0 {
      steps := Fill(maxDocuments, inFlight, n);
    } else {
      var p := Pass(maxDocuments, inFlight, n, j - 1);
      CheckOne(maxDocuments, inFlight, RunOf(maxDocuments, inFlight, p), n, j - 1, n + j - 1);
      RunOfAppend(maxDocuments, inFlight, p, Check(n + j - 1));
      steps := p + [Check(n + j - 1)];
    }
  }

  /** Then they commit. */
  lemma {:induction false} Settle(maxDocuments: nat, inFlight: nat, n: nat, j: nat) returns (steps: seq<Step>)
    requires n < maxDocuments && j <= inFlight && inFlight >= 1
    ensures Sized(RunOf(maxDocuments, inFlight, steps), n + j, inFlight - j, n + inFlight)
  {
    if j == 0 {
      steps := Pass(maxDocuments, inFlight, n, inFlight);
    } else {
      var p := Settle(maxDocuments, inFlight, n, j - 1);
      var s := RunOf(maxDocuments, inFlight, p);
      assert s.passed != {};
      var id :| id in s.passed;
      CommitOne(maxDocuments, inFlight, s, n + j - 1, inFlight - j + 1, n + inFlight, id);
      RunOfAppend(maxDocuments, inFlight, p, Commit(id));
      steps := p + [Commit(id)];
    }
  }

  ghost predicate Limits(maxDocuments: nat, inFlight: nat, bound: nat) {
    forall steps :: |RunOf(maxDocuments, inFlight, steps).committed| <= bound
  }

  /** The bound is tight: a number limits the committed documents of every run exactly
      when it is at least the quota plus the uploads in flight less one.  So the quota
      itself is kept exactly when uploads do not overlap. */
  lemma TightBound(maxDocuments: nat, inFlight: nat, bound: nat)
    requires maxDocuments >= 1 && inFlight >= 1
    ensures Limits(maxDocuments, inFlight, bound) <==> bound >= maxDocuments + inFlight - 1
    ensures Limits(maxDocuments, inFlight, maxDocuments) <==> inFlight == 1
  {
    forall steps ensures |RunOf(maxDocuments, inFlight, steps).committed| <= maxDocuments + inFlight - 1 {
      Bounded(maxDocuments, inFlight, steps);
    }
    var full := Settle(maxDocuments, inFlight, maxDocuments - 1, inFlight);
    assert |RunOf(maxDocuments, inFlight, full).committed| == maxDocuments - 1 + inFlight;
  }

  /** Exactly a new upload to a tenant below its quota passes, and what was passed is committed. */
  lemma Passes(maxDocuments: nat, inFlight: nat, s: State, id: Id)
    ensures id !in s.committed && id !in s.passed && |s.committed| < maxDocuments && |s.passed| < inFlight ==>
      After(maxDocuments, inFlight, s, Check(id)) == State(s.committed, s.passed + {id})
    ensures |s.committed| >= maxDocuments || |s.passed| >= inFlight ==> After(maxDocuments, inFlight, s, Check(id)) == s
    ensures After(maxDocuments, inFlight, s, Commit(id)) ==
      if id in s.passed then State(s.committed + {id}, s.passed - {id}) else s
  {
  }

  /** A deletion frees a place in a full tenant, and so does an upload in flight that is rolled back. */
  lemma PlacesAreFreed(maxDocuments: nat, inFlight: nat, s: State, id: Id, other: Id)
    requires other !in s.committed && other !in s.passed && id != other
    ensures id in s.committed && |s.committed| == maxDocuments && |s.passed| < inFlight ==>
      other in After(maxDocuments, inFlight, After(maxDocuments, inFlight, s, Delete(id)), Check(other)).passed
    ensures id in s.passed && |s.committed| < maxDocuments && |s.passed| == inFlight ==>
      other in After(maxDocuments, inFlight, After(maxDocuments, inFlight, s, Rollback(id)), Check(other)).passed
  {
    Changed(s.committed, id);
    Changed(s.passed, id);
    Passes(maxDocuments, inFlight, State(s.committed - {id}, s.passed), other);
    Passes(maxDocuments, inFlight, State(s.committed, s.passed - {id}), other);
  }
}
