/**
 * How a test run records what goes wrong, as testing.T does: t.Error records a
 * failure and carries on, t.Fatal records it and stops the run. A test case picks
 * t.Errorf or t.Fatalf as its `fail` for mismatches (fail-fast); decode failures
 * always use t.Fatal.
 */
module Reporting {
  import opened Http

  /** What a run can record. */
  datatype Failure =
    | BuildError
    | TransportError
    | ReadError
    | StatusMismatch(wantCode: int, gotCode: int)
    | HeaderMismatch(name: string, wantValue: string, gotValue: string)
    | RawMismatch(wantBody: Bytes, gotBody: Bytes)
    | JsonMismatch
    | JsonDecodeError
    | GrabDecodeError

  /** The result of one assertion: nothing to record, a mismatch reported through
      `fail`, or a failure that always stops the run. */
  datatype Check = Pass | Fail(failure: Failure) | Fatal(failure: Failure)

  /** The state of a run after some checks: what was recorded, whether the run
      stopped, and how many checks were evaluated. */
  datatype Verdict = Verdict(reported: seq<Failure>, aborted: bool, ran: nat)

  /** Evaluate one more check; a stopped run evaluates nothing. */
  function Step(v: Verdict, c: Check, failFast: bool): Verdict
  {
    if v.aborted then v
    else match c
      case Pass => v.(ran := v.ran + 1)
      case Fail(f) => Verdict(v.reported + [f], failFast, v.ran + 1)
      case Fatal(f) => Verdict(v.reported + [f], true, v.ran + 1)
  }

  /** A run before any check. */
  const Start: Verdict := Verdict([], false, 0)

  /** The checks evaluated one after the other, continuing the run v. */
  function Resume(v: Verdict, checks: seq<Check>, failFast: bool): Verdict
    decreases |checks|
  {
    if checks == [] then v
    else Step(Resume(v, checks[..|checks| - 1], failFast), checks[|checks| - 1], failFast)
  }

  /** The checks evaluated one after the other from the start of a run. */
  function Policy(checks: seq<Check>, failFast: bool): Verdict
  {
    Resume(Start, checks, failFast)
  }

  /** Reference definition: the failure of every check that did not pass, in order. */
  function Failures(checks: seq<Check>): seq<Failure>
    decreases |checks|
  {
    if checks == [] then []
    else
      var c := checks[|checks| - 1];
      Failures(checks[..|checks| - 1]) + (if c.Pass? then [] else [c.failure])
  }

  predicate AllPass(checks: seq<Check>)
  {
    forall i :: 0 <= i < |checks| ==> checks[i].Pass?
  }

  predicate NoFatal(checks: seq<Check>)
  {
    forall i :: 0 <= i < |checks| ==> !checks[i].Fatal?
  }

  lemma FailuresSingle(c: Check)
    ensures Failures([c]) == if c.Pass? then [] else [c.failure]
  {
    assert [c][..0] == [];
  }

  /** Report-and-continue: a step records the check's failure, if any, and stops the run
      only on a fatal check. */
  lemma StepAccumulates(v: Verdict, c: Check)
    requires !v.aborted
    ensures Step(v, c, false) == Verdict(v.reported + Failures([c]), c.Fatal?, v.ran + 1)
  {
    FailuresSingle(c);
  }

  /** One more check is one more Step. */
  lemma ResumeSnoc(v: Verdict, checks: seq<Check>, c: Check, failFast: bool)
    ensures Resume(v, checks + [c], failFast) == Step(Resume(v, checks, failFast), c, failFast)
  {
    assert (checks + [c])[..|checks|] == checks;
  }

  /** Evaluating two runs of checks one after the other is evaluating their concatenation. */
  lemma {:induction false} ResumeConcat(v: Verdict, a: seq<Check>, b: seq<Check>, failFast: bool)
    ensures Resume(v, a + b, failFast) == Resume(Resume(v, a, failFast), b, failFast)
    decreases |b|
  {
    if b == [] {
      assert a + b == a;
    } else {
      var n := |b| - 1;
      assert a + b == (a + b[..n]) + [b[n]];
      assert b == b[..n] + [b[n]];
      ResumeSnoc(v, a + b[..n], b[n], failFast);
      ResumeSnoc(Resume(v, a, failFast), b[..n], b[n], failFast);
      ResumeConcat(v, a, b[..n], failFast);
    }
  }

  lemma {:induction false} FailuresConcat(a: seq<Check>, b: seq<Check>)
    ensures Failures(a + b) == Failures(a) + Failures(b)
    decreases |b|
  {
    if b == [] {
      assert a + b == a;
    } else {
      assert (a + b)[..|a + b| - 1] == a + b[..|b| - 1];
      FailuresConcat(a, b[..|b| - 1]);
    }
  }

  /** Every check before the end of a run that did not stop was evaluated. */
  lemma {:induction false} RanBound(v: Verdict, checks: seq<Check>, failFast: bool)
    ensures v.ran <= Resume(v, checks, failFast).ran <= v.ran + |checks|
    ensures !Resume(v, checks, failFast).aborted
        ==> !v.aborted && Resume(v, checks, failFast).ran == v.ran + |checks|
    decreases |checks|
  {
    if checks != [] {
      RanBound(v, checks[..|checks| - 1], failFast);
    }
  }

  /** Once a run has stopped, the remaining checks change nothing. */
  lemma {:induction false} AbortedIsFinal(v: Verdict, checks: seq<Check>, failFast: bool)
    requires v.aborted
    ensures Resume(v, checks, failFast) == v
    decreases |checks|
  {
    if checks != [] {
      AbortedIsFinal(v, checks[..|checks| - 1], failFast);
    }
  }

  /** A run only adds to what it recorded, and what it adds is the leading failures of
      the checks in order; a run that did not stop added the failure of every check
      that did not pass. */
  lemma {:induction false} ReportedArePrefix(v: Verdict, checks: seq<Check>, failFast: bool)
    ensures v.reported <= Resume(v, checks, failFast).reported <= v.reported + Failures(checks)
    ensures !Resume(v, checks, failFast).aborted
        ==> Resume(v, checks, failFast).reported == v.reported + Failures(checks)
    decreases |checks|
  {
    if checks != [] {
      var n := |checks| - 1;
      ReportedArePrefix(v, checks[..n], failFast);
      var c := checks[n];
      assert v.reported + Failures(checks)
          == (v.reported + Failures(checks[..n])) + (if c.Pass? then [] else [c.failure]);
    }
  }

  /** Report-and-continue without fatal checks: every check runs and every failing
      check is recorded exactly once, in order. */
  lemma {:induction false} AccumulateAll(v: Verdict, checks: seq<Check>)
    requires !v.aborted && NoFatal(checks)
    ensures Resume(v, checks, false) == Verdict(v.reported + Failures(checks), false, v.ran + |checks|)
    decreases |checks|
  {
    if checks != [] {
      var n := |checks| - 1;
      AccumulateAll(v, checks[..n]);
      var c := checks[n];
      assert v.reported + Failures(checks)
          == (v.reported + Failures(checks[..n])) + (if c.Pass? then [] else [c.failure]);
    }
  }

  lemma {:induction false} AllPassIffNoFailures(checks: seq<Check>)
    ensures AllPass(checks) <==> Failures(checks) == []
    decreases |checks|
  {
    if checks != [] {
      var n := |checks| - 1;
      AllPassIffNoFailures(checks[..n]);
      assert AllPass(checks) <==> AllPass(checks[..n]) && checks[n].Pass? by {
        if AllPass(checks[..n]) && checks[n].Pass? {
          forall i | 0 <= i < |checks| ensures checks[i].Pass? {
            if i < n { assert checks[..n][i] == checks[i]; }
          }
        }
      }
    }
  }

  /** Fail-fast: the run stops exactly when some check does not pass, and then it has
      recorded the failure of the first such check and nothing else. */
  lemma {:induction false} FailFastFirstFailure(v: Verdict, checks: seq<Check>)
    requires !v.aborted
    ensures Resume(v, checks, true).aborted <==> !AllPass(checks)
    ensures Resume(v, checks, true).reported
        == v.reported + (if Failures(checks) == [] then [] else [Failures(checks)[0]])
    decreases |checks|
  {
    AllPassIffNoFailures(checks);
    if checks != [] {
      var n := |checks| - 1;
      FailFastFirstFailure(v, checks[..n]);
      AllPassIffNoFailures(checks[..n]);
      assert AllPass(checks) <==> AllPass(checks[..n]) && checks[n].Pass? by {
        if AllPass(checks[..n]) && checks[n].Pass? {
          forall i | 0 <= i < |checks| ensures checks[i].Pass? {
            if i < n { assert checks[..n][i] == checks[i]; }
          }
        }
      }
    }
  }

  /** A fatal check stops the run whatever the policy, at that check or earlier. */
  lemma FatalStops(v: Verdict, checks: seq<Check>, i: nat, failFast: bool)
    requires i < |checks| && checks[i].Fatal?
    ensures Resume(v, checks, failFast).aborted
    ensures Resume(v, checks, failFast).ran <= v.ran + i + 1
  {
    assert checks == checks[..i] + [checks[i]] + checks[i + 1..];
    ResumeConcat(v, checks[..i] + [checks[i]], checks[i + 1..], failFast);
    ResumeSnoc(v, checks[..i], checks[i], failFast);
    RanBound(v, checks[..i], failFast);
    AbortedIsFinal(Resume(v, checks[..i] + [checks[i]], failFast), checks[i + 1..], failFast);
  }
}
