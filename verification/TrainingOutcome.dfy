/** The verdict on a training suite and the poller that waits for it
    (scripts/tao_validation.py). */
module TrainingOutcome {

  datatype Status = Succeeded | Failed | Canceled | Deleted | Active(name: string)

  datatype Job = Job(action: string, status: Status)

  datatype Verdict = Success | Failure | Pending

  predicate Terminal(s: Status) { !s.Active? }

  function StatusesOf(jobs: seq<Job>, action: string): seq<Status> {
    if jobs == [] then [] else
    var init := StatusesOf(jobs[..|jobs| - 1], action);
    if jobs[|jobs| - 1].action == action then init + [jobs[|jobs| - 1].status] else init
  }

  predicate Has(jobs: seq<Job>, action: string, status: Status) {
    Job(action, status) in jobs
  }

  predicate HasAction(jobs: seq<Job>, action: string) {
    exists job :: job in jobs && job.action == action
  }

  predicate AllTerminal(jobs: seq<Job>) {
    forall job :: job in jobs ==> Terminal(job.status)
  }

  predicate AnyFailed(jobs: seq<Job>) {
    exists job :: job in jobs && job.status.Failed?
  }

  /** The position of the last evaluation, or |jobs|. */
  function LastEvaluation(jobs: seq<Job>): (i: nat)
    ensures i <= |jobs|
    ensures i < |jobs| ==> jobs[i].action == "evaluate" && forall k :: i < k < |jobs| ==> jobs[k].action != "evaluate"
    ensures i == |jobs| ==> !HasAction(jobs, "evaluate")
  {
    if jobs == [] then 0
    else if jobs[|jobs| - 1].action == "evaluate" then |jobs| - 1
    else
      var i := LastEvaluation(jobs[..|jobs| - 1]);
      assert jobs == jobs[..|jobs| - 1] + [jobs[|jobs| - 1]];
      if i == |jobs| - 1 then |jobs| else i
  }

  /** Strict: the last evaluation decides for success, any failed job for failure. */
  function StrictVerdict(jobs: seq<Job>): Verdict {
    var e := LastEvaluation(jobs);
    if e < |jobs| && jobs[e].status.Succeeded? then Success
    else if AnyFailed(jobs) then Failure
    else Pending
  }

  /** Chain isolation: everything is over, training succeeded, and so did a quantization if
      one was asked for. */
  function ChainVerdict(jobs: seq<Job>): Verdict {
    if !AllTerminal(jobs) then Pending
    else if Has(jobs, "train", Succeeded)
            && (HasAction(jobs, "quantize") ==> Has(jobs, "quantize", Succeeded)) then Success
    else Failure
  }

  function VerdictOf(jobs: seq<Job>, acceptEvalFailure: bool): Verdict {
    if acceptEvalFailure then ChainVerdict(jobs) else StrictVerdict(jobs)
  }

  lemma {:induction false} StatusesAre(jobs: seq<Job>, action: string)
    ensures forall s :: s in StatusesOf(jobs, action) <==> Has(jobs, action, s)
    ensures StatusesOf(jobs, action) == [] <==> !HasAction(jobs, action)
  {
    if jobs != [] {
      var init, last := jobs[..|jobs| - 1], jobs[|jobs| - 1];
      StatusesAre(init, action);
      assert jobs == init + [last];
    }
  }

  lemma {:induction false} LastStatus(jobs: seq<Job>)
    ensures var s, e := StatusesOf(jobs, "evaluate"), LastEvaluation(jobs);
            if e == |jobs| then s == [] else s != [] && s[|s| - 1] == jobs[e].status
  {
    if jobs != [] && jobs[|jobs| - 1].action != "evaluate" {
      LastStatus(jobs[..|jobs| - 1]);
    }
  }

  /** With evaluation failures accepted: pending until every job is over; then a success if a
      training succeeded, and a quantization too if there was any. */
  ghost predicate ChainSays(jobs: seq<Job>, v: Verdict) {
    && (v == Pending <==> exists i :: 0 <= i < |jobs| && jobs[i].status.Active?)
    && (v == Success <==>
          && (forall i :: 0 <= i < |jobs| ==> !jobs[i].status.Active?)
          && (exists i :: 0 <= i < |jobs| && jobs[i] == Job("train", Succeeded))
          && ((forall i :: 0 <= i < |jobs| ==> jobs[i].action != "quantize")
              || (exists i :: 0 <= i < |jobs| && jobs[i] == Job("quantize", Succeeded))))
  }

  /** Otherwise: the last evaluation decides for success, then any failed job for failure. */
  ghost predicate StrictSays(jobs: seq<Job>, v: Verdict) {
    && (v == Success <==>
          exists i :: && 0 <= i < |jobs| && jobs[i] == Job("evaluate", Succeeded)
                      && forall k :: i < k < |jobs| ==> jobs[k].action != "evaluate")
    && (v == Failure ==> exists i :: 0 <= i < |jobs| && jobs[i].status.Failed?)
    && (v == Pending ==> forall i :: 0 <= i < |jobs| ==> !jobs[i].status.Failed?)
  }

  lemma ChainVerdictSays(jobs: seq<Job>)
    ensures ChainSays(jobs, ChainVerdict(jobs))
  {}

  lemma StrictVerdictSays(jobs: seq<Job>)
    ensures StrictSays(jobs, StrictVerdict(jobs))
  {
    var e := LastEvaluation(jobs);
    if i :| 0 <= i < |jobs| && jobs[i] == Job("evaluate", Succeeded)
            && forall k :: i < k < |jobs| ==> jobs[k].action != "evaluate"
    {
      assert jobs[i] in jobs;
    }
  }

  /** `compute_training_outcome`. */
  method ComputeTrainingOutcome(jobs: seq<Job>, acceptEvalFailure: bool) returns (v: Verdict)
    ensures v == VerdictOf(jobs, acceptEvalFailure)
    ensures if acceptEvalFailure then ChainSays(jobs, v) else StrictSays(jobs, v)
  {
    ChainVerdictSays(jobs);
    StrictVerdictSays(jobs);
    hide ChainSays, StrictSays;
    var byAction: map<string, seq<Status>> := map[];
    for i := 0 to |jobs|
      invariant forall a :: a in byAction ==> byAction[a] == StatusesOf(jobs[..i], a)
      invariant forall a :: a !in byAction ==> StatusesOf(jobs[..i], a) == []
    {
      assert jobs[..i + 1][..i] == jobs[..i];
      var a := jobs[i].action;
      if a !in byAction { byAction := byAction[a := []]; }
      byAction := byAction[a := byAction[a] + [jobs[i].status]];
    }
    assert jobs[..|jobs|] == jobs;
    if !acceptEvalFailure {
      LastStatus(jobs);
      var evaluations := if "evaluate" in byAction then byAction["evaluate"] else [];
      if evaluations != [] && evaluations[|evaluations| - 1].Succeeded? { return Success; }
      if AnyFailed(jobs) { return Failure; }
      return Pending;
    }
    if !AllTerminal(jobs) { return Pending; }
    StatusesAre(jobs, "train");
    StatusesAre(jobs, "quantize");
    var trainings := if "train" in byAction then byAction["train"] else [];
    if Succeeded !in trainings { return Failure; }
    var quantizations := if "quantize" in byAction then byAction["quantize"] else [];
    if quantizations != [] && Succeeded !in quantizations { return Failure; }
    return Success;
  }

  // ----- Order -----

  lemma ChainIgnoresOrder(jobs: seq<Job>, other: seq<Job>)
    requires multiset(jobs) == multiset(other)
    ensures ChainVerdict(jobs) == ChainVerdict(other)
  {
    forall job ensures job in jobs <==> job in other {
      assert job in multiset(jobs) <==> job in multiset(other);
    }
  }

  /** One job moved to the end of the list. */
  function MovedLast(jobs: seq<Job>, i: nat): (other: seq<Job>)
    requires i < |jobs|
    ensures multiset(other) == multiset(jobs)
    ensures |other| == |jobs| && other[|other| - 1] == jobs[i]
  {
    assert jobs == jobs[..i] + [jobs[i]] + jobs[i + 1..];
    jobs[..i] + jobs[i + 1..] + [jobs[i]]
  }

  predicate EvaluationsAgree(jobs: seq<Job>) {
    forall x, y :: x in jobs && y in jobs && x.action == "evaluate" && y.action == "evaluate" ==>
      (x.status.Succeeded? <==> y.status.Succeeded?)
  }

  /** The strict verdict does look at the order of jobs: it ignores it exactly when all
      evaluations succeeded or none did. */
  lemma StrictIgnoresOrderIff(jobs: seq<Job>)
    ensures (forall other :: multiset(other) == multiset(jobs) ==> StrictVerdict(other) == StrictVerdict(jobs))
            <==> EvaluationsAgree(jobs)
  {
    if EvaluationsAgree(jobs) {
      forall other: seq<Job> | multiset(other) == multiset(jobs)
        ensures StrictVerdict(other) == StrictVerdict(jobs)
      {
        StrictAgrees(jobs, other);
      }
    } else {
      var i, k :| 0 <= i < |jobs| && 0 <= k < |jobs| && jobs[i].action == "evaluate" == jobs[k].action
                  && jobs[i].status.Succeeded? && !jobs[k].status.Succeeded?;
      LastDecides(MovedLast(jobs, i));
      LastDecides(MovedLast(jobs, k));
    }
  }

  lemma LastDecides(jobs: seq<Job>)
    requires jobs != [] && jobs[|jobs| - 1].action == "evaluate"
    ensures StrictVerdict(jobs) == Success <==> jobs[|jobs| - 1].status.Succeeded?
  {}

  lemma StrictAgrees(jobs: seq<Job>, other: seq<Job>)
    requires multiset(other) == multiset(jobs) && EvaluationsAgree(jobs)
    ensures StrictVerdict(other) == StrictVerdict(jobs)
  {
    forall job ensures job in jobs <==> job in other {
      assert job in multiset(jobs) <==> job in multiset(other);
    }
    var e, f := LastEvaluation(jobs), LastEvaluation(other);
    if e < |jobs| { assert jobs[e] in other; }
    if f < |other| { assert other[f] in jobs; }
  }

  /** Two evaluations that disagree are such a list. */
  lemma StrictSeesOrder()
    ensures exists jobs, other :: multiset(jobs) == multiset(other) && StrictVerdict(jobs) != StrictVerdict(other)
  {
    var good, bad := Job("evaluate", Succeeded), Job("evaluate", Failed);
    assert good in [good, bad] && bad in [good, bad];
    StrictIgnoresOrderIff([good, bad]);
  }

  // ----- Time -----

  /** The same jobs later: a terminal status never changes. */
  ghost predicate Evolves(jobs: seq<Job>, later: seq<Job>) {
    && |later| == |jobs|
    && forall i :: 0 <= i < |jobs| ==>
         later[i].action == jobs[i].action && (Terminal(jobs[i].status) ==> later[i] == jobs[i])
  }

  lemma SameLastEvaluation(jobs: seq<Job>, later: seq<Job>)
    requires Evolves(jobs, later)
    ensures LastEvaluation(jobs) == LastEvaluation(later)
  {
    var i, k := LastEvaluation(jobs), LastEvaluation(later);
    if i < |jobs| { assert later[i].action == "evaluate" && later[i] in later; }
    if k < |later| { assert jobs[k].action == "evaluate" && jobs[k] in jobs; }
  }

  /** A chain verdict, once reached, is final; so is a strict success. */
  lemma VerdictStands(jobs: seq<Job>, later: seq<Job>)
    requires Evolves(jobs, later)
    ensures ChainVerdict(jobs) != Pending ==> ChainVerdict(later) == ChainVerdict(jobs)
    ensures StrictVerdict(jobs) == Success ==> StrictVerdict(later) == Success
  {
    SameLastEvaluation(jobs, later);
    if AllTerminal(jobs) {
      assert later == jobs;
    }
  }

  /** A strict failure is final exactly when no evaluation is left that could still succeed. */
  lemma StrictFailureStandsIff(jobs: seq<Job>)
    requires StrictVerdict(jobs) == Failure
    ensures (forall later :: Evolves(jobs, later) ==> StrictVerdict(later) == Failure)
            <==> (LastEvaluation(jobs) < |jobs| ==> Terminal(jobs[LastEvaluation(jobs)].status))
  {
    var e := LastEvaluation(jobs);
    if e < |jobs| && !Terminal(jobs[e].status) {
      StrictFailureTurns(jobs);
    } else {
      forall later: seq<Job> | Evolves(jobs, later) ensures StrictVerdict(later) == Failure {
        StrictFailureKept(jobs, later);
      }
    }
  }

  lemma StrictFailureTurns(jobs: seq<Job>)
    requires LastEvaluation(jobs) < |jobs| && !Terminal(jobs[LastEvaluation(jobs)].status)
    ensures exists later :: Evolves(jobs, later) && StrictVerdict(later) == Success
  {
    hide AnyFailed, LastEvaluation;
    var e := LastEvaluation(jobs);
    var later := jobs[e := Job("evaluate", Succeeded)];
    assert Evolves(jobs, later);
    SameLastEvaluation(jobs, later);
    assert later[e].status.Succeeded?;
  }

  lemma StrictFailureKept(jobs: seq<Job>, later: seq<Job>)
    requires StrictVerdict(jobs) == Failure && Evolves(jobs, later)
    requires LastEvaluation(jobs) < |jobs| ==> Terminal(jobs[LastEvaluation(jobs)].status)
    ensures StrictVerdict(later) == Failure
  {
    SameLastEvaluation(jobs, later);
    hide LastEvaluation;
    var failed :| failed in jobs && failed.status.Failed?;
    var f :| 0 <= f < |jobs| && jobs[f] == failed;
    assert later[f] in later;
  }

  // ----- The poller -----

  datatype PollResult = Decided(verdict: Verdict) | DeadlineExceeded

  /** The poller is still waiting when tick k begins. */
  ghost predicate Waiting(elapsed: nat -> real, observe: nat -> seq<Job>, deadline: real, accept: bool, k: nat) {
    forall j :: 0 <= j < k ==> elapsed(j) < deadline && VerdictOf(observe(j), accept) == Pending
  }

  ghost predicate Ends(elapsed: nat -> real, observe: nat -> seq<Job>, deadline: real, accept: bool, k: nat, r: PollResult) {
    && Waiting(elapsed, observe, deadline, accept, k)
    && match r
       case DeadlineExceeded => elapsed(k) >= deadline
       case Decided(v) => elapsed(k) < deadline && v != Pending && v == VerdictOf(observe(k), accept)
  }

  /** `poll_training_suite`: one tick every thirty seconds or more.  It ends at the first tick
      that decides or is too late, and what it returns is that tick's outcome. */
  method PollTrainingSuite(elapsed: nat -> real, observe: nat -> seq<Job>, deadline: real, accept: bool)
    returns (r: PollResult)
    requires elapsed(0) >= 0.0 && forall k: nat :: elapsed(k) + 30.0 <= elapsed(k + 1)
    ensures exists k: nat :: Ends(elapsed, observe, deadline, accept, k, r)
    ensures r.Decided? ==>
              exists k: nat ::
                && elapsed(k) < deadline && r.verdict == VerdictOf(observe(k), accept) && r.verdict != Pending
                && forall j: nat :: j < k ==> elapsed(j) < deadline && VerdictOf(observe(j), accept) == Pending
    ensures r.DeadlineExceeded? ==>
              exists k: nat ::
                && elapsed(k) >= deadline
                && forall j: nat :: j < k ==> elapsed(j) < deadline && VerdictOf(observe(j), accept) == Pending
  {
    var k := 0;
    while true
      invariant Waiting(elapsed, observe, deadline, accept, k)
      decreases deadline - elapsed(k)
    {
      if elapsed(k) >= deadline {
        assert Ends(elapsed, observe, deadline, accept, k, DeadlineExceeded);
        return DeadlineExceeded;
      }
      var v := ComputeTrainingOutcome(observe(k), accept);
      if v != Pending {
        assert Ends(elapsed, observe, deadline, accept, k, Decided(v));
        return Decided(v);
      }
      k := k + 1;
    }
  }

  /** There is only one way to end. */
  lemma EndsOnce(elapsed: nat -> real, observe: nat -> seq<Job>, deadline: real, accept: bool,
                 k: nat, r: PollResult, m: nat, s: PollResult)
    requires Ends(elapsed, observe, deadline, accept, k, r) && Ends(elapsed, observe, deadline, accept, m, s)
    ensures k == m && r == s
  {}

  lemma {:induction false} EvolvesOver(observe: nat -> seq<Job>, k: nat, m: nat)
    requires k <= m && forall n: nat :: Evolves(observe(n), observe(n + 1))
    ensures Evolves(observe(k), observe(m))
  {
    if k < m {
      EvolvesOver(observe, k, m - 1);
      assert Evolves(observe(m - 1), observe(m - 1 + 1));
    }
  }

  /** What the poller decided is what any later look at the suite would say, except that a
      strict failure may still turn. */
  lemma DecisionStands(elapsed: nat -> real, observe: nat -> seq<Job>, deadline: real, accept: bool,
                       k: nat, r: PollResult, m: nat)
    requires Ends(elapsed, observe, deadline, accept, k, r) && r.Decided? && k <= m
    requires forall n: nat :: Evolves(observe(n), observe(n + 1))
    ensures accept || r.verdict == Success ==> VerdictOf(observe(m), accept) == r.verdict
  {
    EvolvesOver(observe, k, m);
    VerdictStands(observe(k), observe(m));
  }
}
