/** What becomes of a client that was selected: told by the events of a run alone. */
module DispatcherOutcomes {
  import opened Wrappers
  import opened ClientLists
  import opened DispatcherSystem
  import opened DispatcherCounts
  import opened DispatcherInvariant

  /** The state after `k` events. */
  ghost function At(s: State, events: seq<Event>, k: nat): State
    requires IsRun(s, events) && k <= |events|
    decreases k
  {
    if k == 0 then s else At(Apply(s, events[0]), events[1..], k - 1)
  }

  lemma {:induction false} AtStep(s: State, events: seq<Event>, k: nat)
    requires Inv(s) && IsRun(s, events) && k < |events|
    ensures Inv(At(s, events, k)) && Enabled(At(s, events, k), events[k])
    ensures At(s, events, k + 1) == Apply(At(s, events, k), events[k])
    decreases k
  {
    if k > 0 {
      StepKeepsInv(s, events[0]);
      AtStep(Apply(s, events[0]), events[1..], k - 1);
    }
  }

  /** The client that a thread is to serve, or has served, and then how that ended. */
  datatype Duty = NoDuty | ToServe(client: ClientId) | Served(job: Job)

  function DutyOf(pc: PC): Duty {
    match pc
    case Entry(Some(job)) => Served(job)
    case Holding(Some(job)) => Served(job)
    case Unlocking(LoopServe(c)) => ToServe(c)
    case Notifying(_, LoopServe(c)) => ToServe(c)
    case Serving(c) => ToServe(c)
    case _ => if Urgent(pc) then Served(pc.todo) else NoDuty
  }

  ghost predicate HasDuty(s: State, i: nat, duty: Duty) {
    i < |s.pool.threads| && DutyOf(s.pool.threads[i]) == duty
  }

  predicate IsHandled(e: Event, i: nat) {
    e.Acts? && e.i == i && e.act.Handled?
  }

  lemma ActKeepsDuty(s: State, i: nat, act: Act)
    requires i < |s.pool.threads| && CanAct(s, i, s.pool.threads[i], act) && DutyOf(s.pool.threads[i]) != NoDuty
    requires !act.Handled? && act != Resume
    ensures DutyOf(NextPC(s, i, s.pool.threads[i], act)) == DutyOf(s.pool.threads[i])
  {
  }

  /** A thread keeps its duty until it has handled the request, and after that until it resumes monitoring. */
  lemma StepKeepsDuty(s: State, e: Event, i: nat, duty: Duty)
    requires RunnerInv(s.pool, s.stopping, s.runner) && Enabled(s, e) && HasDuty(s, i, duty) && duty != NoDuty
    requires !IsHandled(e, i) && e != Acts(i, Resume)
    ensures HasDuty(Apply(s, e), i, duty)
  {
    match e
    case Acts(j, act) =>
      ActFrame(s, j, act);
      if i == j { ActKeepsDuty(s, i, act); }
    case Notifies(j, target) =>
    case Runs(step) =>
  }

  lemma OneStepKeepsDuty(s: State, events: seq<Event>, i: nat, duty: Duty, k: nat)
    requires Inv(s) && IsRun(s, events) && k < |events| && HasDuty(At(s, events, k), i, duty) && duty != NoDuty
    requires !IsHandled(events[k], i) && events[k] != Acts(i, Resume)
    ensures HasDuty(At(s, events, k + 1), i, duty)
  {
    AtStep(s, events, k);
    StepKeepsDuty(At(s, events, k), events[k], i, duty);
  }

  lemma {:induction false} DutyIsKept(s: State, events: seq<Event>, i: nat, duty: Duty, start: nat, end: nat)
    requires Inv(s) && IsRun(s, events) && start <= end <= |events| && HasDuty(At(s, events, start), i, duty)
             && duty != NoDuty
    requires forall k :: start <= k < end ==> !IsHandled(events[k], i) && events[k] != Acts(i, Resume)
    ensures HasDuty(At(s, events, end), i, duty)
    decreases end
  {
    if start < end {
      DutyIsKept(s, events, i, duty, start, end - 1);
      OneStepKeepsDuty(s, events, i, duty, end - 1);
    }
  }

  /** The thread that has handled a request takes the way it ended with it. */
  lemma HandledTakesOutcome(s: State, i: nat, c: ClientId, outcome: Outcome)
    requires Inv(s) && HasDuty(s, i, ToServe(c)) && Enabled(s, Acts(i, Handled(outcome)))
    ensures HasDuty(Apply(s, Acts(i, Handled(outcome))), i, Served(Job(c, outcome)))
  {
    ActFrame(s, i, Handled(outcome));
  }

  lemma SelectedIsToServe(s: State, i: nat, c: ClientId)
    requires Inv(s) && Enabled(s, Acts(i, CoreReacts(ClientReady(c, HasData))))
    ensures HasDuty(Apply(s, Acts(i, CoreReacts(ClientReady(c, HasData)))), i, ToServe(c))
  {
    ActFrame(s, i, CoreReacts(ClientReady(c, HasData)));
  }

  lemma WasSelected(s: State, events: seq<Event>, i: nat, c: ClientId, j: nat)
    requires Inv(s) && IsRun(s, events) && j < |events| && events[j] == Acts(i, CoreReacts(ClientReady(c, HasData)))
    ensures HasDuty(At(s, events, j + 1), i, ToServe(c))
  {
    AtStep(s, events, j);
    SelectedIsToServe(At(s, events, j), i, c);
  }

  /** What is done with the client when its thread resumes monitoring. */
  ghost predicate Honoured(core: Core, c: ClientId, outcome: Outcome) {
    && (c in core.monitored <==> outcome == Completed)
    && (outcome == Completed ==> core.monitored[0] == c && core.callbacks[c] == 1)
    && (outcome != Completed ==> !Live(core, c) && core.callbacks[c] == 0)
  }

  lemma ResumeHonours(s: State, i: nat, job: Job)
    requires Inv(s) && HasDuty(s, i, Served(job)) && Enabled(s, Acts(i, Resume))
    ensures Honoured(Apply(s, Acts(i, Resume)).core, job.client, job.outcome)
  {
    ChargedIsServed(s, i);
    ResumeKeepsValid(s.core, job.client, job.outcome);
    var core := ResumeMonitoring(s.core, job.client, job.outcome);
    assert s.pool.threads[i] == Holding(Some(job));
    ExactlyOnePlace(s.core, job.client);
    assert job.client !in multiset(core.served);
    if job.outcome == Completed { ExactlyOnePlace(core, job.client); }
  }

  /**
   The way a request ended reaches the client lists: if thread `i` selects a client, its handling of the request ends in
   some way, and the thread resumes monitoring, then the client is monitored again, as the most recent one and with a
   callback, exactly if the request was completed; otherwise the client is gone.
   */
  lemma OutcomeIsHonoured(s: State, events: seq<Event>, i: nat, c: ClientId, outcome: Outcome, j: nat, k: nat, m: nat)
    requires Inv(s) && IsRun(s, events) && j < k < m < |events|
    requires events[j] == Acts(i, CoreReacts(ClientReady(c, HasData)))
    requires events[k] == Acts(i, Handled(outcome)) && events[m] == Acts(i, Resume)
    requires forall n :: j < n < k ==> !IsHandled(events[n], i) && events[n] != Acts(i, Resume)
    requires forall n :: k < n < m ==> !IsHandled(events[n], i) && events[n] != Acts(i, Resume)
    ensures Honoured(At(s, events, m + 1).core, c, outcome)
  {
    WasSelected(s, events, i, c, j);
    DutyIsKept(s, events, i, ToServe(c), j + 1, k);
    OutcomeOfServed(s, events, i, c, outcome, k, m);
  }

  /** The same from the moment at which the thread has been found to serve the client. */
  lemma OutcomeOfServed(s: State, events: seq<Event>, i: nat, c: ClientId, outcome: Outcome, k: nat, m: nat)
    requires Inv(s) && IsRun(s, events) && k < m < |events| && HasDuty(At(s, events, k), i, ToServe(c))
    requires events[k] == Acts(i, Handled(outcome)) && events[m] == Acts(i, Resume)
    requires forall n :: k < n < m ==> !IsHandled(events[n], i) && events[n] != Acts(i, Resume)
    ensures Honoured(At(s, events, m + 1).core, c, outcome)
  {
    WasHandled(s, events, i, c, outcome, k);
    DutyIsKept(s, events, i, Served(Job(c, outcome)), k + 1, m);
    WasResumed(s, events, i, Job(c, outcome), m);
  }

  lemma WasHandled(s: State, events: seq<Event>, i: nat, c: ClientId, outcome: Outcome, k: nat)
    requires Inv(s) && IsRun(s, events) && k < |events| && HasDuty(At(s, events, k), i, ToServe(c))
    requires events[k] == Acts(i, Handled(outcome))
    ensures HasDuty(At(s, events, k + 1), i, Served(Job(c, outcome)))
  {
    AtStep(s, events, k);
    HandledTakesOutcome(At(s, events, k), i, c, outcome);
  }

  lemma WasResumed(s: State, events: seq<Event>, i: nat, job: Job, m: nat)
    requires Inv(s) && IsRun(s, events) && m < |events| && HasDuty(At(s, events, m), i, Served(job))
    requires events[m] == Acts(i, Resume)
    ensures Honoured(At(s, events, m + 1).core, job.client, job.outcome)
  {
    AtStep(s, events, m);
    ResumeHonours(At(s, events, m), i, job);
  }
}
