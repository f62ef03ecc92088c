/** Which transitions a task can make, and that every open task can still be closed. */
module TaskLiveness {
  import opened RunLog
  import opened Slices
  import opened Text

  // --- the table as rules ---

  /** The stage of the main line, from NEW to CLOSED. */
  function Stage(s: Status): nat
    requires OnMainLine(s)
  {
    match s
    case New => 0
    case Triaged => 1
    case Planned => 2
    case Approved => 3
    case Executing => 4
    case Verifying => 5
    case Reviewing => 6
    case Accepted => 7
    case Closed => 8
  }

  predicate OnMainLine(s: Status) {
    s != Fixing && s != Blocked && s != Failed
  }

  /** Neither ended nor waiting for closure. */
  predicate Open(s: Status) {
    s != Accepted && s != Failed && s != Closed
  }

  /** Every open task may fail, and may be blocked unless it is; a blocked one goes back to triage; a fix may follow a
      verification or a review and is verified again; apart from that a task moves to the next stage. */
  predicate MayMove(s: Status, t: Status) {
    if t == Failed then Open(s)
    else if t == Blocked then Open(s) && s != Blocked
    else if s == Blocked then t == Triaged
    else if t == Fixing then s == Verifying || s == Reviewing
    else if s == Fixing then t == Verifying
    else s != Failed && Stage(t) == Stage(s) + 1
  }

  lemma {:induction false} AllowedIsMayMove(s: Status, t: Status)
    ensures t in Allowed(s) <==> MayMove(s, t)
  {
    match s
    case New =>
    case Triaged =>
    case Planned =>
    case Approved =>
    case Executing =>
    case Verifying =>
    case Reviewing =>
    case Fixing =>
    case Accepted =>
    case Blocked =>
    case Failed =>
    case Closed =>
  }

  // --- requests that are accepted ---

  /** Where the task stands: at the target of its last persisted transition, or new. */
  function StatusOf(log: seq<Event>, runId: string, taskId: string): Option<Status> {
    var path := Path(log, runId, taskId);
    if path == [] then Some(New) else path[|path| - 1].to
  }

  /**
   * A request is accepted exactly if it states the status the task has, the rules let the task move, its evidence is
   * not blank, and, when it starts the execution, neither is its approval.
   */
  lemma {:induction false} AcceptedIff(log: seq<Event>, r: Request)
    ensures Accepts(log, r) <==>
              && StatusOf(log, r.runId, r.taskId) == Some(r.current) && MayMove(r.current, r.target)
              && !Blank(r.evidence)
              && (r.target == Executing ==> r.approval.Some? && !Blank(r.approval.value))
  {
    AllowedIsMayMove(r.current, r.target);
    StripIsTrimmed(r.evidence);
    if r.approval.Some? { StripIsTrimmed(r.approval.value); }
    hide Path, Strip, Allowed, MayMove;
  }

  /** An accepted request moves its task to the target and no other task; a refused one moves none. */
  lemma {:induction false} AcceptedMoves(log: seq<Event>, r: Request, runId: string, taskId: string)
    ensures StatusOf(Apply(log, Transition(r)), runId, taskId)
         == if Accepts(log, r) && r.runId == runId && r.taskId == taskId then Some(r.target)
            else StatusOf(log, runId, taskId)
  {
    PathSnoc(log, TransitionEvent(r), runId, taskId);
    ConcatEmpty(Path(log, runId, taskId));
    hide Path, Accepts, Strip;
  }

  // --- every open task can be closed ---

  /** The next status on the shortest way to CLOSED. */
  function Onward(s: Status): Status
    requires s != Failed && s != Closed
  {
    match s
    case New => Triaged
    case Triaged => Planned
    case Planned => Approved
    case Approved => Executing
    case Executing => Verifying
    case Verifying => Reviewing
    case Reviewing => Accepted
    case Accepted => Closed
    case Blocked => Triaged
    case Fixing => Verifying
  }

  function Distance(s: Status): nat {
    match s
    case New => 8
    case Blocked => 8
    case Triaged => 7
    case Planned => 6
    case Approved => 5
    case Executing => 4
    case Fixing => 4
    case Verifying => 3
    case Reviewing => 2
    case Accepted => 1
    case Closed => 0
    case Failed => 0
  }

  /** The request for the next step, with this evidence and approval. */
  function Next(runId: string, taskId: string, s: Status, evidence: string, approval: string): Request
    requires s != Failed && s != Closed
  {
    Request(runId, taskId, s, Onward(s), "", evidence, Some(approval))
  }

  lemma {:induction false} RunConcat(calls: seq<Call>, call: Call)
    ensures Run(calls + [call]) == Apply(Run(calls), call)
  {
    JoinCut(calls, [call]);
  }

  lemma {:induction false} OnwardIsMove(s: Status)
    requires s != Failed && s != Closed
    ensures MayMove(s, Onward(s)) && Distance(Onward(s)) == Distance(s) - 1 && Onward(s) != Failed
  {
  }

  lemma {:induction false} StepsOnward(
      calls: seq<Call>, runId: string, taskId: string, s: Status, evidence: string, approval: string)
    requires StatusOf(Run(calls), runId, taskId) == Some(s) && s != Failed && s != Closed
    requires !Blank(evidence) && !Blank(approval)
    ensures StatusOf(Run(calls + [Transition(Next(runId, taskId, s, evidence, approval))]), runId, taskId)
         == Some(Onward(s))
  {
    var r := Next(runId, taskId, s, evidence, approval);
    hide StatusOf, Accepts, Apply, MayMove, Blank, Run, Onward;
    OnwardIsMove(s);
    AcceptedIff(Run(calls), r);
    AcceptedMoves(Run(calls), r, runId, taskId);
    RunConcat(calls, Transition(r));
  }

  /** After any calls, a task that is neither failed nor closed can be closed by at most eight more requests, given any
      evidence and approval with text. */
  lemma {:induction false} EveryTaskCanClose(
      calls: seq<Call>, runId: string, taskId: string, s: Status, evidence: string, approval: string)
    returns (more: seq<Call>)
    requires StatusOf(Run(calls), runId, taskId) == Some(s) && s != Failed && s != Closed
    requires !Blank(evidence) && !Blank(approval)
    ensures StatusOf(Run(calls + more), runId, taskId) == Some(Closed) && |more| == Distance(s) <= 8
    decreases Distance(s)
  {
    var call := Transition(Next(runId, taskId, s, evidence, approval));
    StepsOnward(calls, runId, taskId, s, evidence, approval);
    OnwardIsMove(s);
    hide Run, StatusOf, Next, Blank, MayMove;
    if Onward(s) == Closed {
      more := [call];
    } else {
      var rest := EveryTaskCanClose(calls + [call], runId, taskId, Onward(s), evidence, approval);
      ConcatAssociates(calls, [call], rest);
      more := [call] + rest;
    }
  }

  /** After any calls every task has a status. */
  lemma {:induction false} StatusIsKnown(calls: seq<Call>, runId: string, taskId: string)
    ensures StatusOf(Run(calls), runId, taskId).Some?
  {
    PathsAreChained(calls, runId, taskId);
    var path := Path(Run(calls), runId, taskId);
    hide Path, Run;
    if path != [] { assert StepOk(path, |path| - 1); }
  }

  /** What is persisted of an accepted request: the run, the task, both statuses, the actor, and the texts stripped. */
  lemma {:induction false} PersistedStep(log: seq<Event>, r: Request)
    requires Accepts(log, r)
    ensures var after := Apply(log, Transition(r));
            && |after| == |log| + 1 && after[..|log|] == log
            && var e := after[|log|];
               && e.runId == r.runId && e.taskId == r.taskId && e.eventType == "state_transition"
               && e.status == r.target && e.from == Some(r.current) && e.to == Some(r.target) && e.actor == r.actor
               && e.evidence == Some(Strip(r.evidence))
               && (e.approval.Some? <==> r.approval.Some? && r.approval.value != "")
               && (e.approval.Some? ==> e.approval.value == Strip(r.approval.value))
  {
    hide Strip, Path, Allowed;
  }
}
