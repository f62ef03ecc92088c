/** Task transitions and the run log that persists them, as values. */
module RunLog {
  import opened Slices
  import opened Text

  datatype Status =
    | New | Triaged | Planned | Approved | Executing | Verifying
    | Reviewing | Fixing | Accepted | Blocked | Failed | Closed

  /** `ALLOWED_TRANSITIONS`. */
  function Allowed(s: Status): set<Status> {
    match s
    case New => {Triaged, Blocked, Failed}
    case Triaged => {Planned, Blocked, Failed}
    case Planned => {Approved, Blocked, Failed}
    case Approved => {Executing, Blocked, Failed}
    case Executing => {Verifying, Blocked, Failed}
    case Verifying => {Reviewing, Fixing, Blocked, Failed}
    case Reviewing => {Accepted, Fixing, Blocked, Failed}
    case Fixing => {Verifying, Blocked, Failed}
    case Accepted => {Closed}
    case Blocked => {Triaged, Failed}
    case Failed => {}
    case Closed => {}
  }

  datatype Event = Event(
    runId: string, taskId: string, eventType: string, status: Status, actor: string, from: Option<Status>,
    to: Option<Status>, evidence: Option<string>, approval: Option<string>)

  const TRANSITION: string := "state_transition"

  /** The validator of `RunEvent`. */
  predicate ValidEvent(e: Event) {
    e.eventType == TRANSITION ==>
      && e.from.Some? && e.to.Some? && e.status == e.to.value
      && e.evidence.Some? && !Blank(e.evidence.value)
  }

  /** The persisted transitions of one task in one run. */
  predicate Belongs(e: Event, runId: string, taskId: string) {
    e.runId == runId && e.taskId == taskId && e.eventType == TRANSITION
  }

  function Path(log: seq<Event>, runId: string, taskId: string): seq<Event>
    decreases |log|
  {
    if log == [] then [] else
    var last := log[|log| - 1];
    Path(log[..|log| - 1], runId, taskId) + (if Belongs(last, runId, taskId) then [last] else [])
  }

  datatype Request = Request(
    runId: string, taskId: string, current: Status, target: Status, actor: string, evidence: string,
    approval: Option<string>)

  /** `normalized_approval`. */
  function NormalizedApproval(r: Request): Option<string> {
    if r.approval.Some? && r.approval.value != "" then Some(Strip(r.approval.value)) else None
  }

  /** The checks of `transition`, in its order: continuity, the transition table, the evidence and the approval. */
  predicate Accepts(log: seq<Event>, r: Request) {
    var prior := Path(log, r.runId, r.taskId);
    && (if prior == [] then r.current == New else prior[|prior| - 1].to == Some(r.current))
    && r.target in Allowed(r.current)
    && Strip(r.evidence) != ""
    && (r.target == Executing ==> NormalizedApproval(r).Some? && NormalizedApproval(r).value != "")
  }

  function TransitionEvent(r: Request): Event {
    Event(r.runId, r.taskId, TRANSITION, r.target, r.actor, Some(r.current), Some(r.target), Some(Strip(r.evidence)),
          NormalizedApproval(r))
  }

  // --- histories ---

  /** What callers may do: ask for a transition, with any status they believe the task has, or append another event. */
  datatype Call = Transition(request: Request) | Other(event: Event)

  function Apply(log: seq<Event>, call: Call): seq<Event> {
    match call
    case Transition(r) => if Accepts(log, r) then log + [TransitionEvent(r)] else log
    case Other(e) => if e.eventType == TRANSITION then log else log + [e]
  }

  function Run(calls: seq<Call>): seq<Event>
    decreases |calls|
  {
    if calls == [] then [] else Apply(Run(calls[..|calls| - 1]), calls[|calls| - 1])
  }

  // --- the path of one task ---

  predicate StepOk(path: seq<Event>, k: nat)
    requires k < |path|
  {
    var e := path[k];
    && ValidEvent(e) && e.eventType == TRANSITION
    && e.from == (if k == 0 then Some(New) else path[k - 1].to)
    && e.to.value in Allowed(e.from.value)
    && (e.to == Some(Executing) ==> e.approval.Some? && !Blank(e.approval.value))
  }

  /** A walk from NEW through the transition table, each step starting where the one before ended. */
  predicate Chained(path: seq<Event>) {
    forall k | 0 <= k < |path| :: StepOk(path, k)
  }

  lemma {:induction false} PathSnoc(log: seq<Event>, e: Event, runId: string, taskId: string)
    ensures Path(log + [e], runId, taskId) == Path(log, runId, taskId) + (if Belongs(e, runId, taskId) then [e] else [])
  {
    assert (log + [e])[..|log|] == log;
  }

  lemma {:induction false} ChainedSnoc(path: seq<Event>, e: Event)
    requires Chained(path) && StepOk(path + [e], |path|)
    ensures Chained(path + [e])
  {
    forall k | 0 <= k < |path + [e]| ensures StepOk(path + [e], k) {
      if k < |path| { assert StepOk(path, k); }
    }
  }

  lemma {:induction false} NewStepOk(log: seq<Event>, r: Request)
    requires Accepts(log, r)
    ensures var path := Path(log, r.runId, r.taskId); StepOk(path + [TransitionEvent(r)], |path|)
  {
    hide Path, Strip;
    NonBlankStrip(r.evidence);
    if r.target == Executing { NonBlankStrip(r.approval.value); }
  }

  /** Whatever callers do, in any interleaving of runs and tasks and with any stale status, each task's persisted
      transitions form a walk from NEW, and every step into EXECUTING carries a non-blank approval. */
  lemma {:induction false} PathsAreChained(calls: seq<Call>, runId: string, taskId: string)
    ensures Chained(Path(Run(calls), runId, taskId))
    decreases |calls|
  {
    hide Chained, Path, Accepts, StepOk;
    if calls == [] {
      EmptyPathChained(runId, taskId);
    } else {
      var front, call := calls[..|calls| - 1], calls[|calls| - 1];
      PathsAreChained(front, runId, taskId);
      var log, path := Run(front), Path(Run(front), runId, taskId);
      match call
      case Transition(r) =>
        if Accepts(log, r) {
          PathSnoc(log, TransitionEvent(r), runId, taskId);
          NewStepOk(log, r);
          if Belongs(TransitionEvent(r), runId, taskId) {
            ChainedSnoc(path, TransitionEvent(r));
          } else {
            ConcatEmpty(path);
          }
        }
      case Other(e) =>
        PathSnoc(log, e, runId, taskId);
        ConcatEmpty(path);
    }
  }

  lemma {:induction false} EmptyPathChained(runId: string, taskId: string)
    ensures Chained(Path([], runId, taskId))
  {
  }

  // --- what a walk through the table means ---

  predicate Reaches(path: seq<Event>, k: int, s: Status) {
    0 <= k < |path| && path[k].to == Some(s)
  }

  /** Work that happens only between an approved execution and acceptance. */
  predicate InExecution(s: Status) {
    s == Executing || s == Verifying || s == Reviewing || s == Fixing
  }

  /** Steps j - 3 to j are triage, plan, approval and execution; from j to k the task never leaves execution. */
  predicate ApprovedRun(path: seq<Event>, j: int, k: int) {
    && 3 <= j <= k < |path|
    && Reaches(path, j - 3, Triaged) && Reaches(path, j - 2, Planned) && Reaches(path, j - 1, Approved)
    && Reaches(path, j, Executing) && path[j].approval.Some? && !Blank(path[j].approval.value)
    && forall i | j <= i <= k :: path[i].to.Some? && InExecution(path[i].to.value)
  }

  lemma {:induction false} ApprovalChain(path: seq<Event>, j: nat)
    requires Chained(path) && Reaches(path, j, Executing)
    ensures ApprovedRun(path, j, j)
  {
    assert StepOk(path, j);
    assert Reaches(path, j - 1, Approved);
    assert StepOk(path, j - 1);
    assert Reaches(path, j - 2, Planned);
    assert StepOk(path, j - 2);
    assert Reaches(path, j - 3, Triaged);
  }

  /** A task in execution got there through its latest approved execution, without being blocked since. */
  lemma {:induction false} ExecutionWasApproved(path: seq<Event>, k: nat) returns (j: nat)
    requires Chained(path) && k < |path| && path[k].to.Some? && InExecution(path[k].to.value)
    ensures ApprovedRun(path, j, k)
    decreases k
  {
    if path[k].to == Some(Executing) {
      ApprovalChain(path, k);
      j := k;
    } else {
      assert StepOk(path, k);
      hide Chained;
      assert k > 0 && path[k - 1].to.Some? && InExecution(path[k - 1].to.value);
      j := ExecutionWasApproved(path, k - 1);
    }
  }

  ghost predicate WasApproved(path: seq<Event>, k: int) {
    exists j :: ApprovedRun(path, j, k)
  }

  /** Acceptance comes straight from a review inside an approved, uninterrupted execution. */
  lemma {:induction false} AcceptedWasApproved(path: seq<Event>, k: nat)
    requires Chained(path) && Reaches(path, k, Accepted)
    ensures Reaches(path, k - 1, Reviewing) && WasApproved(path, k - 1)
  {
    assert StepOk(path, k);
    assert Reaches(path, k - 1, Reviewing);
    var j := ExecutionWasApproved(path, k - 1);
  }

  /** Nothing follows FAILED or CLOSED, and only CLOSED follows ACCEPTED. */
  lemma {:induction false} TerminalStatesEnd(path: seq<Event>, k: nat)
    requires Chained(path) && k < |path|
    ensures Reaches(path, k, Failed) || Reaches(path, k, Closed) ==> k == |path| - 1
    ensures Reaches(path, k, Accepted) && k < |path| - 1 ==> k == |path| - 2 && Reaches(path, k + 1, Closed)
  {
    if k + 1 < |path| { assert StepOk(path, k + 1); }
    if k + 2 < |path| { assert StepOk(path, k + 2); }
  }

  /** For every history: a task that was accepted or closed ran under an explicit approval, from triage on. */
  lemma {:induction false} ClosedTasksWereApproved(calls: seq<Call>, runId: string, taskId: string, k: nat)
    requires var path := Path(Run(calls), runId, taskId); Reaches(path, k, Accepted) || Reaches(path, k, Closed)
    ensures var path := Path(Run(calls), runId, taskId);
            exists m :: m < k && WasApproved(path, m) && Reaches(path, m, Reviewing) && Reaches(path, m + 1, Accepted)
  {
    PathsAreChained(calls, runId, taskId);
    var path := Path(Run(calls), runId, taskId);
    hide Path, Run, WasApproved;
    assert StepOk(path, k);
    var a := if Reaches(path, k, Accepted) then k else k - 1;
    assert Reaches(path, a, Accepted);
    AcceptedWasApproved(path, a);
    assert a - 1 < k && WasApproved(path, a - 1) && Reaches(path, a - 1, Reviewing)
      && Reaches(path, (a - 1) + 1, Accepted);
  }
}
