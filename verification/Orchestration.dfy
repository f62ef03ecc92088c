/** The event store file and the service that persists validated transitions. */
module Orchestration {
  import opened JsonLines
  import opened RunLog
  import opened Slices
  import opened Text

  /** Every event that passes the validator of `RunEvent` can be written and read back. */
  ghost predicate GoodEvents(c: Codec<Event>) {
    forall e: Event | ValidEvent(e) :: GoodRecord(c, e)
  }

  /** `JsonlEventStore`. */
  class EventStore {
    const codec: Codec<Event>
    var content: string
    ghost var events: seq<Event>

    /** The file is one line for each event, in order, and every event is valid. */
    ghost predicate Valid()
      reads this
    {
      GoodEvents(codec) && (forall e | e in events :: ValidEvent(e)) && content == LogText(codec, events)
    }

    constructor (c: Codec<Event>)
      requires GoodEvents(c)
      ensures Valid() && events == [] && codec == c
    {
      codec, content, events := c, "", [];
    }

    /** An event object has passed its validator. */
    method Append(e: Event)
      requires Valid() && ValidEvent(e)
      modifies this
      ensures Valid() && events == old(events) + [e]
    {
      LogTextSnoc(codec, events, e);
      hide GoodEvents;
      content := content + (codec.render(e) + "\n");
      events := events + [e];
    }

    method ReadAll() returns (r: seq<Event>)
      requires Valid()
      ensures r == events
    {
      assert AllGood(codec, events) by {
        forall i | 0 <= i < |events| ensures GoodRecord(codec, events[i]) { assert ValidEvent(events[i]); }
      }
      FileReadsBack(codec, events);
      hide GoodEvents, ParseLines, FileLines;
      var parsed := ParseRecords(codec, FileLines(content));
      r := parsed.value;
    }

    /** `replay`, limited to one run. */
    method Replay(runId: string) returns (r: seq<Event>)
      requires Valid()
      ensures r == OfRun(events, runId)
    {
      var all := ReadAll();
      r := [];
      var i := 0;
      while i < |all|
        invariant i <= |all| && r == OfRun(all[..i], runId)
      {
        assert all[..i + 1][..i] == all[..i];
        if all[i].runId == runId { r := r + [all[i]]; }
        i := i + 1;
      }
      TakeAll(all);
    }
  }

  function OfRun(log: seq<Event>, runId: string): seq<Event>
    decreases |log|
  {
    if log == [] then []
    else OfRun(log[..|log| - 1], runId) + (if log[|log| - 1].runId == runId then [log[|log| - 1]] else [])
  }

  /** The transitions of a task within its run's events are its path in the whole log. */
  lemma {:induction false} PathWithinRun(log: seq<Event>, runId: string, taskId: string)
    ensures Path(OfRun(log, runId), runId, taskId) == Path(log, runId, taskId)
    decreases |log|
  {
    if log != [] {
      var front, last := log[..|log| - 1], log[|log| - 1];
      PathWithinRun(front, runId, taskId);
      hide Path;
      assert front + [last] == log;
      PathSnoc(front, last, runId, taskId);
      PathSnoc(OfRun(front, runId), last, runId, taskId);
      ConcatEmpty(OfRun(front, runId));
      ConcatEmpty(Path(front, runId, taskId));
    }
  }

  /** `TaskEnvelope`: the status is the caller's and may be stale or changed by others. */
  class Task {
    const id: string
    var status: Status

    constructor (taskId: string, initial: Status)
      ensures id == taskId && status == initial
    {
      id, status := taskId, initial;
    }
  }

  class OrchestrationService {
    const store: EventStore

    constructor (s: EventStore)
      ensures store == s
    {
      store := s;
    }

    /** `transition`: persists the step and moves the task, or raises and changes nothing. */
    method Transition(
        task: Task, target: Status, runId: string, actor: string, evidence: string, approval: Option<string>)
      returns (event: Option<Event>)
      requires store.Valid()
      modifies store, task
      ensures store.Valid()
      ensures var r := Request(runId, task.id, old(task.status), target, actor, evidence, approval);
              && store.events == Apply(old(store.events), RunLog.Transition(r))
              && event == (if Accepts(old(store.events), r) then Some(TransitionEvent(r)) else None)
              && task.status == (if event.Some? then target else old(task.status))
    {
      hide GoodEvents, Strip;
      ghost var r := Request(runId, task.id, task.status, target, actor, evidence, approval);
      var prior := PriorTransitions(task.id, runId);
      if prior == [] && task.status != New { return None; }
      if prior != [] && prior[|prior| - 1].to != Some(task.status) { return None; }
      if target !in Allowed(task.status) { return None; }
      var receipt := Strip(evidence);
      if receipt == "" { return None; }
      var normalized := if approval.Some? && approval.value != "" then Some(Strip(approval.value)) else None;
      if target == Executing && (normalized.None? || normalized.value == "") { return None; }
      var e := Event(runId, task.id, TRANSITION, target, actor, Some(task.status), Some(target), Some(receipt),
        normalized);
      NonBlankStrip(evidence);
      store.Append(e);
      task.status := target;
      return Some(e);
    }

    method PriorTransitions(taskId: string, runId: string) returns (prior: seq<Event>)
      requires store.Valid()
      ensures prior == Path(store.events, runId, taskId)
    {
      hide GoodEvents;
      var events := store.Replay(runId);
      PathWithinRun(store.events, runId, taskId);
      prior := [];
      var i := 0;
      while i < |events|
        invariant i <= |events| && prior == Path(events[..i], runId, taskId)
      {
        assert events[..i + 1][..i] == events[..i];
        AllOfRun(store.events, runId, i);
        if events[i].taskId == taskId && events[i].eventType == TRANSITION { prior := prior + [events[i]]; }
        i := i + 1;
      }
      TakeAll(events);
    }
  }

  lemma {:induction false} AllOfRun(log: seq<Event>, runId: string, i: nat)
    requires i < |OfRun(log, runId)|
    ensures OfRun(log, runId)[i].runId == runId
    decreases |log|
  {
    if log != [] && i < |OfRun(log[..|log| - 1], runId)| { AllOfRun(log[..|log| - 1], runId, i); }
  }
}
