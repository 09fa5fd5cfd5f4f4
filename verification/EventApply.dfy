/**
 Lifecycle events and server verdicts applied to the executions of one task, and the
 task's own status rolled up from them.
 */
module EventApply {
  import opened Prelude

  datatype Status = Pending | Running | Finished | Failed | Canceled | Lost
  datatype TaskStatus = Queued | TaskRunning | Finalizing
                      | TaskComplete | TaskFailed | TaskCanceled | TaskLost | NoTarget

  predicate Hard(s: Status) { s in {Finished, Failed, Canceled} }

  predicate Terminal(s: Status) { Hard(s) || s == Lost }

  predicate TaskTerminal(s: TaskStatus) { s in {TaskComplete, TaskFailed, TaskCanceled, TaskLost, NoTarget} }

  /** Why an execution counts as lost: the server's inferences, then the agent's reports. */
  datatype Reason = HeartbeatTimeout | EventStall
                  | StateMissing | ProcessMissing | RunnerRecoveredUnknown | SpawnAborted
  {
    predicate Agent() { this !in {HeartbeatTimeout, EventStall} }
  }

  type Id = nat

  datatype Execution = Execution(status: Status, reconciled: bool, reason: Option<Reason>)

  /** An agent event: the status it reports, with a reason when that is lost. */
  datatype Event = Event(execution: Id, status: Status, reason: Option<Reason>)

  datatype Outcome = Applied | OverrideLost | ReclaimRequested | SkippedTerminal | SkippedDup | SkippedNoAttempt

  // ---------------------------------------------------------------- transitions

  predicate ExecEdge(from: Status, to: Status) {
    match from
    case Pending => true
    case Running => to != Pending
    case Lost => to == Lost || Hard(to)
    case _ => from == to
  }

  predicate TaskEdge(from: TaskStatus, to: TaskStatus) {
    match from
    case Queued => to in {Queued, TaskRunning, TaskFailed, TaskCanceled, TaskLost}
    case TaskRunning => to in {TaskRunning, Finalizing, TaskComplete, TaskFailed, TaskCanceled, TaskLost}
    case Finalizing => to in {Finalizing, TaskComplete, TaskFailed, TaskCanceled, TaskLost}
    case TaskLost => to in {TaskLost, TaskComplete, TaskFailed, TaskCanceled}
    case _ => from == to
  }

  function Statuses(execs: map<Id, Execution>): set<Status> {
    set x | x in execs :: execs[x].status
  }

  /** The task's verdict once every execution has one. */
  function Rollup(statuses: set<Status>): Option<TaskStatus> {
    if statuses == {} || Pending in statuses || Running in statuses then None
    else if Failed in statuses then Some(TaskFailed)
    else if Lost in statuses then Some(TaskLost)
    else if Canceled in statuses then Some(TaskCanceled)
    else Some(TaskComplete)
  }

  predicate Started(statuses: set<Status>) {
    statuses - {Pending} != {}
  }

  // ---------------------------------------------------------------- what an execution should end as

  /** The first authoritative terminal, if there is any. */
  function FirstHard(told: seq<Status>): Option<Status> {
    if told == [] then None
    else if FirstHard(told[..|told|-1]) != None then FirstHard(told[..|told|-1])
    else if Hard(told[|told|-1]) then Some(told[|told|-1]) else None
  }

  /** The verdict on all that was told, by agent and server, whatever the order. */
  function Verdict(told: seq<Status>): Status {
    if FirstHard(told).Some? then FirstHard(told).value
    else if Lost in told then Lost
    else if Running in told then Running
    else Pending
  }

  /** An execution's status after one report. */
  function Moved(from: Status, report: Status): Status {
    if from == Lost then (if Hard(report) then report else Lost)
    else if ExecEdge(from, report) then report else from
  }

  /** The status that step-by-step application reaches from pending. */
  function Replay(told: seq<Status>): Status {
    if told == [] then Pending else Moved(Replay(told[..|told|-1]), told[|told|-1])
  }

  lemma ReplayMore(told: seq<Status>, s: Status)
    ensures Replay(told + [s]) == Moved(Replay(told), s)
  {
    assert (told + [s])[..|told|] == told;
  }

  /** Applying reports one at a time reaches the verdict on all of them. */
  lemma {:induction false} ReplayIsVerdict(told: seq<Status>)
    ensures Replay(told) == Verdict(told)
  {
    FirstHardIsTold(told);
    if told != [] {
      var rest := told[..|told|-1];
      ReplayIsVerdict(rest);
      FirstHardIsTold(rest);
      assert told == rest + [told[|told|-1]];
    }
  }

  lemma {:induction false} FirstHardIsTold(told: seq<Status>)
    ensures FirstHard(told).Some? ==> Hard(FirstHard(told).value) && FirstHard(told).value in told
    ensures FirstHard(told) == None ==> forall s | s in told :: !Hard(s)
  {
    if told != [] {
      FirstHardIsTold(told[..|told|-1]);
      assert told == told[..|told|-1] + [told[|told|-1]];
    }
  }

  /** finished, failed and canceled are absorbing, whatever follows. */
  lemma {:induction false} HardIsAbsorbing(told: seq<Status>, more: seq<Status>)
    requires Hard(Replay(told))
    ensures Replay(told + more) == Replay(told)
  {
    if more == [] {
      assert told + more == told;
    } else {
      var n := |more| - 1;
      HardIsAbsorbing(told, more[..n]);
      assert told + more == (told + more[..n]) + [more[n]];
      ReplayMore(told + more[..n], more[n]);
    }
  }

  lemma HardStays(told: seq<Status>, later: seq<Status>)
    requires Hard(Replay(told)) && told <= later
    ensures Replay(later) == Replay(told)
  {
    HardIsAbsorbing(told, later[|told|..]);
    assert later == told + later[|told|..];
  }

  /** Where all authoritative terminals agree, the verdict is theirs. */
  lemma Confluence(told: seq<Status>, t: Status)
    requires Hard(t) && t in told && forall s | s in told && Hard(s) :: s == t
    ensures Replay(told) == t
  {
    FirstHardIsTold(told);
    ReplayIsVerdict(told);
  }

  /** Repeats and order do not matter, as long as authoritative terminals do not conflict. */
  lemma OrderDoesNotMatter(told: seq<Status>, other: seq<Status>)
    requires forall s :: s in told <==> s in other
    requires forall s, t | s in told && t in told && Hard(s) && Hard(t) :: s == t
    ensures Replay(told) == Replay(other)
  {
    FirstHardIsTold(told);
    FirstHardIsTold(other);
    ReplayIsVerdict(told);
    ReplayIsVerdict(other);
  }

  /** It matters only then: two terminals that differ, told in either order. */
  lemma ConflictIsDecidedByOrder(s: Status, t: Status)
    requires Hard(s) && Hard(t) && s != t
    ensures Replay([s, t]) == s && Replay([t, s]) == t
  {
    ReplayMore([], s);
    ReplayMore([], t);
    assert [] + [s] == [s] && [] + [t] == [t];
    ReplayMore([s], t);
    ReplayMore([t], s);
    assert [s] + [t] == [s, t] && [t] + [s] == [t, s];
  }

  // ---------------------------------------------------------------- one task

  class Ledger {
    var task: TaskStatus
    var execs: map<Id, Execution>
    var audited: set<Id>             // stream entry ids already applied
    var reclaims: map<Id, nat>       // unresolved stop(reclaim) commands
    ghost var told: map<Id, seq<Status>>

    constructor (ids: set<Id>)
      requires ids != {}
      ensures Valid() && task == Queued && execs.Keys == ids && forall x | x in ids :: told[x] == []
    {
      task := Queued;
      execs := map x | x in ids :: Execution(Pending, false, None);
      audited, reclaims := {}, map[];
      told := map x | x in ids :: [];
      var x :| x in ids;
      new;
      assert x in execs;
    }

    /** Each execution is what it was told; the task is what its executions are. */
    ghost predicate Valid()
      reads this
    {
      execs != map[] && AsTold(execs, told) && TaskInStep() && forall x | x in reclaims :: reclaims[x] <= 1
    }

    /** Active exactly while some execution is, and rolled up exactly when none is. */
    predicate TaskInStep()
      reads this
    {
      if Rollup(Statuses(execs)).Some? then task == Rollup(Statuses(execs)).value
        else task in {Queued, TaskRunning, Finalizing}
    }

    /** failed before lost before canceled before complete, once no execution is active. */
    lemma TaskMeans()
      requires Valid()
      ensures var ended := forall x | x in execs :: Terminal(execs[x].status);
        var failed := exists x | x in execs :: execs[x].status == Failed;
        var lost := exists x | x in execs :: execs[x].status == Lost;
        var canceled := exists x | x in execs :: execs[x].status == Canceled;
        && (TaskTerminal(task) <==> ended)
        && (task == TaskFailed <==> ended && failed)
        && (task == TaskLost <==> ended && !failed && lost)
        && (task == TaskCanceled <==> ended && !failed && !lost && canceled)
        && (task == TaskComplete <==> forall x | x in execs :: execs[x].status == Finished)
    {
      RollupMeans(execs);
    }

    /** The first report that leaves pending takes a queued task to running. */
    method ConvergeTask()
      modifies this`task
      ensures task == if old(task) == Queued && Started(Statuses(execs)) then TaskRunning else old(task)
    {
      if task == Queued && Started(Statuses(execs)) {
        task := TaskRunning;
      }
    }

    /** `was` is what the executions were when the task was last in step. */
    method UpdateTask(ghost was: map<Id, Execution>, ghost x: Id)
      requires execs != map[] && x in execs && OnlyMoved(was, execs, x)
      requires ExecEdge(was[x].status, execs[x].status)
      requires if Rollup(Statuses(was)).Some? then task == Rollup(Statuses(was)).value
        else task in {Queued, TaskRunning, Finalizing}
      modifies this`task
      ensures TaskInStep()
    {
      ConvergeTask();
      var rolled := Rollup(Statuses(execs));
      RollupMoves(was, execs, x);
      if rolled.Some? && rolled.value != task && (!TaskTerminal(task) || task == TaskLost) &&
        TaskEdge(task, rolled.value) {
        task := rolled.value;
      }
    }

    /** One stream entry. */
    method ApplyEvent(ev: Event, msgId: Id) returns (outcome: Outcome)
      requires Valid()
      modifies this
      ensures Valid() && execs.Keys == old(execs.Keys)
      ensures audited == old(audited) + {msgId}
      ensures outcome == SkippedDup <==> msgId in old(audited)
      ensures outcome == SkippedNoAttempt <==> msgId !in old(audited) && ev.execution !in execs
      ensures told == (if outcome == SkippedDup || outcome == SkippedNoAttempt then old(told)
        else old(told)[ev.execution := old(told)[ev.execution] + [ev.status]])
      ensures forall x | x in execs && x != ev.execution :: execs[x] == old(execs)[x]
      ensures ev.execution in execs ==> Explains(outcome, old(execs)[ev.execution], execs[ev.execution], ev)
      ensures outcome != ReclaimRequested ==> reclaims == old(reclaims)
      ensures outcome == ReclaimRequested ==> Unresolved(ev.execution) > 0
      ensures old(Unresolved(ev.execution)) > 0 ==> reclaims == old(reclaims)
      ensures Seen(audited, told) == Noticed(Seen(old(audited), old(told)), Entry(ev, msgId))
    {
      if msgId in audited {
        assert audited == audited + {msgId};
        return SkippedDup;
      }
      if ev.execution !in execs {
        audited := audited + {msgId};
        return SkippedNoAttempt;
      }
      outcome := ApplyFresh(ev);
      audited := audited + {msgId};
    }

    /** An entry not seen before, for an execution that exists. */
    method ApplyFresh(ev: Event) returns (outcome: Outcome)
      requires Valid() && ev.execution in execs
      modifies this`execs, this`task, this`told, this`reclaims
      ensures Valid()
      ensures told == old(told)[ev.execution := old(told)[ev.execution] + [ev.status]]
      ensures execs == old(execs)[ev.execution := execs[ev.execution]]
      ensures Explains(outcome, old(execs)[ev.execution], execs[ev.execution], ev) && outcome != SkippedDup
      ensures reclaims ==
        if outcome == ReclaimRequested && old(Unresolved(ev.execution)) == 0 then old(reclaims)[ev.execution := 1]
        else old(reclaims)
    {
      var next;
      next, outcome := Decide(execs[ev.execution], ev);
      Record(ev.execution, next, ev.status);
      if outcome == ReclaimRequested {
        RequestReclaim(ev.execution);
      }
    }

    /** The state machine of one execution. */
    method Decide(e: Execution, ev: Event) returns (next: Execution, outcome: Outcome)
      ensures Explains(outcome, e, next, ev) && outcome != SkippedDup
      ensures next.status == Moved(e.status, ev.status) && ExecEdge(e.status, next.status)
      ensures e.status == Lost && e.reason.Some? && e.reason.value.Agent() && next.status == Lost ==>
        next.reason.Some? && next.reason.value.Agent()
      ensures e.status == Lost && !Terminal(ev.status) ==> outcome == ReclaimRequested
    {
      next := e;
      if e.status == ev.status {
        if e.status == Lost && ev.reason.Some? && (ev.reason.value.Agent() || e.reason == None) {
          next := e.(reason := ev.reason);
        }
        outcome := Applied;
      } else if e.status == Lost && Hard(ev.status) {
        next := e.(status := ev.status, reconciled := true);
        outcome := OverrideLost;
      } else if e.status == Lost && !Terminal(ev.status) {
        outcome := ReclaimRequested;
      } else if Terminal(e.status) {
        outcome := SkippedTerminal;
      } else if ExecEdge(e.status, ev.status) {
        next := e.(status := ev.status, reason := if ev.status == Lost && ev.reason.Some? then ev.reason else e.reason);
        outcome := Applied;
      } else {
        outcome := SkippedTerminal;
      }
    }

    function Unresolved(x: Id): nat
      reads this
    {
      if x in reclaims then reclaims[x] else 0
    }

    /** At most one unresolved reclaim at a time comes from here. */
    method RequestReclaim(x: Id)
      modifies this`reclaims
      ensures reclaims == if old(Unresolved(x)) > 0 then old(reclaims) else old(reclaims)[x := 1]
    {
      if Unresolved(x) == 0 {
        reclaims := reclaims[x := 1];
      }
    }

    /**
     The server's own verdict, after re-reading the execution under its lock: only an
     active execution becomes lost, and only an active task is rolled up.
     */
    method MarkLost(x: Id, reason: Reason) returns (marked: bool)
      requires Valid()
      modifies this`execs, this`task, this`told
      ensures Valid()
      ensures marked <==> x in old(execs) && !Terminal(old(execs)[x].status)
      ensures marked ==> execs == old(execs)[x := old(execs)[x].(status := Lost, reason := Some(reason))]
      ensures marked ==> told == Told(old(told), x, Lost)
      ensures !marked ==> execs == old(execs) && task == old(task) && told == old(told)
      ensures Seen(audited, told) == Noticed(Seen(old(audited), old(told)), Sentence(x, reason))
    {
      marked := x in execs && !Terminal(execs[x].status);
      assert x in execs ==> execs[x].status == Replay(told[x]);
      if marked {
        Condemn(x, reason);
      }
    }

    method Condemn(x: Id, reason: Reason)
      requires Valid() && x in execs && !Terminal(execs[x].status)
      modifies this`execs, this`task, this`told
      ensures Valid() && told == Told(old(told), x, Lost)
      ensures execs == old(execs)[x := old(execs)[x].(status := Lost, reason := Some(reason))]
    {
      var lost := execs[x].(status := Lost, reason := Some(reason));
      RollupMoves(execs, execs[x := lost], x);
      Write(x, lost, Lost);
      Reroll(x);
    }

    /** The execution and, beside it, what it was told; the task is not in step yet. */
    method Write(x: Id, next: Execution, report: Status)
      requires AsTold(execs, told) && x in execs && next.status == Moved(execs[x].status, report)
      modifies this`execs, this`told
      ensures AsTold(execs, told)
      ensures execs == old(execs)[x := next] && told == Told(old(told), x, report)
    {
      OneMoreTold(execs, told, x, next, report);
      execs := execs[x := next];
      told := Told(told, x, report);
    }

    method Reroll(ghost x: Id)
      requires x in execs && execs[x].status == Lost && task in {Queued, TaskRunning, Finalizing}
      modifies this`task
      ensures TaskInStep()
    {
      if TaskTerminal(task) {
        return;
      }
      var rolled := Rollup(Statuses(execs));
      if rolled.Some? && TaskEdge(task, rolled.value) {
        task := rolled.value;
      }
    }

    method Take(step: Step)
      requires Valid()
      modifies this
      ensures Valid() && Grows(old(told), told)
      ensures Seen(audited, told) == Noticed(Seen(old(audited), old(told)), step)
    {
      match step {
        case Entry(ev, msgId) =>
          var _ := ApplyEvent(ev, msgId);
        case Sentence(x, reason) =>
          var _ := MarkLost(x, reason);
      }
    }

    /**
     Any interleaving of stream entries and server verdicts.  An execution whose
     authoritative terminals agree ends in theirs, wherever they stand.
     */
    method Interleave(steps: seq<Step>)
      requires Valid()
      modifies this
      ensures Valid() && Grows(old(told), told)
      ensures Seen(audited, told) == AllNoticed(Seen(old(audited), old(told)), steps)
      ensures OneEventPerId(steps) ==>
        forall x, t | x in execs && Decided(Seen(old(audited), old(told)), steps, x, t) ::
        execs[x].status == t
      ensures forall x | x in old(execs) && Hard(old(execs)[x].status) ::
        x in execs && execs[x].status == old(execs)[x].status
    {
      ghost var start := Seen(audited, told);
      for i := 0 to |steps|
        invariant Valid() && Grows(old(told), told) && Seen(audited, told) == AllNoticed(start, steps[..i])
      {
        assert steps[..i+1][..i] == steps[..i];
        Take(steps[i]);
      }
      assert steps[..|steps|] == steps;
      DecidedStatuses(execs, start, steps);
      HardStatusesStay(old(execs), old(told), execs, told);
    }

    /** Writes an execution back and brings the task in step. */
    method Record(x: Id, next: Execution, report: Status)
      requires Valid() && x in execs && ExecEdge(execs[x].status, next.status)
      requires next.status == Moved(execs[x].status, report)
      modifies this`execs, this`task, this`told
      ensures Valid() && execs == old(execs)[x := next] && told == old(told)[x := old(told)[x] + [report]]
    {
      ghost var was := execs;
      Write(x, next, report);
      UpdateTask(was, x);
    }
  }

  ghost predicate Grows(before: map<Id, seq<Status>>, after: map<Id, seq<Status>>) {
    forall x | x in before :: x in after && before[x] <= after[x]
  }

  datatype Step = Entry(ev: Event, msgId: Id) | Sentence(execution: Id, reason: Reason)

  // ---------------------------------------------------------------- interleavings

  /** Stream entries applied, and what each execution was told by them and by the server. */
  datatype Seen = Seen(audited: set<Id>, told: map<Id, seq<Status>>)

  /** Each stream entry counts once; the server's verdict only on an active execution. */
  function Noticed(s: Seen, step: Step): Seen {
    match step
    case Entry(ev, id) =>
      if id in s.audited then s
      else Seen(s.audited + {id}, if ev.execution in s.told then Told(s.told, ev.execution, ev.status) else s.told)
    case Sentence(x, _) =>
      if x in s.told && !Terminal(Replay(s.told[x])) then s.(told := Told(s.told, x, Lost)) else s
  }

  function Told(told: map<Id, seq<Status>>, x: Id, s: Status): map<Id, seq<Status>>
    requires x in told
  {
    told[x := told[x] + [s]]
  }

  function AllNoticed(start: Seen, steps: seq<Step>): Seen {
    if steps == [] then start else Noticed(AllNoticed(start, steps[..|steps|-1]), steps[|steps|-1])
  }

  /** A stream id stands for one event, however often it is delivered. */
  ghost predicate OneEventPerId(steps: seq<Step>) {
    forall e, f | e in steps && f in steps && e.Entry? && f.Entry? && e.msgId == f.msgId :: e.ev == f.ev
  }

  /** Some entry that was not applied before says so about the execution. */
  ghost predicate Says(start: Seen, steps: seq<Step>, x: Id, s: Status) {
    exists e | e in steps :: e.Entry? && e.msgId !in start.audited && e.ev.execution == x && e.ev.status == s
  }

  /** All authoritative terminals about the execution, of which there is one, are `t`. */
  ghost predicate Decided(start: Seen, steps: seq<Step>, x: Id, t: Status) {
    && x in start.told && Hard(t)
    && (t in start.told[x] || Says(start, steps, x, t))
    && forall s: Status | Hard(s) && (s in start.told[x] || Says(start, steps, x, s)) :: s == t
  }

  lemma {:induction false} AuditedOnce(start: Seen, steps: seq<Step>, id: Id)
    ensures id in AllNoticed(start, steps).audited
      <==> id in start.audited || exists e | e in steps :: e.Entry? && e.msgId == id
  {
    if steps != [] {
      AuditedOnce(start, steps[..|steps|-1], id);
      assert steps == steps[..|steps|-1] + [steps[|steps|-1]];
    }
  }

  /** Whatever the order, the repeats and the server's verdicts: the terminals told are those said. */
  lemma {:induction false} TerminalsToldAreSaid(start: Seen, steps: seq<Step>, x: Id, s: Status)
    requires x in start.told && Hard(s) && OneEventPerId(steps)
    ensures var end := AllNoticed(start, steps);
      x in end.told && (s in end.told[x] <==> s in start.told[x] || Says(start, steps, x, s))
  {
    if steps != [] {
      var rest, last := steps[..|steps|-1], steps[|steps|-1];
      assert steps == rest + [last] && forall e | e in rest :: e in steps;
      TerminalsToldAreSaid(start, rest, x, s);
      SaysMore(start, rest, last, x, s);
      if last.Entry? {
        AuditedOnce(start, rest, last.msgId);
        if last.ev.execution == x && last.ev.status == s && last.msgId !in start.audited {
          Repeated(start, rest, last, x, s);
        }
      }
    }
  }

  lemma SaysMore(start: Seen, rest: seq<Step>, last: Step, x: Id, s: Status)
    ensures Says(start, rest + [last], x, s) <==>
      Says(start, rest, x, s) || (last.Entry? && last.msgId !in start.audited && last.ev == Event(x, s, last.ev.reason))
  {
    assert last in rest + [last] && forall e | e in rest :: e in rest + [last];
    assert forall e | e in rest + [last] :: e in rest || e == last;
  }

  /** A repeated entry says nothing new. */
  lemma Repeated(start: Seen, rest: seq<Step>, last: Step, x: Id, s: Status)
    requires last.Entry? && OneEventPerId(rest + [last]) && last.ev.execution == x && last.ev.status == s
    requires last.msgId !in start.audited
    ensures (exists e | e in rest :: e.Entry? && e.msgId == last.msgId) ==> Says(start, rest, x, s)
  {
    if exists e | e in rest :: e.Entry? && e.msgId == last.msgId {
      var e :| e in rest && e.Entry? && e.msgId == last.msgId;
      assert e in rest + [last] && last in rest + [last];
    }
  }

  lemma DecidedStatuses(execs: map<Id, Execution>, start: Seen, steps: seq<Step>)
    requires AsTold(execs, AllNoticed(start, steps).told)
    ensures OneEventPerId(steps) ==> forall x, t | x in execs && Decided(start, steps, x, t) :: execs[x].status == t
  {
    if OneEventPerId(steps) {
      forall x, t | x in execs && Decided(start, steps, x, t)
        ensures execs[x].status == t
      {
        DecidedEndsThere(start, steps, x, t);
      }
    }
  }

  lemma HardStatusesStay(was: map<Id, Execution>, before: map<Id, seq<Status>>, now: map<Id, Execution>,
                         after: map<Id, seq<Status>>)
    requires AsTold(was, before) && AsTold(now, after) && Grows(before, after)
    ensures forall x | x in was && Hard(was[x].status) :: x in now && now[x].status == was[x].status
  {
    forall x | x in was && Hard(was[x].status)
      ensures x in now && now[x].status == was[x].status
    {
      HardStays(before[x], after[x]);
    }
  }

  /** The end of an execution does not depend on the interleaving, if its terminals agree. */
  lemma DecidedEndsThere(start: Seen, steps: seq<Step>, x: Id, t: Status)
    requires OneEventPerId(steps) && Decided(start, steps, x, t)
    ensures x in AllNoticed(start, steps).told && Replay(AllNoticed(start, steps).told[x]) == t
  {
    forall s: Status | Hard(s)
      ensures var end := AllNoticed(start, steps);
        x in end.told && (s in end.told[x] <==> s in start.told[x] || Says(start, steps, x, s))
    {
      TerminalsToldAreSaid(start, steps, x, s);
    }
    Confluence(AllNoticed(start, steps).told[x], t);
  }

  /** Of an execution lost already only the agent knows better; the server's inference fills a blank. */
  predicate NewReasonWins(was: Execution, reason: Reason) {
    was.status != Lost || was.reason == None || reason.Agent()
  }

  /** What each answer tells about the execution. */
  predicate Explains(outcome: Outcome, was: Execution, now: Execution, ev: Event) {
    match outcome
    case Applied =>
      && now.status == ev.status && now.reconciled == was.reconciled
      && now.reason ==
        (if ev.status == Lost && ev.reason.Some? && NewReasonWins(was, ev.reason.value) then ev.reason else was.reason)
    case OverrideLost => was.status == Lost && Hard(ev.status) && now == was.(status := ev.status, reconciled := true)
    case ReclaimRequested => was.status == Lost && !Terminal(ev.status) && now == was
    case SkippedTerminal => now == was && was.status != ev.status
    case SkippedDup => now == was
    case SkippedNoAttempt => false
  }

  /** The same executions, and only one of them different. */
  ghost predicate OnlyMoved(was: map<Id, Execution>, now: map<Id, Execution>, x: Id) {
    was.Keys == now.Keys && forall y | y in now && y != x :: was[y] == now[y]
  }

  ghost predicate AsTold(execs: map<Id, Execution>, told: map<Id, seq<Status>>) {
    execs.Keys == told.Keys && forall x | x in execs :: execs[x].status == Replay(told[x])
  }

  lemma OneMoreTold(execs: map<Id, Execution>, told: map<Id, seq<Status>>, x: Id, next: Execution, report: Status)
    requires AsTold(execs, told) && x in execs && next.status == Moved(execs[x].status, report)
    ensures AsTold(execs[x := next], told[x := told[x] + [report]])
  {
    ReplayMore(told[x], report);
  }

  /** The verdict, read off the executions one by one. */
  lemma RollupMeans(execs: map<Id, Execution>)
    requires execs != map[]
    ensures var verdict := Rollup(Statuses(execs));
      var ended := forall x | x in execs :: Terminal(execs[x].status);
      var failed := exists x | x in execs :: execs[x].status == Failed;
      var lost := exists x | x in execs :: execs[x].status == Lost;
      var canceled := exists x | x in execs :: execs[x].status == Canceled;
      && (verdict == None <==> !ended)
      && (verdict == Some(TaskFailed) <==> ended && failed)
      && (verdict == Some(TaskLost) <==> ended && !failed && lost)
      && (verdict == Some(TaskCanceled) <==> ended && !failed && !lost && canceled)
      && (verdict == Some(TaskComplete) <==> forall x | x in execs :: execs[x].status == Finished)
  {
    var statuses := Statuses(execs);
    assert forall x | x in execs :: execs[x].status in statuses;
    assert forall s | s in statuses :: exists x :: x in execs && execs[x].status == s;
    var x :| x in execs;
    assert execs[x].status in statuses;
  }

  /**
   Why a queued task runs first: there is no edge from queued to the verdict on a task
   all of whose executions finished, and there is one from running to every verdict.
   */
  lemma ConvergeFirst(execs: map<Id, Execution>)
    requires Rollup(Statuses(execs)).Some?
    ensures var verdict := Rollup(Statuses(execs)).value;
      && Started(Statuses(execs)) && TaskEdge(TaskRunning, verdict)
      && (TaskEdge(Queued, verdict) <==> exists x | x in execs :: execs[x].status != Finished)
  {
    var statuses := Statuses(execs);
    var s :| s in statuses;
    assert s in statuses - {Pending};
    if x :| x in execs && execs[x].status != Finished {
      assert execs[x].status in statuses;
    }
  }

  /** A roll-up is final but for lost, and it never needs an edge the task does not have. */
  lemma RollupMoves(was: map<Id, Execution>, now: map<Id, Execution>, x: Id)
    requires x in now && OnlyMoved(was, now, x) && ExecEdge(was[x].status, now[x].status)
    ensures Rollup(Statuses(was)).Some? ==>
      Rollup(Statuses(now)).Some? && TaskEdge(Rollup(Statuses(was)).value, Rollup(Statuses(now)).value)
    ensures Rollup(Statuses(now)).Some? ==>
      Rollup(Statuses(now)).value in {TaskFailed, TaskLost, TaskCanceled, TaskComplete}
    ensures now[x].status != Pending ==> Started(Statuses(now))
    ensures now[x].status == Lost && Rollup(Statuses(now)).Some? ==>
      Rollup(Statuses(now)).value in {TaskFailed, TaskLost}
    ensures !Terminal(was[x].status) ==> Rollup(Statuses(was)) == None
  {
    var s, t := Statuses(was), Statuses(now);
    assert was[x].status in s && now[x].status in t;
    forall y | y in s
      ensures y in t || y == was[x].status
    {
      var z :| z in was && was[z].status == y;
      assert z == x || now[z] == was[z];
    }
    forall y | y in t
      ensures y in s || y == now[x].status
    {
      var z :| z in now && now[z].status == y;
      assert z == x || was[z] == now[z];
    }
    assert now[x].status != Pending ==> now[x].status in t - {Pending};
  }
}
