/**
 One execution's state file and the history of everything observable about it:
 durable writes, events handed over, the answers of scrapyd, commands.

 `Legal` is the safety monitor the agent's handlers are proved against; the
 theorems at the end say what a legal history promises over a whole run,
 crashes and redeliveries included.
 */
module AttemptHistory {
  import opened Prelude
  import opened Events

  datatype Phase = Reserved | Started | Done
  datatype Intent = Cancel | Reclaim
  datatype Runner = Scrapy | Wheel

  /** The fields that drive stop, reclaim and cleanup.  Times are points on the wall clock. */
  datatype Core = Core(
    runner: Runner,
    phase: Phase,
    jobId: string,
    result: Option<Event>,
    stopIntent: Option<Intent>,
    stopRequestedAt: Option<int>,
    stopEscalation: Option<Signal>,
    cleanupPending: bool,
    killPending: bool,
    killLastAttemptAt: Option<int>,
    terminalPending: bool)

  /** The log and scrapyd verdict flags, which other coroutines and the flood guard set. */
  datatype Flags = Flags(
    canceled: bool,
    logFlood: bool,
    logFloodAt: Option<int>,
    logFloodEscalation: Option<Signal>,
    logCapped: bool)

  /** The persisted record of one execution. */
  datatype Attempt = Attempt(core: Core, flags: Flags)

  datatype Signal = Term | Kill | PidKill

  /** What is at the state path.  A torn file exists but reads as no state. */
  datatype File = Absent | Torn | Good(a: Attempt)

  /** What the consumer's loop is given, one after the other. */
  datatype Input =
    | Tick(size: Option<nat>, now: int)
    | RunCommand(task: Runner, commandOk: bool, jobId: string)
    | StopCommand(intent: Intent, now: int)
    | CleanupCommand
    | StopLogsCommand
    | WheelExit(verdict: Event)
    | ReplayOutbox
    | Restart

  datatype Obs =
    | Wrote(pre: File, post: Attempt)
    | TornWrite
    | Deleted(last: File)
    | HandedOver(event: Event)
    | Scheduled
    | JobGone(job: string)      // listjobs succeeded and lists the job neither running nor pending
    | Received(input: Input)
    | Signalled(signal: Signal, job: string, at: int)
    | Acked(signal: Signal, job: string)
    | Fault                     // the process died, or a call raised what nothing handles

  /** How long the stop machine waits: before KILL, between KILLs, and in a flood. */
  datatype Pace = Pace(killAfter: nat, retryEvery: nat, floodKillAfter: nat)

  /** A stop intent reaches disk for a started scrapyd attempt. */
  ghost predicate NewStop(o: Obs) {
    && o.Wrote? && o.post.core.runner.Scrapy? && o.post.core.phase.Started? && o.post.core.stopRequestedAt.Some?
    && !(o.pre.Good? && o.pre.a.core.stopRequestedAt.Some?)
  }

  ghost predicate StopFor(o: Obs, intent: Intent) {
    NewStop(o) && o.post.core.stopIntent == Some(intent)
  }

  ghost predicate IsCancel(i: Input) {
    i.StopCommand? && i.intent.Cancel?
  }

  // ---- the monitor ---------------------------------------------------------

  /** What went in and out so far, and how often something failed for good. */
  datatype Talk = Talk(inputs: seq<Input>, emitted: seq<Event>, faults: nat)

  /**
   Traffic with scrapyd since the last input: the last signal sent, the last one
   acknowledged and by which job, and a re-sent KILL whose time is not recorded yet.
   */
  datatype Wire = Wire(sent: Option<Shot>, acked: Option<(Signal, string)>, unstamped: Option<int>)

  datatype Shot = Shot(signal: Signal, job: string, at: int)

  const QUIET := Wire(None, None, None)

  /**
   `owed`: the job of a recorded stop that no listjobs has shown gone yet.
   `handed`: `canceled` was handed over since the last recorded stop.
   `reclaimOpen`: a reclaim is recorded and no cancel command came since.
   `scheduled`: scrapyd was asked to start a job for this state file.
   */
  datatype Ledger = Ledger(file: File, owed: Option<string>, handed: bool, reclaimOpen: bool, scheduled: bool,
                           talk: Talk, wire: Wire)

  ghost const START := Ledger(Absent, None, false, false, false, Talk([], [], 0), QUIET)

  ghost function Advance(l: Ledger, o: Obs): Ledger {
    match o
    case Wrote(_, post) =>
      var unstamped := if post.core.killLastAttemptAt == l.wire.unstamped then None else l.wire.unstamped;
      var wire := l.wire.(unstamped := unstamped);
      if NewStop(o)
      then l.(file := Good(post), owed := Some(post.core.jobId), handed := false,
              reclaimOpen := post.core.stopIntent == Some(Reclaim), wire := wire)
      else l.(file := Good(post), wire := wire)
    case TornWrite => l.(file := Torn)
    case Deleted(_) => l.(file := Absent, reclaimOpen := false, scheduled := false)
    case HandedOver(e) => l.(handed := l.handed || e.Canceled?, talk := l.talk.(emitted := l.talk.emitted + [e]))
    case Scheduled => l.(scheduled := true)
    case JobGone(job) => l.(owed := if l.owed == Some(job) then None else l.owed)
    case Received(i) =>
      l.(reclaimOpen := l.reclaimOpen && !IsCancel(i), talk := l.talk.(inputs := l.talk.inputs + [i]), wire := QUIET)
    case Signalled(s, job, at) =>
      var unstamped := if Pursuing(l) then Some(at) else l.wire.unstamped;
      l.(wire := l.wire.(sent := Some(Shot(s, job, at)), unstamped := unstamped))
    case Acked(s, job) => l.(wire := l.wire.(acked := Some((s, job))))
    case Fault => l.(talk := l.talk.(faults := l.talk.faults + 1), wire := l.wire.(unstamped := None))
  }

  /** A tick over an attempt that is wrapped up. */
  ghost predicate Pursuing(l: Ledger) {
    l.talk.inputs != [] && l.talk.inputs[|l.talk.inputs|-1].Tick? && l.file.Good? && l.file.a.core.phase.Done?
  }

  ghost predicate Allowed(l: Ledger, o: Obs) {
    match o
    case Wrote(pre, post) =>
      && pre == l.file
      && (StopRecorded(pre) ==> SameStop(pre.a, post))
      && (NewStop(o) ==> l.owed.None?)
      && (l.owed.Some? ==> post.core.jobId == l.owed.value)
      && (l.reclaimOpen && post.core.phase.Done? ==> post.core.result == Some(Lost))
      && (CancelSettled(post) ==> post.core.terminalPending || l.handed)
    case TornWrite => l.file.Absent?
    case Deleted(last) =>
      && last == l.file && l.owed.None?
      && (last.Good? && last.a.core.runner.Scrapy? && last.a.core.stopIntent == Some(Cancel) ==> l.handed)
    case HandedOver(e) => !(e.Canceled? && l.reclaimOpen)
    case Scheduled => !l.scheduled && l.file.Good? && l.file.a.core.phase.Reserved?
    case _ => true
  }

  // ---- the signal discipline -------------------------------------------------

  ghost predicate Disciplined(p: Pace, l: Ledger, o: Obs) {
    match o
    case Wrote(pre, post) => pre == l.file && Orderly(l, pre, post)
    // A re-sent KILL is recorded before anything else is taken on.
    case Received(_) => l.wire.unstamped.None?
    case Signalled(s, job, at) =>
      && l.wire.unstamped.None? && l.file.Good? && job == l.file.a.core.jobId && l.talk.inputs != []
      && MaySignal(p, l.file.a, l.talk.inputs[|l.talk.inputs|-1], s, at)
    case Acked(s, job) =>
      l.wire.sent.Some? && l.wire.sent.value.signal == s && l.file.Good? && job == l.file.a.core.jobId
    case _ => true
  }

  /**
   Phases only go forward; a job id is kept; escalations are acknowledged ones, and stamps
   are of signals just sent.
   */
  ghost predicate Orderly(l: Ledger, pre: File, post: Attempt) {
    if pre.Good? then
      && (pre.a.core.phase.Done? ==> post.core.phase.Done?)
      && (if pre.a.core.phase.Reserved? then post.core.stopEscalation.None?
          else !post.core.phase.Reserved? && post.core.jobId == pre.a.core.jobId)
      && (post.core.stopEscalation != pre.a.core.stopEscalation && post.core.stopEscalation.Some? ==>
            l.wire.acked == Some((post.core.stopEscalation.value, pre.a.core.jobId)))
      && (post.core.killLastAttemptAt != pre.a.core.killLastAttemptAt ==>
            post.core.killLastAttemptAt.Some? && post.core.killLastAttemptAt == l.wire.unstamped)
    else
      post.core.stopEscalation.None? && post.core.killLastAttemptAt.None? && post.core.stopRequestedAt.None?
  }

  /**
   A stop command sends at most the first TERM of the stop it
   has just recorded, or answers a cancel of an attempt that is not running; a tick
   drives the stop on disk, pursues a process that outlived it, or fights a flood;
   nothing else signals, a reclaim of a wrapped-up attempt in particular.
   */
  ghost predicate MaySignal(p: Pace, a: Attempt, last: Input, s: Signal, at: int) {
    match last
    case StopCommand(intent, now) =>
      && at == now && s == Term
      && if a.core.phase.Started?
         then a.core.stopRequestedAt == Some(now) && a.core.stopIntent == Some(intent) && a.core.stopEscalation == None
         else intent.Cancel?
    case Tick(_, now) =>
      at == now && (DrivesStop(p, a, s, at) || PursuesKill(p, a, s, at) || FightsFlood(p, a, s, at))
    case _ => false
  }

  /** One TERM until it is acknowledged; KILL after an acknowledged TERM and the grace period. */
  ghost predicate DrivesStop(p: Pace, a: Attempt, s: Signal, at: int) {
    && a.core.phase.Started? && a.core.stopRequestedAt.Some?
    && ((s == Term && a.core.stopEscalation == None)
        || (s == Kill && a.core.stopEscalation == Some(Term) && at - a.core.stopRequestedAt.value >= p.killAfter))
  }

  /** KILL again, no more often than the retry interval. */
  ghost predicate PursuesKill(p: Pace, a: Attempt, s: Signal, at: int) {
    && a.core.phase.Done? && a.core.killPending && !a.core.terminalPending && s == Kill
    && (p.retryEvery == 0 || a.core.killLastAttemptAt.None? || at - a.core.killLastAttemptAt.value >= p.retryEvery)
  }

  /** TERM, after a while KILL, after twice the while the one crawler process itself. */
  ghost predicate FightsFlood(p: Pace, a: Attempt, s: Signal, at: int) {
    && a.core.phase.Started? && a.flags.logFlood && a.flags.logFloodAt.Some?
    && var since := if at > a.flags.logFloodAt.value then at - a.flags.logFloodAt.value else 0;
      match s
      case Term => since < p.floodKillAfter || p.floodKillAfter == 0
      case Kill => since >= p.floodKillAfter
      case PidKill => since >= 2 * p.floodKillAfter
  }

  ghost predicate StopRecorded(f: File) {
    f.Good? && f.a.core.stopRequestedAt.Some?
  }

  /** A recorded stop is never dropped, replaced or re-dated. */
  ghost predicate SameStop(a: Attempt, b: Attempt) {
    a.core.runner == b.core.runner && a.core.stopIntent == b.core.stopIntent &&
      a.core.stopRequestedAt == b.core.stopRequestedAt
  }

  /** A finished scrapyd attempt that was stopped by a cancel. */
  ghost predicate CancelSettled(a: Attempt) {
    a.core.runner.Scrapy? && a.core.phase.Done? && a.core.stopIntent == Some(Cancel)
  }

  /** What every reachable state of the agent satisfies, between any two effects. */
  ghost predicate Inv(l: Ledger) {
    && (l.file.Good? ==> RecordInv(l.file.a) && (CancelSettled(l.file.a) ==> l.file.a.core.terminalPending || l.handed))
    && (!l.file.Good? ==> !l.scheduled)
    && (l.owed.Some? ==>
      && StopRecorded(l.file) && l.file.a.core.runner.Scrapy? && l.file.a.core.jobId == l.owed.value
      && (l.file.a.core.phase.Started? || (l.file.a.core.phase.Done? && l.file.a.core.killPending)))
    && (l.reclaimOpen ==>
      && StopRecorded(l.file) && l.file.a.core.runner.Scrapy? && l.file.a.core.stopIntent == Some(Reclaim)
      && (l.file.a.core.phase.Done? ==> l.file.a.core.result == Some(Lost)))
  }

  ghost predicate RecordInv(a: Attempt) {
    && (a.core.stopIntent.Some? <==> a.core.stopRequestedAt.Some?)
    && (a.core.stopRequestedAt.Some? ==> !a.core.phase.Reserved?)
    && (a.core.phase.Done? ==> a.core.result.Some? && a.core.result.value in {Finished, Failed, Canceled, Lost})
    && (a.core.killPending ==> a.core.phase.Done?)
    && (a.core.terminalPending ==> CancelSettled(a) && a.core.result == Some(Canceled))
    && (a.flags.logFlood <==> a.flags.logFloodAt.Some?)
    && (a.core.phase.Reserved? ==> a.core.stopEscalation.None?)
  }

  /** Nothing was settled, emitted or taken on: only the file, the wire and the faults may differ. */
  ghost predicate Quietly(l: Ledger, m: Ledger) {
    m == l.(file := m.file, wire := m.wire, talk := l.talk.(faults := m.talk.faults)) && m.talk.faults >= l.talk.faults
  }

  /** No fault since. */
  ghost predicate Unharmed(l: Ledger, m: Ledger) {
    m.talk.faults == l.talk.faults
  }

  ghost function LedgerOf(h: seq<Obs>): Ledger {
    if h == [] then START else Advance(LedgerOf(h[..|h|-1]), h[|h|-1])
  }

  ghost predicate Legal(h: seq<Obs>) {
    forall i | 0 <= i < |h| :: AllowedAt(h, i)
  }

  ghost predicate AllowedAt(h: seq<Obs>, i: nat)
    requires i < |h|
  {
    Allowed(LedgerOf(h[..i]), h[i])
  }

  ghost predicate Paced(p: Pace, h: seq<Obs>) {
    forall i | 0 <= i < |h| :: PacedAt(p, h, i)
  }

  ghost predicate PacedAt(p: Pace, h: seq<Obs>, i: nat)
    requires i < |h|
  {
    Disciplined(p, LedgerOf(h[..i]), h[i])
  }

  lemma Extend(h: seq<Obs>, o: Obs)
    requires Legal(h) && Allowed(LedgerOf(h), o)
    ensures Legal(h + [o])
    ensures LedgerOf(h + [o]) == Advance(LedgerOf(h), o)
  {
    var g := h + [o];
    assert g[..|g|-1] == h;
    forall i | 0 <= i < |g| ensures AllowedAt(g, i) {
      if i < |h| {
        assert AllowedAt(h, i);
        assert g[..i] == h[..i];
      } else {
        assert g[..i] == h;
      }
    }
  }

  lemma ExtendPaced(p: Pace, h: seq<Obs>, o: Obs)
    requires Paced(p, h) && Disciplined(p, LedgerOf(h), o)
    ensures Paced(p, h + [o])
  {
    var g := h + [o];
    forall i | 0 <= i < |g| ensures PacedAt(p, g, i) {
      if i < |h| {
        assert PacedAt(p, h, i);
        assert g[..i] == h[..i];
      } else {
        assert g[..i] == h;
      }
    }
  }

  lemma LedgerStep(h: seq<Obs>, i: nat)
    requires i < |h|
    ensures LedgerOf(h[..i+1]) == Advance(LedgerOf(h[..i]), h[i])
  {
    assert h[..i+1][..i] == h[..i];
  }

  // ---- what a legal history promises ---------------------------------------

  /** The record written at `i` has not been deleted before `j`. */
  ghost predicate SameLife(h: seq<Obs>, i: nat, j: nat)
    requires i <= j <= |h|
  {
    forall k | i < k < j :: !h[k].Deleted?
  }

  /** No cancel command arrived strictly between `i` and `j`. */
  ghost predicate NoCancel(h: seq<Obs>, i: nat, j: nat)
    requires i <= j <= |h|
  {
    forall k | i < k < j :: !(h[k].Received? && IsCancel(h[k].input))
  }

  lemma StopStays(l: Ledger, o: Obs, a: Attempt)
    requires Allowed(l, o) && StopRecorded(l.file) && SameStop(a, l.file.a) && !o.Deleted?
    ensures var f := Advance(l, o).file; f.Good? && SameStop(a, f.a)
    ensures !NewStop(o)
  {
  }

  /** A recorded stop stays in the record for as long as the record lives. */
  lemma {:induction false} StopSticks(h: seq<Obs>, i: nat, j: nat)
    requires Legal(h) && i < j <= |h| && NewStop(h[i]) && SameLife(h, i, j)
    ensures var f := LedgerOf(h[..j]).file; f.Good? && SameStop(h[i].post, f.a)
    ensures forall k | i < k < j :: !NewStop(h[k])
  {
    LedgerStep(h, j - 1);
    if j > i + 1 {
      StopSticks(h, i, j - 1);
      assert AllowedAt(h, j-1);
      StopStays(LedgerOf(h[..j-1]), h[j-1], h[i].post);
    }
  }

  lemma OwedStep(l: Ledger, o: Obs)
    requires l.owed.Some? && Allowed(l, o) && o != JobGone(l.owed.value)
    ensures Advance(l, o).owed == l.owed && !o.Deleted?
  {
  }

  /** From a recorded stop on, the job stays owed until a listjobs shows it gone. */
  lemma {:induction false} OwedUntilGone(h: seq<Obs>, i: nat, j: nat)
    requires Legal(h) && i < j <= |h| && NewStop(h[i])
    requires forall k | i < k < j :: h[k] != JobGone(h[i].post.core.jobId)
    ensures LedgerOf(h[..j]).owed == Some(h[i].post.core.jobId)
    ensures SameLife(h, i, j)
  {
    LedgerStep(h, j - 1);
    if j > i + 1 {
      OwedUntilGone(h, i, j - 1);
      assert AllowedAt(h, j-1);
      OwedStep(LedgerOf(h[..j-1]), h[j-1]);
    }
  }

  /**
   No untracked process: after a stop intent is recorded, the state file (and with
   it the job id) is deleted, and the job id rewritten, only after a listjobs
   showed that very job gone.
   */
  lemma NoUntrackedProcess(h: seq<Obs>, i: nat, j: nat)
    requires Legal(h) && i < j < |h| && NewStop(h[i])
    requires h[j].Deleted? || (h[j].Wrote? && h[j].post.core.jobId != h[i].post.core.jobId)
    ensures exists k :: i < k < j && h[k] == JobGone(h[i].post.core.jobId)
  {
    assert AllowedAt(h, j);
    if forall k | i < k < j :: h[k] != JobGone(h[i].post.core.jobId) {
      OwedUntilGone(h, i, j);
    }
  }

  lemma {:induction false} HandedMeans(h: seq<Obs>, i: nat, j: nat)
    requires i < j <= |h| && NewStop(h[i])
    requires forall k | i < k < j :: !NewStop(h[k])
    ensures LedgerOf(h[..j]).handed <==> exists k :: i < k < j && h[k] == HandedOver(Canceled)
  {
    LedgerStep(h, j - 1);
    if j > i + 1 {
      HandedMeans(h, i, j - 1);
    }
  }

  /**
   Cancel is delivered: after a cancel intent is recorded, the record is written
   as done with nothing owed, or deleted, only after `canceled` was handed over.
   */
  lemma CancelIsOwedOrDelivered(h: seq<Obs>, i: nat, j: nat)
    requires Legal(h) && i < j < |h| && StopFor(h[i], Cancel) && SameLife(h, i, j)
    requires h[j].Deleted? || (h[j].Wrote? && h[j].post.core.phase.Done? && !h[j].post.core.terminalPending)
    ensures exists k :: i < k < j && h[k] == HandedOver(Canceled)
  {
    StopSticks(h, i, j);
    HandedMeans(h, i, j);
    assert AllowedAt(h, j);
  }

  lemma {:induction false} ReclaimStaysOpen(h: seq<Obs>, i: nat, j: nat)
    requires Legal(h) && i < j <= |h| && StopFor(h[i], Reclaim) && SameLife(h, i, j) && NoCancel(h, i, j)
    ensures LedgerOf(h[..j]).reclaimOpen
  {
    LedgerStep(h, j - 1);
    StopSticks(h, i, j);
    if j > i + 1 {
      ReclaimStaysOpen(h, i, j - 1);
    }
  }

  /**
   Reclaim stays lost: until a cancel command arrives, or the record is deleted
   and this attempt is over, `canceled` is never handed over and no terminal
   other than `lost` is recorded.
   */
  lemma ReclaimStaysLost(h: seq<Obs>, i: nat, j: nat)
    requires Legal(h) && i < j < |h| && StopFor(h[i], Reclaim) && SameLife(h, i, j) && NoCancel(h, i, j)
    ensures h[j] != HandedOver(Canceled)
    ensures h[j].Wrote? && h[j].post.core.phase.Done? ==> h[j].post.core.result == Some(Lost)
  {
    ReclaimStaysOpen(h, i, j);
    assert AllowedAt(h, j);
  }

  lemma {:induction false} ScheduledStays(h: seq<Obs>, i: nat, j: nat)
    requires i < j <= |h| && h[i].Scheduled? && SameLife(h, i, j)
    ensures LedgerOf(h[..j]).scheduled
  {
    LedgerStep(h, j - 1);
    if j > i + 1 {
      ScheduledStays(h, i, j - 1);
    }
  }

  /** The spider is never started twice for one state file, however often a run is redelivered. */
  lemma ScheduledOnce(h: seq<Obs>, i: nat, j: nat)
    requires Legal(h) && i < j < |h| && h[i].Scheduled? && h[j].Scheduled?
    ensures !SameLife(h, i, j)
  {
    assert AllowedAt(h, j);
    if SameLife(h, i, j) {
      ScheduledStays(h, i, j);
    }
  }
}
