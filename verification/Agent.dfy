/**
 The agent's scrapyd runner and command consumer, for one execution.

 Handlers run one at a time on the consumer's loop.  At every await the log
 publisher may record `log_capped`, and the process may die or the call may raise
 what nothing handles; that is a fault, and the only thing besides a refused XADD
 without an outbox that keeps a handler from completing (`up == false`).  The
 answers of scrapyd and Redis are arbitrary.  `Valid` therefore holds in every
 reachable state, and by the theorems of AttemptHistory and SignalHistory every
 run is safe.
 */
module Agents {
  import opened Prelude
  import opened Events
  import opened AttemptHistory
  import opened StateStores

  /** Only flags may differ. */
  ghost predicate Unmoved(f: File, g: File) {
    f == g || (f.Good? && g.Good? && f.a.core == g.a.core)
  }

  /** At most the log was capped meanwhile. */
  ghost predicate Capped(f: File, g: File) {
    f == g || (f.Good? && g == Good(f.a.(flags := f.a.flags.(logCapped := true))))
  }

  /** A handler's local copy still tells the truth about all that handlers use. */
  ghost predicate Current(s: Attempt, f: File) {
    f.Good? && s.core == f.a.core && s.flags == f.a.flags.(logCapped := s.flags.logCapped, canceled := s.flags.canceled)
  }

  /** The last thing taken on, if any. */
  ghost function Last(l: Ledger): Option<Input> {
    if l.talk.inputs == [] then None else Some(l.talk.inputs[|l.talk.inputs|-1])
  }

  ghost predicate Ticking(l: Ledger, now: int) {
    Last(l).Some? && Last(l).value.Tick? && Last(l).value.now == now
  }

  /** Nothing was taken on meanwhile, and nothing emitted was taken back. */
  ghost predicate Followed(l: Ledger, m: Ledger) {
    m.talk.inputs == l.talk.inputs && m.talk.faults >= l.talk.faults && l.talk.emitted <= m.talk.emitted
  }

  /** At most a job was shown gone. */
  ghost predicate Probed(l: Ledger, m: Ledger) {
    && m.handed == l.handed && m.reclaimOpen == l.reclaimOpen && m.scheduled == l.scheduled
    && m.talk.inputs == l.talk.inputs && m.talk.emitted == l.talk.emitted && m.talk.faults >= l.talk.faults
  }

  /** An await: another coroutine may cap the log, then this one may be gone. */
  method Await(store: StateStore) returns (died: bool)
    requires store.Valid()
    modifies store
    ensures store.Valid() && old(store.hist) <= store.hist
    ensures Capped(old(store.file), store.file) && Quietly(old(store.led), store.led)
    ensures died <==> !Unharmed(old(store.led), store.led)
    ensures store.led.wire == old(store.led.wire).(unstamped := store.led.wire.unstamped)
    ensures if died then store.led.wire.unstamped.None?
            else Restamped(old(store.led.wire.unstamped), store.led.wire.unstamped, store.file)
  {
    var capped: bool := *;
    if capped {
      store.MarkLogCapped();
    }
    died := *;
    if died {
      store.Fault();
    }
  }

  /** What listjobs answers about the job; behind the listings, whether it left any trace of having run. */
  datatype Jobs = Unreachable | Listed | Unlisted(ran: bool)

  datatype Answer = Raises | Rejects | Accepts(wasListed: bool)

  /**
   What the world answers while one input is handled: scrapyd's listing, its answers to the
   cancel request of a stop and to that of the flood guard, whether the flood guard found
   and shot the crawler, and how fetching, scheduling and deleting go.
   */
  datatype World = World(jobs: Jobs, cancel: Answer, flood: Answer, pidKilled: bool,
                         fetched: bool, scheduled: bool, cleaned: bool)

  /** `Died` is the end of the process; `Raised` an exception the caller may handle. */
  datatype StopReply = NoState | Died | Raised | Rejected | Acknowledged(wasListed: bool)
  datatype Status = Live | Left(terminal: Event) | Unknown

  class ScrapyRunner {
    const store: StateStore

    constructor (store: StateStore)
      ensures this.store == store
    {
      this.store := store;
    }

    /** The request goes out, and its answer is waited for. */
    method Send(signal: Signal, ghost at: int) returns (died: bool)
      requires store.Valid() && store.led.wire.unstamped.None? && store.file.Good? && Last(store.led).Some?
      requires MaySignal(store.pace, store.file.a, Last(store.led).value, signal, at)
      modifies store
      ensures store.Valid() && old(store.hist) <= store.hist && Quietly(old(store.led), store.led)
      ensures Capped(old(store.file), store.file)
      ensures store.led.wire.sent == Some(Shot(signal, old(store.file).a.core.jobId, at))
      ensures died <==> !Unharmed(old(store.led), store.led)
      ensures if died || !Pursuing(old(store.led)) then store.led.wire.unstamped.None?
              else Restamped(Some(at), store.led.wire.unstamped, store.file)
    {
      store.Record(Signalled(signal, store.file.a.core.jobId, at));
      died := Await(store);
    }

    /** Scrapyd accepted the cancel; if it listed the job, that is noted. */
    method Acknowledge(signal: Signal, wasListed: bool)
      requires store.Valid() && store.file.Good?
      requires store.led.wire.sent.Some? && store.led.wire.sent.value.signal == signal
      modifies store
      ensures store.Valid() && old(store.hist) <= store.hist && Quietly(old(store.led), store.led)
      ensures Unharmed(old(store.led), store.led) && store.led.wire.sent == old(store.led.wire.sent)
      ensures store.led.wire.acked == Some((signal, old(store.file).a.core.jobId))
      ensures Restamped(old(store.led.wire.unstamped), store.led.wire.unstamped, store.file)
      ensures store.file ==
        if wasListed then Good(old(store.file).a.(flags := old(store.file).a.flags.(canceled := true)))
        else old(store.file)
    {
      store.Record(Acked(signal, store.file.a.core.jobId));
      if wasListed {
        store.MarkCanceled();
      }
    }

    /**
     Asks scrapyd to cancel the recorded job.  The canceled flag is set exactly when
     scrapyd says that it listed the job.
     */
    method Stop(signal: Signal, ghost at: int, answer: Answer) returns (reply: StopReply)
      requires store.Valid() && store.led.wire.unstamped.None?
      requires store.file.Good? ==>
        Last(store.led).Some? && MaySignal(store.pace, store.file.a, Last(store.led).value, signal, at)
      modifies store
      ensures store.Valid() && old(store.hist) <= store.hist && Quietly(old(store.led), store.led)
      ensures reply.NoState? <==> !old(store.file).Good?
      ensures !reply.NoState? ==> store.led.wire.sent == Some(Shot(signal, old(store.file).a.core.jobId, at))
      ensures !reply.NoState? && !reply.Died? ==> reply == ReplyOf(answer)
      ensures reply.Died? <==> !Unharmed(old(store.led), store.led)
      ensures Stopped(old(store.file), store.file, reply == Acknowledged(true))
      ensures reply.Acknowledged? ==>
        store.file.Good? && store.led.wire.acked == Some((signal, store.file.a.core.jobId))
      ensures if reply.NoState? || reply.Died? || !Pursuing(old(store.led)) then store.led.wire.unstamped.None?
              else Restamped(Some(at), store.led.wire.unstamped, store.file)
    {
      if !store.file.Good? {
        return NoState;
      }
      var died := Send(signal, at);
      if died {
        return Died;
      }
      match answer {
        case Raises => return Raised;
        case Rejects => return Rejected;
        case Accepts(wasListed) =>
          Acknowledge(signal, wasListed);
          return Acknowledged(wasListed);
      }
    }

    function ReplyOf(answer: Answer): StopReply {
      match answer
      case Raises => Raised
      case Rejects => Rejected
      case Accepts(wasListed) => Acknowledged(wasListed)
    }

    /** A cancel request changes the flags only, and `canceled` only if the job was listed. */
    ghost predicate Stopped(f: File, g: File, wasListed: bool) {
      if f.Good? then
        && g.Good? && g.a.core == f.a.core
        && g.a.flags == f.a.flags.(logCapped := g.a.flags.logCapped, canceled := f.a.flags.canceled || wasListed)
      else g == f
    }

    /**
     Resolves the outcome.  `canceled` is our own flag's word, never scrapyd's;
     an unreachable scrapyd is `Unknown`.
     */
    method CurrentStatus(jobs: Jobs) returns (s: Status, died: bool)
      requires store.Valid() && store.led.wire.unstamped.None?
      modifies store
      ensures store.Valid() && old(store.hist) <= store.hist && store.led.wire.unstamped.None?
      ensures Capped(old(store.file), store.file) && Quietly(old(store.led), store.led)
      ensures died <==> !Unharmed(old(store.led), store.led)
      ensures old(store.file).Good? && !died ==> s == StatusOf(jobs, old(store.file).a.flags.canceled)
      ensures !old(store.file).Good? || died ==> s == Unknown
    {
      if !store.file.Good? {
        return Unknown, false;
      }
      var snapshot := store.file.a;
      died := Await(store);
      if died || jobs.Unreachable? {
        return Unknown, died;
      }
      if jobs.Listed? {
        return Live, false;
      }
      if jobs.ran {
        return Left(if snapshot.flags.canceled then Canceled else Finished), false;
      }
      return Unknown, false;
    }

    /** A job that scrapyd no longer lists has ended if it ever ran. */
    function StatusOf(jobs: Jobs, canceled: bool): Status {
      if jobs.Listed? then Live
      else if jobs == Unlisted(true) then Left(if canceled then Canceled else Finished)
      else Unknown
    }

    /** Liveness only.  `Some(false)` is a listjobs that succeeded and does not list the job. */
    method IsJobAlive(jobs: Jobs) returns (alive: Option<bool>, died: bool)
      requires store.Valid() && store.led.wire.unstamped.None?
      modifies store
      ensures store.Valid() && old(store.hist) <= store.hist && store.led.wire.unstamped.None?
      ensures Capped(old(store.file), store.file)
      ensures died <==> !Unharmed(old(store.led), store.led)
      ensures alive == if died || !old(store.file).Good? || jobs.Unreachable? then None else Some(jobs.Listed?)
      ensures Probed(old(store.led), store.led)
      ensures store.led.owed == if alive == Some(false) then None else old(store.led).owed
    {
      if !store.file.Good? {
        return None, false;
      }
      var jobId := store.file.a.core.jobId;
      died := Await(store);
      if died || jobs.Unreachable? {
        return None, died;
      }
      if jobs.Listed? {
        return Some(true), false;
      }
      store.Record(JobGone(jobId));
      return Some(false), false;
    }
  }

  datatype Config = Config(stopKillAfter: nat, stopConfirmTimeout: nat, killRetryInterval: nat,
                           logCap: nat, floodKillAfter: nat, wheelRunner: bool, managedScrapyd: bool)

  class CommandConsumer {
    const cfg: Config
    const store: StateStore
    const runner: ScrapyRunner
    const events: EventPublisher

    constructor (cfg: Config, store: StateStore, events: EventPublisher)
      requires store.Valid() && events.Valid() && store.led.talk.emitted == events.emitted
      requires store.led.wire.unstamped.None?
      requires store.pace == Pace(cfg.stopKillAfter, cfg.killRetryInterval, cfg.floodKillAfter)
      ensures this.cfg == cfg && this.store == store && this.events == events && Valid()
    {
      this.cfg, this.store, this.events := cfg, store, events;
      runner := new ScrapyRunner(store);
    }

    /** The history is legal, and what it says was handed over the publisher holds. */
    ghost predicate Connected()
      reads store, events
    {
      && runner.store == store && store.Valid() && events.Valid()
      && store.led.talk.emitted == events.emitted
      && store.pace == Pace(cfg.stopKillAfter, cfg.killRetryInterval, cfg.floodKillAfter)
    }

    ghost predicate Valid()
      reads store, events
    {
      Connected() && store.led.wire.unstamped.None?
    }

    // ---- event publishing --------------------------------------------------

    /** Notes an event that was handed over, and a publisher that gave way. */
    ghost method Note(e: Event, over: bool, failed: bool)
      requires store.Valid() && store.led.wire.unstamped.None? && (e.Canceled? ==> !store.led.reclaimOpen)
      modifies store`hist, store`led
      ensures store.Valid() && old(store.hist) <= store.hist && store.led.wire.unstamped.None?
      ensures store.led == Told(old(store.led), e, over, old(store.led).talk.faults + if failed then 1 else 0)
    {
      if over {
        NoteOver(e);
      }
      if failed {
        store.Fault();
      }
    }

    ghost method NoteOver(e: Event)
      requires store.Valid() && (e.Canceled? ==> !store.led.reclaimOpen)
      modifies store`hist, store`led
      ensures store.Valid() && old(store.hist) <= store.hist && store.led == Advance(old(store.led), HandedOver(e))
    {
      store.Record(HandedOver(e));
    }

    /** The publisher's call, noted in the history. */
    method Publish(e: Event) returns (returned: bool)
      requires Valid() && (e.Canceled? ==> !store.led.reclaimOpen)
      modifies store, events
      ensures Valid() && old(store.hist) <= store.hist && store.file == old(store.file)
      ensures exists over: bool ::
        (returned ==> over) && store.led == Told(old(store.led), e, over, store.led.talk.faults)
      ensures store.led.talk.faults >= old(store.led).talk.faults
      ensures events.durable && !returned ==> !Unharmed(old(store.led), store.led)
    {
      ghost var before, l := events.faults, store.led;
      var over;
      over, returned := events.Emit(e);
      Note(e, over, !returned && events.faults > before);
      assert store.led == Told(l, e, over, store.led.talk.faults);
    }

    /** The ledger after an event that was, or was not, handed over. */
    ghost function Told(l: Ledger, e: Event, over: bool, faults: nat): Ledger {
      l.(handed := l.handed || (over && e.Canceled?),
         talk := l.talk.(emitted := if over then l.talk.emitted + [e] else l.talk.emitted, faults := faults))
    }

    /** Emits one event; it is handed over if the call completes. */
    method Emit(e: Event) returns (up: bool)
      requires Valid() && (e.Canceled? ==> !store.led.reclaimOpen)
      modifies store, events
      ensures Valid() && old(store.hist) <= store.hist && Capped(old(store.file), store.file)
      ensures Said(old(store.led), store.led)
      ensures store.led.talk.emitted == old(store.led).talk.emitted + [e]
        || (store.led.talk.emitted == old(store.led).talk.emitted && !up)
      ensures old(store.led).handed ==> store.led.handed
      ensures up && e.Canceled? ==> store.led.handed
      ensures !e.Canceled? ==> store.led.handed == old(store.led).handed
      ensures events.durable && !up ==> !Unharmed(old(store.led), store.led)
    {
      var returned := Publish(e);
      var died := Await(store);
      return returned && !died;
    }

    /** Something may have been emitted; the stop machine is where it was. */
    ghost predicate Said(l: Ledger, m: Ledger) {
      m == l.(file := m.file, handed := m.handed, talk := m.talk, wire := m.wire) && Followed(l, m)
    }

    /** What a completed re-announcement emits: what the record stands for, and nothing while a stop is in flight. */
    ghost predicate Announced(f: File, jobs: Jobs, before: seq<Event>, after: seq<Event>) {
      if !f.Good? then after == before + [Lost]
      else if f.a.core.phase.Reserved? then after == before + [Failed]
      else if f.a.core.phase.Done? then f.a.core.result.Some? && after == before + [f.a.core.result.value]
      else if f.a.core.stopRequestedAt.Some? then after == before
      else if f.a.core.runner.Wheel? then after == before + [Event.Running]
      else after == before + [if jobs == Unlisted(true) then OwnEnd(f.a) else Event.Running]
    }

    /** The end of a job that was not flooding: canceled only by our own flag. */
    function OwnEnd(a: Attempt): Event { if a.flags.canceled then Canceled else Finished }

    /** Re-emits the event the local record stands for. */
    method RepublishCurrent(jobs: Jobs) returns (up: bool)
      requires Valid()
      modifies store, events
      ensures Valid() && old(store.hist) <= store.hist && Capped(old(store.file), store.file)
      ensures Said(old(store.led), store.led)
      ensures up ==> Announced(old(store.file), jobs, old(store.led).talk.emitted, store.led.talk.emitted)
      ensures old(store.led).handed ==> store.led.handed
      ensures up && old(store.file).Good? && old(store.file).a.core.terminalPending ==> store.led.handed
      ensures events.durable && !up ==> !Unharmed(old(store.led), store.led)
      // A stop in flight owns the terminal: nothing at all happens.
      ensures StopRecorded(old(store.file)) && old(store.file).a.core.phase.Started? ==>
        up && store.hist == old(store.hist) && store.file == old(store.file)
    {
      if !store.file.Good? {
        up := Emit(Lost);
        return;
      }
      var s := store.file.a;
      if s.core.phase.Reserved? {
        up := Emit(Failed);
        return;
      }
      if s.core.phase.Started? && s.core.stopRequestedAt.Some? {
        return true;
      }
      if s.core.phase.Done? {
        up := Emit(s.core.result.value);
        return;
      }
      up := AnnounceRunning(s, jobs);
    }

    /** Re-emits for an attempt that runs unstopped, or has ended and was not noticed yet. */
    method AnnounceRunning(s: Attempt, jobs: Jobs) returns (up: bool)
      requires Valid() && store.file == Good(s) && s.core.phase.Started? && s.core.stopRequestedAt.None?
      modifies store, events
      ensures Valid() && old(store.hist) <= store.hist && Capped(old(store.file), store.file)
      ensures Said(old(store.led), store.led)
      ensures up ==> Announced(old(store.file), jobs, old(store.led).talk.emitted, store.led.talk.emitted)
      ensures old(store.led).handed ==> store.led.handed
      ensures events.durable && !up ==> !Unharmed(old(store.led), store.led)
    {
      if s.core.runner.Wheel? {
        up := Emit(Event.Running);
        return;
      }
      var status, died := runner.CurrentStatus(jobs);
      if died {
        return false;
      }
      up := Emit(if status.Left? then status.terminal else Event.Running);
    }

    // ---- the stop state machine ----------------------------------------------

    ghost predicate Stopping(f: File) {
      StopRecorded(f) && f.a.core.runner.Scrapy? && f.a.core.phase.Started?
    }

    ghost predicate Unstopped(f: File) {
      f.Good? && f.a.core.phase.Started? && !StopRecorded(f)
    }

    ghost predicate Running(f: File) {
      Unstopped(f) && f.a.core.runner.Scrapy?
    }

    /** One signal; the escalation is recorded only when scrapyd acknowledged it. */
    method SendStopSignal(signal: Signal, ghost now: int, answer: Answer) returns (acked: bool, died: bool)
      requires Valid() && store.file.Good? && !store.file.a.core.phase.Reserved? && Last(store.led).Some?
      requires MaySignal(store.pace, store.file.a, Last(store.led).value, signal, now)
      modifies store
      ensures Connected() && old(store.hist) <= store.hist && Quietly(old(store.led), store.led)
      ensures died <==> !Unharmed(old(store.led), store.led)
      ensures store.file.Good? && store.led.wire.sent == Some(Shot(signal, store.file.a.core.jobId, now))
      ensures acked == (!died && answer.Accepts?)
      ensures store.file.a.core == if acked then old(store.file).a.core.(stopEscalation := Some(signal))
        else old(store.file).a.core
      ensures if died || !Pursuing(old(store.led)) then store.led.wire.unstamped.None?
              else Restamped(Some(now), store.led.wire.unstamped, store.file)
    {
      var reply := runner.Stop(signal, now, answer);
      if !reply.Acknowledged? {
        return false, reply.Died?;
      }
      store.MarkStopEscalation(signal);
      return true, false;
    }

    /** Records the intent first, then makes one attempt to signal. */
    method BeginStop(intent: Intent, now: int, answer: Answer) returns (up: bool)
      requires Valid() && store.file.Good? && store.file.a.core.phase.Started?
      requires Last(store.led) == Some(StopCommand(intent, now))
      modifies store
      ensures Valid() && old(store.hist) <= store.hist && Followed(old(store.led), store.led)
      ensures store.led.talk.emitted == old(store.led).talk.emitted
      ensures !up ==> !Unharmed(old(store.led), store.led)
      ensures StopRecorded(old(store.file)) ==> up && store.file == old(store.file) && store.hist == old(store.hist)
      ensures !StopRecorded(old(store.file)) ==> Begun(old(store.file), store.led, intent, now)
      ensures up && !StopRecorded(old(store.file)) ==> TermSent(store.led, now, answer)
    {
      if store.file.a.core.stopRequestedAt.Some? {
        return true;
      }
      store.MarkStopRequested(intent, now);
      var acked, died := SendStopSignal(Term, now, answer);
      return !died;
    }

    /** TERM went out to the job, and is recorded if it was acknowledged. */
    ghost predicate TermSent(l: Ledger, now: int, answer: Answer) {
      && l.file.Good? && l.wire.sent == Some(Shot(Term, l.file.a.core.jobId, now))
      && l.file.a.core.stopEscalation == if answer.Accepts? then Some(Term) else None
    }

    /** The stop is on disk, with TERM acknowledged or not, and the job is owed. */
    ghost predicate Begun(f: File, l: Ledger, intent: Intent, now: int) {
      && f.Good? && l.file.Good? && l.file.a.core.phase.Started?
      && l.file.a.core.stopIntent == Some(intent) && l.file.a.core.stopRequestedAt == Some(now)
      && l.file.a.core.stopEscalation in {None, Some(Term)}
      && l.file.a.core.jobId == f.a.core.jobId && l.file.a.core.runner == f.a.core.runner
      && (l.file.a.core.runner.Scrapy? ==> l.owed == Some(l.file.a.core.jobId))
    }

    /** Drops the artifacts and the record; an OSError stops it before the record goes. */
    method DoCleanup(cleaned: bool) returns (done: bool)
      requires Valid() && store.led.owed.None?
      requires store.file.Good? && store.file.a.core.runner.Scrapy? && store.file.a.core.stopIntent == Some(Cancel) ==>
        store.led.handed
      modifies store
      ensures Valid() && old(store.hist) <= store.hist && store.led.talk == old(store.led).talk
      ensures store.led.handed == old(store.led).handed && store.led.owed.None?
      ensures done == cleaned
      ensures if done then store.file.Absent? else store.file == old(store.file) && store.led == old(store.led)
    {
      done := cleaned;
      if done {
        store.Delete();
      }
    }

    /** A cleanup that had to wait, once the process is gone and the terminal handed over. */
    method RunDeferredCleanup(cleaned: bool)
      requires Valid() && (store.file.Good? ==> !store.file.a.core.phase.Started?)
      modifies store
      ensures Valid() && old(store.hist) <= store.hist && store.led.talk == old(store.led).talk
      ensures store.led.handed == old(store.led).handed && store.led.owed == old(store.led).owed
      ensures store.file == if cleaned && CleanupDue(old(store.file)) then Absent else old(store.file)
      ensures store.file == old(store.file) ==> store.led == old(store.led)
    {
      if !store.file.Good? || !store.file.a.core.cleanupPending {
        return;
      }
      if store.file.a.core.killPending || store.file.a.core.terminalPending {
        return;
      }
      var done := DoCleanup(cleaned);
    }

    /** A cleanup was asked for, and nothing stands in its way any more. */
    ghost predicate CleanupDue(f: File) {
      f.Good? && f.a.core.cleanupPending && !f.a.core.killPending && !f.a.core.terminalPending
    }

    /**
     Reports the terminal of a stop.  Unconfirmed, it keeps `kill_pending` and so the
     job id; a cancel keeps `terminal_pending` until `canceled` is handed over; a
     reclaim says nothing.
     */
    method FinalizeStop(s: Attempt, confirmed: bool, cleaned: bool) returns (up: bool)
      requires Valid() && Current(s, store.file) && Stopping(store.file)
      requires confirmed ==> store.led.owed.None?
      modifies store, events
      ensures Valid() && old(store.hist) <= store.hist && Followed(old(store.led), store.led)
      ensures store.led.owed == old(store.led).owed
      ensures s.core.stopIntent == Some(Reclaim) ==> up && store.led.talk == old(store.led).talk
      ensures s.core.stopIntent == Some(Cancel) && up ==>
        store.led.handed && store.led.talk.emitted == old(store.led).talk.emitted + [Canceled]
      ensures events.durable && !up ==> !Unharmed(old(store.led), store.led)
      ensures store.file.Absent? ==> confirmed
      ensures !store.file.Absent? ==> Finalized(s, store.file, confirmed, up)
      ensures up && confirmed ==> (store.file.Absent? <==> cleaned && s.core.cleanupPending)
    {
      if s.core.stopIntent == Some(Reclaim) {
        store.MarkDone(Lost, Some(!confirmed), Some(false));
        up := true;
      } else {
        up := ReportCanceled(s, confirmed);
      }
      if up && confirmed {
        RunDeferredCleanup(cleaned);
      }
    }

    /** Recorded as owed, handed over, and only then no longer owed. */
    method ReportCanceled(s: Attempt, confirmed: bool) returns (up: bool)
      requires Valid() && Current(s, store.file) && Stopping(store.file) && s.core.stopIntent != Some(Reclaim)
      requires confirmed ==> store.led.owed.None?
      modifies store, events
      ensures Valid() && old(store.hist) <= store.hist && Followed(old(store.led), store.led)
      ensures store.led.owed == old(store.led).owed
      ensures up ==> store.led.handed && store.led.talk.emitted == old(store.led).talk.emitted + [Canceled]
      ensures events.durable && !up ==> !Unharmed(old(store.led), store.led)
      ensures Finalized(s, store.file, confirmed, up) && store.file.a.core.cleanupPending == s.core.cleanupPending
    {
      assert s.core.stopIntent.value.Cancel?;
      store.MarkDone(Canceled, Some(!confirmed), Some(true));
      up := Emit(Canceled);
      if up {
        store.ClearTerminalPending();
      }
    }

    ghost predicate Finalized(s: Attempt, f: File, confirmed: bool, up: bool) {
      && f.Good? && f.a.core.phase.Done? && f.a.core.jobId == s.core.jobId
      && f.a.core.killPending == !confirmed
      && f.a.core.result == Some(if s.core.stopIntent == Some(Reclaim) then Lost else Canceled)
      && (up ==> !f.a.core.terminalPending)
    }

    /** The stop has outlived its confirmation window. */
    ghost predicate Overdue(s: Attempt, now: int) {
      cfg.stopConfirmTimeout > 0 && s.core.stopRequestedAt.Some? &&
        now - s.core.stopRequestedAt.value >= cfg.stopConfirmTimeout
    }

    /** Drives one in-flight stop forward by a single tick; the deadline comes first. */
    method StopWatchdog(s: Attempt, now: int, w: World) returns (up: bool)
      requires Valid() && Current(s, store.file) && Stopping(store.file) && Ticking(store.led, now)
      modifies store, events
      ensures Valid() && old(store.hist) <= store.hist && Followed(old(store.led), store.led)
      // Only a fault keeps a tick from completing, whatever scrapyd and Redis answer.
      ensures events.durable && !up ==> !Unharmed(old(store.led), store.led)
      // Past the deadline a tick that completes has settled the stop, whatever scrapyd answers.
      ensures up && Overdue(s, now) ==> store.file.Good? && Finalized(s, store.file, false, true)
      ensures up && Overdue(s, now) && s.core.stopIntent == Some(Cancel) ==> store.led.handed
      // Before it, the record leaves `started` only when the job was shown gone.
      ensures !Overdue(s, now) && !Stopping(store.file) ==> store.led.owed.None?
      // Before it, listjobs decides: a job that is gone is wrapped up, a listed one is signalled.
      ensures up && !Overdue(s, now) ==> Driven(s, w, now)
    {
      var elapsed := now - s.core.stopRequestedAt.value;
      if cfg.stopConfirmTimeout > 0 && elapsed >= cfg.stopConfirmTimeout {
        up := FinalizeStop(s, false, w.cleaned);
        return;
      }
      up := ConfirmOrEscalate(s, now, w);
    }

    /** Before the deadline: a job shown gone is finalized, one that is listed is signalled. */
    method ConfirmOrEscalate(s: Attempt, now: int, w: World) returns (up: bool)
      requires Valid() && Current(s, store.file) && Stopping(store.file) && Ticking(store.led, now)
      modifies store, events
      ensures Valid() && old(store.hist) <= store.hist && Followed(old(store.led), store.led)
      ensures events.durable && !up ==> !Unharmed(old(store.led), store.led)
      ensures !Stopping(store.file) ==> store.led.owed.None?
      ensures up ==> Driven(s, w, now)
    {
      var alive, died := runner.IsJobAlive(w.jobs);
      if alive == Some(false) {
        up := WrapUp(s, w.cleaned);
      } else if alive == Some(true) {
        up := Escalate(s, now, w.cancel);
      } else {
        up := !died;
      }
    }

    /** The job was shown gone. */
    method WrapUp(s: Attempt, cleaned: bool) returns (up: bool)
      requires Valid() && Current(s, store.file) && Stopping(store.file) && store.led.owed.None?
      modifies store, events
      ensures Valid() && old(store.hist) <= store.hist && Followed(old(store.led), store.led)
      ensures events.durable && !up ==> !Unharmed(old(store.led), store.led)
      ensures store.led.owed.None? && (up ==> Confirmed(s, cleaned))
    {
      up := FinalizeStop(s, true, cleaned);
    }

    /** What a tick before the deadline does about a stop, by scrapyd's listing and its answer. */
    ghost predicate Driven(s: Attempt, w: World, now: int)
      reads store
    {
      match w.jobs
      case Unreachable => store.file.Good? && store.file.a.core == s.core
      case Listed => Escalated(s, store.led, now, w.cancel)
      case Unlisted(_) => Confirmed(s, w.cleaned)
    }

    /** The process is gone: the terminal is on disk and handed over, and only a cleanup may end the record. */
    ghost predicate Confirmed(s: Attempt, cleaned: bool)
      reads store
    {
      && (s.core.stopIntent == Some(Cancel) ==> store.led.handed)
      && (if cleaned && s.core.cleanupPending then store.file.Absent? else Finalized(s, store.file, true, true))
    }

    /** TERM until it is acknowledged, then, past the grace period, KILL; only acknowledged ones are recorded. */
    ghost predicate Escalated(s: Attempt, l: Ledger, now: int, answer: Answer) {
      && l.file.Good?
      && if s.core.stopEscalation == None then TermSent(l, now, answer) && SameButEscalation(s, l.file)
         else if s.core.stopEscalation == Some(Term) && s.core.stopRequestedAt.Some?
           && now - s.core.stopRequestedAt.value >= cfg.stopKillAfter then
           && l.wire.sent == Some(Shot(Kill, s.core.jobId, now)) && SameButEscalation(s, l.file)
           && l.file.a.core.stopEscalation == Some(if answer.Accepts? then Kill else Term)
         else l.file.a.core == s.core
    }

    ghost predicate SameButEscalation(s: Attempt, f: File) {
      f.Good? && f.a.core.(stopEscalation := None) == s.core.(stopEscalation := None)
    }

    /** TERM until acknowledged, KILL after the grace period. */
    method Escalate(s: Attempt, now: int, answer: Answer) returns (up: bool)
      requires Valid() && Current(s, store.file) && Stopping(store.file) && Ticking(store.led, now)
      modifies store
      ensures Valid() && old(store.hist) <= store.hist && Quietly(old(store.led), store.led)
      ensures !up ==> !Unharmed(old(store.led), store.led)
      ensures Stopping(store.file)
      ensures up ==> Escalated(s, store.led, now, answer)
    {
      var acked, died := false, false;
      if s.core.stopEscalation == None {
        acked, died := SendStopSignal(Term, now, answer);
      } else if s.core.stopEscalation == Some(Term) && now - s.core.stopRequestedAt.value >= cfg.stopKillAfter {
        acked, died := SendStopSignal(Kill, now, answer);
      }
      return !died;
    }

    // ---- what a wrapped-up attempt still owes --------------------------------

    /** What no step of the reclaim watchdog changes while the record lives. */
    ghost predicate SameTerminal(f: File, g: File) {
      && f.Good?
      && (g.Absent? ==> f.a.core.cleanupPending)
      && (!g.Absent? ==>
        && g.Good? && g.a.core.phase == f.a.core.phase && g.a.core.result == f.a.core.result &&
          g.a.core.jobId == f.a.core.jobId
        && SameStop(f.a, g.a) && g.a.core.cleanupPending == f.a.core.cleanupPending)
    }

    /** KILL once more; its time goes to disk, acknowledged or not. */
    method ShootAgain(now: int, answer: Answer) returns (up: bool)
      requires Valid() && store.file.Good? && Ticking(store.led, now) &&
        PursuesKill(store.pace, store.file.a, Kill, now)
      modifies store
      ensures Valid() && old(store.hist) <= store.hist && Quietly(old(store.led), store.led)
      ensures !up ==> !Unharmed(old(store.led), store.led)
      ensures store.file.Good?
      ensures up ==> ShotAgain(store.led, now)
      ensures store.file.a.core.(stopEscalation := None, killLastAttemptAt := None)
        == old(store.file).a.core.(stopEscalation := None, killLastAttemptAt := None)
    {
      var acked, died := SendStopSignal(Kill, now, answer);
      if !died {
        store.MarkKillAttempt(now);
      }
      return !died;
    }

    /** KILL went out now, and its time is on disk. */
    ghost predicate ShotAgain(l: Ledger, now: int) {
      && l.file.Good? && l.wire.sent == Some(Shot(Kill, l.file.a.core.jobId, now))
      && l.file.a.core.killLastAttemptAt == Some(now)
    }

    /** The job was shown gone: nothing keeps the record any more but a cleanup that was not asked for. */
    method LetGo(cleaned: bool)
      requires Valid() && store.file.Good? && store.file.a.core.phase.Done? && store.led.owed.None?
      requires !store.file.a.core.terminalPending
      modifies store
      ensures Valid() && old(store.hist) <= store.hist && store.led.talk == old(store.led).talk
      ensures store.led.handed == old(store.led).handed && store.led.owed.None?
      ensures SameTerminal(old(store.file), store.file)
      ensures store.file.Good? ==> !store.file.a.core.terminalPending
      ensures LetOff(old(store.file).a, store.file, cleaned)
    {
      store.ClearKillPending();
      RunDeferredCleanup(cleaned);
    }

    /** No debt is left, and the record goes if a cleanup waited for that and succeeds. */
    ghost predicate LetOff(a: Attempt, f: File, cleaned: bool) {
      if cleaned && a.core.cleanupPending then f.Absent? else f.Good? && !f.a.core.killPending
    }

    /** A process that outlived its stop deadline: probe it, shoot it again, or let go of it. */
    method PursueKill(now: int, w: World) returns (up: bool)
      requires Valid() && store.file.Good? && store.file.a.core.killPending && Ticking(store.led, now)
      requires !store.file.a.core.terminalPending
      modifies store
      ensures Valid() && old(store.hist) <= store.hist && Followed(old(store.led), store.led)
      ensures store.led.handed == old(store.led).handed && store.led.talk.emitted == old(store.led).talk.emitted
      ensures !up ==> !Unharmed(old(store.led), store.led)
      ensures SameTerminal(old(store.file), store.file)
      ensures store.file.Good? ==> !store.file.a.core.terminalPending
      ensures store.file.Absent? || !store.file.a.core.killPending ==> store.led.owed.None?
      ensures up ==> Pursued(old(store.file).a, w, now)
    {
      var alive, died := runner.IsJobAlive(w.jobs);
      if alive == Some(false) {
        LetGo(w.cleaned);
        up := true;
      } else if alive == Some(true) {
        up := ShootIfDue(now, w.cancel);
      } else {
        up := !died;
      }
    }

    /** What a tick does about a process that outlived its stop, by scrapyd's listing. */
    ghost predicate Pursued(a: Attempt, w: World, now: int)
      reads store
    {
      match w.jobs
      case Unreachable => store.file.Good? && store.file.a.core.killPending
      case Listed =>
        && store.file.Good? && store.file.a.core.killPending
        && var last := a.core.killLastAttemptAt;
           (cfg.killRetryInterval == 0 || last == None || now >= last.value + cfg.killRetryInterval)
             ==> ShotAgain(store.led, now)
      case Unlisted(_) => LetOff(a, store.file, w.cleaned)
    }

    predicate RetryDue(a: Attempt, now: int) {
      || cfg.killRetryInterval == 0 || a.core.killLastAttemptAt.None?
      || now - a.core.killLastAttemptAt.value >= cfg.killRetryInterval
    }

    method ShootIfDue(now: int, answer: Answer) returns (up: bool)
      requires Valid() && store.file.Good? && Ticking(store.led, now)
      requires store.file.a.core.phase.Done? && store.file.a.core.killPending && !store.file.a.core.terminalPending
      modifies store
      ensures Valid() && old(store.hist) <= store.hist && Quietly(old(store.led), store.led)
      ensures !up ==> !Unharmed(old(store.led), store.led)
      ensures up && RetryDue(old(store.file).a, now) ==> ShotAgain(store.led, now)
      ensures store.file.Good?
      ensures store.file.a.core.(stopEscalation := None, killLastAttemptAt := None)
        == old(store.file).a.core.(stopEscalation := None, killLastAttemptAt := None)
    {
      up := true;
      if RetryDue(store.file.a, now) {
        up := ShootAgain(now, answer);
      }
    }

    /** Finishes what a wrapped-up attempt still owes: terminal, process, cleanup, in this order. */
    method ReclaimWatchdog(now: int, w: World) returns (up: bool)
      requires Valid() && store.file.Good? && !store.file.a.core.phase.Started? && Ticking(store.led, now)
      modifies store, events
      ensures Valid() && old(store.hist) <= store.hist && Followed(old(store.led), store.led)
      ensures old(store.led).handed ==> store.led.handed
      ensures SameTerminal(old(store.file), store.file)
      ensures events.durable && !up ==> !Unharmed(old(store.led), store.led)
      ensures up && old(store.file).a.core.terminalPending ==> store.led.handed
      ensures up && store.file.Good? ==> !store.file.a.core.terminalPending
      // Reclamation ends only with the job shown gone.
      ensures old(store.file).a.core.killPending && (store.file.Absent? || !store.file.a.core.killPending) ==>
        store.led.owed.None?
      ensures up ==> Reclaimed(old(store.file).a, w, now)
    {
      if store.file.a.core.terminalPending {
        up := DeliverOwed(w.jobs);
        if !up {
          return;
        }
      }
      if store.file.a.core.killPending {
        up := PursueKill(now, w);
        return;
      }
      if store.file.a.core.cleanupPending {
        RunDeferredCleanup(w.cleaned);
      }
      return true;
    }

    /** A debt is pursued; without one, a cleanup that waited is done. */
    ghost predicate Reclaimed(a: Attempt, w: World, now: int)
      reads store
    {
      if a.core.killPending then Pursued(a, w, now) else w.cleaned && a.core.cleanupPending ==> store.file.Absent?
    }

    /** A terminal that never reached the publisher: announced from the record, then no longer owed. */
    method DeliverOwed(jobs: Jobs) returns (up: bool)
      requires Valid() && store.file.Good? && store.file.a.core.terminalPending
      modifies store, events
      ensures Valid() && old(store.hist) <= store.hist && Followed(old(store.led), store.led)
      ensures old(store.led).handed ==> store.led.handed
      ensures events.durable && !up ==> !Unharmed(old(store.led), store.led)
      ensures up ==> store.led.handed
      ensures store.led.owed == old(store.led).owed
      ensures store.file.Good?
      ensures store.file.a.core == if up then old(store.file).a.core.(terminalPending := false)
        else old(store.file).a.core
    {
      up := RepublishCurrent(jobs);
      if up {
        store.ClearTerminalPending();
      }
    }

    /** Persists, then emits, the terminal of a scrapyd attempt; a flooded one always failed. */
    method FinishScrapyAttempt(s: Attempt, terminal: Event) returns (up: bool)
      requires Valid() && Current(s, store.file) && s.core.phase.Started? && s.core.stopRequestedAt.None?
      requires terminal in {Finished, Canceled}
      modifies store, events
      ensures Valid() && old(store.hist) <= store.hist && Followed(old(store.led), store.led)
      ensures events.durable && !up ==> !Unharmed(old(store.led), store.led)
      ensures Ended(s, terminal, store.file) || Capped(old(store.file), store.file)
      ensures up ==> Ended(s, terminal, store.file)
      ensures up ==> store.file.a.core == DoneCore(s.core, if s.flags.logFlood then Failed else terminal, None, None)
      ensures up ==>
        store.led.talk.emitted == old(store.led).talk.emitted + [if s.flags.logFlood then Failed else terminal]
    {
      var died := Await(store);
      if died {
        return false;
      }
      up := RecordEnd(if s.flags.logFlood then Failed else terminal);
    }

    /** A natural end, on disk first. */
    method RecordEnd(verdict: Event) returns (up: bool)
      requires Valid() && store.file.Good? && store.file.a.core.phase.Started? &&
        store.file.a.core.stopRequestedAt.None?
      requires verdict in {Finished, Failed, Canceled}
      modifies store, events
      ensures Valid() && old(store.hist) <= store.hist && Followed(old(store.led), store.led)
      ensures events.durable && !up ==> !Unharmed(old(store.led), store.led)
      ensures store.file.Good? && store.file.a.core == DoneCore(old(store.file).a.core, verdict, None, None)
      ensures up ==> store.led.talk.emitted == old(store.led).talk.emitted + [verdict]
    {
      store.MarkDone(verdict, None, None);
      up := Emit(verdict);
    }

    /** The natural end is on disk, and nothing is owed. */
    ghost predicate Ended(s: Attempt, terminal: Event, f: File) {
      && f.Good? && f.a.core.phase.Done? && !f.a.core.killPending && !f.a.core.terminalPending
      && f.a.core.result == Some(if s.flags.logFlood then Failed else terminal)
    }

    // ---- the tick --------------------------------------------------------------

    /** One more signal against a flooding job: TERM, KILL, or the one crawler process itself. */
    method FloodEscalate(s: Attempt, now: int, pidKilled: bool) returns (signal: Option<Signal>)
      requires Valid() && Current(s, store.file) && s.core.phase.Started? && s.flags.logFlood && Ticking(store.led, now)
      modifies store
      ensures Valid() && old(store.hist) <= store.hist && Quietly(old(store.led), store.led)
      ensures Unharmed(old(store.led), store.led)
      ensures store.file.Good? && store.file.a.core == s.core && store.file.a.flags.logFlood
      ensures store.file.a.flags.logFloodAt == old(store.file).a.flags.logFloodAt
      ensures signal.Some? ==>
        FightsFlood(store.pace, store.file.a, signal.value, now) && signal.value == FloodSignal(s, now)
      ensures signal.None? ==>
        store.led.wire.sent == Some(Shot(PidKill, s.core.jobId, now)) && FloodSignal(s, now) == Kill
      ensures signal.None? <==> PidKillDue(s, now, pidKilled)
      ensures store.file.a.flags.logFloodEscalation == NextEscalation(s, now, pidKilled)
    {
      if PidKillDue(s, now, pidKilled) {
        ShootPid(s, now);
        return None;
      }
      NoteKillStage(s, now);
      signal := Some(FloodSignal(s, now));
    }

    /** Between one grace period and two the record says KILL. */
    method NoteKillStage(s: Attempt, now: int)
      requires Valid() && Current(s, store.file) && s.core.phase.Started? && s.flags.logFlood
      modifies store
      ensures Valid() && old(store.hist) <= store.hist && Quietly(old(store.led), store.led)
      ensures Unharmed(old(store.led), store.led)
      ensures store.file == Good(old(store.file).a.(flags := old(store.file).a.flags.(
        logFloodEscalation := NextEscalation(s, now, false))))
    {
      var elapsed := FloodAge(s, now);
      if elapsed < 2 * cfg.floodKillAfter && elapsed >= cfg.floodKillAfter {
        if s.flags.logFloodEscalation != Some(Kill) {
          store.MarkLogFlood(now, Some(Kill));
        }
      }
    }

    /** The one crawler process was found and shot. */
    method ShootPid(s: Attempt, now: int)
      requires Valid() && Current(s, store.file) && s.core.phase.Started? && s.flags.logFlood && Ticking(store.led, now)
      requires FloodAge(s, now) >= 2 * cfg.floodKillAfter
      modifies store
      ensures Valid() && old(store.hist) <= store.hist && Quietly(old(store.led), store.led)
      ensures Unharmed(old(store.led), store.led)
      ensures store.file ==
        Good(old(store.file).a.(flags := old(store.file).a.flags.(logFloodEscalation := Some(PidKill))))
      ensures store.led.wire.sent == Some(Shot(PidKill, s.core.jobId, now))
    {
      store.Record(Signalled(PidKill, store.file.a.core.jobId, now));
      store.MarkLogFlood(now, Some(PidKill));
    }

    /** When what is called for: TERM at first, KILL after the grace period, the process itself after two. */
    lemma FloodStages(s: Attempt, now: int, pidKilled: bool)
      requires s.flags.logFlood && s.flags.logFloodAt.Some? && now >= s.flags.logFloodAt.value
      ensures var age, grace := now - s.flags.logFloodAt.value, cfg.floodKillAfter;
        && FloodSignal(s, now) == (if age < grace then Term else Kill)
        && (PidKillDue(s, now, pidKilled) <==>
             age >= grace + grace && pidKilled && cfg.managedScrapyd && s.flags.logFloodEscalation != Some(PidKill))
        && (NextEscalation(s, now, false) == s.flags.logFloodEscalation ||
             (NextEscalation(s, now, false) == Some(Kill) && grace <= age < grace + grace))
        && (grace <= age < grace + grace ==> NextEscalation(s, now, pidKilled) == Some(Kill))
    {
    }

    /** The request that a flood of this age calls for. */
    function FloodSignal(s: Attempt, now: int): Signal {
      if s.flags.logFlood && FloodAge(s, now) >= cfg.floodKillAfter then Kill else Term
    }

    /** Twice the grace period passed, and the crawler of a managed scrapyd was found, once. */
    predicate PidKillDue(s: Attempt, now: int, pidKilled: bool) {
      && s.flags.logFloodAt.Some? && FloodAge(s, now) >= 2 * cfg.floodKillAfter
      && s.flags.logFloodEscalation != Some(PidKill) && pidKilled && cfg.managedScrapyd
    }

    function FloodAge(s: Attempt, now: int): nat {
      if s.flags.logFloodAt.Some? && now > s.flags.logFloodAt.value then now - s.flags.logFloodAt.value else 0
    }

    /** What the record says of the flood afterwards: KILL between one grace period and two. */
    function NextEscalation(s: Attempt, now: int, pidKilled: bool): Option<Signal> {
      if PidKillDue(s, now, pidKilled) then Some(PidKill)
      else if cfg.floodKillAfter <= FloodAge(s, now) < 2 * cfg.floodKillAfter then Some(Kill)
      else s.flags.logFloodEscalation
    }

    /** This attempt's log was seen at or past the cap, now or before. */
    predicate Flooded(a: Attempt, size: Option<nat>) {
      a.flags.logFlood || (cfg.logCap > 0 && size.Some? && size.value >= cfg.logCap)
    }

    /** Flood guard of one started attempt: mark, bound the disk, escalate.  Only flags move. */
    method FloodWatchdog(s: Attempt, size: Option<nat>, now: int, w: World) returns (latest: Attempt, up: bool)
      requires Valid() && Current(s, store.file) && s.core.phase.Started? && Ticking(store.led, now)
      modifies store
      ensures Valid() && old(store.hist) <= store.hist && Quietly(old(store.led), store.led)
      ensures !up <==> !Unharmed(old(store.led), store.led)
      ensures Unmoved(old(store.file), store.file) && Current(latest, store.file)
      // A log seen at or past the cap marks the attempt as flooded for good.
      ensures latest.flags.logFlood == Flooded(s, size)
      ensures !Flooded(s, size) ==> store.file == old(store.file) && store.led == old(store.led)
      ensures up && cfg.logCap > 0 && size.Some? && Flooded(s, size) ==>
        || store.led.wire.sent == Some(Shot(FloodSignal(s, now), s.core.jobId, now))
        || store.led.wire.sent == Some(Shot(PidKill, s.core.jobId, now))
    {
      latest := s;
      if cfg.logCap == 0 || size.None? || (!s.flags.logFlood && size.value < cfg.logCap) {
        return s, true;
      }
      var signal := Some(Term);
      if s.flags.logFlood {
        signal := FloodEscalate(s, now, w.pidKilled);
      } else {
        store.MarkLogFlood(now, Some(Term));
      }
      latest := store.file.a;
      if signal.None? {
        return latest, true;
      }
      up := FightFlood(signal.value, now, w.flood);
    }

    /** Whatever scrapyd answers, or raises, is tried again at the next tick. */
    method FightFlood(signal: Signal, ghost now: int, answer: Answer) returns (up: bool)
      requires Valid() && store.file.Good? && store.file.a.core.phase.Started? && Ticking(store.led, now)
      requires FightsFlood(store.pace, store.file.a, signal, now)
      modifies store
      ensures Valid() && old(store.hist) <= store.hist && Quietly(old(store.led), store.led)
      ensures !up <==> !Unharmed(old(store.led), store.led)
      ensures Current(old(store.file).a, store.file)
      ensures store.led.wire.sent == Some(Shot(signal, store.file.a.core.jobId, now))
    {
      var reply := runner.Stop(signal, now, answer);
      up := !reply.Died?;
    }

    /** The stop of this record, if any, is settled: nothing is owed to the server any more. */
    ghost predicate Settled()
      reads store
    {
      store.file.Good? ==> store.file.a.core.phase.Done? && !store.file.a.core.terminalPending
    }

    /** A tick over this execution did what its record and scrapyd's answers ask of it. */
    ghost predicate TickDelivered(f: File, size: Option<nat>, now: int, w: World, before: seq<Event>)
      reads store
    {
      && (Stopping(f) && !Overdue(f.a, now) ==> Driven(f.a, w, now))
      && (Running(f) ==> Watched(f.a, Flooded(f.a, size), w.jobs, before))
      && (f.Good? && !f.a.core.phase.Started? ==> Reclaimed(f.a, w, now))
      && (Stopping(f) && Overdue(f.a, now) ==> Settled() && (f.a.core.stopIntent == Some(Cancel) ==> store.led.handed))
      && (f.Good? && CancelSettled(f.a) ==> Settled() && store.led.handed)
    }

    /** An attempt that runs unstopped: its end is recorded and told, once scrapyd shows it. */
    ghost predicate Watched(a: Attempt, flooded: bool, jobs: Jobs, before: seq<Event>)
      reads store
    {
      && store.file.Good?
      && if jobs == Unlisted(true) then
           var verdict := if flooded then Failed else OwnEnd(a);
           && store.file.a.core == DoneCore(a.core, verdict, None, None)
           && store.led.talk.emitted == before + [verdict]
         else store.file.a.core == a.core && store.led.talk.emitted == before
    }

    /**
     One pass of the reconcile loop over this execution.  Whatever scrapyd and Redis
     answer, only a fault keeps it from completing, and a pass that completes past the
     deadline of a recorded cancel leaves the attempt settled with `canceled` handed
     over; the same holds after any crash and restart, since it rests on the record alone.
     */
    method DoTick(size: Option<nat>, now: int, w: World) returns (up: bool)
      requires Valid() && Ticking(store.led, now)
      modifies store, events
      ensures Valid() && old(store.hist) <= store.hist && Followed(old(store.led), store.led)
      ensures events.durable && !up ==> !Unharmed(old(store.led), store.led)
      ensures up ==> TickDelivered(old(store.file), size, now, w, old(store.led).talk.emitted)
    {
      if !store.file.Good? {
        return true;
      }
      if !store.file.a.core.phase.Started? {
        up := ReclaimWatchdog(now, w);
        return;
      }
      up := TickStarted(size, now, w);
    }

    /** The log is measured and a flood fought; then a stop on disk is driven, or the end looked for. */
    method TickStarted(size: Option<nat>, now: int, w: World) returns (up: bool)
      requires Valid() && Ticking(store.led, now) && store.file.Good? && store.file.a.core.phase.Started?
      modifies store, events
      ensures Valid() && old(store.hist) <= store.hist && Followed(old(store.led), store.led)
      ensures events.durable && !up ==> !Unharmed(old(store.led), store.led)
      ensures up && Stopping(old(store.file)) && Overdue(old(store.file).a, now) ==>
        Settled() && (old(store.file).a.core.stopIntent == Some(Cancel) ==> store.led.handed)
      ensures up && Stopping(old(store.file)) && !Overdue(old(store.file).a, now) ==> Driven(old(store.file).a, w, now)
      ensures up && Running(old(store.file)) ==>
        Watched(old(store.file).a, Flooded(old(store.file).a, size), w.jobs, old(store.led).talk.emitted)
    {
      var s, died := Sample();
      if died || s.core.runner.Wheel? {
        return !died;
      }
      up := TickScrapy(s, size, now, w);
    }

    method TickScrapy(s: Attempt, size: Option<nat>, now: int, w: World) returns (up: bool)
      requires Valid() && Ticking(store.led, now) && Current(s, store.file) && s.core.phase.Started?
      requires s.core.runner.Scrapy? && s.flags.canceled == store.file.a.flags.canceled
      modifies store, events
      ensures Valid() && old(store.hist) <= store.hist && Followed(old(store.led), store.led)
      ensures events.durable && !up ==> !Unharmed(old(store.led), store.led)
      ensures up && Overdue(s, now) ==> Settled() && (s.core.stopIntent == Some(Cancel) ==> store.led.handed)
      ensures up && s.core.stopRequestedAt.Some? && !Overdue(s, now) ==> Driven(s, w, now)
      ensures up && s.core.stopRequestedAt.None? ==> Watched(s, Flooded(s, size), w.jobs, old(store.led).talk.emitted)
    {
      var latest;
      latest, up := FloodWatchdog(s, size, now, w);
      if up {
        up := StopOrEnd(latest, now, w);
      }
    }

    /** Measuring the log takes an await; the copy from before it stays good. */
    method Sample() returns (s: Attempt, died: bool)
      requires Valid() && store.file.Good?
      modifies store
      ensures Valid() && old(store.hist) <= store.hist && Quietly(old(store.led), store.led)
      ensures died ==> !Unharmed(old(store.led), store.led)
      ensures s == old(store.file).a && Current(s, store.file) && Capped(old(store.file), store.file)
    {
      s := store.file.a;
      died := Await(store);
    }

    method StopOrEnd(s: Attempt, now: int, w: World) returns (up: bool)
      requires Valid() && Ticking(store.led, now) && Current(s, store.file) && s.core.phase.Started? &&
        s.core.runner.Scrapy?
      modifies store, events
      ensures Valid() && old(store.hist) <= store.hist && Followed(old(store.led), store.led)
      ensures events.durable && !up ==> !Unharmed(old(store.led), store.led)
      ensures up && Overdue(s, now) ==> Settled() && (s.core.stopIntent == Some(Cancel) ==> store.led.handed)
      ensures up && s.core.stopRequestedAt.Some? && !Overdue(s, now) ==> Driven(s, w, now)
      ensures up && s.core.stopRequestedAt.None? ==>
        Watched(old(store.file).a, s.flags.logFlood, w.jobs, old(store.led).talk.emitted)
    {
      if s.core.stopRequestedAt.Some? {
        up := StopWatchdog(s, now, w);
      } else {
        up := CheckForEnd(s, w.jobs);
      }
    }

    /** A running attempt that scrapyd no longer runs has ended. */
    method CheckForEnd(s: Attempt, jobs: Jobs) returns (up: bool)
      requires Valid() && Current(s, store.file) && s.core.phase.Started? && s.core.stopRequestedAt.None?
      modifies store, events
      ensures Valid() && old(store.hist) <= store.hist && Followed(old(store.led), store.led)
      ensures events.durable && !up ==> !Unharmed(old(store.led), store.led)
      ensures up ==> Watched(old(store.file).a, s.flags.logFlood, jobs, old(store.led).talk.emitted)
    {
      var status, died := runner.CurrentStatus(jobs);
      up := !died;
      if status.Left? {
        up := FinishScrapyAttempt(s, status.terminal);
      }
    }

    // ---- commands ----------------------------------------------------------------

    /** A reserved attempt that cannot be started: recorded, then reported. */
    method FailReserved() returns (up: bool)
      requires Valid() && store.file.Good? && store.file.a.core.phase.Reserved?
      modifies store, events
      ensures Valid() && old(store.hist) <= store.hist && Followed(old(store.led), store.led)
      ensures events.durable && !up ==> !Unharmed(old(store.led), store.led)
      ensures store.led.owed == old(store.led).owed
      ensures store.file.Good? && store.file.a.core.phase.Done? && store.file.a.core.result == Some(Failed)
      ensures store.file.a.core.runner == old(store.file).a.core.runner
      ensures up ==> store.led.talk.emitted == old(store.led).talk.emitted + [Failed]
    {
      store.MarkDone(Failed, None, None);
      up := Emit(Failed);
    }

    /** Schedules the job of a fresh reservation, then promotes the record. */
    method StartReserved(jobId: string, scheduled: bool) returns (up: bool)
      requires Valid() && store.file.Good? && store.file.a.core.phase.Reserved? && !store.led.scheduled
      modifies store, events
      ensures Valid() && old(store.hist) <= store.hist && Followed(old(store.led), store.led)
      ensures events.durable && !up ==> !Unharmed(old(store.led), store.led)
      ensures store.led.owed == old(store.led).owed
      ensures store.file.Good? && store.file.a.core.runner == old(store.file).a.core.runner
      ensures store.file.a.core.phase.Started? ==> store.led.scheduled && store.file.a.core.jobId == jobId
      ensures up ==> StartedOr(scheduled, jobId, store.led, old(store.led).talk.emitted)
    {
      up := Schedule();
      if !up {
        return;
      }
      if !scheduled {
        up := FailReserved();
        return;
      }
      store.PromoteStarted(jobId);
      up := Emit(Event.Running);
    }

    /** If all went well the record is started and carries the job id; if not, it has failed. */
    ghost predicate StartedOr(well: bool, jobId: string, l: Ledger, before: seq<Event>) {
      && l.file.Good?
      && if well then
           && l.file.a.core.phase.Started? && l.file.a.core.jobId == jobId && l.scheduled
           && l.talk.emitted == before + [Event.Running]
         else
           && l.file.a.core.phase.Done? && l.file.a.core.result == Some(Failed)
           && l.talk.emitted == before + [Failed]
    }

    /** Scrapyd is asked to start the job; whether we live to hear of it is another matter. */
    method Schedule() returns (up: bool)
      requires Valid() && store.file.Good? && store.file.a.core.phase.Reserved? && !store.led.scheduled
      modifies store
      ensures Valid() && old(store.hist) <= store.hist && Quietly(old(store.led).(scheduled := true), store.led)
      ensures Capped(old(store.file), store.file)
      ensures !up ==> !Unharmed(old(store.led), store.led)
    {
      store.Record(Scheduled);
      var died := Await(store);
      up := !died;
    }

    /**
     `run`: an existing record is only re-announced; otherwise reserve, then schedule,
     then promote.  A crash between schedule and promote leaves `reserved`.
     */
    method HandleRun(task: Runner, commandOk: bool, jobId: string, w: World) returns (up: bool)
      requires Valid()
      modifies store, events
      ensures Valid() && old(store.hist) <= store.hist && Followed(old(store.led), store.led)
      ensures events.durable && !up ==> !Unharmed(old(store.led), store.led)
      ensures store.led.owed == old(store.led).owed
      ensures !old(store.file).Absent? ==> Unmoved(old(store.file), store.file)
      ensures up && !old(store.file).Absent? ==>
        Announced(old(store.file), w.jobs, old(store.led).talk.emitted, store.led.talk.emitted)
      ensures old(store.file).Absent? && store.file.Good? && store.file.a.core.phase.Started? ==>
        commandOk && store.led.scheduled && store.file.a.core.jobId == jobId && store.file.a.core.runner == task
      // A fresh run ends started under its job id, or failed, and says so.
      ensures up && old(store.file).Absent? ==>
        && StartedOr(RunsWell(commandOk, w), jobId, store.led, old(store.led).talk.emitted + [Accepted])
        && store.file.a.core.runner == task
    {
      if store.file.Good? {
        up := RepublishCurrent(w.jobs);
        return;
      }
      var created, died := store.CreateReserved(task);
      if died {
        return false;
      }
      if !created {
        up := RepublishCurrent(w.jobs);
        return;
      }
      up := StartFresh(commandOk, jobId, w);
    }

    predicate RunsWell(commandOk: bool, w: World) { commandOk && w.fetched && w.scheduled }

    /** A reservation of our own: accepted, then started or failed. */
    method StartFresh(commandOk: bool, jobId: string, w: World) returns (up: bool)
      requires Valid() && store.file.Good? && store.file.a.core.phase.Reserved? && !store.led.scheduled
      modifies store, events
      ensures Valid() && old(store.hist) <= store.hist && Followed(old(store.led), store.led)
      ensures events.durable && !up ==> !Unharmed(old(store.led), store.led)
      ensures store.led.owed == old(store.led).owed
      ensures store.file.Good? && store.file.a.core.runner == old(store.file).a.core.runner
      ensures store.file.a.core.phase.Started? ==> commandOk && store.led.scheduled && store.file.a.core.jobId == jobId
      ensures up ==> StartedOr(RunsWell(commandOk, w), jobId, store.led, old(store.led).talk.emitted + [Accepted])
    {
      up := Emit(Accepted);
      if !up {
        return;
      }
      var died := Await(store);
      if died {
        return false;
      }
      if commandOk && w.fetched {
        up := StartReserved(jobId, w.scheduled);
      } else {
        up := FailReserved();
      }
    }

    /** Records `canceled` where there is a record, and reports it in any case. */
    method AnswerCancel() returns (up: bool)
      requires Valid() && !store.led.reclaimOpen
      requires store.file.Good? ==> store.file.a.core.runner.Wheel? || !store.file.a.core.phase.Started?
      modifies store, events
      ensures Valid() && old(store.hist) <= store.hist && Followed(old(store.led), store.led)
      ensures events.durable && !up ==> !Unharmed(old(store.led), store.led)
      ensures up ==> store.led.handed && store.led.talk.emitted == old(store.led).talk.emitted + [Canceled]
      ensures store.file.Good? ==> store.file.a.core.phase.Done? && store.file.a.core.result == Some(Canceled)
    {
      store.MarkDone(Canceled, None, None);
      up := Emit(Canceled);
    }

    /** A cancel that finds nothing running: one attempt to signal, then the answer. */
    method CancelIdle(now: int, answer: Answer) returns (up: bool)
      requires Valid() && !store.led.reclaimOpen && Last(store.led) == Some(StopCommand(Cancel, now))
      requires store.file.Good? ==> !store.file.a.core.phase.Started?
      modifies store, events
      ensures Valid() && old(store.hist) <= store.hist && Followed(old(store.led), store.led)
      ensures events.durable && !up ==> !Unharmed(old(store.led), store.led)
      ensures up ==> store.led.handed && store.led.talk.emitted == old(store.led).talk.emitted + [Canceled]
    {
      var reply := runner.Stop(Term, now, answer);
      if reply.Raised? {
        store.Fault();
      }
      if reply.Died? || reply.Raised? {
        return false;
      }
      up := AnswerCancel();
    }

    /** `stop` with intent cancel. */
    method HandleCancel(isWheel: bool, now: int, answer: Answer) returns (up: bool)
      requires Valid() && (isWheel ==> store.file.Good? && store.file.a.core.runner.Wheel?)
      requires !store.led.reclaimOpen && Last(store.led) == Some(StopCommand(Cancel, now))
      modifies store, events
      ensures Valid() && old(store.hist) <= store.hist && Followed(old(store.led), store.led)
      ensures events.durable && !up ==> !Unharmed(old(store.led), store.led)
      // With nothing to drive across ticks, a cancel is answered at once.
      ensures up && (isWheel || !old(store.file).Good? || !old(store.file).a.core.phase.Started?) ==>
        store.led.handed && store.led.talk.emitted == old(store.led).talk.emitted + [Canceled]
      // A cancel of a running attempt is recorded before anything can fail ...
      ensures !isWheel && Unstopped(old(store.file)) ==>
        Begun(old(store.file), store.led, Cancel, now) && (up ==> TermSent(store.led, now, answer))
      // ... and leaves a stop in flight, of either intent, alone.
      ensures Stopping(old(store.file)) ==> store.file == old(store.file)
    {
      if isWheel {
        var died := Await(store);
        if died {
          return false;
        }
        up := AnswerCancel();
      } else if !store.file.Good? || !store.file.a.core.phase.Started? {
        up := CancelIdle(now, answer);
      } else {
        up := BeginStop(Cancel, now, answer);
      }
    }

    /** `stop` with intent reclaim: a genuine terminal wins, otherwise kill and stay lost. */
    method HandleReclaim(isWheel: bool, now: int, w: World) returns (up: bool)
      requires Valid() && (isWheel ==> store.file.Good? && store.file.a.core.runner.Wheel?)
      requires Last(store.led) == Some(StopCommand(Reclaim, now))
      modifies store, events
      ensures Valid() && old(store.hist) <= store.hist && Followed(old(store.led), store.led)
      ensures events.durable && !up ==> !Unharmed(old(store.led), store.led)
      ensures !old(store.file).Good? ==> store.file == old(store.file) && store.hist == old(store.hist)
      // No revival once the attempt is wrapped up locally; the record is announced again.
      ensures old(store.file).Good? && !isWheel && !old(store.file).a.core.phase.Started? ==>
        Unmoved(old(store.file), store.file)
      ensures up && old(store.file).Good? && !isWheel && old(store.file).a.core.phase.Done? ==>
        Announced(old(store.file), w.jobs, old(store.led).talk.emitted, store.led.talk.emitted)
      // A running attempt that has ended is recorded as ended; else the reclaim is on disk and TERM sent.
      ensures up && !isWheel && Unstopped(old(store.file)) ==>
        EndedOrReclaimed(old(store.file), w, now, old(store.led).talk.emitted)
      ensures up && isWheel ==> store.file.Good? && store.file.a.core.result == Some(Lost)
      // A stop in flight owns the terminal: nothing moves, nothing is emitted.
      ensures Stopping(old(store.file)) ==> store.file == old(store.file) && store.hist == old(store.hist)
    {
      if !store.file.Good? {
        return true;
      }
      if isWheel {
        var died := Await(store);
        if died {
          return false;
        }
        store.MarkDone(Lost, None, None);
        return true;
      }
      if !store.file.a.core.phase.Started? {
        up := true;
        if store.file.a.core.result.Some? {
          up := RepublishCurrent(w.jobs);
        }
        return;
      }
      if store.file.a.core.stopRequestedAt.Some? {
        return true;
      }
      up := ReclaimRunning(now, w);
    }

    /** Whether it has ended is asked before any signal goes out: later our own stop would show. */
    method ReclaimRunning(now: int, w: World) returns (up: bool)
      requires Valid() && store.file.Good? && store.file.a.core.phase.Started? &&
        store.file.a.core.stopRequestedAt.None?
      requires Last(store.led) == Some(StopCommand(Reclaim, now))
      modifies store, events
      ensures Valid() && old(store.hist) <= store.hist && Followed(old(store.led), store.led)
      ensures events.durable && !up ==> !Unharmed(old(store.led), store.led)
      ensures up ==> EndedOrReclaimed(old(store.file), w, now, old(store.led).talk.emitted)
    {
      var s := store.file.a;
      var status, died := runner.CurrentStatus(w.jobs);
      if died {
        return false;
      }
      if status.Left? {
        up := FinishScrapyAttempt(s, status.terminal);
        return;
      }
      up := BeginStop(Reclaim, now, w.cancel);
    }

    /** A genuine end wins; without one the reclaim is on disk, the job owed and TERM sent. */
    ghost predicate EndedOrReclaimed(f: File, w: World, now: int, before: seq<Event>)
      requires f.Good?
      reads store
    {
      if w.jobs == Unlisted(true) then Watched(f.a, f.a.flags.logFlood, w.jobs, before)
      else
        && Begun(f, store.led, Reclaim, now) && TermSent(store.led, now, w.cancel)
        && store.led.talk.emitted == before
    }

    /** `stop`: the branch is on the local record's runner, not on the command. */
    method HandleStop(intent: Intent, now: int, w: World) returns (up: bool)
      requires Valid() && Last(store.led) == Some(StopCommand(intent, now)) &&
        (intent.Cancel? ==> !store.led.reclaimOpen)
      modifies store, events
      ensures Valid() && old(store.hist) <= store.hist && Followed(old(store.led), store.led)
      ensures events.durable && !up ==> !Unharmed(old(store.led), store.led)
      ensures Stopping(old(store.file)) ==> store.file == old(store.file)
      ensures up && intent.Cancel? ==> CancelTaken(old(store.file), now, w)
      ensures up && intent.Reclaim? ==> ReclaimTaken(old(store.file), now, w, old(store.led).talk.emitted)
      ensures intent.Cancel? && Running(old(store.file)) ==> Begun(old(store.file), store.led, Cancel, now)
    {
      var isWheel := store.file.Good? && store.file.a.core.runner.Wheel? && cfg.wheelRunner;
      if intent.Cancel? {
        up := HandleCancel(isWheel, now, w.cancel);
      } else {
        up := HandleReclaim(isWheel, now, w);
      }
    }

    /** A cancel command was answered, recorded with TERM sent, or found a stop in flight. */
    ghost predicate CancelTaken(f: File, now: int, w: World)
      reads store
    {
      if f.Good? && f.a.core.phase.Started? then
        Running(f) ==> Begun(f, store.led, Cancel, now) && TermSent(store.led, now, w.cancel)
      else store.led.handed
    }

    /** A reclaim command found nothing, announced the end it found, or began. */
    ghost predicate ReclaimTaken(f: File, now: int, w: World, before: seq<Event>)
      reads store
    {
      && (!f.Good? ==> store.file == f && store.led.talk.emitted == before)
      && (f.Good? && f.a.core.phase.Done? && f.a.core.runner.Scrapy? ==>
            Unmoved(f, store.file) && Announced(f, w.jobs, before, store.led.talk.emitted))
      && (Running(f) ==> EndedOrReclaimed(f, w, now, before))
    }

    /** True while a stop, a reclamation or a terminal is outstanding. */
    predicate CleanupMustWait(a: Attempt) {
      (a.core.phase.Started? && a.core.stopRequestedAt.Some?) || a.core.killPending || a.core.terminalPending
    }

    /** `cleanup_logs`: deferred durably while anything is outstanding, never dropped. */
    method HandleCleanup(cleaned: bool) returns (up: bool)
      requires Valid()
      modifies store
      ensures Valid() && old(store.hist) <= store.hist && store.led.talk == old(store.led).talk
      ensures old(store.file).Good? && CleanupMustWait(old(store.file).a) ==>
        store.file == Good(old(store.file).a.(core := old(store.file).a.core.(cleanupPending := true)))
      ensures up && !(old(store.file).Good? && CleanupMustWait(old(store.file).a)) ==> store.file.Absent?
      ensures !up ==> store.file == old(store.file) && !cleaned
    {
      if store.file.Good? && CleanupMustWait(store.file.a) {
        store.MarkCleanupPending();
        return true;
      }
      up := DoCleanup(cleaned);
    }

    /** The background waiter of an in-process wheel child. */
    method WheelExited(verdict: Event) returns (up: bool)
      requires Valid() && verdict in {Finished, Failed, Canceled}
      requires store.file.Good? ==> store.file.a.core.runner.Wheel?
      modifies store, events
      ensures Valid() && old(store.hist) <= store.hist && Followed(old(store.led), store.led)
      ensures events.durable && !up ==> !Unharmed(old(store.led), store.led)
      ensures old(store.file).Good? && old(store.file).a.core.phase.Done? ==>
        store.file == old(store.file) && store.hist == old(store.hist)
      ensures up && old(store.file).Good? ==> store.file.Good? && store.file.a.core.phase.Done?
    {
      if !store.file.Good? || store.file.a.core.phase.Done? {
        return true;
      }
      store.MarkDone(verdict, None, None);
      up := Emit(verdict);
    }

    /** The publisher's replay, at the top of every pass of the loop. */
    method Replay() returns (drained: bool)
      requires Valid()
      modifies store, events
      ensures Valid() && old(store.hist) <= store.hist && store.file == old(store.file)
      ensures Quietly(old(store.led), store.led)
      ensures drained ==> events.outbox == map[]
      ensures events.faults > old(events.faults) ==> !Unharmed(old(store.led), store.led)
    {
      ghost var before := events.faults;
      drained := events.ReplayOutbox();
      if events.faults > before {
        store.Fault();
      }
    }

    /**
     Boot recovery: replay the outbox, fail reserved orphans, lose wheel orphans.
     It needs Redis to begin with; if it fails, the loop starts without it.
     */
    method Recover() returns (up: bool)
      requires Valid()
      modifies store, events
      ensures Valid() && old(store.hist) <= store.hist && Followed(old(store.led), store.led)
      ensures up ==> !(store.file.Good? && store.file.a.core.phase.Reserved?)
      ensures up ==> !(store.file.Good? && store.file.a.core.phase.Started? && store.file.a.core.runner.Wheel?)
      // A recorded stop, and all it owes, survives the restart untouched.
      ensures (var was := old(store.file); was.Good? && was.a.core.runner.Scrapy? && !was.a.core.phase.Reserved?) ==>
        store.file == old(store.file) && Quietly(old(store.led), store.led)
    {
      var ready: bool := *;
      if !ready {
        return false;
      }
      var drained := Replay();
      up := true;
      if store.file.Good? && store.file.a.core.phase.Reserved? {
        up := FailOrphan();
      }
      if up && store.file.Good? && store.file.a.core.runner.Wheel? && store.file.a.core.phase.Started? {
        up := LoseWheel();
      }
    }

    /** Reported first, then recorded: a crash between the two reports it again. */
    method FailOrphan() returns (up: bool)
      requires Valid() && store.file.Good? && store.file.a.core.phase.Reserved?
      modifies store, events
      ensures Valid() && old(store.hist) <= store.hist && Followed(old(store.led), store.led)
      ensures up ==> store.file.Good? && store.file.a.core.phase.Done?
    {
      up := Emit(Failed);
      if up {
        store.MarkDone(Failed, None, None);
      }
    }

    method LoseWheel() returns (up: bool)
      requires Valid() && store.file.Good? && store.file.a.core.phase.Started? && store.file.a.core.runner.Wheel?
      modifies store, events
      ensures Valid() && old(store.hist) <= store.hist && Followed(old(store.led), store.led)
      ensures store.file.Good? && store.file.a.core.phase.Done?
    {
      store.MarkDone(Lost, None, None);
      up := Emit(Lost);
    }

    // ---- any run ---------------------------------------------------------------------

    /** What one input is bound to achieve, if it completes. */
    ghost predicate Achieved(i: Input, w: World, f: File, before: seq<Event>)
      reads store
    {
      match i
      case Tick(size, now) => TickDelivered(f, size, now, w, before)
      case RunCommand(task, ok, jobId) =>
        if f.Absent? then
          && StartedOr(RunsWell(ok, w), jobId, store.led, before + [Accepted])
          && store.file.Good? && store.file.a.core.runner == task
        else Unmoved(f, store.file) && Announced(f, w.jobs, before, store.led.talk.emitted)
      case StopCommand(intent, now) =>
        if intent.Cancel? then CancelTaken(f, now, w) else ReclaimTaken(f, now, w, before)
      case StopLogsCommand => f.Good? ==> store.file == Good(f.a.(flags := f.a.flags.(logCapped := true)))
      case CleanupCommand =>
        if f.Good? && CleanupMustWait(f.a) then store.file.Good? && store.file.a.core.cleanupPending
        else store.file.Absent?
      case WheelExit(verdict) => f.Good? && f.a.core.runner.Wheel? && verdict in {Finished, Failed, Canceled} ==>
        store.file.Good? && store.file.a.core.phase.Done?
      case Restart => !(store.file.Good? && store.file.a.core.phase.Reserved?)
      case _ => true
    }

    /** One thing taken on.  Only a fault keeps a tick or a stop command from completing. */
    method Process(i: Input, w: World) returns (up: bool)
      requires Valid()
      modifies store, events
      ensures Valid() && old(store.hist) + [Received(i)] <= store.hist
      ensures store.led.talk.inputs == old(store.led).talk.inputs + [i]
      ensures up ==> Achieved(i, w, old(store.file), old(store.led).talk.emitted)
      ensures events.durable && !up ==>
        !Unharmed(old(store.led), store.led) || (i.CleanupCommand? && !w.cleaned) || i.ReplayOutbox? || i.Restart?
    {
      store.Record(Received(i));
      match i {
        case Tick(size, now) => up := DoTick(size, now, w);
        case RunCommand(task, ok, jobId) => up := HandleRun(task, ok, jobId, w);
        case StopCommand(intent, now) => up := HandleStop(intent, now, w);
        case CleanupCommand => up := HandleCleanup(w.cleaned);
        case StopLogsCommand =>
          store.MarkLogCapped();
          up := true;
        case WheelExit(verdict) =>
          up := true;
          if store.file.Good? && store.file.a.core.runner.Wheel? && verdict in {Finished, Failed, Canceled} {
            up := WheelExited(verdict);
          }
        case ReplayOutbox => up := Replay();
        case Restart => up := Recover();
      }
    }

    method TakeOn(i: Input, w: World)
      requires Valid()
      modifies store, events
      ensures Valid() && old(store.hist) <= store.hist
      ensures store.led.talk.inputs == old(store.led).talk.inputs + [i]
    {
      var _ := Process(i, w);
    }

    /**
     Any run: ticks, commands in any order and number, faults and restarts anywhere.
     The history takes on every input, in order, and stays legal and disciplined, so
     every theorem of AttemptHistory and SignalHistory speaks about it.
     */
    method Serve(inputs: seq<Input>, worlds: seq<World>)
      requires Valid() && |worlds| == |inputs|
      modifies store, events
      ensures Valid() && old(store.hist) <= store.hist
      ensures Legal(store.hist) && Paced(store.pace, store.hist) && LedgerOf(store.hist).file == store.file
      ensures LedgerOf(store.hist).talk.inputs == old(store.led).talk.inputs + inputs
    {
      for k := 0 to |inputs|
        invariant Valid() && old(store.hist) <= store.hist
        invariant store.led.talk.inputs == old(store.led).talk.inputs + inputs[..k]
      {
        TakeOn(inputs[k], worlds[k]);
        assert inputs[..k+1] == inputs[..k] + [inputs[k]];
      }
      assert inputs[..|inputs|] == inputs;
    }
  }
}
