/**
 The state store of one execution: every `Mark`/`Clear` reads the record, assigns
 fields and replaces the file in one atomic durable step.  A missing or torn file
 reads as no state, and then nothing is written.
 */
module StateStores {
  import opened Prelude
  import opened Events
  import opened AttemptHistory

  /** What `MarkDone` writes: terminal, kill_pending and terminal_pending together. */
  function DoneCore(c: Core, result: Event, kill: Option<bool>, terminal: Option<bool>): Core {
    c.(phase := Done,
       result := Some(result),
       killPending := if kill.Some? then kill.value else c.killPending,
       terminalPending := if terminal.Some? then terminal.value else c.terminalPending)
  }

  function DoneRecord(a: Attempt, result: Event, kill: Option<bool>, terminal: Option<bool>): Attempt {
    Attempt(DoneCore(a.core, result, kill, terminal), a.flags.(canceled := a.flags.canceled || result.Canceled?))
  }

  function ReservedRecord(runner: Runner): Attempt {
    Attempt(Core(runner, Reserved, "", None, None, None, None, false, false, None, false),
            Flags(false, false, None, None, false))
  }

  function FloodFlags(f: Flags, at: int, escalation: Option<Signal>): Flags {
    f.(logFlood := true,
       logFloodAt := if f.logFloodAt.None? then Some(at) else f.logFloodAt,
       logFloodEscalation := if escalation.Some? then escalation else f.logFloodEscalation)
  }

  class StateStore {
    const pace: Pace
    var file: File
    ghost var hist: seq<Obs>
    ghost var led: Ledger

    ghost predicate Valid()
      reads this
    {
      Legal(hist) && Paced(pace, hist) && led == LedgerOf(hist) && led.file == file && Inv(led)
    }

    constructor (pace: Pace)
      ensures Valid() && this.pace == pace && file == Absent && hist == [] && led == START
    {
      this.pace := pace;
      file, hist, led := Absent, [], START;
    }

    /** Appends one observation to the history. */
    ghost method Record(o: Obs)
      requires Legal(hist) && Paced(pace, hist) && led == LedgerOf(hist) && Allowed(led, o) && Disciplined(pace, led, o)
      modifies this`hist, this`led
      ensures Legal(hist) && Paced(pace, hist) && led == LedgerOf(hist)
      ensures hist == old(hist) + [o] && led == Advance(old(led), o)
    {
      Extend(hist, o);
      ExtendPaced(pace, hist, o);
      hist, led := hist + [o], Advance(led, o);
    }

    /** The process is gone, or an exception goes where nothing handles it. */
    ghost method Fault()
      requires Valid()
      modifies this`hist, this`led
      ensures Valid() && old(hist) <= hist
      ensures led ==
        old(led).(talk := old(led).talk.(faults := old(led).talk.faults + 1), wire := old(led).wire.(unstamped := None))
    {
      Record(Obs.Fault);
    }

    /** The one atomic replacement every update goes through. */
    method Write(a: Attempt)
      requires Valid() && Allowed(led, Wrote(file, a)) && Orderly(led, file, a) && Inv(Advance(led, Wrote(file, a)))
      modifies this
      ensures Valid() && file == Good(a)
      ensures hist == old(hist) + [Wrote(old(file), a)] && led == Advance(old(led), Wrote(old(file), a))
    {
      Record(Wrote(file, a));
      file := Good(a);
    }

    /** O_CREAT|O_EXCL: false when a file, even a torn one, already exists. */
    method CreateReserved(runner: Runner) returns (created: bool, died: bool)
      requires Valid() && led.wire.unstamped.None?
      modifies this
      ensures Valid() && created == (old(file).Absent? && !died)
      ensures created ==> file == Good(ReservedRecord(runner))
      ensures !old(file).Absent? ==> file == old(file) && !died
      ensures died ==> !file.Good? && !Unharmed(old(led), led)
      ensures Quietly(old(led), led) && led.wire.unstamped.None?
      ensures old(hist) <= hist
    {
      if !file.Absent? {
        return false, false;
      }
      died := *;
      if died {
        var torn: bool := *;
        if torn {
          Record(TornWrite);
          file := Torn;
        }
        Fault();
        return false, true;
      }
      Write(ReservedRecord(runner));
      return true, false;
    }

    method PromoteStarted(jobId: string)
      requires Valid() && led.owed.None? && led.wire.unstamped.None?
      requires file.Good? ==> file.a.core.phase.Reserved?
      modifies this
      ensures Valid() && old(hist) <= hist
      ensures file ==
        if old(file).Good? then Good(old(file).a.(core := old(file).a.core.(phase := Started, jobId := jobId)))
        else old(file)
      ensures led == old(led).(file := file)
    {
      if file.Good? {
        Write(file.a.(core := file.a.core.(phase := Started, jobId := jobId)));
      }
    }

    /**
     Records a terminal.  The requirements are what keeps the process tracked and the
     terminal owed: a job still owed keeps `kill_pending`, a settled cancel keeps
     `terminal_pending` until `canceled` is handed over, a reclaim records `lost`.
     */
    method MarkDone(result: Event, kill: Option<bool>, terminal: Option<bool>)
      requires Valid() && result in {Finished, Failed, Canceled, Lost} && led.wire.unstamped.None?
      requires file.Good? ==>
        var post := DoneRecord(file.a, result, kill, terminal);
        && (led.owed.Some? ==> post.core.killPending)
        && (led.reclaimOpen ==> result.Lost?)
        && (CancelSettled(post) ==> post.core.terminalPending || led.handed)
        && (post.core.terminalPending ==> CancelSettled(post) && result.Canceled?)
      modifies this
      ensures Valid() && old(hist) <= hist
      ensures file == if old(file).Good? then Good(DoneRecord(old(file).a, result, kill, terminal)) else old(file)
      ensures led == old(led).(file := file)
    {
      if file.Good? {
        Write(DoneRecord(file.a, result, kill, terminal));
      }
    }

    /** Persists a stop intent before any network call. */
    method MarkStopRequested(intent: Intent, at: int)
      requires Valid() && file.Good? && file.a.core.phase.Started? && file.a.core.stopRequestedAt.None? &&
        led.wire.unstamped.None?
      modifies this
      ensures Valid() && old(hist) <= hist
      ensures file == Good(old(file).a.(core := old(file).a.core.(stopIntent := Some(intent),
        stopRequestedAt := Some(at), stopEscalation := None)))
      ensures led == (if file.a.core.runner.Scrapy?
        then old(led).(file := file, owed := Some(file.a.core.jobId), handed := false, reclaimOpen := intent.Reclaim?)
        else old(led).(file := file))
    {
      Write(file.a.(core := file.a.core.(stopIntent := Some(intent), stopRequestedAt := Some(at),
        stopEscalation := None)));
    }

    /** Only an escalation that scrapyd acknowledged is recorded. */
    method MarkStopEscalation(signal: Signal)
      requires Valid()
      requires file.Good? ==> !file.a.core.phase.Reserved? && led.wire.acked == Some((signal, file.a.core.jobId))
      modifies this
      ensures Valid() && old(hist) <= hist
      ensures led == old(led).(file := file, wire := led.wire)
      ensures led.wire == old(led.wire).(unstamped := led.wire.unstamped)
      ensures Restamped(old(led.wire.unstamped), led.wire.unstamped, file)
      ensures file ==
        if old(file).Good? then Good(old(file).a.(core := old(file).a.core.(stopEscalation := Some(signal))))
        else old(file)
    {
      if file.Good? {
        Write(file.a.(core := file.a.core.(stopEscalation := Some(signal))));
      }
    }

    method MarkCleanupPending()
      requires Valid() && led.wire.unstamped.None?
      modifies this
      ensures Valid() && old(hist) <= hist && led == old(led).(file := file)
      ensures file == if old(file).Good? then Good(old(file).a.(core := old(file).a.core.(cleanupPending := true)))
        else old(file)
    {
      if file.Good? {
        Write(file.a.(core := file.a.core.(cleanupPending := true)));
      }
    }

    /** The time of the KILL just sent. */
    method MarkKillAttempt(at: int)
      requires Valid()
      requires file.Good? ==>
        led.wire.unstamped == Some(at) || (led.wire.unstamped.None? && file.a.core.killLastAttemptAt == Some(at))
      modifies this
      ensures Valid() && old(hist) <= hist
      ensures file.Good? ==> led == old(led).(file := file, wire := old(led).wire.(unstamped := None))
      ensures file ==
        if old(file).Good? then Good(old(file).a.(core := old(file).a.core.(killLastAttemptAt := Some(at))))
        else old(file)
      ensures !file.Good? ==> led == old(led)
    {
      if file.Good? {
        Write(file.a.(core := file.a.core.(killLastAttemptAt := Some(at))));
      }
    }

    method ClearKillPending()
      requires Valid() && led.owed.None? && led.wire.unstamped.None?
      modifies this
      ensures Valid() && old(hist) <= hist && led == old(led).(file := file)
      ensures file == if old(file).Good? then Good(old(file).a.(core := old(file).a.core.(killPending := false)))
        else old(file)
    {
      if file.Good? {
        Write(file.a.(core := file.a.core.(killPending := false)));
      }
    }

    method ClearTerminalPending()
      requires Valid() && led.handed && led.wire.unstamped.None?
      modifies this
      ensures Valid() && old(hist) <= hist && led == old(led).(file := file)
      ensures file == if old(file).Good? then Good(old(file).a.(core := old(file).a.core.(terminalPending := false)))
        else old(file)
    {
      if file.Good? {
        Write(file.a.(core := file.a.core.(terminalPending := false)));
      }
    }

    method MarkCanceled()
      requires Valid()
      modifies this
      ensures Valid() && old(hist) <= hist && led == old(led).(file := file, wire := led.wire)
      ensures led.wire == old(led.wire).(unstamped := led.wire.unstamped)
      ensures Restamped(old(led.wire.unstamped), led.wire.unstamped, file)
      ensures file == if old(file).Good? then Good(old(file).a.(flags := old(file).a.flags.(canceled := true)))
        else old(file)
    {
      if file.Good? && !file.a.flags.canceled {
        Write(file.a.(flags := file.a.flags.(canceled := true)));
      }
    }

    method MarkLogFlood(at: int, escalation: Option<Signal>)
      requires Valid() && led.wire.unstamped.None?
      modifies this
      ensures Valid() && old(hist) <= hist && led == old(led).(file := file)
      ensures file == if old(file).Good? then Good(old(file).a.(flags := FloodFlags(old(file).a.flags, at, escalation)))
        else old(file)
    {
      if file.Good? {
        Write(file.a.(flags := FloodFlags(file.a.flags, at, escalation)));
      }
    }

    method MarkLogCapped()
      requires Valid()
      modifies this
      ensures Valid() && old(hist) <= hist && led == old(led).(file := file, wire := led.wire)
      ensures led.wire == old(led.wire).(unstamped := led.wire.unstamped)
      ensures Restamped(old(led.wire.unstamped), led.wire.unstamped, file)
      ensures file == if old(file).Good? then Good(old(file).a.(flags := old(file).a.flags.(logCapped := true)))
        else old(file)
    {
      if file.Good? && !file.a.flags.logCapped {
        Write(file.a.(flags := file.a.flags.(logCapped := true)));
      }
    }

    /** Unlinks the state file; the job id goes with it. */
    method Delete()
      requires Valid() && led.owed.None?
      requires file.Good? && file.a.core.runner.Scrapy? && file.a.core.stopIntent == Some(Cancel) ==> led.handed
      modifies this
      ensures Valid() && file == Absent && old(hist) <= hist
      ensures led == if old(file).Absent? then old(led)
        else old(led).(file := Absent, reclaimOpen := false, scheduled := false)
    {
      if !file.Absent? {
        Record(Deleted(file));
        file := Absent;
      }
    }
  }

  /** A time still to be recorded is still that, or turned out to be on disk already. */
  ghost predicate Restamped(was: Option<int>, now: Option<int>, f: File) {
    now == was || (now.None? && f.Good? && f.a.core.killLastAttemptAt == was)
  }
}
