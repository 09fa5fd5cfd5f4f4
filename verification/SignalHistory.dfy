/** What a disciplined history promises about the signals sent to scrapyd. */
module SignalHistory {
  import opened Prelude
  import opened Events
  import opened AttemptHistory

  /** A stop is on disk, and was not before. */
  ghost predicate RecordsStop(o: Obs) {
    o.Wrote? && StopRecorded(Good(o.post)) && !StopRecorded(o.pre)
  }

  lemma StopIsNotNew(p: Pace, l: Ledger, o: Obs)
    requires Allowed(l, o) && Disciplined(p, l, o) && StopRecorded(Advance(l, o).file) && !RecordsStop(o)
    ensures StopRecorded(l.file) && SameStop(l.file.a, Advance(l, o).file.a) && !o.Deleted?
  {
  }

  /** A stop on disk was written at some point of this very life. */
  lemma {:induction false} StopWasRecorded(p: Pace, h: seq<Obs>, j: nat) returns (i: nat)
    requires Legal(h) && Paced(p, h) && j <= |h| && StopRecorded(LedgerOf(h[..j]).file)
    ensures i < j && RecordsStop(h[i]) && SameLife(h, i, j) && SameStop(h[i].post, LedgerOf(h[..j]).file.a)
  {
    assert h[..0] == [];
    LedgerStep(h, j - 1);
    assert AllowedAt(h, j - 1) && PacedAt(p, h, j - 1);
    if RecordsStop(h[j-1]) {
      i := j - 1;
    } else {
      StopIsNotNew(p, LedgerOf(h[..j-1]), h[j-1]);
      i := StopWasRecorded(p, h, j - 1);
    }
  }

  /** Neither a flood nor a cancel that finds nothing running. */
  ghost predicate ForTheStop(l: Ledger) {
    && l.file.Good? && !l.file.a.flags.logFlood && l.talk.inputs != []
    && (IsCancel(l.talk.inputs[|l.talk.inputs|-1]) ==> l.file.a.core.phase.Started?)
  }

  /** The intent is on disk before any signal of a stop goes out, and before any of its pursuit. */
  lemma IntentBeforeSignal(p: Pace, h: seq<Obs>, j: nat) returns (i: nat)
    requires Legal(h) && Paced(p, h) && j < |h| && h[j].Signalled? && ForTheStop(LedgerOf(h[..j]))
    requires LedgerOf(h[..j]).file.a.core.phase.Started?
    ensures i < j && RecordsStop(h[i]) && SameLife(h, i, j)
  {
    assert PacedAt(p, h, j);
    i := StopWasRecorded(p, h, j);
  }

  // ---------------------------------------------------------------- what a handler says it sent

  lemma ShotIsNotNew(l: Ledger, o: Obs)
    requires !o.Signalled? && Advance(l, o).wire.sent.Some?
    ensures l.wire.sent == Advance(l, o).wire.sent && !o.Received?
  {
  }

  /** The signal in the ledger went out while the last input was handled. */
  lemma {:induction false} SignalWasSent(h: seq<Obs>, j: nat) returns (i: nat)
    requires j <= |h| && LedgerOf(h[..j]).wire.sent.Some?
    ensures var shot := LedgerOf(h[..j]).wire.sent.value;
      i < j && h[i] == Signalled(shot.signal, shot.job, shot.at) && forall k | i < k < j :: !h[k].Received?
  {
    assert h[..0] == [];
    LedgerStep(h, j - 1);
    if h[j-1].Signalled? {
      i := j - 1;
    } else {
      ShotIsNotNew(LedgerOf(h[..j-1]), h[j-1]);
      i := SignalWasSent(h, j - 1);
    }
  }

  // ---------------------------------------------------------------- KILL after TERM

  lemma AckIsNotNew(l: Ledger, o: Obs)
    requires !o.Acked? && Advance(l, o).wire.acked.Some?
    ensures l.wire.acked == Advance(l, o).wire.acked
  {
  }

  /** The acknowledgement in the ledger was given by this job since the last input. */
  lemma {:induction false} AckWasGiven(h: seq<Obs>, j: nat) returns (i: nat)
    requires j <= |h| && LedgerOf(h[..j]).wire.acked.Some?
    ensures var ack := LedgerOf(h[..j]).wire.acked.value;
      i < j && h[i] == Acked(ack.0, ack.1)
  {
    assert h[..0] == [];
    LedgerStep(h, j - 1);
    if h[j-1].Acked? {
      i := j - 1;
    } else {
      AckIsNotNew(LedgerOf(h[..j-1]), h[j-1]);
      i := AckWasGiven(h, j - 1);
    }
  }

  /** A recorded escalation was acknowledged by scrapyd for this very job. */
  lemma {:induction false} EscalationWasAcked(p: Pace, h: seq<Obs>, j: nat) returns (i: nat)
    requires Legal(h) && Paced(p, h) && j <= |h| && LedgerOf(h[..j]).file.Good?
    requires LedgerOf(h[..j]).file.a.core.stopEscalation.Some?
    ensures i < j
    ensures var a := LedgerOf(h[..j]).file.a; h[i] == Acked(a.core.stopEscalation.value, a.core.jobId)
  {
    assert h[..0] == [];
    LedgerStep(h, j - 1);
    assert AllowedAt(h, j - 1) && PacedAt(p, h, j - 1);
    if Escalates(h[j-1]) {
      i := AckWasGiven(h, j - 1);
    } else {
      EscalationIsNotNew(p, LedgerOf(h[..j-1]), h[j-1]);
      i := EscalationWasAcked(p, h, j - 1);
    }
  }

  ghost predicate Escalates(o: Obs) {
    o.Wrote? && o.pre.Good? && o.post.core.stopEscalation != o.pre.a.core.stopEscalation
  }

  lemma EscalationIsNotNew(p: Pace, l: Ledger, o: Obs)
    requires Allowed(l, o) && Disciplined(p, l, o) && !Escalates(o)
    requires Advance(l, o).file.Good? && Advance(l, o).file.a.core.stopEscalation.Some?
    ensures l.file.Good? && l.file.a.core.stopEscalation == Advance(l, o).file.a.core.stopEscalation
    ensures l.file.a.core.jobId == Advance(l, o).file.a.core.jobId
  {
  }

  /**
   KILL follows an acknowledged TERM of the same job, and the grace period of the
   stop on disk.
   */
  lemma KillFollowsTerm(p: Pace, h: seq<Obs>, j: nat) returns (i: nat)
    requires Legal(h) && Paced(p, h) && j < |h| && h[j].Signalled? && h[j].signal == Kill
    requires ForTheStop(LedgerOf(h[..j])) && LedgerOf(h[..j]).file.a.core.phase.Started?
    ensures i < j && h[i] == Acked(Term, h[j].job)
    ensures var a := LedgerOf(h[..j]).file.a;
      StopRecorded(Good(a)) && h[j].at - a.core.stopRequestedAt.value >= p.killAfter
  {
    assert PacedAt(p, h, j);
    i := EscalationWasAcked(p, h, j);
  }

  // ---------------------------------------------------------------- re-sent KILLs

  ghost predicate Resent(h: seq<Obs>, i: nat)
    requires i < |h|
  {
    h[i].Signalled? && Pursuing(LedgerOf(h[..i]))
  }

  /** Nothing failed for good from `i` on, and the record lives. */
  ghost predicate Smooth(h: seq<Obs>, i: nat, j: nat)
    requires i <= j <= |h|
  {
    forall k | i < k < j :: !h[k].Fault? && !h[k].Deleted?
  }

  /** The time of a re-sent KILL is on disk, or about to be, and only moves forward. */
  ghost predicate Stamped(l: Ledger, at: int) {
    && l.file.Good? && l.file.a.core.phase.Done?
    && ((l.wire.unstamped.Some? && l.wire.unstamped.value >= at)
        || (l.wire.unstamped.None? && l.file.a.core.killLastAttemptAt.Some? &&
          l.file.a.core.killLastAttemptAt.value >= at))
  }

  lemma StampedAtFirst(p: Pace, l: Ledger, o: Obs)
    requires Disciplined(p, l, o) && o.Signalled? && Pursuing(l)
    ensures Stamped(Advance(l, o), o.at)
  {
  }

  lemma StampedStays(p: Pace, l: Ledger, o: Obs, at: int)
    requires Allowed(l, o) && Disciplined(p, l, o) && Stamped(l, at) && !o.Fault? && !o.Deleted?
    requires p.retryEvery > 0
    ensures Stamped(Advance(l, o), at)
  {
  }

  lemma {:induction false} StampedUntil(p: Pace, h: seq<Obs>, i: nat, j: nat)
    requires Legal(h) && Paced(p, h) && p.retryEvery > 0 && i < j <= |h| && Resent(h, i) && Smooth(h, i, j)
    ensures Stamped(LedgerOf(h[..j]), h[i].at)
  {
    LedgerStep(h, j - 1);
    assert AllowedAt(h, j - 1) && PacedAt(p, h, j - 1);
    if j == i + 1 {
      StampedAtFirst(p, LedgerOf(h[..i]), h[i]);
    } else {
      StampedUntil(p, h, i, j - 1);
      StampedStays(p, LedgerOf(h[..j-1]), h[j-1], h[i].at);
    }
  }

  /**
   A process that outlived its stop is shot again no more often than the retry
   interval, unless the process died between a KILL and its stamp.
   */
  lemma ResentKillsArePaced(p: Pace, h: seq<Obs>, i: nat, j: nat)
    requires Legal(h) && Paced(p, h) && p.retryEvery > 0 && i < j < |h| && Resent(h, i) && Resent(h, j) &&
      Smooth(h, i, j)
    ensures h[i].signal == h[j].signal == Kill && h[j].at - h[i].at >= p.retryEvery
  {
    StampedUntil(p, h, i, j);
    assert PacedAt(p, h, i) && PacedAt(p, h, j);
  }

  // ---------------------------------------------------------------- reclaims of wrapped-up attempts

  ghost predicate WrappedUp(f: File) { f.Good? && f.a.core.phase.Done? }

  /** The attempt is wrapped up, and `input` is the last thing taken on. */
  ghost predicate Handling(l: Ledger, input: Input) {
    WrappedUp(l.file) && l.talk.inputs != [] && l.talk.inputs[|l.talk.inputs|-1] == input
  }

  lemma HandlingStarts(l: Ledger, o: Obs)
    requires o.Received? && WrappedUp(l.file)
    ensures Handling(Advance(l, o), o.input)
  {
  }

  lemma HandlingGoesOn(p: Pace, l: Ledger, o: Obs, input: Input)
    requires Allowed(l, o) && Disciplined(p, l, o)
    requires Handling(l, input) && !o.Received? && !o.Deleted?
    ensures Handling(Advance(l, o), input)
  {
  }

  lemma {:induction false} StillHandling(p: Pace, h: seq<Obs>, i: nat, j: nat)
    requires Legal(h) && Paced(p, h) && i < j <= |h| && h[i].Received? && WrappedUp(LedgerOf(h[..i]).file)
    requires forall k | i < k < j :: !h[k].Received? && !h[k].Deleted?
    ensures Handling(LedgerOf(h[..j]), h[i].input)
  {
    if j == i + 1 {
      LedgerStep(h, i);
      HandlingStarts(LedgerOf(h[..i]), h[i]);
    } else {
      StillHandling(p, h, i, j - 1);
      HandlingStep(p, h, j - 1, h[i].input);
    }
  }

  lemma HandlingStep(p: Pace, h: seq<Obs>, k: nat, input: Input)
    requires Legal(h) && Paced(p, h) && k < |h| && !h[k].Received? && !h[k].Deleted?
    requires Handling(LedgerOf(h[..k]), input)
    ensures Handling(LedgerOf(h[..k+1]), input)
  {
    LedgerStep(h, k);
    assert AllowedAt(h, k) && PacedAt(p, h, k);
    HandlingGoesOn(p, LedgerOf(h[..k]), h[k], input);
  }

  /** A reclaim of a wrapped-up attempt signals nothing. */
  lemma ReclaimOfWrappedUpIsQuiet(p: Pace, h: seq<Obs>, i: nat, j: nat)
    requires Legal(h) && Paced(p, h) && i < j < |h| && WrappedUp(LedgerOf(h[..i]).file)
    requires h[i].Received? && h[i].input.StopCommand? && h[i].input.intent.Reclaim?
    requires forall k | i < k < j :: !h[k].Received? && !h[k].Deleted?
    ensures !h[j].Signalled?
  {
    StillHandling(p, h, i, j);
    assert PacedAt(p, h, j);
  }
}
