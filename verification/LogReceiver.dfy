/**
 The server side of log replication: one log increment applied to its row and its
 file, and what any delivery of a log's increments leaves in that file.
 */
module LogReceiver {
  import opened Prelude
  import opened DirGauge

  datatype Status = Active | Finalizing | Complete | Missing | Expired
  datatype Integrity = Whole | Partial | Truncated
  datatype Reason = SizeCap | DirBudget | Maintenance
  datatype Outcome = Appended | DroppedDup | GapPartial | Eof | NoLogFile | TruncatedNow | TruncatedDropped | Sealed
                   | Raised // the write failed: the transaction rolls back and the entry is redelivered

  /** One entry of the log stream. */
  datatype Event = Event(offset: int, content: Bytes, size: int, eof: bool)

  datatype Jump = Jump(expected: int, actual: int)

  datatype Row = Row(status: Status, last: int, size: nat, finalOffset: Option<nat>,
                     integrity: Integrity, reason: Option<Reason>, gaps: nat, firstGap: Option<Jump>)

  /** A row and the body of its file. */
  datatype Log = Log(row: Row, body: Bytes)

  /** What the planner sees of the directory gauge. */
  datatype Room = Room(budget: nat, used: int)

  const FRESH := Row(Active, 0, 0, None, Whole, None, 0, None)

  function Number(n: int): Bytes {
    if n < 0 then Ascii("-") + Decimal(-n) else Decimal(n)
  }

  function GapMarker(expected: int, actual: int): (m: Bytes)
    ensures |m| > 0
  {
    Ascii("\n[dopilot:log-gap expected_offset=") + Number(expected) + Ascii(" actual_offset=") +
      Number(actual) + Ascii("]\n")
  }

  function TruncationMarker(limit: int, reason: Reason): (m: Bytes)
    ensures |m| > 0
  {
    Ascii("\n[dopilot:log-truncated max_bytes=") + Number(limit) + Ascii(" reason=") + ReasonText(reason) + Ascii("]\n")
  }

  function ReasonText(reason: Reason): Bytes {
    match reason
    case SizeCap => Ascii("size-cap")
    case DirBudget => Ascii("dir-budget")
    case Maintenance => Ascii("maintenance")
  }

  // ---------------------------------------------------------------- the plan

  datatype Plan = Plan(bytes: Bytes, cut: Option<Reason>)

  function Fitting(room: Room, n: nat): bool {
    room.budget == 0 || room.used + n <= room.budget
  }

  /** The file cap first, then the directory's admission limit. */
  function PlanWrite(start: nat, payload: Bytes, cap: nat, room: Option<Room>): (p: Plan)
    ensures p.cut == None ==> p.bytes == payload && (cap > 0 ==> start + |payload| <= cap)
    ensures p.cut != Some(Maintenance)
    ensures p.cut == Some(SizeCap) ==> cap > 0 && start + |payload| > cap
    // What is cut, and why, by the lengths alone.
    ensures Short(start, |payload|, cap, room) <==> p.cut == Some(DirBudget)
    ensures Over(start, |payload|, cap) && !Short(start, |payload|, cap, room) <==> p.cut == Some(SizeCap)
    ensures p.cut == Some(SizeCap) ==> p.bytes == payload[..Keep(cap - start)] + TruncationMarker(cap, SizeCap)
    ensures p.cut == Some(DirBudget) ==>
      var marker := TruncationMarker(room.value.budget, DirBudget);
      p.bytes == if room.value.used + |marker| <= room.value.budget then marker else []
    ensures room.Some? && room.value.budget > 0 && p.bytes != [] ==> room.value.used + |p.bytes| <= room.value.budget
  {
    var capped :=
      if cap > 0 && |payload| > cap - start then
        Plan(payload[..Keep(cap - start)] + TruncationMarker(cap, SizeCap), Some(SizeCap))
      else Plan(payload, None);
    if room.Some? && room.value.budget > 0 && !Fitting(room.value, |capped.bytes|) then
      var marker := TruncationMarker(room.value.budget, DirBudget);
      Plan(if Fitting(room.value, |marker|) then marker else [], Some(DirBudget))
    else capped
  }

  /** More than the file cap takes. */
  predicate Over(start: nat, n: nat, cap: nat) { cap > 0 && start + n > cap }

  /** What is to be written, clipped if need be, is more than the directory's budget takes. */
  predicate Short(start: nat, n: nat, cap: nat, room: Option<Room>) {
    && room.Some? && room.value.budget > 0
    && room.value.used + (if Over(start, n, cap) then Keep(cap - start) + |TruncationMarker(cap, SizeCap)| else n)
         > room.value.budget
  }

  function Keep(room: int): nat { if room > 0 then room else 0 }

  // ------------------------------------------------------- one entry, as a function

  /** Whether the entry carries bytes that the row still takes. */
  predicate Takes(row: Row, ev: Event) {
    && !(ev.eof && ev.size == 0)
    && ev.content != []
    && row.status in {Active, Finalizing}
    && ev.offset >= row.last
  }

  predicate Frozen(row: Row, cap: nat, room: Option<Room>) {
    row.integrity == Truncated && (cap > 0 || room.Some?)
  }

  /** The slice, behind a visible marker when it leaves a gap. */
  function Payload(row: Row, ev: Event): Bytes {
    if ev.offset > row.last then GapMarker(row.last, ev.offset) + ev.content else ev.content
  }

  function NoteGap(row: Row, ev: Event): Row {
    if ev.offset > row.last then
      row.(integrity := Partial, gaps := row.gaps + 1,
           firstGap := if row.firstGap == None then Some(Jump(row.last, ev.offset)) else row.firstGap)
    else row
  }

  /** A log after one entry that was fully written. */
  function Receive(log: Log, ev: Event, cap: nat, room: Option<Room>): Log {
    if !Takes(log.row, ev) then log
    else if Frozen(log.row, cap, room) then
      log.(row := log.row.(last := ev.offset + ev.size))
    else
      var plan := PlanWrite(|log.body|, Payload(log.row, ev), cap, room);
      var body := log.body + plan.bytes;
      Log(Moved(NoteGap(log.row, ev), ev, plan.cut, |body|), body)
  }

  /** The row after its entry: the cursor at the entry's end, a cut sticky. */
  function Moved(row: Row, ev: Event, cut: Option<Reason>, size: nat): (next: Row)
    ensures next.gaps == row.gaps && next.last == ev.offset + ev.size
    ensures next.integrity == if cut == None then row.integrity else Truncated
    ensures next.reason == if cut == None then row.reason else cut
    ensures next.size == size && next.finalOffset == Some(size)
  {
    var next := row.(last := ev.offset + ev.size, size := size, finalOffset := Some(size));
    if cut == None then next else next.(integrity := Truncated, reason := cut)
  }

  /** The answer to an entry that was written as planned. */
  function Settled(row: Row, ev: Event, plan: Plan): Outcome {
    if plan.cut.Some? then TruncatedNow else if ev.offset > row.last then GapPartial else Appended
  }

  /** What each answer tells about the step. */
  ghost predicate Explains(outcome: Outcome, was: Row, now: Row, ev: Event, before: Bytes, after: Bytes) {
    match outcome
    case Appended =>
      was.last == ev.offset && after == before + ev.content && now.gaps == was.gaps && Measured(now, after)
    case GapPartial =>
      && was.last < ev.offset && after == before + GapMarker(was.last, ev.offset) + ev.content
      && now.gaps == was.gaps + 1 && Measured(now, after)
    case TruncatedNow => now.integrity == Truncated && now.reason in {Some(SizeCap), Some(DirBudget)} &&
      now.last == ev.offset + ev.size && Measured(now, after)
    case TruncatedDropped => was.integrity == Truncated && after == before && now == was.(last := ev.offset + ev.size)
    case Sealed => was.status !in {Active, Finalizing} && now == was && after == before
    case DroppedDup => (ev.content == [] || ev.offset < was.last) && now == was && after == before
    case Eof => ev.eof && (ev.size == 0 || ev.content == []) && now == was && after == before
    case NoLogFile => false
    case Raised => now == was
  }

  /** The row knows how long the file is. */
  predicate Measured(row: Row, body: Bytes) {
    row.size == |body| && row.finalOffset == Some(|body|)
  }

  /**
   An entry the row takes, once written: whole if it fits cap and budget; clipped at the
   cap, behind a size-cap marker, if that fits the budget; otherwise not at all, but for a
   dir-budget marker if that fits.
   */
  ghost predicate WrittenFor(outcome: Outcome, was: Row, now: Row, ev: Event, before: Bytes, after: Bytes,
                             cap: nat, room: Option<Room>) {
    var gap := ev.offset > was.last;
    var payload := if gap then GapMarker(was.last, ev.offset) + ev.content else ev.content;
    var over := cap > 0 && |before| + |payload| > cap;
    var clipped := if over then payload[..Keep(cap - |before|)] + TruncationMarker(cap, SizeCap) else payload;
    var budgeted := room.Some? && room.value.budget > 0;
    var left := if budgeted then room.value.budget - room.value.used else 0;
    && now.last == ev.offset + ev.size && Measured(now, after)
    && if budgeted && |clipped| > left then
         var marker := TruncationMarker(room.value.budget, DirBudget);
         && outcome == TruncatedNow && now.integrity == Truncated && now.reason == Some(DirBudget)
         && after == before + if |marker| <= left then marker else []
       else if over then
         && outcome == TruncatedNow && now.integrity == Truncated && now.reason == Some(SizeCap)
         && after == before + clipped
       else
         && outcome == (if gap then GapPartial else Appended)
         && now.integrity == (if gap then Partial else was.integrity) && now.reason == was.reason
         && after == before + payload
  }

  lemma SettledIsWritten(row: Row, ev: Event, body: Bytes, cap: nat, room: Option<Room>)
    requires Takes(row, ev)
    ensures var plan := PlanWrite(|body|, Payload(row, ev), cap, room);
      var after := body + plan.bytes;
      WrittenFor(Settled(row, ev, plan), row, Moved(NoteGap(row, ev), ev, plan.cut, |after|), ev,
        body, after, cap, room)
  {
  }

  lemma SettledExplains(row: Row, ev: Event, body: Bytes, cap: nat, room: Option<Room>)
    requires Takes(row, ev)
    ensures var plan := PlanWrite(|body|, Payload(row, ev), cap, room);
      var after := body + plan.bytes;
      Explains(Settled(row, ev, plan), row, Moved(NoteGap(row, ev), ev, plan.cut, |after|), ev, body, after)
  {
    var plan := PlanWrite(|body|, Payload(row, ev), cap, room);
    if plan.cut == None && ev.offset > row.last {
      var m := GapMarker(row.last, ev.offset);
      assert body + (m + ev.content) == body + m + ev.content;
    }
  }

  // ------------------------------------------------------- the consumer

  class LogConsumer {
    const dir: LogsDir
    const gauge: LogsDirGauge?
    const cap: nat
    const path: string
    // The committed row; None when the table holds none.
    var row: Option<Row>

    constructor (dir: LogsDir, gauge: LogsDirGauge?, cap: nat, path: string, row: Option<Row>)
      requires gauge != null ==> gauge.dir == dir && gauge.Valid()
      ensures this.dir == dir && this.gauge == gauge && this.cap == cap && this.path == path && this.row == row
      ensures Valid()
    {
      this.dir, this.gauge, this.cap, this.path, this.row := dir, gauge, cap, path, row;
    }

    ghost predicate Valid()
      reads this, dir, if gauge != null then {gauge} else {}
    {
      gauge != null ==> gauge.dir == dir && gauge.Valid()
    }

    function Body(): Bytes
      reads dir
    {
      if path in dir.files then dir.files[path] else []
    }

    function RoomNow(): Option<Room>
      reads if gauge != null then {gauge} else {}
    {
      if gauge != null then Some(Room(gauge.budget, gauge.value)) else None
    }

    /**
     Applies one entry.  A complete apply takes row and file where `Receive` says; a
     failed write leaves a prefix of the planned bytes on disk and the row as it was.
     With a budget, the gauge never rises above it through this method.
     */
    method Apply(ev: Event) returns (outcome: Outcome)
      requires Valid()
      modifies this`row, dir, if gauge != null then {gauge} else {}
      ensures Valid() && dir.files - {path} == old(dir.files) - {path}
      ensures old(row) == None <==> outcome == NoLogFile
      ensures outcome == NoLogFile || outcome == Raised ==> row == old(row)
      ensures outcome == NoLogFile ==> Body() == old(Body())
      ensures old(row).Some? && outcome != Raised ==>
        row.Some? && Log(row.value, Body()) == Receive(Log(old(row).value, old(Body())), ev, cap, old(RoomNow()))
      ensures outcome == Raised ==> old(row).Some? && Takes(old(row).value, ev)
      ensures outcome == Raised ==>
        exists n: nat :: TornTail(old(row).value, ev, old(Body()), old(RoomNow()), Body(), n)
      ensures old(row).Some? && row.Some? ==> Explains(outcome, old(row).value, row.value, ev, old(Body()), Body())
      ensures old(row).Some? && row.Some? && Accepted(old(row).value, ev, old(RoomNow())) ==>
        outcome == Raised ||
          WrittenFor(outcome, old(row).value, row.value, ev, old(Body()), Body(), cap, old(RoomNow()))
      ensures old(row).Some? ==> row.Some?
      ensures gauge != null && gauge.budget > 0 ==> gauge.value <= old(gauge.value) || gauge.value <= gauge.budget
    {
      if row == None {
        return NoLogFile;
      }
      var file := row.value;
      if ev.eof && ev.size == 0 {
        return Eof;
      }
      if ev.content == [] {
        return if ev.eof then Eof else DroppedDup;
      }
      if file.status !in {Active, Finalizing} {
        return Sealed;
      }
      if ev.offset < file.last {
        return DroppedDup;
      }
      if file.integrity == Truncated && (cap > 0 || gauge != null) {
        row := Some(file.(last := ev.offset + ev.size));
        return TruncatedDropped;
      }
      ghost var plan;
      outcome, plan := TakeIn(file, ev);
      if outcome == Raised {
        ghost var n: nat :| n <= |plan.bytes| && Body() == old(Body()) + plan.bytes[..n];
        assert TornTail(file, ev, old(Body()), old(RoomNow()), Body(), n);
      }
    }

    /** The entry carries bytes, for a row that is not closed, not past them and not frozen by a cap. */
    predicate Accepted(was: Row, ev: Event, room: Option<Room>) {
      && ev.content != [] && !(ev.eof && ev.size == 0) && was.status in {Active, Finalizing} && ev.offset >= was.last
      && (was.integrity != Truncated || (cap == 0 && room == None))
    }

    /** A jump becomes a visible marker and a sticky partial row. */
    method MarkGap(file: Row, ev: Event) returns (next: Row, payload: Bytes)
      ensures next == NoteGap(file, ev) && payload == Payload(file, ev)
    {
      next, payload := file, ev.content;
      if ev.offset > file.last {
        var first := if file.firstGap == None then Some(Jump(file.last, ev.offset)) else file.firstGap;
        payload := GapMarker(file.last, ev.offset) + payload;
        next := next.(integrity := Partial, gaps := next.gaps + 1, firstGap := first);
      }
    }

    /** Accepts the entry; what that means for row and file. */
    method TakeIn(file: Row, ev: Event) returns (outcome: Outcome, ghost plan: Plan)
      requires Valid() && row == Some(file) && Takes(file, ev) && !Frozen(file, cap, RoomNow())
      modifies this`row, dir, if gauge != null then {gauge} else {}
      ensures Valid() && dir.files - {path} == old(dir.files) - {path}
      ensures row.Some? && (outcome == Raised ==> row == old(row))
      ensures plan == PlanWrite(|old(Body())|, Payload(file, ev), cap, old(RoomNow()))
      ensures outcome == Raised ==> exists n: nat | n <= |plan.bytes| :: Body() == old(Body()) + plan.bytes[..n]
      ensures outcome != Raised ==> Body() == old(Body()) + plan.bytes
      ensures outcome != Raised ==> row.value == Moved(NoteGap(file, ev), ev, plan.cut, |Body()|)
      ensures outcome == Raised || WrittenFor(outcome, file, row.value, ev, old(Body()), Body(), cap, old(RoomNow()))
      ensures Explains(outcome, file, row.value, ev, old(Body()), Body())
      ensures gauge != null && gauge.budget > 0 ==> gauge.value <= old(gauge.value) || gauge.value <= gauge.budget
    {
      SettledExplains(file, ev, Body(), cap, RoomNow());
      SettledIsWritten(file, ev, Body(), cap, RoomNow());
      outcome, plan := Accept(file, ev);
    }

    /** Plans, writes and moves the row. */
    method Accept(file: Row, ev: Event) returns (outcome: Outcome, ghost plan: Plan)
      requires Valid() && row == Some(file) && Takes(file, ev) && !Frozen(file, cap, RoomNow())
      modifies this`row, dir, if gauge != null then {gauge} else {}
      ensures Valid() && dir.files - {path} == old(dir.files) - {path}
      ensures row.Some? && (outcome == Raised ==> row == old(row))
      ensures outcome == Raised || outcome == Settled(file, ev, plan)
      ensures plan == PlanWrite(|old(Body())|, Payload(file, ev), cap, old(RoomNow()))
      ensures outcome == Raised ==> exists n: nat | n <= |plan.bytes| :: Body() == old(Body()) + plan.bytes[..n]
      ensures outcome != Raised ==> Body() == old(Body()) + plan.bytes
      ensures outcome != Raised ==> row.value == Moved(NoteGap(file, ev), ev, plan.cut, |Body()|)
      ensures gauge != null && gauge.budget > 0 ==> gauge.value <= old(gauge.value) || gauge.value <= gauge.budget
    {
      var next, payload := MarkGap(file, ev);
      outcome := if ev.offset > file.last then GapPartial else Appended;
      var planned := PlanWrite(SizeOf(dir.files, path), payload, cap, RoomNow());
      plan := planned;
      var after, ok := WriteSettled(planned.bytes);
      if !ok {
        return Raised, plan;
      }
      if planned.cut.Some? {
        outcome := TruncatedNow;
      }
      row := Some(Moved(next, ev, planned.cut, after));
    }

    /** A prefix of what the plan would have written is at the end of the file. */
    ghost predicate TornTail(row: Row, ev: Event, before: Bytes, room: Option<Room>, after: Bytes, n: nat) {
      var plan := PlanWrite(|before|, Payload(row, ev), cap, room);
      n <= |plan.bytes| && after == before + plan.bytes[..n]
    }

    /** Appends and settles whatever landed, with or without a gauge. */
    method WriteSettled(data: Bytes) returns (after: nat, ok: bool)
      requires Valid()
      modifies dir, if gauge != null then {gauge} else {}
      ensures Valid() && dir.files - {path} == old(dir.files) - {path}
      ensures after == |Body()|
      ensures exists n: nat | n <= |data| :: Body() == old(Body()) + data[..n]
      ensures ok ==> Body() == old(Body()) + data
      ensures gauge != null ==> gauge.value <= old(gauge.value) + |data|
    {
      ghost var start := Body();
      if gauge != null {
        var before;
        before, after, ok := gauge.Append(path, data);
        ghost var n: nat :| n <= |data| && Landed(old(dir.files), dir.files, path, data[..n]);
        assert Body() == start + data[..n];
      } else {
        ok := *;
        var n: nat := |data|;
        if !ok {
          n :| 0 <= n <= |data|;
        }
        if n > 0 {
          dir.files := dir.files[path := Body() + data[..n]];
        }
        assert data[..|data|] == data;
        assert Body() == start + data[..n];
        after := SizeOf(dir.files, path);
      }
    }
  }
}
