/**
 The agent side of log replication: a byte-offset publisher with a durable cursor, a
 cap and a token bucket, tailing files that their writers append to and that the flood
 watchdog and the janitor cut at any time.
 */
module LogPublishers {
  import opened Prelude
  import opened LogReceiver
  import opened LogTail
  import DirGauge

  /** What else can happen to a job log, its state file or its cursor meanwhile. */
  datatype Step = Write(data: Bytes)  // the job appends
                | Cut                 // the flood watchdog
                | Sweep               // the janitor
                | HalfCut             // either, stopped between truncating and marking
                | Finish | StopLogs | LoseCursor

  /** What becomes of one XADD: it fails, it lands with its answer lost, or it is answered. */
  datatype Fate = Lost | Unheard | Heard

  /**
   What happens around one iteration of a tail: what the rest of the agent does first,
   whether the read succeeds, the fate of the XADD, and whether the durable write behind
   it is made.
   */
  datatype Round = Round(meanwhile: seq<Step>, readable: bool, fate: Fate, kept: bool)

  /** Nothing goes wrong, whatever the job and the cutters do. */
  predicate Smooth(r: Round) { LoseCursor !in r.meanwhile && Clear(r) }

  predicate Clear(r: Round) { r.readable && r.fate == Heard && r.kept }

  const CALM := Round([], true, Heard, true)

  /** The stream after one XADD. */
  function Landed(stream: seq<Event>, ev: Event, fate: Fate): seq<Event> {
    if fate == Lost then stream else stream + [ev]
  }

  /** One execution's durable files, and (ghost) all it ever appended and published. */
  class Job {
    const cap: nat
    const marker: Bytes       // the publisher's entry at the cap
    const flood: Bytes        // what the cutters leave in the file
    var file: Bytes
    var cursor: nat
    var known: bool           // has a state file with a log path
    var capped: bool
    var done: bool
    ghost var written: Bytes
    ghost var stream: seq<Event>
    // No published slice has ever missed its cursor write, nor a cursor been lost.
    ghost var steady: bool

    constructor (cap: nat)
      ensures Valid() && this.cap == cap && marker == TruncationMarker(cap, SizeCap)
      ensures file == [] && stream == [] && written == [] && cursor == 0 && steady
    {
      this.cap, marker, flood := cap, TruncationMarker(cap, SizeCap), FloodMarker(cap);
      file, cursor, known, capped, done, written, stream, steady := [], 0, true, false, false, [], [], true;
    }

    /** The file tells the truth below the cap, and the stream has told nothing else. */
    ghost predicate Valid()
      reads this
    {
      && Faithful(file, written, cap)
      && Honest(stream, written, cap, marker)
      && NoSkip(stream)
      && cursor <= Frontier(stream)
      && (steady ==> InStep(stream, cursor, cap, marker))
      && (cap > 0 ==> cursor <= ContentCap(cap, marker))
      // Only an ended execution is told to have ended.
      && (SaysEnd(stream) ==> done)
    }

    method Truncate()
      requires Valid() && cap > 0 && |file| >= cap
      modifies this`file
      ensures Valid() && |file| == cap
    {
      file := file[..cap];
    }

    /** The flood watchdog's cut: exactly `cap` bytes and one marker. */
    method Cut()
      requires Valid()
      modifies this`file
      ensures Valid()
      ensures file == if cap <= 0 || |old(file)| < cap then old(file) else old(file)[..cap] + flood
    {
      if cap <= 0 || |file| < cap {
        return;
      }
      if |file| == cap + |flood| && file[cap..] == flood {
        assert file == file[..cap] + flood;
        return;
      }
      Truncate();
      file := file + flood;
    }

    /** The janitor's cut: any dopilot marker right after `cap` bytes is left alone. */
    method Sweep()
      requires Valid()
      modifies this`file
      ensures Valid()
      ensures file ==
        if cap <= 0 || |old(file)| <= cap || DirGauge.AlreadyCapped(old(file), cap) then old(file)
        else old(file)[..cap] + flood
    {
      if cap <= 0 || |file| <= cap || DirGauge.AlreadyCapped(file, cap) {
        return;
      }
      Truncate();
      file := file + flood;
    }

    /** The job appends, behind whatever a cutter left. */
    method Grow(data: Bytes)
      requires Valid()
      modifies this`file, this`written
      ensures Valid() && written == old(written) + data && file == old(file) + data
    {
      StillHonest(stream, written, written + data, cap, marker);
      file := file + data;
      written := written + data;
    }

    method Meanwhile(steps: seq<Step>)
      requires Valid()
      modifies this`file, this`written, this`done, this`capped, this`cursor, this`steady
      ensures Valid() && old(written) <= written && (steady ==> old(steady) && cursor == old(cursor))
      ensures LoseCursor !in steps ==> steady == old(steady)
      ensures old(done) ==> done
    {
      for i := 0 to |steps|
        invariant Valid() && old(written) <= written && (steady ==> old(steady) && cursor == old(cursor))
        invariant LoseCursor !in steps ==> steady == old(steady)
        invariant old(done) ==> done
      {
        match steps[i] {
          case Write(data) => Grow(data);
          case Cut => Cut();
          case Sweep => Sweep();
          case HalfCut =>
            if cap > 0 && |file| > cap {
              Truncate();
            }
          case Finish => done := true;
          case StopLogs => capped := true;
          case LoseCursor =>
            cursor := 0;
            steady := false;
        }
      }
    }

    /** An XADD that needs no cursor write after it. */
    method AddInStep(ev: Event, fate: Fate) returns (ok: bool)
      requires Valid() && Told(ev, written, cap, marker) && ev.offset <= Frontier(stream) && (ev.eof ==> done)
      requires steady ==> InStep(stream + [ev], cursor, cap, marker)
      modifies this`stream
      ensures Valid() && stream == Landed(old(stream), ev, fate) && ok == (fate == Heard)
    {
      if fate != Lost {
        assert (stream + [ev])[..|stream|] == stream;
        stream := stream + [ev];
      }
      ok := fate == Heard;
    }

    /** The marker behind the last content byte; then the flag that closes the tail. */
    method SendMarker(at: nat, fate: Fate, kept: bool) returns (ok: bool)
      requires Valid() && Marker(Slice(at, marker), written, cap, marker) && at <= Frontier(stream)
      requires steady ==> at == cursor
      modifies this`stream, this`capped
      ensures Valid() && stream == Landed(old(stream), Slice(at, marker), fate) && ok == (fate == Heard)
      ensures capped == (old(capped) || (ok && kept)) && Frontier(stream) >= old(Frontier(stream))
      ensures ok ==> Frontier(stream) == ContentCap(cap, marker) + |marker|
    {
      InStepAfter(stream, Slice(at, marker), at, cap, marker);
      MarkerEndsIt(stream, Slice(at, marker), written, cap, marker);
      ok := AddInStep(Slice(at, marker), fate);
      if ok && kept {
        capped := true;
      }
    }

    /** A slice; then the durable cursor. */
    method SendSlice(at: nat, raw: Bytes, fate: Fate, kept: bool) returns (ok: bool)
      requires Valid() && Content(Slice(at, raw), written, cap, marker) && at <= Frontier(stream)
      requires steady ==> at == cursor
      modifies this`stream, this`cursor, this`steady
      ensures Valid() && stream == Landed(old(stream), Slice(at, raw), fate) && ok == (fate == Heard)
      ensures cursor == if ok && kept then at + |raw| else old(cursor)
      ensures steady == (old(steady) && (fate == Lost || (ok && kept)))
      ensures Frontier(stream) >= old(Frontier(stream)) && (fate != Lost ==> Frontier(stream) >= at + |raw|)
    {
      ghost var was, calm := stream, steady;
      FrontierAfter(was, Slice(at, raw));
      ok := Add(Slice(at, raw), fate);
      if ok && kept {
        cursor := at + |raw|;
        InStepAfter(was, Slice(at, raw), at, cap, marker);
        steady := calm;
      }
    }

    /** The XADD of an empty entry. */
    method AddEof(at: nat, fate: Fate) returns (ok: bool)
      requires Valid() && done && at <= Frontier(stream) && (cap > 0 ==> at <= ContentCap(cap, marker))
      modifies this`stream
      ensures Valid() && stream == Landed(old(stream), Event(at, [], 0, true), fate) && ok == (fate == Heard)
      ensures Frontier(stream) == old(Frontier(stream))
    {
      EofIsTold(stream, at, written, cap, marker);
      EofIsBehind(stream, Event(at, [], 0, true));
      ok := AddInStep(Event(at, [], 0, true), fate);
    }

    /** One XADD of one entry: lost, landed, or landed without the caller learning it. */
    method Add(ev: Event, fate: Fate) returns (ok: bool)
      requires Valid() && Told(ev, written, cap, marker) && ev.offset <= Frontier(stream) && (ev.eof ==> done)
      modifies this`stream, this`steady
      ensures Valid() && stream == Landed(old(stream), ev, fate) && ok == (fate == Heard)
      ensures steady == (old(steady) && fate == Lost)
    {
      if fate != Lost {
        assert (stream + [ev])[..|stream|] == stream;
        stream := stream + [ev];
        steady := false;
      }
      ok := fate == Heard;
    }
  }

  /** Why one execution's turn ended. */
  datatype Stop = Nothing    // no state, or capped already
                | Dry        // the bucket is empty, or cannot take the marker yet
                | CaughtUp   // read to the end of the file
                | AtCap      // the marker went out
                | Unread     // the read failed
                | Refused    // the XADD of a slice failed
                | Unmarked   // the XADD of the marker failed
                | Unsaved    // a durable write failed, or the process died before it

  predicate Trouble(stop: Stop) { stop in {Unread, Refused, Unmarked, Unsaved} }

  /** The bytes-per-second part of the publisher. */
  class LogPublisher {
    const rate: nat
    const maxBytes: nat
    var tokens: real
    var lastRefill: real
    var rotateFrom: nat
    var eofSent: set<Job>
    ghost var spent: nat      // bytes taken from the bucket
    ghost var slipped: nat    // acknowledged bytes whose bookkeeping then failed: never taken
    ghost var visited: seq<Job>
    ghost var acked: nat      // acknowledged bytes of content and markers
    ghost var levels: seq<real>  // the bucket after each refill

    constructor (rate: nat, maxBytes: nat, now: real)
      requires maxBytes > 0
      ensures Valid() && this.rate == rate && this.maxBytes == maxBytes && lastRefill == now
      ensures tokens == Capacity() && rotateFrom == 0 && spent == 0 && slipped == 0 && acked == 0 && levels == []
    {
      this.rate, this.maxBytes, tokens, lastRefill := rate, maxBytes, (2 * rate) as real, now;
      rotateFrom, eofSent, spent, slipped, acked, levels := 0, {}, 0, 0, 0, [];
    }

    function Capacity(): real { (2 * rate) as real }

    ghost predicate Valid()
      reads this
    {
      && maxBytes > 0
      && 0.0 <= tokens <= Capacity()
      && acked == spent + slipped
    }

    /** The bucket after a refill at `now`. */
    function Refilled(now: real): real
      reads this
    {
      if rate == 0 then tokens
      else
        var more := tokens + (if now - lastRefill > 0.0 then now - lastRefill else 0.0) * rate as real;
        if more < Capacity() then more else Capacity()
    }

    method Refill(now: real)
      requires Valid() && lastRefill <= now
      modifies this`tokens, this`lastRefill, this`levels
      ensures Valid()
      ensures tokens >= old(tokens) && levels == old(levels) + [tokens]
      ensures rate > 0 ==> lastRefill == now
      ensures rate == 0 ==> lastRefill == old(lastRefill)
      ensures tokens == old(Refilled(now))
    {
      if rate == 0 {
        levels := levels + [tokens];
        return;
      }
      var elapsed := if now - lastRefill > 0.0 then now - lastRefill else 0.0;
      var more := elapsed * rate as real;
      Poured(elapsed, rate as real);
      lastRefill := now;
      tokens := if tokens + more < Capacity() then tokens + more else Capacity();
      levels := levels + [tokens];
    }

    lemma Poured(elapsed: real, rate: real)
      requires elapsed >= 0.0 && rate >= 0.0
      ensures elapsed * rate >= 0.0
    {
    }

    function Allowance(): (n: nat)
      reads this
      requires Valid()
      ensures rate > 0 ==> n as real <= tokens
      ensures rate == 0 ==> n > 0
      ensures tokens >= 1.0 ==> n > 0
    {
      if rate == 0 then maxBytes else tokens.Floor
    }

    /** Every caller stays within the allowance, so the clamp at zero never bites. */
    method Spend(n: nat)
      requires maxBytes > 0 && 0.0 <= tokens <= Capacity() && acked == spent + slipped + n
      requires rate > 0 ==> n as real <= tokens
      modifies this`tokens, this`spent
      ensures Valid()
      ensures spent == old(spent) + n
      ensures rate > 0 ==> tokens == old(tokens) - n as real
      ensures rate == 0 ==> tokens == old(tokens)
    {
      if rate > 0 {
        tokens := if tokens - n as real > 0.0 then tokens - n as real else 0.0;
      }
      spent := spent + n;
    }

    /** One entry's worth of bookkeeping that must not be lost: it is taken, or it slips. */
    method Account(n: nat, kept: bool)
      requires maxBytes > 0 && 0.0 <= tokens <= Capacity() && acked == spent + slipped + n
      requires rate > 0 ==> n as real <= tokens
      modifies this`tokens, this`spent, this`slipped
      ensures Valid() && spent + slipped == old(spent) + old(slipped) + n
      ensures kept ==> slipped == old(slipped)
      ensures rate > 0 ==> tokens + spent as real == old(tokens) + old(spent) as real
      ensures rate > 0 ==> tokens >= old(tokens) - n as real
    {
      if kept {
        Spend(n);
      } else {
        slipped := slipped + n;
      }
    }

    /** XADD, then the durable cursor, then the bucket; each can be the last thing done. */
    method PublishSlice(job: Job, at: nat, raw: Bytes, fate: Fate, kept: bool) returns (stop: Stop)
      requires Valid() && job.Valid() && at <= Frontier(job.stream) && raw != []
      requires Content(Slice(at, raw), job.written, job.cap, job.marker)
      requires rate > 0 ==> |raw| as real <= tokens
      requires job.steady ==> at == job.cursor
      modifies this`tokens, this`spent, this`slipped, this`acked, job`stream, job`cursor, job`steady
      ensures Valid() && job.Valid() && job.stream == Landed(old(job.stream), Slice(at, raw), fate)
      ensures stop == if fate != Heard then Refused else if kept then Nothing else Unsaved
      ensures job.cursor == if stop == Nothing then at + |raw| else old(job.cursor)
      ensures acked == if fate == Heard then old(acked) + |raw| else old(acked)
      ensures stop != Unsaved ==> slipped == old(slipped)
      ensures job.steady == (old(job.steady) && (stop == Nothing || fate == Lost))
      ensures Frontier(job.stream) >= if fate == Lost then old(Frontier(job.stream)) else at + |raw|
      ensures Frontier(job.stream) >= old(Frontier(job.stream))
      ensures rate > 0 ==> tokens + spent as real == old(tokens) + old(spent) as real
      ensures rate > 0 ==> (acked - old(acked)) as real <= old(tokens)
    {
      var ok := job.SendSlice(at, raw, fate, kept);
      if !ok {
        return Refused;
      }
      acked := acked + |raw|;
      Account(|raw|, kept);
      stop := if kept then Nothing else Unsaved;
    }

    /** The marker entry at the cap: it pays like any other, and closes the tail. */
    method PublishMarker(job: Job, at: nat, fate: Fate, kept: bool) returns (stop: Stop)
      requires Valid() && job.Valid() && at <= Frontier(job.stream)
      requires Marker(Slice(at, job.marker), job.written, job.cap, job.marker)
      requires rate > 0 ==> |job.marker| as real <= tokens
      requires job.steady ==> at == job.cursor
      modifies this`tokens, this`spent, this`slipped, this`acked, job`stream, job`capped
      ensures Valid() && job.Valid() && job.stream == Landed(old(job.stream), Slice(at, job.marker), fate)
      ensures stop == if fate != Heard then Unmarked else if kept then AtCap else Unsaved
      ensures job.capped == (old(job.capped) || stop == AtCap)
      ensures Frontier(job.stream) >= old(Frontier(job.stream))
      ensures stop == AtCap ==> Frontier(job.stream) == ContentCap(job.cap, job.marker) + |job.marker|
      ensures acked == if fate == Heard then old(acked) + |job.marker| else old(acked)
      ensures stop != Unsaved ==> slipped == old(slipped)
      ensures rate > 0 ==> tokens + spent as real == old(tokens) + old(spent) as real
      ensures rate > 0 ==> (acked - old(acked)) as real <= old(tokens)
    {
      var ok := job.SendMarker(at, fate, kept);
      if !ok {
        return Unmarked;
      }
      acked := acked + |job.marker|;
      Account(|job.marker|, kept);
      stop := if kept then AtCap else Unsaved;
    }

    /** How much is read at `at`: as buffer, bucket and `room` below the cap allow. */
    function Want(allowance: nat, room: Option<nat>): nat {
      var want := if maxBytes < allowance then maxBytes else allowance;
      if room.Some? && room.value < want then room.value else want
    }

    /** One read: the slice at `at`, the marker at the cap, or nothing for now. */
    method Step(job: Job, at: nat, r: Round) returns (stop: Stop, next: nat)
      requires Valid() && job.Valid() && at <= Frontier(job.stream)
      requires job.cap > 0 ==> at <= ContentCap(job.cap, job.marker)
      requires job.steady ==> at == job.cursor
      modifies this`tokens, this`spent, this`slipped, this`acked, job`stream, job`cursor, job`capped, job`steady
      ensures Valid() && job.Valid() && old(job.stream) <= job.stream
      ensures at <= next <= Frontier(job.stream) && (job.cap > 0 ==> next <= ContentCap(job.cap, job.marker))
      ensures stop == Nothing ==> at < next <= |job.file|
      ensures stop != Unsaved ==> slipped == old(slipped)
      ensures job.steady ==> next == job.cursor
      ensures stop == CaughtUp ==> Frontier(job.stream) >= |job.file|
      ensures stop == AtCap ==> job.capped && Frontier(job.stream) == ContentCap(job.cap, job.marker) + |job.marker|
      ensures stop == Dry ==> Short(job)
      ensures Trouble(stop) ==> !Clear(r)
      ensures Clear(r) ==> job.steady == old(job.steady)
      ensures rate == 0 && job.cap == 0 ==>
        var raw := Chunk(job.file, at, maxBytes, r.readable);
        && job.stream == Published(old(job.stream), at, raw, r.fate)
        && job.cursor == if raw == [] || !Clear(r) then old(job.cursor) else at + |raw|
      ensures rate > 0 ==> tokens + spent as real == old(tokens) + old(spent) as real
      ensures rate > 0 ==> (acked - old(acked)) as real <= old(tokens)
    {
      next := at;
      var allowance := Allowance();
      if allowance == 0 {
        return Dry, at;
      }
      if job.cap > 0 && at >= ContentCap(job.cap, job.marker) {
        stop := MarkerStep(job, at, allowance, r);
      } else {
        stop, next := ContentStep(job, at, allowance, r);
      }
    }

    /** At the cap: the marker, if the bucket can take it. */
    method MarkerStep(job: Job, at: nat, allowance: nat, r: Round) returns (stop: Stop)
      requires Valid() && job.Valid() && job.cap > 0 && at == ContentCap(job.cap, job.marker) <= Frontier(job.stream)
      requires job.steady ==> at == job.cursor
      requires allowance > 0 && (rate > 0 ==> allowance == tokens.Floor)
      modifies this`tokens, this`spent, this`slipped, this`acked, job`stream, job`capped
      ensures Valid() && job.Valid() && old(job.stream) <= job.stream && Frontier(job.stream) >= at
      ensures stop in {Dry, AtCap, Unmarked, Unsaved}
      ensures stop == AtCap ==> job.capped && Frontier(job.stream) == ContentCap(job.cap, job.marker) + |job.marker|
      ensures stop == Dry ==> Short(job)
      ensures Trouble(stop) ==> !Clear(r)
      ensures stop != Unsaved ==> slipped == old(slipped)
      ensures rate > 0 ==> tokens + spent as real == old(tokens) + old(spent) as real
      ensures rate > 0 ==> (acked - old(acked)) as real <= old(tokens)
    {
      if rate > 0 && allowance < |job.marker| {
        return Dry;
      }
      FrontierIsReal(job.stream, job.written, job.cap, job.marker);
      stop := PublishMarker(job, at, r.fate, r.kept);
    }

    /** The bucket lacks a whole token, or the marker's worth of them. */
    predicate Short(job: Job)
      reads this
    {
      rate > 0 && (tokens < 1.0 || tokens < |job.marker| as real)
    }

    /** One slice, as long as the buffer, the bucket and the cap allow. */
    method ContentStep(job: Job, at: nat, allowance: nat, r: Round) returns (stop: Stop, next: nat)
      requires Valid() && job.Valid() && at <= Frontier(job.stream)
      requires allowance > 0 && (rate > 0 ==> allowance as real <= tokens)
      requires job.cap > 0 ==> at < ContentCap(job.cap, job.marker)
      requires job.steady ==> at == job.cursor
      modifies this`tokens, this`spent, this`slipped, this`acked, job`stream, job`cursor, job`steady
      ensures Valid() && job.Valid()
      ensures at <= next <= Frontier(job.stream) && (job.cap > 0 ==> next <= ContentCap(job.cap, job.marker))
      ensures stop == Nothing || stop == CaughtUp || stop == Unread || stop == Refused || stop == Unsaved
      ensures stop == Nothing ==> at < next <= |job.file|
      ensures stop != Unsaved ==> slipped == old(slipped)
      ensures job.steady ==> next == job.cursor
      ensures stop == CaughtUp ==> Frontier(job.stream) >= |job.file|
      ensures Trouble(stop) ==> !Clear(r)
      ensures Clear(r) ==> job.steady == old(job.steady)
      ensures var raw := Chunk(job.file, at, Want(allowance, Left(job, at)), r.readable);
        && job.stream == Published(old(job.stream), at, raw, r.fate)
        && job.cursor == if raw == [] || !Clear(r) then old(job.cursor) else at + |raw|
      ensures rate > 0 ==> tokens + spent as real == old(tokens) + old(spent) as real
      ensures rate > 0 ==> (acked - old(acked)) as real <= old(tokens)
    {
      var raw, want := ReadNext(job, at, allowance, r.readable);
      stop, next := SendAny(job, at, raw, want, r);
    }

    /** What was read, if anything: nothing means the end of the file, or a failed read. */
    method SendAny(job: Job, at: nat, raw: Bytes, want: nat, r: Round) returns (stop: Stop, next: nat)
      requires Valid() && job.Valid() && at <= Frontier(job.stream) && |raw| <= want && want > 0
      requires raw != [] ==> r.readable && at + |raw| <= |job.file|
      requires raw != [] ==> Content(Slice(at, raw), job.written, job.cap, job.marker)
      requires r.readable && |raw| < want ==> at + |raw| >= |job.file|
      requires rate > 0 ==> |raw| as real <= tokens
      requires job.steady ==> at == job.cursor
      modifies this`tokens, this`spent, this`slipped, this`acked, job`stream, job`cursor, job`steady
      ensures Valid() && job.Valid() && job.stream == Published(old(job.stream), at, raw, r.fate)
      ensures at <= next <= Frontier(job.stream) && next <= at + |raw|
      ensures stop == Nothing || stop == CaughtUp || stop == Unread || stop == Refused || stop == Unsaved
      ensures stop == Nothing ==> at < next <= |job.file|
      ensures stop != Unsaved ==> slipped == old(slipped)
      ensures job.steady ==> next == job.cursor
      ensures stop == CaughtUp ==> Frontier(job.stream) >= |job.file|
      ensures Trouble(stop) ==> !Clear(r)
      ensures Clear(r) ==> job.steady == old(job.steady)
      ensures job.cursor == if raw == [] || !Clear(r) then old(job.cursor) else at + |raw|
      ensures rate > 0 ==> tokens + spent as real == old(tokens) + old(spent) as real
      ensures rate > 0 ==> (acked - old(acked)) as real <= old(tokens)
    {
      if raw == [] {
        return if r.readable then CaughtUp else Unread, at;
      }
      stop, next := SendRaw(job, at, raw, want, r);
    }

    /** As much as buffer, bucket and cap allow. */
    method ReadNext(job: Job, at: nat, allowance: nat, readable: bool) returns (raw: Bytes, want: nat)
      requires Valid() && job.Valid() && allowance > 0 && (rate > 0 ==> allowance as real <= tokens)
      requires job.cap > 0 ==> at < ContentCap(job.cap, job.marker)
      ensures want == Want(allowance, Left(job, at)) > 0 && raw == Chunk(job.file, at, want, readable)
      ensures rate > 0 ==> |raw| as real <= tokens
      ensures job.cap > 0 ==> at + |raw| <= ContentCap(job.cap, job.marker)
      ensures raw != [] ==> Content(Slice(at, raw), job.written, job.cap, job.marker)
    {
      want := Want(allowance, Left(job, at));
      raw := ReadRaw(job, at, want, readable);
    }

    /** A slice that was read; a short one was the last. */
    method SendRaw(job: Job, at: nat, raw: Bytes, want: nat, r: Round) returns (stop: Stop, next: nat)
      requires Valid() && job.Valid() && at <= Frontier(job.stream) && raw != [] && |raw| <= want
      requires Content(Slice(at, raw), job.written, job.cap, job.marker)
      requires at + |raw| <= |job.file| && (|raw| < want ==> at + |raw| >= |job.file|)
      requires rate > 0 ==> |raw| as real <= tokens
      requires job.steady ==> at == job.cursor
      modifies this`tokens, this`spent, this`slipped, this`acked, job`stream, job`cursor, job`steady
      ensures Valid() && job.Valid() && job.stream == Landed(old(job.stream), Slice(at, raw), r.fate)
      ensures at <= next <= Frontier(job.stream) && next <= at + |raw|
      ensures stop in {Nothing, CaughtUp, Refused, Unsaved}
      ensures if stop in {Nothing, CaughtUp} then r.fate == Heard && r.kept && next == at + |raw| else !Clear(r)
      ensures stop == Nothing ==> |raw| == want
      ensures stop != Unsaved ==> slipped == old(slipped)
      ensures job.steady ==> next == job.cursor
      ensures stop == CaughtUp ==> Frontier(job.stream) >= |job.file|
      ensures r.fate == Heard && r.kept ==> job.steady == old(job.steady) && job.cursor == next
      ensures !(r.fate == Heard && r.kept) ==> job.cursor == old(job.cursor)
      ensures rate > 0 ==> tokens + spent as real == old(tokens) + old(spent) as real
      ensures rate > 0 ==> (acked - old(acked)) as real <= old(tokens)
    {
      next := at;
      stop := PublishSlice(job, at, raw, r.fate, r.kept);
      if stop == Nothing {
        next := at + |raw|;
        if |raw| < want {
          stop := CaughtUp;
        }
      }
    }

    /** Up to `want` bytes from `at`: appended bytes, whatever was cut behind the cap. */
    method ReadRaw(job: Job, at: nat, want: nat, readable: bool) returns (raw: Bytes)
      requires job.Valid() && want > 0 && (job.cap > 0 ==> at + want <= ContentCap(job.cap, job.marker))
      ensures raw == Chunk(job.file, at, want, readable)
      ensures raw != [] ==> Content(Slice(at, raw), job.written, job.cap, job.marker)
    {
      if at >= |job.file| || !readable {
        return [];
      }
      var to := if at + want < |job.file| then at + want else |job.file|;
      raw := job.file[at..to];
      ReadIsTrue(job.file, job.written, job.cap, at, to);
    }

    /**
     One execution's turn: as many slices as file, cap and bucket allow, then the
     marker; `weather` is what happens around each iteration, as long as anything does.
     */
    method Tail(job: Job, weather: seq<Round>) returns (stop: Stop, at: nat)
      requires Valid() && job.Valid()
      modifies this`tokens, this`spent, this`slipped, this`acked, job
      ensures old(job.done) ==> job.done
      ensures Valid() && job.Valid() && old(job.written) <= job.written && old(job.stream) <= job.stream
      ensures stop == CaughtUp ==> Frontier(job.stream) >= |job.file|
      ensures stop == AtCap ==> job.capped && Frontier(job.stream) == ContentCap(job.cap, job.marker) + |job.marker|
      ensures stop == Dry ==> Short(job)
      ensures stop != Nothing && (Trouble(stop) ==> exists r | r in weather :: !Clear(r))
      ensures stop != Unsaved ==> slipped == old(slipped)
      ensures (forall r | r in weather :: Smooth(r)) ==> job.steady == old(job.steady)
      ensures rate > 0 ==> tokens + spent as real == old(tokens) + old(spent) as real
      ensures rate > 0 ==> (acked - old(acked)) as real <= old(tokens)
      ensures at <= Frontier(job.stream) && (job.cap > 0 ==> at <= ContentCap(job.cap, job.marker))
    {
      var round: nat := 0;
      stop, at := Nothing, job.cursor;
      while stop == Nothing
        invariant old(job.done) ==> job.done
        invariant Valid() && job.Valid() && old(job.written) <= job.written && old(job.stream) <= job.stream
        invariant at <= Frontier(job.stream) && (job.cap > 0 ==> at <= ContentCap(job.cap, job.marker))
        invariant round <= |weather|
        invariant job.steady ==> at == job.cursor
        invariant stop != Unsaved ==> slipped == old(slipped)
        invariant stop == CaughtUp ==> Frontier(job.stream) >= |job.file|
        invariant stop == AtCap ==> job.capped && Frontier(job.stream) == ContentCap(job.cap, job.marker) + |job.marker|
        invariant stop == Dry ==> Short(job)
        invariant Trouble(stop) ==> exists r | r in weather :: !Clear(r)
        invariant (forall r | r in weather :: Smooth(r)) ==> job.steady == old(job.steady)
        invariant rate > 0 ==> tokens + spent as real == old(tokens) + old(spent) as real
        invariant rate > 0 ==> (acked - old(acked)) as real <= old(tokens)
        decreases |weather| - round, if at <= |job.file| then |job.file| - at else 0, stop == Nothing
      {
        var r := CALM;
        if round < |weather| {
          r := weather[round];
          assert r in weather;
          round := round + 1;
        }
        stop, at := Iterate(job, at, r);
      }
    }

    /** The rest of the agent does something, then one read. */
    method Iterate(job: Job, at: nat, r: Round) returns (stop: Stop, next: nat)
      requires Valid() && job.Valid() && at <= Frontier(job.stream)
      requires job.cap > 0 ==> at <= ContentCap(job.cap, job.marker)
      requires job.steady ==> at == job.cursor
      modifies this`tokens, this`spent, this`slipped, this`acked, job
      ensures old(job.done) ==> job.done
      ensures Valid() && job.Valid() && old(job.written) <= job.written && old(job.stream) <= job.stream
      ensures at <= next <= Frontier(job.stream) && (job.cap > 0 ==> next <= ContentCap(job.cap, job.marker))
      ensures stop == Nothing ==> at < next <= |job.file|
      ensures job.steady ==> next == job.cursor
      ensures stop != Unsaved ==> slipped == old(slipped)
      ensures stop == CaughtUp ==> Frontier(job.stream) >= |job.file|
      ensures stop == AtCap ==> job.capped && Frontier(job.stream) == ContentCap(job.cap, job.marker) + |job.marker|
      ensures stop == Dry ==> Short(job)
      ensures Trouble(stop) ==> !Clear(r)
      ensures Smooth(r) ==> job.steady == old(job.steady)
      ensures r.meanwhile == [] ==> job.file == old(job.file)
      ensures rate > 0 ==> tokens + spent as real == old(tokens) + old(spent) as real
      ensures rate > 0 ==> (acked - old(acked)) as real <= old(tokens)
    {
      if r.meanwhile != [] {
        job.Meanwhile(r.meanwhile);
      }
      stop, next := Step(job, at, r);
    }

    /**
     One execution's turn, and after its end the empty EOF entry, once per process life.
     A capped execution is not tailed again; a slice that failed ends the turn at once.
     */
    method PublishAttempt(job: Job, weather: seq<Round>, eof: Fate) returns (stop: Stop)
      requires Valid() && job.Valid()
      modifies this`tokens, this`spent, this`slipped, this`acked, this`eofSent, this`visited, job
      ensures Valid() && job.Valid() && old(job.written) <= job.written && old(job.stream) <= job.stream
      ensures visited == old(visited) + [job]
      ensures stop == Nothing <==> !old(job.known) || old(job.capped)
      ensures stop == Nothing || stop == AtCap ==> !job.known || job.capped
      ensures stop == CaughtUp ==> Frontier(job.stream) >= |job.file|
      ensures stop == AtCap ==> Frontier(job.stream) == ContentCap(job.cap, job.marker) + |job.marker|
      ensures stop == Dry ==> Short(job)
      ensures Trouble(stop) ==> exists r | r in weather :: !Clear(r)
      ensures (forall r | r in weather :: Smooth(r)) ==> job.steady == old(job.steady)
      ensures stop != Unsaved ==> slipped == old(slipped)
      ensures rate > 0 ==> tokens + spent as real == old(tokens) + old(spent) as real
      ensures rate > 0 ==> (acked - old(acked)) as real <= old(tokens)
      ensures old(job.capped) ==> acked == old(acked)
      ensures old(eofSent) <= eofSent <= old(eofSent) + {job}
      // The end is told only of an ended execution.
      ensures (SaysEnd(job.stream) ==> job.done) && (job in eofSent && job !in old(eofSent) ==> job.done)
      ensures eof == Heard && old(job.known && job.done) && stop !in {Refused, Unsaved} ==> job in eofSent
      ensures old(job in eofSent && job.capped) || !old(job.known) ==> job.stream == old(job.stream)
    {
      visited := visited + [job];
      var at, ended;
      stop, at, ended := TailUnlessCapped(job, weather);
      if ended {
        PublishEof(job, at, eof);
      }
    }

    /** The tail, where there is one; `ended` when the end of the execution may be told. */
    method TailUnlessCapped(job: Job, weather: seq<Round>) returns (stop: Stop, at: nat, ended: bool)
      requires Valid() && job.Valid()
      modifies this`tokens, this`spent, this`slipped, this`acked, job
      ensures Valid() && job.Valid() && old(job.written) <= job.written && old(job.stream) <= job.stream
      ensures stop == Nothing <==> !old(job.known) || old(job.capped)
      ensures stop == Nothing ==> job.stream == old(job.stream) && acked == old(acked)
      ensures ended ==> job.done && old(job.known) && stop !in {Refused, Unsaved}
      ensures old(job.known && job.done) && stop !in {Refused, Unsaved} ==> ended
      ensures stop == Nothing || stop == AtCap ==> !job.known || job.capped
      ensures stop == CaughtUp ==> Frontier(job.stream) >= |job.file|
      ensures stop == AtCap ==> Frontier(job.stream) == ContentCap(job.cap, job.marker) + |job.marker|
      ensures stop == Dry ==> Short(job)
      ensures Trouble(stop) ==> exists r | r in weather :: !Clear(r)
      ensures (forall r | r in weather :: Smooth(r)) ==> job.steady == old(job.steady)
      ensures stop != Unsaved ==> slipped == old(slipped)
      ensures rate > 0 ==> tokens + spent as real == old(tokens) + old(spent) as real
      ensures rate > 0 ==> (acked - old(acked)) as real <= old(tokens)
      ensures at <= Frontier(job.stream) && (job.cap > 0 ==> at <= ContentCap(job.cap, job.marker))
    {
      stop, at, ended := Nothing, job.cursor, job.known && job.done;
      if job.known && !job.capped {
        stop, at := Tail(job, weather);
        ended := stop !in {Refused, Unsaved} && (ended || (stop == AtCap && job.done));
      }
    }

    /** The EOF entry, unless this process sent it already. */
    method PublishEof(job: Job, at: nat, fate: Fate)
      requires Valid() && job.Valid() && job.done && at <= Frontier(job.stream)
      requires job.cap > 0 ==> at <= ContentCap(job.cap, job.marker)
      modifies this`eofSent, job`stream
      ensures Valid() && job.Valid() && Frontier(job.stream) == old(Frontier(job.stream))
      ensures job.stream == if old(job in eofSent) then old(job.stream)
        else Landed(old(job.stream), Event(at, [], 0, true), fate)
      ensures eofSent == if fate == Heard then old(eofSent) + {job} else old(eofSent)
    {
      if job in eofSent {
        return;
      }
      var ok := job.AddEof(at, fate);
      if ok {
        eofSent := eofSent + {job};
      }
    }

    /**
     One tick: refill, then one turn each from where the last tick ran dry.  `ticket`
     records the window of turns.
     */
    method PublishOnce(jobs: seq<Job>, now: real) returns (ghost ticket: Ticket)
      requires Valid() && lastRefill <= now
      requires (forall j | j in jobs :: j.Valid()) && Distinct(jobs)
      modifies this, jobs
      ensures Valid() && forall j | j in jobs :: j.Valid()
      ensures rate > 0 ==> lastRefill == now && tokens + (spent - old(spent)) as real == old(Refilled(now))
      ensures rate == 0 ==> lastRefill == old(lastRefill)
      ensures levels == old(levels) + [old(Refilled(now))]
      ensures Rotated(jobs, ticket, old(rotateFrom)) && visited == old(visited) + Turns(jobs, ticket)
      ensures jobs != [] && (rate == 0 || old(Refilled(now)) >= 1.0) ==> ticket.turns > 0
      ensures ticket.turns < |jobs| ==> rate > 0 && tokens < 1.0
    {
      Refill(now);
      ticket := Scan(jobs);
    }

    /**
     One execution's turn, which starts with a whole token; with nothing going wrong it is
     served, or the bucket is short.
     */
    method Turn(job: Job, weather: seq<Round>, eof: Fate)
      requires Valid() && job.Valid() && (rate > 0 ==> tokens >= 1.0)
      modifies this`tokens, this`spent, this`slipped, this`acked, this`eofSent, this`visited, job
      ensures Valid() && job.Valid() && visited == old(visited) + [job]
      ensures rate > 0 ==> tokens + spent as real == old(tokens) + old(spent) as real
      ensures (forall r | r in weather :: Clear(r)) ==> Served(job) || Short(job)
    {
      var _ := PublishAttempt(job, weather, eof);
    }

    /** Nothing of the execution waits to be published. */
    ghost predicate Served(job: Job)
      reads job
    {
      !job.known || job.capped || Frontier(job.stream) >= |job.file|
    }

    /** The turns of one tick, from `rotateFrom` on, until the bucket is dry. */
    method Scan(jobs: seq<Job>) returns (ghost ticket: Ticket)
      requires Valid() && (forall j | j in jobs :: j.Valid()) && Distinct(jobs)
      modifies this`tokens, this`spent, this`slipped, this`acked, this`eofSent, this`visited, this`rotateFrom, jobs
      ensures Valid() && forall j | j in jobs :: j.Valid()
      ensures rate > 0 ==> tokens + (spent - old(spent)) as real == old(tokens)
      ensures Rotated(jobs, ticket, old(rotateFrom)) && visited == old(visited) + Turns(jobs, ticket)
      ensures jobs != [] && (rate == 0 || old(tokens) >= 1.0) ==> ticket.turns > 0
      ensures ticket.turns < |jobs| ==> rate > 0 && tokens < 1.0
    {
      ticket := Ticket(0, 0);
      if jobs == [] {
        return;
      }
      ModIsSmall(rotateFrom, |jobs|);
      var start := rotateFrom % |jobs|;
      var idx := 0;
      while idx < |jobs|
        invariant idx <= |jobs|
        invariant Valid() && forall j | j in jobs :: j.Valid()
        invariant rate > 0 ==> tokens + (spent - old(spent)) as real == old(tokens)
        invariant rotateFrom == old(rotateFrom)
        invariant visited == old(visited) + Window(jobs, Ticket(start, idx))
        invariant idx == 0 ==> tokens == old(tokens)
      {
        if Allowance() == 0 {
          break;
        }
        WrapIsMod(start + idx, |jobs|);
        var job := jobs[(start + idx) % |jobs|];
        var weather: seq<Round>, eof: Fate := *, *;
        Turn(job, weather, eof);
        idx := idx + 1;
      }
      WrapIsMod(if idx < |jobs| then start + idx else 0, |jobs|);
      rotateFrom := if idx < |jobs| then (start + idx) % |jobs| else 0;
      ticket := Ticket(start, idx);
    }

    /** The window starts where the last tick ran dry, and the next one where this one does. */
    predicate Rotated(jobs: seq<Job>, ticket: Ticket, was: nat)
      reads this
    {
      && ticket.turns <= |jobs|
      && if jobs == [] then rotateFrom == was else
           && ticket.start < |jobs| && (was < |jobs| ==> ticket.start == was)
           && rotateFrom == NextStart(ticket, |jobs|)
    }

    /** One more tick keeps the bound counted from the refill at `first`. */
    method Tick(jobs: seq<Job>, now: real, ghost spent0: nat, ghost first: real) returns (ghost ticket: Ticket)
      requires Valid() && lastRefill <= now && (forall j | j in jobs :: j.Valid()) && Distinct(jobs)
      requires (first == now && spent0 == spent) || Within(spent0, first)
      modifies this, jobs
      ensures Valid() && (forall j | j in jobs :: j.Valid()) && Within(spent0, first)
      ensures lastRefill == if rate > 0 then now else old(lastRefill)
      ensures levels == old(levels) + [old(Refilled(now))]
      ensures Rotated(jobs, ticket, old(rotateFrom)) && visited == old(visited) + Turns(jobs, ticket)
      ensures jobs != [] && (rate == 0 || old(Refilled(now)) >= 1.0) ==> ticket.turns > 0
    {
      Pours(rate as real, now, lastRefill, first);
      ticket := PublishOnce(jobs, now);
    }

    /** Every refill but the first found a bucket that at least a whole token poured into. */
    predicate Apart(clock: seq<real>) {
      forall i | 0 < i < |clock| :: (clock[i] - clock[i-1]) * rate as real >= 1.0
    }

    /**
     Consecutive ticks over a fixed set of executions.  From the first refill on, no more
     is spent than two seconds' worth and what the clock pours.  As many ticks as there
     are executions give each of them a turn, if the bucket has a whole token after every
     refill; it has one when it had one after the first refill and the ticks are apart.
     */
    method Ticks(jobs: seq<Job>, clock: seq<real>) returns (ghost turns: seq<Job>)
      requires Valid() && (forall j | j in jobs :: j.Valid()) && Distinct(jobs)
      requires clock != [] && lastRefill <= clock[0] && forall i | 0 < i < |clock| :: clock[i-1] <= clock[i]
      modifies this, jobs
      ensures Valid() && forall j | j in jobs :: j.Valid()
      ensures rate > 0 ==> Within(old(spent), clock[0]) && lastRefill == clock[|clock|-1]
      ensures visited == old(visited) + turns
      ensures |levels| == |old(levels)| + |clock| && levels[|old(levels)|] == old(Refilled(clock[0]))
      ensures |clock| >= |jobs| && Fed(levels[|old(levels)|..]) ==> forall j | j in jobs :: j in turns
      ensures |clock| >= |jobs| && (rate == 0 || (old(Refilled(clock[0])) >= 1.0 && Apart(clock)))
        ==> forall j | j in jobs :: j in turns
    {
      turns := [];
      ghost var seen: seq<real>, start := [], Refilled(clock[0]);
      for i := 0 to |clock|
        invariant Valid() && forall j | j in jobs :: j.Valid()
        invariant rate == 0 || i == 0 ==> lastRefill == old(lastRefill)
        invariant SoFar(jobs, clock, i, old(spent), start, seen, turns)
        invariant visited == old(visited) + turns && levels == old(levels) + seen
      {
        Sorted(clock, i);
        ghost var ticket, level := TickOn(jobs, clock, i, old(spent), start, seen, turns);
        seen := seen + [level];
        turns := turns + Turns(jobs, ticket);
      }
      NoneLeft(jobs, turns, rotateFrom, |clock|);
      assert levels[|old(levels)|..] == seen;
    }

    /** What `i` ticks of the clock keep, with the bucket's levels and the turns so far. */
    ghost predicate SoFar(jobs: seq<Job>, clock: seq<real>, i: nat, spent0: nat, start: real, seen: seq<real>,
                          turns: seq<Job>)
      requires 0 < |clock| && i <= |clock|
      reads this
    {
      && (rate > 0 && i > 0 ==> lastRefill == clock[i-1])
      && (if i == 0 then spent == spent0 && Refilled(clock[0]) == start else Within(spent0, clock[0]))
      && |seen| == i && (i > 0 ==> seen[0] == start)
      && (Fed(seen) ==> Closing(jobs, turns, rotateFrom, i))
      && (rate == 0 || (start >= 1.0 && Apart(clock)) ==> Fed(seen))
    }

    method TickOn(jobs: seq<Job>, clock: seq<real>, i: nat, ghost spent0: nat, ghost start: real, ghost seen: seq<real>,
                  ghost turns: seq<Job>)
      returns (ghost ticket: Ticket, ghost level: real)
      requires Valid() && (forall j | j in jobs :: j.Valid()) && Distinct(jobs)
      requires i < |clock| && lastRefill <= clock[i] && SoFar(jobs, clock, i, spent0, start, seen, turns)
      modifies this, jobs
      ensures Valid() && forall j | j in jobs :: j.Valid()
      ensures lastRefill == if rate > 0 then clock[i] else old(lastRefill)
      ensures ticket.turns <= |jobs| && (jobs != [] ==> ticket.start < |jobs|)
      ensures SoFar(jobs, clock, i + 1, spent0, start, seen + [level], turns + Turns(jobs, ticket))
      ensures visited == old(visited) + Turns(jobs, ticket) && levels == old(levels) + [level]
    {
      ghost var from := rotateFrom;
      level := Refilled(clock[i]);
      ApartIsFed(clock, i);
      FedOnce(seen, level);
      ticket := Tick(jobs, clock[i], spent0, clock[0]);
      if Fed(seen + [level]) {
        ClosesIn(jobs, turns, from, ticket, rotateFrom, i);
      }
    }

    /** A whole token after every refill, or no limit. */
    predicate Fed(levels: seq<real>) {
      rate == 0 || forall i | 0 <= i < |levels| :: levels[i] >= 1.0
    }

    lemma FedOnce(levels: seq<real>, level: real)
      ensures Fed(levels + [level]) <==> Fed(levels) && (rate == 0 || level >= 1.0)
    {
      assert (levels + [level])[|levels|] == level;
      assert forall i | 0 <= i < |levels| :: (levels + [level])[i] == levels[i];
    }

    lemma ApartIsFed(clock: seq<real>, i: nat)
      requires Valid() && i < |clock| && (rate > 0 && i > 0 ==> lastRefill == clock[i-1])
      ensures rate > 0 && i > 0 && Apart(clock) ==> Refilled(clock[i]) >= 1.0
    {
      PouredIsFed(clock[i]);
    }

    lemma PouredIsFed(now: real)
      requires Valid()
      ensures rate > 0 && (now - lastRefill) * rate as real >= 1.0 ==> Refilled(now) >= 1.0
    {
      if rate > 0 && now - lastRefill <= 0.0 {
        Poured(lastRefill - now, rate as real);
        assert (lastRefill - now) * rate as real == -((now - lastRefill) * rate as real);
      }
    }

    /** Spent since, and still in the bucket: at most a full bucket and what was poured. */
    ghost predicate Within(spent0: nat, refill0: real)
      reads this
    {
      rate > 0 ==> (spent - spent0) as real + tokens <= Capacity() + rate as real * (lastRefill - refill0)
    }
  }

  lemma Pours(rate: real, now: real, last: real, first: real)
    ensures rate * (now - first) == rate * (last - first) + (now - last) * rate
  {
  }

  lemma {:induction false} Sorted(clock: seq<real>, i: nat)
    requires i < |clock| && forall k | 0 < k < |clock| :: clock[k-1] <= clock[k]
    ensures clock[0] <= clock[i]
  {
    if i > 0 {
      Sorted(clock, i - 1);
    }
  }

  /** A tick's turns: `turns` executions from `start` on, cyclically. */
  datatype Ticket = Ticket(start: nat, turns: nat)

  function Turns(jobs: seq<Job>, ticket: Ticket): seq<Job>
    requires ticket.turns <= |jobs| && (jobs != [] ==> ticket.start < |jobs|)
  {
    if jobs == [] then [] else Window(jobs, ticket)
  }

  /** What may still be read below the cap. */
  function Left(job: Job, at: nat): Option<nat> {
    if job.cap == 0 then None
    else Some(if at < ContentCap(job.cap, job.marker) then ContentCap(job.cap, job.marker) - at else 0)
  }

  /** What one iteration leaves in the stream. */
  function Published(stream: seq<Event>, at: nat, raw: Bytes, fate: Fate): seq<Event> {
    if raw == [] then stream else Landed(stream, Slice(at, raw), fate)
  }

  /** At most `want` bytes of the file from `at`; none if it cannot be read. */
  function Chunk(file: Bytes, at: nat, want: nat, readable: bool): (raw: Bytes)
    ensures |raw| <= want && (|raw| < want && readable ==> at + |raw| >= |file|) &&
      (raw != [] ==> readable && at + |raw| <= |file|)
  {
    if at >= |file| || !readable then [] else if at + want < |file| then file[at..at + want] else file[at..]
  }

  ghost predicate Distinct(jobs: seq<Job>) {
    forall i, j | 0 <= i < j < |jobs| :: jobs[i] != jobs[j]
  }

  function NextStart(ticket: Ticket, n: nat): (s: nat)
    requires n > 0
    ensures s < n
  {
    if ticket.turns < n && ticket.start < n then Wrap(ticket.start + ticket.turns, n) else 0
  }

  /** The remainder by `n`, once around at most. */
  function Wrap(x: nat, n: nat): (r: nat)
    requires x < 2 * n
    ensures r < n
  {
    if x < n then x else x - n
  }

  lemma WrapIsMod(x: nat, n: nat)
    requires x < 2 * n
    ensures Wrap(x, n) == x % n
  {
  }

  lemma ModIsSmall(x: nat, n: nat)
    requires n > 0
    ensures x % n < n && (x < n ==> x % n == x)
  {
  }

  function Window(jobs: seq<Job>, ticket: Ticket): seq<Job>
    requires ticket.start < |jobs| && ticket.turns <= |jobs|
  {
    seq(ticket.turns, i requires 0 <= i < ticket.turns => jobs[Wrap(ticket.start + i, |jobs|)])
  }

  /** How many turns after `start` the execution at `p` comes. */
  function Distance(start: nat, p: nat, n: nat): (d: nat)
    requires start < n && p < n
    ensures d < n && Wrap(start + d, n) == p
  {
    if start <= p then p - start else p + n - start
  }

  /** Whoever had no turn yet is less than `bound` turns away. */
  ghost predicate Near(jobs: seq<Job>, turns: seq<Job>, from: nat, bound: int)
    requires from < |jobs|
  {
    forall p | 0 <= p < |jobs| :: jobs[p] in turns || Distance(from, p, |jobs|) < bound
  }

  /** After `i` ticks that each gave a turn. */
  ghost predicate Closing(jobs: seq<Job>, turns: seq<Job>, from: nat, i: nat) {
    if i == 0 then turns == [] else jobs != [] ==> from < |jobs| && Near(jobs, turns, from, |jobs| - i)
  }

  lemma ClosesIn(jobs: seq<Job>, turns: seq<Job>, from: nat, ticket: Ticket, next: nat, i: nat)
    requires Closing(jobs, turns, from, i) && ticket.turns <= |jobs|
    requires jobs != [] ==>
      && 0 < ticket.turns && ticket.start < |jobs| && (from < |jobs| ==> ticket.start == from)
      && next == NextStart(ticket, |jobs|)
    ensures Closing(jobs, turns + Turns(jobs, ticket), next, i + 1)
  {
    if jobs != [] {
      TickBringsNearer(jobs, turns, ticket, |jobs| - i);
    }
  }

  lemma NoneLeft(jobs: seq<Job>, turns: seq<Job>, from: nat, i: nat)
    ensures i > 0 && Closing(jobs, turns, from, i) && i >= |jobs| ==> forall j | j in jobs :: j in turns
  {
    if i > 0 && Closing(jobs, turns, from, i) && i >= |jobs| {
      forall j | j in jobs ensures j in turns {
        var p :| 0 <= p < |jobs| && jobs[p] == j;
        assert jobs[p] in turns;
      }
    }
  }

  /** A tick gives its turns, and brings everyone else at least one turn closer. */
  lemma TickBringsNearer(jobs: seq<Job>, turns: seq<Job>, ticket: Ticket, bound: int)
    requires ticket.start < |jobs| && 0 < ticket.turns <= |jobs|
    requires Near(jobs, turns, ticket.start, bound)
    ensures Near(jobs, turns + Window(jobs, ticket), NextStart(ticket, |jobs|), bound - 1)
  {
    var n := |jobs|;
    forall p | 0 <= p < n
      ensures jobs[p] in turns + Window(jobs, ticket) || Distance(NextStart(ticket, n), p, n) < bound - 1
    {
      var d := Distance(ticket.start, p, n);
      if d < ticket.turns {
        assert Window(jobs, ticket)[d] == jobs[p];
      } else {
        Nearer(ticket.start, ticket.turns, p, n);
      }
    }
  }

  lemma Nearer(start: nat, turns: nat, p: nat, n: nat)
    requires start < n && p < n && turns <= Distance(start, p, n)
    ensures Distance(Wrap(start + turns, n), p, n) == Distance(start, p, n) - turns
  {
  }
}
