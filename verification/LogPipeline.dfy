/** Publisher and receiver together: what reaches the server's file. */
module LogPipeline {
  import opened Prelude
  import opened LogReceiver
  import opened LogReassembly
  import opened LogTail
  import LogPublishers

  /** Published entries are slices of one byte string, which only grows with the log. */
  lemma ToldIsGenuine(ev: Event, written: Bytes, cap: nat, marker: Bytes)
    requires Told(ev, written, cap, marker)
    ensures Genuine(ev, Logical(written, cap, marker))
    ensures cap > 0 && |marker| <= cap ==> ev.offset + ev.size <= cap
  {
    if cap > 0 && |written| >= ContentCap(cap, marker) {
      var c := ContentCap(cap, marker);
      if Content(ev, written, cap, marker) {
        assert (written[..c] + marker)[ev.offset..ev.offset + ev.size] == written[ev.offset..ev.offset + ev.size];
      } else {
        assert (written[..c] + marker)[c..c + |marker|] == marker;
      }
    }
  }

  lemma LogicalGrows(written: Bytes, more: Bytes, cap: nat, marker: Bytes)
    requires written <= more
    ensures Logical(written, cap, marker) <= Logical(more, cap, marker)
  {
    var c := ContentCap(cap, marker);
    if cap > 0 && |more| >= c && |written| >= c {
      assert written[..c] == more[..c];
    }
  }

  /** Every byte below the frontier is in some published entry: none is skipped. */
  lemma {:induction false} NothingSkipped(stream: seq<Event>, k: nat)
    requires NoSkip(stream) && k < Frontier(stream)
    ensures exists ev | ev in stream :: ev.offset <= k < ev.offset + ev.size
  {
    var rest, ev := stream[..|stream|-1], stream[|stream|-1];
    assert ev in stream;
    if k < Frontier(rest) {
      NothingSkipped(rest, k);
      var e :| e in rest && e.offset <= k < e.offset + e.size;
      assert e in stream;
    }
  }

  /**
   End to end: however the stream loses, repeats and reorders what was published, the
   server holds increasing slices of the log, and a row without gaps holds a prefix of it.
   */
  lemma EndToEnd(stream: seq<Event>, written: Bytes, cap: nat, marker: Bytes, delivered: seq<Event>)
    returns (spans: seq<Span>)
    requires Honest(stream, written, cap, marker) && forall e | e in delivered :: e in stream
    ensures var sent, log := Logical(written, cap, marker), Run(NEW, delivered);
      && Holds(log, sent, spans)
      && (log.row.gaps == 0 <==> log.row.integrity == Whole)
      && (log.row.gaps == 0 ==> 0 <= log.row.last <= |sent| && log.body == sent[..log.row.last])
  {
    var sent := Logical(written, cap, marker);
    forall e | e in delivered
      ensures Genuine(e, sent)
    {
      var i :| 0 <= i < |stream| && stream[i] == e;
      ToldIsGenuine(stream[i], written, cap, marker);
    }
    spans := Reassembly(sent, delivered);
    CompleteMeansComplete(sent, delivered);
  }

  // ------------------------------------------------- delivery in order

  /** After each entry so far the server had every published byte. */
  ghost predicate AlwaysCaughtUp(stream: seq<Event>, sent: Bytes) {
    && UpTo(Run(NEW, stream), sent, Frontier(stream))
    && (stream != [] ==> AlwaysCaughtUp(stream[..|stream|-1], sent))
  }

  /**
   Delivered in publication order, the server is always caught up exactly when no
   published entry starts before what was already published and ends after it.
   */
  lemma {:induction false} CaughtUpIffNoStraddle(stream: seq<Event>, sent: Bytes)
    requires NoSkip(stream) && forall i | 0 <= i < |stream| :: Genuine(stream[i], sent)
    ensures AlwaysCaughtUp(stream, sent) <==> NoStraddle(stream)
  {
    if stream != [] {
      var rest, ev := stream[..|stream|-1], stream[|stream|-1];
      CaughtUpIffNoStraddle(rest, sent);
      if NoStraddle(rest) {
        NextInOrder(Run(NEW, rest), sent, ev, Frontier(rest));
      }
    }
  }

  /** Whatever genuine slice comes next, where the stream ends, it records no gap. */
  ghost predicate NextIsClean(stream: seq<Event>, sent: Bytes) {
    forall ev, more | Genuine(ev, more) && sent <= more && ev.size > 0 && ev.offset == Frontier(stream) ::
      Run(NEW, stream + [ev]).row.gaps == 0
  }

  /** So far, and wherever the stream is continued where it ends, there is no gap. */
  ghost predicate NeverGaps(stream: seq<Event>, sent: Bytes) {
    NextIsClean(stream, sent) && (stream != [] ==> NeverGaps(stream[..|stream|-1], sent))
  }

  /**
   Delivered in publication order, no prefix of the stream, continued where it ends, makes
   a false gap, if and only if no published entry starts before what was already
   published and ends after it.
   */
  lemma {:induction false} NoFalseGapIff(stream: seq<Event>, sent: Bytes)
    requires NoSkip(stream) && forall i | 0 <= i < |stream| :: Genuine(stream[i], sent)
    ensures NeverGaps(stream, sent) <==> NoStraddle(stream)
  {
    CaughtUpIffNoStraddle(stream, sent);
    if NoStraddle(stream) {
      CaughtUpIsClean(stream, sent);
    }
    if stream != [] {
      var rest := stream[..|stream|-1];
      NoFalseGapIff(rest, sent);
      if NoStraddle(rest) && !NoStraddle(stream) {
        CaughtUpIffNoStraddle(rest, sent);
        StraddleGaps(stream, sent);
      }
    }
  }

  lemma CaughtUpIsClean(stream: seq<Event>, sent: Bytes)
    requires UpTo(Run(NEW, stream), sent, Frontier(stream))
    ensures NextIsClean(stream, sent)
  {
    forall ev, more | Genuine(ev, more) && sent <= more && ev.size > 0 && ev.offset == Frontier(stream)
      ensures Run(NEW, stream + [ev]).row.gaps == 0
    {
      assert (stream + [ev])[..|stream|] == stream;
    }
  }

  /** A straddling entry is dropped; then the next byte is missing its predecessors. */
  lemma StraddleGaps(stream: seq<Event>, sent: Bytes)
    requires stream != [] && Genuine(stream[|stream|-1], sent)
    requires var rest := stream[..|stream|-1];
      UpTo(Run(NEW, rest), sent, Frontier(rest)) && Straddles(stream[|stream|-1], Frontier(rest))
    ensures !NextIsClean(stream, sent)
  {
    var n, more := Frontier(stream), sent + [0];
    var ev := Slice(n, more[n..n+1]);
    assert Genuine(ev, more) && sent <= more;
    assert (stream + [ev])[..|stream|] == stream;
    assert Run(NEW, stream + [ev]).row.gaps == 1;
  }

  lemma NextInOrder(log: Log, sent: Bytes, ev: Event, frontier: nat)
    requires UpTo(log, sent, frontier) && Genuine(ev, sent) && ev.offset <= frontier
    ensures UpTo(Receive(log, ev, 0, None), sent,
                 if ev.offset + ev.size > frontier then ev.offset + ev.size else frontier)
      <==> !Straddles(ev, frontier)
  {
    if ev.offset == frontier {
      assert sent[..frontier] + sent[frontier..frontier + ev.size] == sent[..frontier + ev.size];
    }
  }

  /** A publisher whose cursor kept up: in order, the server has exactly what was published. */
  lemma SteadyIsExact(stream: seq<Event>, written: Bytes, cursor: nat, cap: nat, marker: Bytes)
    requires Honest(stream, written, cap, marker) && NoSkip(stream) && InStep(stream, cursor, cap, marker)
    ensures UpTo(Run(NEW, stream), Logical(written, cap, marker), Frontier(stream))
    ensures Run(NEW, stream).row.last >= cursor
  {
    var sent := Logical(written, cap, marker);
    forall i | 0 <= i < |stream|
      ensures Genuine(stream[i], sent)
    {
      ToldIsGenuine(stream[i], written, cap, marker);
    }
    CaughtUpIffNoStraddle(stream, sent);
  }

  /**
   The publisher's promise of no false gap fails after a crash between XADD and the
   cursor write, while the job goes on writing: the publisher sends a longer slice again.
   */
  method CrashBeforeTheCursor(a: Byte, b: Byte, c: Byte) returns (job: LogPublishers.Job)
    ensures job.Valid() && job.cap == 0 && job.written == [a, b, c]
    ensures job.stream == [Slice(0, [a]), Slice(0, [a, b]), Slice(2, [c])]
    ensures Run(NEW, job.stream).row.gaps == 1 && Run(NEW, job.stream).row.integrity == Partial
    ensures Run(NEW, job.stream).body == [a] + GapMarker(1, 2) + [c] && !NoStraddle(job.stream)
  {
    job := new LogPublishers.Job(0);
    var before := new LogPublishers.LogPublisher(0, 8, 0.0);
    GrowAndSend(before, job, [a], false);
    var after := new LogPublishers.LogPublisher(0, 8, 0.0);
    GrowAndSend(after, job, [b], true);
    GrowAndSend(after, job, [c], true);
    assert [a, b, c][2..] == [c];
    assert [Slice(0, [a])] + [Slice(0, [a, b])] + [Slice(2, [c])] == [Slice(0, [a]), Slice(0, [a, b]), Slice(2, [c])];
    FalseGapAfterCrash(a, b, c);
  }

  /** The job appends, and the publisher sends what is behind its cursor. */
  method GrowAndSend(p: LogPublishers.LogPublisher, job: LogPublishers.Job, data: Bytes, kept: bool)
    requires p.Valid() && job.Valid() && p.rate == 0 && job.cap == 0
    requires job.cursor < |job.file + data| <= job.cursor + p.maxBytes
    modifies p, job
    ensures p.Valid() && job.Valid()
    ensures job.written == old(job.written) + data && job.file == old(job.file) + data
    ensures job.stream == old(job.stream) + [Slice(old(job.cursor), job.file[old(job.cursor)..])]
    ensures job.cursor == if kept then |job.file| else old(job.cursor)
  {
    job.Grow(data);
    var _, _ := p.Step(job, job.cursor, LogPublishers.Round([], true, LogPublishers.Heard, kept));
  }

  /** There the longer slice is dropped whole, and the next one gaps. */
  lemma FalseGapAfterCrash(a: Byte, b: Byte, c: Byte)
    ensures var stream := [Slice(0, [a]), Slice(0, [a, b]), Slice(2, [c])];
      && !NoStraddle(stream) && Honest(stream, [a, b, c], 0, []) && NoSkip(stream) && Straddles(stream[1], 1)
      && Run(NEW, stream).row.gaps == 1 && Run(NEW, stream).row.integrity == Partial
      && Run(NEW, stream).body == [a] + GapMarker(1, 2) + [c]
  {
    var s0, s1, s2 := Slice(0, [a]), Slice(0, [a, b]), Slice(2, [c]);
    var two := [s0, s1];
    var stream := [s0, s1, s2];
    assert stream[..2] == two && two[..1] == [s0] && [s0][..0] == [];
    assert NoSkip([]) && NoSkip([s0]) && NoSkip(two);
    assert Frontier([s0]) == 1 && Frontier(two) == 2;
    assert Run(NEW, [s0]) == Receive(NEW, s0, 0, None);
    assert Run(NEW, two) == Run(NEW, [s0]);
    assert Run(NEW, stream) == Receive(Run(NEW, two), s2, 0, None);
    assert [a] + (GapMarker(1, 2) + [c]) == [a] + GapMarker(1, 2) + [c];
  }
}
