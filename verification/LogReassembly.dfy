/**
 What any delivery of a log's entries leaves on the server: lost, repeated and
 reordered entries, with the caps off and on.
 */
module LogReassembly {
  import opened Prelude
  import opened LogReceiver

  const NEW := Log(FRESH, [])

  /** The log after the entries, no cap and no gauge in the way. */
  function Run(log: Log, events: seq<Event>): Log {
    if events == [] then log else Receive(Run(log, events[..|events|-1]), events[|events|-1], 0, None)
  }

  // ------------------------------------------------- the sender's bytes, and spans of them

  datatype Span = Span(from: nat, to: nat)

  /** The entry is a slice of the sender's bytes. */
  ghost predicate Genuine(ev: Event, sent: Bytes) {
    && 0 <= ev.offset && ev.size == |ev.content| && ev.offset + ev.size <= |sent|
    && ev.content == sent[ev.offset..ev.offset + ev.size]
  }

  function End(spans: seq<Span>): nat {
    if spans == [] then 0 else spans[|spans|-1].to
  }

  /** Nonempty spans below `limit`, each starting at or after the end of the one before. */
  ghost predicate Increasing(spans: seq<Span>, limit: nat) {
    spans == [] ||
    var rest, last := spans[..|spans|-1], spans[|spans|-1];
    Increasing(rest, limit) && End(rest) <= last.from < last.to <= limit
  }

  /** The last span does not start where the one before it ends. */
  predicate LastJumps(spans: seq<Span>) {
    spans != [] && End(spans[..|spans|-1]) < spans[|spans|-1].from
  }

  function JumpCount(spans: seq<Span>): nat {
    if spans == [] then 0
    else JumpCount(spans[..|spans|-1]) + if LastJumps(spans) then 1 else 0
  }

  function FirstJump(spans: seq<Span>): Option<Jump> {
    if spans == [] then None else
      var rest := spans[..|spans|-1];
      if FirstJump(rest) == None && LastJumps(spans) then Some(Jump(End(rest), spans[|spans|-1].from))
        else FirstJump(rest)
  }

  /** The slices one after another, a marker wherever bytes are missing. */
  function Assembled(sent: Bytes, spans: seq<Span>): Bytes
    requires Increasing(spans, |sent|)
  {
    if spans == [] then [] else
      var rest, last := spans[..|spans|-1], spans[|spans|-1];
      Assembled(sent, rest) + Piece(sent, End(rest), last)
  }

  function Piece(sent: Bytes, end: nat, span: Span): Bytes
    requires span.from <= span.to <= |sent|
  {
    if end < span.from then GapMarker(end, span.from) + sent[span.from..span.to] else sent[span.from..span.to]
  }

  /** The log holds exactly these slices of the sender's bytes. */
  ghost predicate Holds(log: Log, sent: Bytes, spans: seq<Span>) {
    && Increasing(spans, |sent|)
    && log.body == Assembled(sent, spans)
    && log.row.last == End(spans)
    && log.row.gaps == JumpCount(spans)
    && log.row.firstGap == FirstJump(spans)
    && log.row.size == |log.body| && (spans != [] ==> log.row.finalOffset == Some(|log.body|))
    && log.row.status == Active
    && log.row.integrity == (if JumpCount(spans) == 0 then Whole else Partial)
  }

  /** Every slice was delivered as one entry. */
  ghost predicate Delivered(spans: seq<Span>, events: seq<Event>) {
    forall s | s in spans :: exists e | e in events :: e.offset == s.from && e.offset + e.size == s.to
  }

  /** The first byte of every delivered slice is behind the cursor. */
  ghost predicate Passed(log: Log, events: seq<Event>) {
    forall e | e in events && e.content != [] :: e.offset < log.row.last
  }

  // ------------------------------------------------- reassembly

  /** Whatever is delivered, the body is those slices and the row tells where it jumped. */
  lemma {:induction false} Reassembly(sent: Bytes, events: seq<Event>) returns (spans: seq<Span>)
    requires forall e | e in events :: Genuine(e, sent)
    ensures Holds(Run(NEW, events), sent, spans)
    ensures Delivered(spans, events)
    ensures Passed(Run(NEW, events), events)
  {
    if events == [] {
      spans := [];
    } else {
      var before, ev := events[..|events|-1], events[|events|-1];
      assert events == before + [ev];
      spans := Reassembly(sent, before);
      if Takes(Run(NEW, before).row, ev) {
        var more := TakenOn(Run(NEW, before), sent, spans, ev);
        DeliveredMore(spans, before, ev, Run(NEW, before), Run(NEW, events));
        spans := more;
      }
    }
  }

  lemma DeliveredMore(spans: seq<Span>, before: seq<Event>, ev: Event, log: Log, next: Log)
    requires Delivered(spans, before) && Passed(log, before) && ev.offset >= 0 && ev.size >= 0
    requires Takes(log.row, ev) && next.row.last == ev.offset + ev.size > ev.offset
    ensures Delivered(spans + [Span(ev.offset, ev.offset + ev.size)], before + [ev]) && Passed(next, before + [ev])
  {
    assert ev in before + [ev] && forall e | e in before :: e in before + [ev];
    assert forall e | e in before + [ev] :: e in before || e == ev;
  }

  lemma TakenOn(log: Log, sent: Bytes, spans: seq<Span>, ev: Event) returns (more: seq<Span>)
    requires Holds(log, sent, spans) && Genuine(ev, sent) && Takes(log.row, ev)
    ensures Holds(Receive(log, ev, 0, None), sent, more) && Receive(log, ev, 0, None).row.last == ev.offset + ev.size
    ensures more == spans + [Span(ev.offset, ev.offset + ev.size)]
  {
    Unlimited(log, sent, ev);
    more := OneMore(log, Receive(log, ev, 0, None), sent, spans, ev);
  }

  /** One accepted slice is one more span. */
  lemma OneMore(log: Log, next: Log, sent: Bytes, spans: seq<Span>, ev: Event) returns (more: seq<Span>)
    requires Holds(log, sent, spans) && Genuine(ev, sent) && Takes(log.row, ev)
    requires next.row == Moved(NoteGap(log.row, ev), ev, None, |next.body|)
    requires next.body == log.body + Piece(sent, End(spans), Span(ev.offset, ev.offset + ev.size))
    ensures Holds(next, sent, more)
    ensures more == spans + [Span(ev.offset, ev.offset + ev.size)]
  {
    more := spans + [Span(ev.offset, ev.offset + ev.size)];
    MoreSpans(sent, spans, Span(ev.offset, ev.offset + ev.size));
  }

  /** With no cap and no gauge an accepted entry is written whole. */
  lemma Unlimited(log: Log, sent: Bytes, ev: Event)
    requires Takes(log.row, ev) && Genuine(ev, sent) && log.row.last >= 0
    ensures var next := Receive(log, ev, 0, None);
      && next.body == log.body + Piece(sent, log.row.last, Span(ev.offset, ev.offset + ev.size))
      && next.row == Moved(NoteGap(log.row, ev), ev, None, |next.body|)
  {
  }

  lemma MoreSpans(sent: Bytes, spans: seq<Span>, last: Span)
    requires Increasing(spans, |sent|) && End(spans) <= last.from < last.to <= |sent|
    ensures var more := spans + [last];
      && Increasing(more, |sent|) && End(more) == last.to
      && JumpCount(more) == JumpCount(spans) + (if End(spans) < last.from then 1 else 0)
      && FirstJump(more) == (
        if FirstJump(spans) == None && End(spans) < last.from then Some(Jump(End(spans), last.from))
        else FirstJump(spans))
      && Assembled(sent, more) == Assembled(sent, spans) + Piece(sent, End(spans), last)
  {
    var more := spans + [last];
    assert more[..|more|-1] == spans;
  }

  /** No recorded gap: the body is the sender's first bytes, to the cursor. */
  lemma {:induction false} WholeIsPrefix(sent: Bytes, spans: seq<Span>)
    requires Increasing(spans, |sent|) && JumpCount(spans) == 0
    ensures End(spans) <= |sent| && Assembled(sent, spans) == sent[..End(spans)]
  {
    if spans != [] {
      WholeIsPrefix(sent, spans[..|spans|-1]);
    }
  }

  /** `complete` means: exactly the sender's bytes up to the cursor. */
  lemma CompleteMeansComplete(sent: Bytes, events: seq<Event>)
    requires forall e | e in events :: Genuine(e, sent)
    ensures var log := Run(NEW, events);
      && (log.row.integrity == Whole <==> log.row.gaps == 0)
      && (log.row.integrity == Whole ==> 0 <= log.row.last <= |sent| && log.body == sent[..log.row.last])
  {
    var spans := Reassembly(sent, events);
    if JumpCount(spans) == 0 {
      WholeIsPrefix(sent, spans);
    }
  }

  /** Redelivering anything already delivered, in any order, changes nothing. */
  lemma {:induction false} RedeliveryIsSilent(sent: Bytes, events: seq<Event>, again: seq<Event>)
    requires forall e | e in events :: Genuine(e, sent)
    requires forall e | e in again :: e in events
    ensures Run(Run(NEW, events), again) == Run(NEW, events)
  {
    if again != [] {
      var _ := Reassembly(sent, events);
      RedeliveryIsSilent(sent, events, again[..|again|-1]);
      assert again[|again|-1] in events;
    }
  }

  // ------------------------------------------------- in order, with duplicates

  /** Entry `i` covers the sender's bytes between two cuts. */
  ghost predicate Cuts(cuts: seq<nat>, sent: Bytes) {
    && |cuts| > 0 && cuts[0] == 0 && cuts[|cuts|-1] <= |sent|
    && forall i, j | 0 <= i < j < |cuts| :: cuts[i] < cuts[j]
  }

  function Entry(cuts: seq<nat>, sent: Bytes, i: nat): Event
    requires Cuts(cuts, sent) && i + 1 < |cuts|
  {
    assert cuts[i] < cuts[i+1] && (i + 1 < |cuts| - 1 ==> cuts[i+1] < cuts[|cuts|-1]);
    Event(cuts[i], sent[cuts[i]..cuts[i+1]], cuts[i+1] - cuts[i], false)
  }

  /** Each entry is first delivered after the one before it; repeats are free. */
  ghost predicate FirstSeenInOrder(order: seq<nat>) {
    order == [] ||
    var rest, last := order[..|order|-1], order[|order|-1];
    FirstSeenInOrder(rest) && (last > 0 ==> last - 1 in rest)
  }

  function Entries(cuts: seq<nat>, sent: Bytes, order: seq<nat>): seq<Event>
    requires Cuts(cuts, sent) && forall i | i in order :: i + 1 < |cuts|
  {
    seq(|order|, k requires 0 <= k < |order| => assert order[k] in order; Entry(cuts, sent, order[k]))
  }

  function Top(order: seq<nat>): nat {
    if order == [] then 0 else
      var rest := Top(order[..|order|-1]);
      if order[|order|-1] + 1 > rest then order[|order|-1] + 1 else rest
  }

  /** Every delivered entry is below the top, which is one past some delivered entry. */
  lemma {:induction false} TopBounds(order: seq<nat>)
    ensures forall i | i in order :: i < Top(order)
    ensures Top(order) > 0 ==> Top(order) - 1 in order
  {
    if order != [] {
      TopBounds(order[..|order|-1]);
      assert order == order[..|order|-1] + [order[|order|-1]];
    }
  }

  /** Exactly the sender's first `n` bytes, with nothing recorded against them. */
  ghost predicate UpTo(log: Log, sent: Bytes, n: nat) {
    && log.row.status == Active && log.row.integrity == Whole && log.row.gaps == 0
    && n <= |sent| && log.row.last == n && log.body == sent[..n]
  }

  /** Contiguous entries first seen in order never record a gap, and nothing is missing. */
  lemma {:induction false} InOrderNeverGaps(cuts: seq<nat>, sent: Bytes, order: seq<nat>)
    requires Cuts(cuts, sent) && (forall i | i in order :: i + 1 < |cuts|) && FirstSeenInOrder(order)
    ensures Top(order) < |cuts| && UpTo(Run(NEW, Entries(cuts, sent, order)), sent, cuts[Top(order)])
  {
    TopBounds(order);
    if order != [] {
      var n := |order| - 1;
      var rest := order[..n];
      assert order == rest + [order[n]];
      assert forall i | i in rest :: i in order;
      InOrderNeverGaps(cuts, sent, rest);
      TopBounds(rest);
      assert order[n] in order;
      NextEntry(cuts, sent, Run(NEW, Entries(cuts, sent, rest)), order[n], Top(rest));
      RunOneMore(cuts, sent, order, n);
    }
  }

  lemma RunOneMore(cuts: seq<nat>, sent: Bytes, order: seq<nat>, n: nat)
    requires Cuts(cuts, sent) && (forall i | i in order :: i + 1 < |cuts|) && |order| == n + 1 && order[n] + 1 < |cuts|
    ensures (forall i | i in order[..n] :: i + 1 < |cuts|)
    ensures Run(NEW, Entries(cuts, sent, order)) ==
      Receive(Run(NEW, Entries(cuts, sent, order[..n])), Entry(cuts, sent, order[n]), 0, None)
  {
    assert forall i | i in order[..n] :: i in order;
    assert Entries(cuts, sent, order)[..n] == Entries(cuts, sent, order[..n]);
  }

  /** The next entry extends the prefix; an earlier one is dropped. */
  lemma NextEntry(cuts: seq<nat>, sent: Bytes, log: Log, i: nat, top: nat)
    requires Cuts(cuts, sent) && i <= top < |cuts| && i + 1 < |cuts|
    requires UpTo(log, sent, cuts[top])
    ensures UpTo(Receive(log, Entry(cuts, sent, i), 0, None), sent, cuts[if i == top then top + 1 else top])
  {
    if i == top {
      assert sent[..cuts[i]] + sent[cuts[i]..cuts[i+1]] == sent[..cuts[i+1]];
    } else {
      assert cuts[i] < cuts[top];
    }
  }

  // ------------------------------------------------- the cap

  function RunCapped(log: Log, events: seq<Event>, cap: nat): Log {
    if events == [] then log else Receive(RunCapped(log, events[..|events|-1], cap), events[|events|-1], cap, None)
  }

  /** What a capped file shows of an uncapped one. */
  function Clip(body: Bytes, cap: nat): Bytes {
    if |body| <= cap then body else body[..cap] + TruncationMarker(cap, SizeCap)
  }

  /**
   With a cap the file is the uncapped file, clipped: the first `cap` bytes and one
   marker, whatever is delivered.  The cursor moves as if there were no cap.
   */
  lemma {:induction false} CapOnlyClips(events: seq<Event>, cap: nat)
    requires cap > 0
    ensures var free, capped := Run(NEW, events), RunCapped(NEW, events, cap);
      && capped.body == Clip(free.body, cap)
      && capped.row.last == free.row.last && capped.row.status == free.row.status
      && (capped.row.integrity == Truncated <==> |free.body| > cap)
      && (|free.body| <= cap ==> capped == free)
      && free.row.integrity != Truncated
  {
    if events != [] {
      CapOnlyClips(events[..|events|-1], cap);
      var free, capped := Run(NEW, events[..|events|-1]), RunCapped(NEW, events[..|events|-1], cap);
      var ev := events[|events|-1];
      if Takes(free.row, ev) {
        if |free.body| > cap {
          ClipStays(free.body, Payload(free.row, ev), cap);
        } else {
          ClipOnce(free.body, Payload(free.row, ev), cap);
        }
      }
    }
  }

  lemma ClipStays(body: Bytes, more: Bytes, cap: nat)
    requires |body| > cap
    ensures Clip(body + more, cap) == Clip(body, cap)
  {
    assert (body + more)[..cap] == body[..cap];
  }

  /** The planned write is the clipped growth. */
  lemma ClipOnce(body: Bytes, more: Bytes, cap: nat)
    requires |body| <= cap && cap > 0
    ensures body + PlanWrite(|body|, more, cap, None).bytes == Clip(body + more, cap)
  {
    if |body + more| > cap {
      assert (body + more)[..cap] == body + more[..cap - |body|];
    }
  }
}
