/** What a publisher's entries say about the bytes a job appended to its log. */
module LogTail {
  import opened Prelude
  import opened LogReceiver
  import opened LogReassembly
  import DirGauge

  function FloodMarker(cap: nat): Bytes {
    Ascii("\n[dopilot:job-log-truncated max_bytes=") + Decimal(cap) + Ascii(" reason=size-cap]\n")
  }

  /** Content allowed per execution: the cap less the marker. */
  function ContentCap(cap: nat, marker: Bytes): (c: nat)
    ensures c <= cap && (|marker| <= cap ==> c + |marker| == cap)
  {
    if cap > |marker| then cap - |marker| else 0
  }

  /** The log as the server should come to see it. */
  function Logical(written: Bytes, cap: nat, marker: Bytes): Bytes {
    if cap == 0 || |written| < ContentCap(cap, marker) then written
    else written[..ContentCap(cap, marker)] + marker
  }

  /** Below the cap the file is what was appended, however often it was cut. */
  predicate Faithful(file: Bytes, written: Bytes, cap: nat) {
    file == written || (cap > 0 && |file| >= cap && |written| >= cap && file[..cap] == written[..cap])
  }

  function Slice(at: nat, raw: Bytes): Event {
    Event(at, raw, |raw|, false)
  }

  /** An entry of appended bytes, wholly below the content cap. */
  predicate Content(ev: Event, written: Bytes, cap: nat, marker: Bytes) {
    && 0 <= ev.offset && ev.size == |ev.content| && ev.offset + ev.size <= |written|
    && (cap > 0 ==> ev.offset + ev.size <= ContentCap(cap, marker))
    && ev.content == written[ev.offset..ev.offset + ev.size]
  }

  /** The one marker entry, right behind the last content byte. */
  predicate Marker(ev: Event, written: Bytes, cap: nat, marker: Bytes) {
    && cap > 0 && ev.offset == ContentCap(cap, marker) <= |written|
    && ev.content == marker && ev.size == |marker|
  }

  predicate Told(ev: Event, written: Bytes, cap: nat, marker: Bytes) {
    Content(ev, written, cap, marker) || Marker(ev, written, cap, marker)
  }

  ghost predicate Honest(stream: seq<Event>, written: Bytes, cap: nat, marker: Bytes) {
    forall i | 0 <= i < |stream| :: Told(stream[i], written, cap, marker)
  }

  /** One past the furthest byte published. */
  function Frontier(stream: seq<Event>): nat {
    if stream == [] then 0 else
      var rest, ev := Frontier(stream[..|stream|-1]), stream[|stream|-1];
      if ev.offset + ev.size > rest then ev.offset + ev.size else rest
  }

  /** Every entry starts at or before what was published so far: nothing is skipped. */
  predicate NoSkip(stream: seq<Event>) {
    stream == [] ||
    var rest, ev := stream[..|stream|-1], stream[|stream|-1];
    NoSkip(rest) && ev.offset <= Frontier(rest)
  }

  /** Some entry says that the log has ended. */
  predicate SaysEnd(stream: seq<Event>) {
    stream != [] && (stream[|stream|-1].eof || SaysEnd(stream[..|stream|-1]))
  }

  /** An entry reaches past what was published, but starts before it. */
  predicate Straddles(ev: Event, frontier: nat) {
    ev.offset < frontier < ev.offset + ev.size
  }

  /** Each entry continues the stream or repeats what is already in it. */
  predicate NoStraddle(stream: seq<Event>) {
    stream == [] ||
    var rest, ev := stream[..|stream|-1], stream[|stream|-1];
    NoStraddle(rest) && !Straddles(ev, Frontier(rest))
  }

  /** The cursor is where the stream ends, but for the marker. */
  predicate InStep(stream: seq<Event>, cursor: nat, cap: nat, marker: Bytes) {
    && NoStraddle(stream)
    && (cursor == Frontier(stream) ||
      (cap > 0 && cursor == ContentCap(cap, marker) && Frontier(stream) == cursor + |marker|))
  }

  /** What was told stays true while the log grows. */
  lemma StillHonest(stream: seq<Event>, written: Bytes, more: Bytes, cap: nat, marker: Bytes)
    requires Honest(stream, written, cap, marker) && written <= more
    ensures Honest(stream, more, cap, marker)
  {
  }

  /** A read below the cap returns appended bytes, even from a cut file. */
  lemma ReadIsTrue(file: Bytes, written: Bytes, cap: nat, from: nat, to: nat)
    requires Faithful(file, written, cap) && from <= to <= |file| && (cap > 0 ==> to <= cap)
    ensures to <= |written| && file[from..to] == written[from..to]
  {
    if file != written {
      assert forall i | from <= i < to :: file[i] == file[..cap][i] && written[i] == written[..cap][i];
    }
  }

  /** The frontier never runs ahead of what was appended, nor past the cap and its marker. */
  lemma {:induction false} FrontierIsReal(stream: seq<Event>, written: Bytes, cap: nat, marker: Bytes)
    requires Honest(stream, written, cap, marker)
    ensures Frontier(stream) <= |Logical(written, cap, marker)|
    ensures cap > 0 && Frontier(stream) >= ContentCap(cap, marker) ==> ContentCap(cap, marker) <= |written|
  {
    if stream != [] {
      FrontierIsReal(stream[..|stream|-1], written, cap, marker);
      assert Told(stream[|stream|-1], written, cap, marker);
    }
  }

  lemma FrontierAfter(stream: seq<Event>, ev: Event)
    ensures Frontier(stream) <= Frontier(stream + [ev]) && ev.offset + ev.size <= Frontier(stream + [ev])
  {
    assert (stream + [ev])[..|stream|] == stream;
  }

  /** The marker is the last of it. */
  lemma MarkerEndsIt(stream: seq<Event>, ev: Event, written: Bytes, cap: nat, marker: Bytes)
    requires Honest(stream, written, cap, marker) && Marker(ev, written, cap, marker)
    ensures Frontier(stream + [ev]) == ContentCap(cap, marker) + |marker| >= Frontier(stream)
  {
    FrontierIsReal(stream, written, cap, marker);
    assert (stream + [ev])[..|stream|] == stream;
  }

  /** An empty entry moves no frontier. */
  lemma EofIsBehind(stream: seq<Event>, ev: Event)
    requires ev.size == 0 && ev.offset <= Frontier(stream)
    ensures Frontier(stream + [ev]) == Frontier(stream) && NoStraddle(stream + [ev]) == NoStraddle(stream)
  {
    assert (stream + [ev])[..|stream|] == stream;
  }

  lemma EofIsTold(stream: seq<Event>, at: nat, written: Bytes, cap: nat, marker: Bytes)
    requires Honest(stream, written, cap, marker) && at <= Frontier(stream) &&
      (cap > 0 ==> at <= ContentCap(cap, marker))
    ensures Content(Event(at, [], 0, true), written, cap, marker)
  {
    FrontierIsReal(stream, written, cap, marker);
  }

  /** Continuing the stream, or repeating the marker, keeps step. */
  lemma InStepAfter(stream: seq<Event>, ev: Event, cursor: nat, cap: nat, marker: Bytes)
    ensures InStep(stream, cursor, cap, marker) && ev == Slice(cursor, ev.content) &&
      (cap > 0 ==> cursor + ev.size <= ContentCap(cap, marker))
      ==> InStep(stream + [ev], cursor + ev.size, cap, marker)
    ensures InStep(stream, cursor, cap, marker) && ev == Slice(cursor, marker) && cap > 0 &&
      cursor == ContentCap(cap, marker)
      ==> InStep(stream + [ev], cursor, cap, marker)
  {
    assert (stream + [ev])[..|stream|] == stream;
  }

  // ---------------------------------------------------------------- the cutters agree

  lemma {:induction false} DecimalIsDigits(n: nat)
    ensures forall i | 0 <= i < |Decimal(n)| :: 48 <= Decimal(n)[i] < 58
  {
    if n >= 10 {
      DecimalIsDigits(n / 10);
    }
  }

  /** Neither newline nor closing bracket. */
  predicate Inner(b: Bytes) { forall i | 0 <= i < |b| :: b[i] != 10 && b[i] != 93 }

  lemma InnerText(s: string)
    requires forall i | 0 <= i < |s| :: s[i] as int < 128 && s[i] != '\n' && s[i] != ']'
    ensures Inner(Ascii(s))
  {
  }

  lemma AsciiJoins(a: string, b: string)
    ensures Ascii(a + b) == Ascii(a) + Ascii(b)
  {
  }

  lemma FramedByParts(head: Bytes, inner: Bytes)
    requires Inner(inner)
    ensures DirGauge.Framed(head + inner + Ascii("]\n"), head)
  {
    var m := head + inner + Ascii("]\n");
    assert m[..|head|] == head && m[|m|-2..] == Ascii("]\n");
    assert forall i | |head| <= i < |m| - 2 :: m[i] == inner[i - |head|];
  }

  lemma FramedInParts(m: Bytes, head: Bytes)
    requires DirGauge.Framed(m, head)
    ensures m == head + m[|head|..|m|-2] + Ascii("]\n") && Inner(m[|head|..|m|-2])
  {
  }

  /** A line that says that the log was cut, by the one side or the other. */
  ghost predicate CutLine(m: Bytes) {
    exists inner :: Inner(inner) && (m == Ascii("\n[dopilot:log-truncated ") + inner + Ascii("]\n")
                                     || m == Ascii("\n[dopilot:job-log-truncated ") + inner + Ascii("]\n"))
  }

  /** A file is taken for cut exactly if nothing but such a line, of at most 160 bytes, is behind the cap. */
  lemma TakenForCut(file: Bytes, cap: nat)
    ensures DirGauge.AlreadyCapped(file, cap) <==> cap < |file| <= cap + 160 && CutLine(file[cap..])
  {
    if cap < |file| {
      var m := file[cap..];
      var long, job := Ascii("\n[dopilot:log-truncated "), Ascii("\n[dopilot:job-log-truncated ");
      if CutLine(m) {
        var inner :| Inner(inner) && (m == long + inner + Ascii("]\n") || m == job + inner + Ascii("]\n"));
        FramedByParts(long, inner);
        FramedByParts(job, inner);
      }
      if DirGauge.Framed(m, long) {
        FramedInParts(m, long);
      }
      if DirGauge.Framed(m, job) {
        FramedInParts(m, job);
      }
    }
  }

  /** What the watchdog leaves, the janitor recognizes: a cut file is never cut again. */
  lemma CutIsSettled(file: Bytes, cap: nat)
    requires |file| >= cap && |FloodMarker(cap)| <= DirGauge.MAX_MARKER_LEN
    ensures DirGauge.AlreadyCapped(file[..cap] + FloodMarker(cap), cap)
  {
    var head, body := "\n[dopilot:job-log-truncated ", file[..cap] + FloodMarker(cap);
    var inner := Ascii("max_bytes=") + Decimal(cap) + Ascii(" reason=size-cap");
    DecimalIsDigits(cap);
    InnerText("max_bytes=");
    InnerText(" reason=size-cap");
    FramedByParts(Ascii(head), inner);
    AsciiJoins(head, "max_bytes=");
    AsciiJoins(" reason=size-cap", "]\n");
    assert FloodMarker(cap) == Ascii(head) + inner + Ascii("]\n");
    assert body[cap..] == FloodMarker(cap) && |FloodMarker(cap)| > 0;
  }
}
