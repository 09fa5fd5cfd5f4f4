/**
 The paged sweep over sent commands: a keyset cursor, a boundary frozen at sweep start,
 and the number of calls within which any row is looked at, whatever happens between them.
 */
module SentSweep {
  import opened Prelude

  /** What the pages are ordered by: the last update, then the command id. */
  datatype Key = Key(stamp: int, id: nat)

  /** The sweep between calls: at its start, or past `last` below a frozen boundary. */
  datatype Cursor = Start | At(last: Key, hwm: int)

  predicate Less(a: Key, b: Key) {
    a.stamp < b.stamp || (a.stamp == b.stamp && a.id < b.id)
  }

  function Eligible(rows: set<Key>, hwm: int): set<Key> {
    set k | k in rows && k.stamp < hwm
  }

  /** The rows the frozen sweep still has to visit. */
  function Ahead(cursor: Cursor, rows: set<Key>, cutoff: int): set<Key> {
    match cursor
    case Start => Eligible(rows, cutoff)
    case At(last, hwm) => set k | k in rows && k.stamp < hwm && Less(last, k)
  }

  /** Whether this call begins a sweep, at once or by wrapping around. */
  predicate Begins(cursor: Cursor, rows: set<Key>, cutoff: int) {
    cursor == Start || Ahead(cursor, rows, cutoff) == {}
  }

  /** What this call takes its page from. */
  function Source(cursor: Cursor, rows: set<Key>, cutoff: int): set<Key> {
    if Begins(cursor, rows, cutoff) then Eligible(rows, cutoff) else Ahead(cursor, rows, cutoff)
  }

  // ---------------------------------------------------------------- pages

  lemma {:induction false} LeastExists(s: set<Key>) returns (m: Key)
    requires s != {}
    ensures m in s && forall k | k in s :: k == m || Less(m, k)
  {
    var first :| first in s;
    m := first;
    if s - {first} != {} {
      var n := LeastExists(s - {first});
      if Less(n, first) {
        m := n;
      }
    }
    assert forall k | k in s :: k == first || k in s - {first};
  }

  function Least(s: set<Key>): (m: Key)
    requires s != {}
    ensures m in s && forall k | k in s :: k == m || Less(m, k)
  {
    assert exists m | m in s :: forall k | k in s :: k == m || Less(m, k) by {
      var m := LeastExists(s);
    }
    var m :| m in s && forall k | k in s :: k == m || Less(m, k);
    m
  }

  /** The first `n` keys in order. */
  function Page(s: set<Key>, n: nat): seq<Key> {
    if n == 0 || s == {} then [] else [Least(s)] + Page(s - {Least(s)}, n - 1)
  }

  /** A page is the least keys of its source: `batch` of them, or all. */
  lemma {:induction false} PageIsLeast(s: set<Key>, n: nat)
    ensures var p := Page(s, n);
      && |p| == (if |s| < n then |s| else n)
      && (forall k | k in p :: k in s)
      && (|s| <= n ==> forall k | k in s :: k in p)
      && (forall k | k in s && k !in p :: p != [] ==> Less(p[|p|-1], k))
      && (forall k | k in p :: k == p[|p|-1] || Less(k, p[|p|-1]))
  {
    if n > 0 && s != {} {
      PageIsLeast(s - {Least(s)}, n - 1);
      var rest := Page(s - {Least(s)}, n - 1);
      var p := Page(s, n);
      assert p == [Least(s)] + rest;
      if rest != [] {
        assert p[|p|-1] == rest[|rest|-1];
        assert rest[|rest|-1] in rest;
      }
    }
  }

  function Next(cursor: Cursor, rows: set<Key>, cutoff: int, batch: nat): Cursor
    requires batch > 0
  {
    var page := Page(Source(cursor, rows, cutoff), batch);
    if |page| == batch then At(page[|page|-1], if Begins(cursor, rows, cutoff) then cutoff else cursor.hwm) else Start
  }

  // ---------------------------------------------------------------- the reconciler

  /** What looking a row's message up in its stream told. */
  datatype Lookup = Found | Missing | Unknown // not looked up, or Redis was down

  class Reconciler {
    const batch: nat
    var last: Option<Key>
    var hwm: Option<int>

    constructor (batch: nat)
      ensures this.batch == (if batch > 0 then batch else 1) && Valid() && State() == Start
    {
      this.batch := if batch > 0 then batch else 1;
      last, hwm := None, None;
    }

    predicate Valid()
      reads this
    {
      batch > 0 && (last.Some? <==> hwm.Some?)
    }

    function State(): Cursor
      reads this
      requires Valid()
    {
      if last.Some? then At(last.value, hwm.value) else Start
    }

    /** One page of the query: `limit` least keys below `bound`, past `from`. */
    method Query(rows: set<Key>, from: Option<Key>, bound: int, limit: nat) returns (page: seq<Key>)
      ensures page == Page(Ahead(if from.Some? then At(from.value, bound) else Start, rows, bound), limit)
    {
      var left := Ahead(if from.Some? then At(from.value, bound) else Start, rows, bound);
      ghost var all := left;
      page := [];
      while |page| < limit && left != {}
        invariant |page| <= limit
        invariant Page(all, limit) == page + Page(left, limit - |page|)
        decreases left
      {
        var m := Least(left);
        assert page + Page(left, limit - |page|) == page + [m] + Page(left - {m}, limit - |page| - 1);
        page, left := page + [m], left - {m};
      }
    }

    /** Rows whose message is known to be gone. */
    method Requeue(page: seq<Key>, lookup: map<Key, Lookup>) returns (requeued: seq<Key>)
      ensures forall k :: k in requeued <==> k in page && k in lookup && lookup[k] == Missing
    {
      requeued := [];
      for i := 0 to |page|
        invariant forall k :: k in requeued <==> k in page[..i] && k in lookup && lookup[k] == Missing
      {
        if page[i] in lookup && lookup[page[i]] == Missing {
          requeued := requeued + [page[i]];
        }
      }
      assert page[..|page|] == page;
    }

    /** One call: a page, wrapping at most once, and the ids whose message is gone. */
    method ReconcileOnce(rows: set<Key>, cutoff: int, lookup: map<Key, Lookup>)
      returns (page: seq<Key>, requeued: seq<Key>)
      requires Valid()
      modifies this
      ensures Valid() && State() == Next(old(State()), rows, cutoff, batch)
      ensures page == Page(Source(old(State()), rows, cutoff), batch)
      ensures forall k :: k in requeued <==> k in page && k in lookup && lookup[k] == Missing
    {
      if last == None || hwm == None {
        last, hwm := None, Some(cutoff);
      }
      PageIsLeast(Ahead(old(State()), rows, cutoff), batch);
      page := Query(rows, last, hwm.value, batch);
      if page == [] && last.Some? {
        last, hwm := None, Some(cutoff);
        page := Query(rows, None, cutoff, batch);
      }
      var end := if |page| == batch then Some(page[|page|-1]) else None;
      requeued := Requeue(page, lookup);
      last := end;
      if end == None {
        hwm := None;
      }
    }
  }

  // ---------------------------------------------------------------- any run of calls

  /** The rows seen by each call, and its age cutoff. */
  datatype Call = Call(rows: set<Key>, cutoff: int)

  /** The clock goes on: a key that was not there at one call is newer than its cutoff. */
  ghost predicate Timely(calls: seq<Call>) {
    forall i | 0 < i < |calls| ::
      && calls[i-1].cutoff <= calls[i].cutoff
      && forall k | k in calls[i].rows && k !in calls[i-1].rows :: k.stamp >= calls[i-1].cutoff
  }

  function After(cursor: Cursor, call: Call, batch: nat): Cursor
    requires batch > 0
  {
    Next(cursor, call.rows, call.cutoff, batch)
  }

  /** No sweep starts with more than `n` eligible rows. */
  ghost predicate Limited(cursor: Cursor, calls: seq<Call>, batch: nat, n: nat)
    requires batch > 0
    decreases calls
  {
    calls != [] ==>
      && (Begins(cursor, calls[0].rows, calls[0].cutoff) ==> |Eligible(calls[0].rows, calls[0].cutoff)| <= n)
      && Limited(After(cursor, calls[0], batch), calls[1..], batch, n)
  }

  /** Some call has the row in its page. */
  ghost predicate Scanned(cursor: Cursor, calls: seq<Call>, batch: nat, k: Key)
    requires batch > 0
    decreases calls
  {
    calls != [] &&
    (k in Page(Source(cursor, calls[0].rows, calls[0].cutoff), batch)
     || Scanned(After(cursor, calls[0], batch), calls[1..], batch, k))
  }

  /** The boundary is no later than the next cutoff, and room was made before it. */
  ghost predicate Sound(cursor: Cursor, call: Call, batch: nat, n: nat) {
    cursor.At? ==> cursor.hwm <= call.cutoff && |Ahead(cursor, call.rows, call.cutoff)| + batch <= n
  }

  /** A frozen sweep only ever loses rows. */
  lemma SweepShrinks(cursor: Cursor, calls: seq<Call>, batch: nat)
    requires batch > 0 && |calls| > 1 && Timely(calls)
    requires cursor.At? ==> cursor.hwm <= calls[0].cutoff
    ensures var src, next := Source(cursor, calls[0].rows, calls[0].cutoff), After(cursor, calls[0], batch);
      next.At? ==>
      && next.hwm <= calls[1].cutoff
      && |src| >= batch
      && |Ahead(next, calls[1].rows, calls[1].cutoff)| <= |src| - batch
      && (forall k | k in src && k in calls[1].rows && k !in Page(src, batch) ::
        k in Ahead(next, calls[1].rows, calls[1].cutoff))
  {
    var src, next := Source(cursor, calls[0].rows, calls[0].cutoff), After(cursor, calls[0], batch);
    var page := Page(src, batch);
    PageIsLeast(src, batch);
    if next.At? {
      var ahead := Ahead(next, calls[1].rows, calls[1].cutoff);
      forall k | k in ahead
        ensures k in src && k !in page
      {
        assert k in calls[0].rows;
      }
      Room(src, page, ahead, batch);
    }
  }

  /** What is ahead of a full page is at least a page smaller than its source. */
  lemma Room(src: set<Key>, page: seq<Key>, ahead: set<Key>, batch: nat)
    requires page == Page(src, batch) && |page| == batch && forall k | k in ahead :: k in src && k !in page
    ensures |ahead| <= |src| - batch
  {
    PageIsLeast(src, batch);
    PageHasNoRepeats(src, batch);
    Distinct(page);
    var taken := set k | k in page;
    assert taken <= src && ahead <= src - taken;
    Smaller(ahead, src - taken);
  }

  lemma {:induction false} PageHasNoRepeats(s: set<Key>, n: nat)
    ensures forall i, j | 0 <= i < j < |Page(s, n)| :: Page(s, n)[i] != Page(s, n)[j]
  {
    if n > 0 && s != {} {
      PageHasNoRepeats(s - {Least(s)}, n - 1);
      PageIsLeast(s - {Least(s)}, n - 1);
    }
  }

  lemma {:induction false} Distinct(p: seq<Key>)
    requires forall i, j | 0 <= i < j < |p| :: p[i] != p[j]
    ensures |set k | k in p| == |p|
  {
    if p != [] {
      var n := |p| - 1;
      Distinct(p[..n]);
      assert (set k | k in p) == (set k | k in p[..n]) + {p[n]};
    }
  }

  lemma {:induction false} Smaller(a: set<Key>, b: set<Key>)
    requires a <= b
    ensures |a| <= |b|
  {
    if a != {} {
      var k :| k in a;
      Smaller(a - {k}, b - {k});
    }
  }

  ghost predicate Stays(k: Key, calls: seq<Call>) {
    forall i | 0 <= i < |calls| :: k in calls[i].rows
  }

  /** A row ahead of the cursor is reached as soon as the pages cover what is ahead. */
  lemma {:induction false} AheadIsReached(cursor: Cursor, calls: seq<Call>, batch: nat, k: Key)
    requires batch > 0 && calls != [] && Timely(calls) && Stays(k, calls)
    requires cursor.At? ==> cursor.hwm <= calls[0].cutoff
    requires k in Source(cursor, calls[0].rows, calls[0].cutoff)
    requires |Source(cursor, calls[0].rows, calls[0].cutoff)| <= batch * |calls|
    ensures Scanned(cursor, calls, batch, k)
    decreases |calls|
  {
    var src := Source(cursor, calls[0].rows, calls[0].cutoff);
    PageIsLeast(src, batch);
    if k !in Page(src, batch) {
      var next := After(cursor, calls[0], batch);
      assert |src| > batch;
      OneLess(batch, |calls|);
      assert |calls| > 1;
      SweepShrinks(cursor, calls, batch);
      Later(calls);
      assert k in calls[1].rows;
      AheadIsReached(next, calls[1..], batch, k);
    }
  }

  lemma OneLess(batch: nat, n: nat)
    ensures batch * (n - 1) == batch * n - batch
  {
  }

  lemma Later(calls: seq<Call>)
    requires |calls| > 1 && Timely(calls)
    ensures Timely(calls[1..]) && calls[1..] != [] && calls[1..][0] == calls[1]
  {
    forall i | 0 < i < |calls[1..]|
      ensures calls[1..][i-1].cutoff <= calls[1..][i].cutoff
      ensures forall k | k in calls[1..][i].rows && k !in calls[1..][i-1].rows :: k.stamp >= calls[1..][i-1].cutoff
    {
      assert calls[1..][i] == calls[i+1] && calls[1..][i-1] == calls[i];
    }
  }

  /** A row behind the cursor waits for the rest of this sweep, then for the next. */
  lemma {:induction false} AnyIsReached(cursor: Cursor, calls: seq<Call>, batch: nat, n: nat, k: Key, rest: nat,
                                        sweep: nat)
    requires batch > 0 && Timely(calls) && Stays(k, calls) && Limited(cursor, calls, batch, n)
    requires n <= batch * sweep && sweep > 0 && |calls| >= rest + sweep
    requires k.stamp < calls[0].cutoff
    requires cursor.At? ==>
      cursor.hwm <= calls[0].cutoff && |Ahead(cursor, calls[0].rows, calls[0].cutoff)| <= batch * rest
    ensures Scanned(cursor, calls, batch, k)
    decreases rest
  {
    var src := Source(cursor, calls[0].rows, calls[0].cutoff);
    if k in src {
      Times(batch, rest, |calls|);
      Times(batch, sweep, |calls|);
      AheadIsReached(cursor, calls, batch, k);
    } else {
      // Past the cursor of a sweep that is not over: at least one page of it is left.
      assert src == Ahead(cursor, calls[0].rows, calls[0].cutoff) && |src| > 0;
      assert rest > 0;
      var next := After(cursor, calls[0], batch);
      PageIsLeast(src, batch);
      Later(calls);
      SweepShrinks(cursor, calls, batch);
      OneLess(batch, rest);
      assert calls[1..][0].cutoff >= calls[0].cutoff;
      AnyIsReached(next, calls[1..], batch, n, k, rest - 1, sweep);
    }
  }

  lemma Times(batch: nat, a: nat, b: nat)
    requires a <= b
    ensures batch * a <= batch * b
  {
  }

  /** The pages of `b` that `n` rows fill, the last one perhaps not. */
  function CeilDiv(n: nat, b: nat): (c: nat)
    requires b > 0
    ensures n <= b * c < n + b
  {
    (n + b - 1) / b
  }

  /** The cursor of the call after these. */
  function Run(cursor: Cursor, calls: seq<Call>, batch: nat): Cursor
    requires batch > 0
    decreases calls
  {
    if calls == [] then cursor else Run(After(cursor, calls[0], batch), calls[1..], batch)
  }

  /** After any calls the cursor is sound, and the world goes on as before. */
  lemma {:induction false} SoundAfter(cursor: Cursor, past: seq<Call>, calls: seq<Call>, batch: nat, n: nat)
    requires batch > 0 && calls != [] && Timely(past + calls) && Limited(cursor, past + calls, batch, n)
    requires Sound(cursor, (past + calls)[0], batch, n)
    ensures Sound(Run(cursor, past, batch), calls[0], batch, n)
    ensures Timely(calls) && Limited(Run(cursor, past, batch), calls, batch, n)
    decreases |past|
  {
    if past == [] {
      assert past + calls == calls;
    } else {
      Peel(past, calls);
      Later(past + calls);
      SoundStays(cursor, past + calls, batch, n);
      SoundAfter(After(cursor, past[0], batch), past[1..], calls, batch, n);
    }
  }

  lemma Peel(past: seq<Call>, calls: seq<Call>)
    requires past != [] && calls != []
    ensures (past + calls)[0] == past[0] && (past + calls)[1..] == past[1..] + calls &&
      (past + calls)[1] == (past[1..] + calls)[0]
  {
  }

  /**
   Bounded sweep.  From process start, after any calls `past`: a row that is old enough
   and stays is in a scanned page within 2*ceil(n/batch) - 1 calls, whatever is added,
   stamped anew or removed between them.
   */
  lemma BoundedSweep(past: seq<Call>, calls: seq<Call>, batch: nat, n: nat, k: Key)
    requires batch > 0 && n > 0 && |calls| == 2 * CeilDiv(n, batch) - 1
    requires Timely(past + calls) && Limited(Start, past + calls, batch, n)
    requires calls != [] && Stays(k, calls) && k.stamp < calls[0].cutoff
    ensures Scanned(Run(Start, past, batch), calls, batch, k)
  {
    CeilCovers(n, batch);
    SoundAfter(Start, past, calls, batch, n);
    ReachedWithin(Run(Start, past, batch), calls, batch, n, k, CeilDiv(n, batch));
  }

  /** From a sound cursor, with sweeps of at most `pages` pages. */
  lemma ReachedWithin(cursor: Cursor, calls: seq<Call>, batch: nat, n: nat, k: Key, pages: nat)
    requires batch > 0 && pages > 0 && n <= batch * pages && |calls| == 2 * pages - 1
    requires Timely(calls) && Limited(cursor, calls, batch, n) && Sound(cursor, calls[0], batch, n)
    requires Stays(k, calls) && k.stamp < calls[0].cutoff
    ensures Scanned(cursor, calls, batch, k)
  {
    OneLess(batch, pages);
    AnyIsReached(cursor, calls, batch, n, k, pages - 1, pages);
  }

  lemma SoundStays(cursor: Cursor, calls: seq<Call>, batch: nat, n: nat)
    requires batch > 0 && |calls| > 1 && Timely(calls) && Limited(cursor, calls, batch, n) &&
      Sound(cursor, calls[0], batch, n)
    ensures Sound(After(cursor, calls[0], batch), calls[1], batch, n)
  {
    SweepShrinks(cursor, calls, batch);
  }

  lemma CeilCovers(n: nat, b: nat)
    requires b > 0 && n > 0
    ensures CeilDiv(n, b) > 0 && n <= b * CeilDiv(n, b)
  {
    var m := n + b - 1;
    assert m == b * (m / b) + m % b;
    assert b * (m / b) > 0;
  }
}
