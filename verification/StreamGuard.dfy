/**
 The byte-budget guard of the shared log stream, with no concurrent producer.
 `mem` is what MEMORY USAGE answers for a stream: an arbitrary function of it.
 */
module StreamGuards {

  const MAX_ROUNDS := 8
  const SHRINK_FACTOR := 0.8
  const MIN_PROGRESS := 0.05

  function Share(length: real, usage: real, budget: real): real
    requires usage != 0.0
  {
    length * (budget / usage) * SHRINK_FACTOR
  }

  /** How many entries a round keeps: a conservative share, and always fewer than there are. */
  function Target(length: nat, usage: nat, budget: nat): (t: nat)
    requires length > 0 && usage > budget
    ensures t < length
  {
    var share := Share(length as real, usage as real, budget as real).Floor;
    if share < 0 then 0 else if share < length - 1 then share else length - 1
  }

  /** Every entry weighs the same. */
  ghost predicate Uniform<T(!new)>(mem: seq<T> -> nat, weight: nat) {
    forall s :: mem(s) == weight * |s|
  }

  /** Between 80% of the budget and that less one entry, all times five. */
  ghost predicate NearShare(kept: nat, weight: nat, budget: nat) {
    4 * budget - 5 * weight < 5 * kept <= 4 * budget
  }

  /** One entry alone exceeds 80% of the budget. */
  ghost predicate Oversized(weight: nat, budget: nat) {
    4 * budget < 5 * weight
  }

  /**
   With uniform entries one cut is enough: it lands within one entry below 80% of
   the budget, and it empties the stream exactly when one entry exceeds that share.
   */
  lemma OneCutSuffices(length: nat, weight: nat, budget: nat)
    requires length > 0 && weight * length > budget
    ensures NearShare(weight * Target(length, weight * length, budget), weight, budget)
    ensures Target(length, weight * length, budget) == 0 <==> Oversized(weight, budget)
  {
    Scaled(weight, 0, length);
    var n := 4 * budget / (5 * weight);
    var p := weight * n;
    assert 5 * p <= 4 * budget < 5 * p + 5 * weight;
    Scaled(weight, 1, n);
    Scaled(weight, length, n);
    ShareFloor(length, weight, budget, n);
  }

  lemma Scaled(w: nat, a: nat, b: nat)
    ensures w == 0 ==> w * b == 0
    ensures a <= b ==> w * a <= w * b
  {
  }

  /** The float expression of the source, in exact arithmetic, floors to `n`. */
  lemma ShareFloor(length: nat, weight: nat, budget: nat, n: nat)
    requires weight > 0 && length > 0 && n < length
    requires 5 * (weight * n) <= 4 * budget < 5 * (weight * n) + 5 * weight
    requires weight * length > budget
    ensures Target(length, weight * length, budget) == n
  {
    var l, w, b, u, k := length as real, weight as real, budget as real, (weight * length) as real, n as real;
    assert u == w * l;
    assert (weight * n) as real == w * k;
    assert w * (k + 1.0) == w * k + w;
    Quotient(l, w, b, u);
    Between(SHRINK_FACTOR * b, w, k);
  }

  lemma Between(share: real, w: real, k: real)
    requires w > 0.0 && w * k <= share && share < w * (k + 1.0)
    ensures k <= share / w
    ensures share / w < k + 1.0
  {
    AtLeast(share, w, k);
    Below(share, w, k + 1.0);
  }

  lemma AtLeast(share: real, w: real, k: real)
    requires w > 0.0 && w * k <= share
    ensures k <= share / w
  {
    DivMono(w * k, share, w);
    MulDiv(k, w);
  }

  lemma Below(share: real, w: real, high: real)
    requires w > 0.0 && share < w * high
    ensures share / w < high
  {
    DivMono(share, w * high, w);
    MulDiv(high, w);
  }

  lemma DivMono(a: real, b: real, w: real)
    requires w > 0.0
    ensures a <= b ==> a / w <= b / w
    ensures a < b ==> a / w < b / w
  {
  }

  lemma MulDiv(k: real, w: real)
    requires w > 0.0
    ensures w * k / w == k
  {
  }

  lemma Quotient(l: real, w: real, b: real, u: real)
    requires l > 0.0 && w > 0.0 && u == w * l
    ensures u != 0.0 && Share(l, u, b) == SHRINK_FACTOR * b / w
  {
    var q := b / u;
    assert q * u == b;
    assert (q * l) * w == b;
    assert q * l == b / w;
  }

  class StreamGuard<T(!new)> {
    const budget: nat
    const mem: seq<T> -> nat
    var stream: seq<T>

    constructor (budget: nat, mem: seq<T> -> nat, stream: seq<T>)
      ensures this.budget == budget && this.mem == mem && this.stream == stream
    {
      this.budget, this.mem, this.stream := budget, mem, stream;
    }

    /** Exact XTRIM MAXLEN: the newest `maxlen` entries survive. */
    method XTrim(maxlen: nat) returns (removed: nat)
      modifies this`stream
      ensures |stream| == if maxlen < |old(stream)| then maxlen else |old(stream)|
      ensures removed == |old(stream)| - |stream| && stream == old(stream)[removed..]
    {
      removed := if maxlen < |stream| then |stream| - maxlen else 0;
      stream := stream[removed..];
    }

    /** One exact cut to the conservative target. */
    method Cut(usage: nat) returns (removed: nat)
      requires usage == mem(stream) && usage > budget && stream != []
      modifies this`stream
      ensures 0 < removed <= |old(stream)| && stream == old(stream)[removed..] && CutTo(old(stream), stream)
      ensures forall weight: nat | Uniform(mem, weight) ::
        && mem(stream) <= budget
        && NearShare(mem(stream), weight, budget)
        && (stream == [] <==> Oversized(weight, budget))
    {
      var target := Target(|stream|, usage, budget);
      removed := XTrim(target);
      forall weight: nat | Uniform(mem, weight)
        ensures mem(stream) <= budget
        ensures NearShare(mem(stream), weight, budget)
        ensures stream == [] <==> Oversized(weight, budget)
      {
        OneCutSuffices(|old(stream)|, weight, budget);
        assert mem(stream) == weight * target;
      }
    }

    /** One round: the newest entries survive, as many as the target says. */
    ghost predicate CutTo(before: seq<T>, after: seq<T>) {
      && before != [] && mem(before) > budget
      && after == before[|before| - Target(|before|, mem(before), budget)..]
    }

    /** A round freed less than a twentieth of the bytes. */
    ghost predicate NoProgress(before: seq<T>, after: seq<T>) {
      20 * (mem(before) as int - mem(after) as int) < mem(before)
    }

    ghost predicate RoundAt(trail: seq<seq<T>>, i: nat)
      requires i + 1 < |trail|
    {
      CutTo(trail[i], trail[i+1])
    }

    /** The round made progress, and another one is needed. */
    ghost predicate GoesOn(trail: seq<seq<T>>, i: nat)
      requires i + 1 < |trail|
    {
      trail[i+1] != [] && mem(trail[i+1]) > budget && !NoProgress(trail[i], trail[i+1])
    }

    /** Cut after cut, each but the last one with progress and the budget still missed. */
    ghost predicate Course(trail: seq<seq<T>>, start: seq<T>, rounds: nat) {
      && |trail| == rounds + 1 && trail[0] == start
      && (forall i | 0 <= i < rounds :: RoundAt(trail, i))
      && (forall i | 0 <= i < rounds - 1 :: GoesOn(trail, i))
    }

    lemma CourseMore(trail: seq<seq<T>>, start: seq<T>, rounds: nat, next: seq<T>)
      requires Course(trail, start, rounds) && CutTo(trail[rounds], next)
      requires rounds > 0 ==> GoesOn(trail, rounds - 1)
      ensures Course(trail + [next], start, rounds + 1)
    {
      var more := trail + [next];
      assert forall i | 0 <= i <= rounds :: more[i] == trail[i];
      forall i | 0 <= i < rounds + 1
        ensures RoundAt(more, i) && (i < rounds ==> GoesOn(more, i))
      {
        if i < rounds {
          assert RoundAt(trail, i) && GoesOn(trail, i);
        }
      }
    }

    /** Nothing is left, or the budget is missed by a round that stalled or was the last. */
    ghost predicate MustClear(before: seq<T>, after: seq<T>, rounds: nat) {
      after == [] || (mem(after) > budget && (NoProgress(before, after) || rounds == MAX_ROUNDS))
    }

    /** `(before - after) / before < MIN_PROGRESS`, with the division cleared. */
    predicate Stalled(before: nat, after: nat): (stalled: bool)
      ensures stalled <==> 20 * (before as int - after as int) < before
    {
      before as real - after as real < MIN_PROGRESS * before as real
    }

    /**
     Trims the stream under budget.  At most eight rounds, then a clear; survivors are
     the newest entries, and every removed entry is counted.
     */
    method EnforceOnce()
      returns (trimmed: nat, rounds: nat, cleared: bool, finalBytes: nat, ghost trail: seq<seq<T>>)
      modifies this`stream
      ensures rounds <= MAX_ROUNDS
      ensures trimmed + |stream| == |old(stream)| && stream == old(stream)[trimmed..]
      ensures budget > 0 ==> mem(stream) <= budget || stream == []
      ensures budget > 0 ==> finalBytes == mem(stream)
      ensures trimmed > 0 <==> budget > 0 && mem(old(stream)) > budget && old(stream) != []
      ensures rounds > 0 <==> trimmed > 0
      ensures cleared <==> trimmed > 0 && stream == []
      // Whatever the entries weigh: the rounds, and exactly when the stream is cleared.
      ensures Course(trail, old(stream), rounds)
      ensures rounds > 0 ==> (cleared <==> MustClear(trail[rounds-1], trail[rounds], rounds))
      ensures !cleared ==> stream == trail[rounds]
      // Uniform entries: one round, no more cut than the shrink factor and one entry ask for.
      ensures forall weight: nat | Uniform(mem, weight) && trimmed > 0 ::
        && rounds == 1
        && NearShare(mem(stream), weight, budget)
        && (cleared <==> Oversized(weight, budget))
    {
      trimmed, rounds, cleared, finalBytes, trail := 0, 0, false, 0, [stream];
      if budget == 0 {
        return;
      }
      var usage, length := mem(stream), |stream|;
      finalBytes := usage;
      if usage <= budget || length == 0 {
        return;
      }
      while usage > budget && rounds < MAX_ROUNDS
        invariant rounds <= MAX_ROUNDS
        invariant usage == mem(stream) && length == |stream|
        invariant trimmed + |stream| == |old(stream)| && stream == old(stream)[trimmed..]
        invariant !cleared && length > 0
        invariant rounds == 0 <==> trimmed == 0
        invariant Course(trail, old(stream), rounds) && trail[rounds] == stream
        invariant rounds > 0 && usage > budget ==> GoesOn(trail, rounds - 1)
        invariant forall weight: nat | Uniform(mem, weight) && rounds > 0 ::
          rounds == 1 && usage <= budget && NearShare(usage, weight, budget) && !Oversized(weight, budget)
      {
        rounds := rounds + 1;
        var removed := Cut(usage);
        trimmed := trimmed + removed;
        var before := usage;
        usage, length := mem(stream), |stream|;
        CourseMore(trail, old(stream), rounds - 1, stream);
        trail := trail + [stream];
        if length == 0 {
          cleared := true;
          break;
        }
        if usage > budget && Stalled(before, usage) {
          cleared := true;
          break;
        }
      }
      if usage > budget && !cleared && length > 0 {
        cleared := true;
      }
      if cleared && length > 0 {
        var removed := XTrim(0);
        trimmed := trimmed + removed;
        usage, length := mem(stream), |stream|;
      }
      finalBytes := usage;
    }
  }
}
