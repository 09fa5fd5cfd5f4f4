/** What an accepted command means, pair by pair: the last write of a key wins, in the first one's place. */
module ScrapyLastWins {
  import opened Prelude
  import opened ScrapyCommand
  import opened ScrapyRoundTrip
  import opened ScrapyExact

  /** Where the key is first written; past the end if nowhere. */
  function First(given: Dict, k: string): (i: nat)
    ensures i <= |given| && (forall j | 0 <= j < i :: given[j].0 != k) && (i < |given| ==> given[i].0 == k)
  {
    if given == [] || given[0].0 == k then 0 else 1 + First(given[1..], k)
  }

  /** Where the key is last written; past the end if nowhere. */
  function Last(given: Dict, k: string): (i: nat)
    ensures i <= |given| && (i < |given| ==> given[i].0 == k)
    ensures forall j | 0 <= j < |given| && given[j].0 == k :: j <= i < |given|
  {
    if given == [] then 0
    else if given[|given|-1].0 == k then |given| - 1
    else
      var i := Last(given[..|given|-1], k);
      if i < |given| - 1 then i else |given|
  }

  /** Every key written is there. */
  ghost predicate AllThere(given: Dict, d: Dict) {
    forall i | 0 <= i < |given| :: First(d, given[i].0) < |d|
  }

  /** Each entry is the last one written for its key. */
  ghost predicate LastValues(given: Dict, d: Dict) {
    forall j | 0 <= j < |d| :: IsLast(given, d[j])
  }

  ghost predicate IsLast(given: Dict, p: (string, string)) {
    var i := Last(given, p.0);
    i < |given| && given[i] == p
  }

  /** Each key is there once, in the order of their first writes. */
  ghost predicate InOrder(given: Dict, d: Dict) {
    forall j, l | 0 <= j < l < |d| :: First(given, d[j].0) < First(given, d[l].0)
  }

  ghost predicate LastWins(given: Dict, d: Dict) {
    AllThere(given, d) && LastValues(given, d) && InOrder(given, d)
  }

  lemma FirstIs(given: Dict, k: string, i: nat)
    requires i <= |given| && (forall j | 0 <= j < i :: given[j].0 != k) && (i < |given| ==> given[i].0 == k)
    ensures First(given, k) == i
  {
  }

  /** One more pair: a known key keeps its place, a new one comes last. */
  lemma FirstOfMore(given: Dict, p: (string, string), k: string)
    ensures First(given + [p], k) == if First(given, k) < |given| then First(given, k)
      else if p.0 == k then |given| else |given| + 1
  {
    var i := First(given, k);
    FirstIs(given + [p], k, if i < |given| then i else if p.0 == k then |given| else |given| + 1);
  }

  lemma LastOfMore(given: Dict, p: (string, string), k: string)
    ensures Last(given + [p], k) == if p.0 == k then |given| else
      if Last(given, k) < |given| then Last(given, k) else |given| + 1
  {
    assert (given + [p])[..|given|] == given;
  }

  lemma SameFirst(given: Dict, k: string)
    ensures First(given, k) < |given| <==> Last(given, k) < |given|
  {
  }

  /** Where `Put` puts it. */
  lemma {:induction false} PutAt(d: Dict, k: string, v: string)
    ensures var e := Put(d, k, v); var at := First(d, k);
      && |e| == (if at < |d| then |d| else |d| + 1) && e[at] == (k, v)
      && forall j | 0 <= j < |d| && j != at :: e[j] == d[j]
  {
    if d != [] && d[0].0 != k {
      PutAt(d[1..], k, v);
    }
  }

  /** No key is lost, and the new one is there. */
  lemma {:induction false} FirstOfPut(d: Dict, k: string, v: string, key: string)
    ensures First(Put(d, k, v), key) == if First(d, key) < |d| then First(d, key)
      else if key == k then |d| else |Put(d, k, v)|
    ensures First(d, key) < |d| || key == k ==> First(Put(d, k, v), key) < |Put(d, k, v)|
  {
    if d != [] && d[0].0 != k {
      FirstOfPut(d[1..], k, v, key);
    }
  }

  lemma AllStillThere(given: Dict, d: Dict, p: (string, string))
    requires AllThere(given, d)
    ensures AllThere(given + [p], Put(d, p.0, p.1))
  {
    forall i | 0 <= i < |given + [p]|
      ensures First(Put(d, p.0, p.1), (given + [p])[i].0) < |Put(d, p.0, p.1)|
    {
      FirstOfPut(d, p.0, p.1, (given + [p])[i].0);
    }
  }

  lemma StillLast(given: Dict, d: Dict, p: (string, string))
    requires LastValues(given, d) && InOrder(given, d)
    ensures LastValues(given + [p], Put(d, p.0, p.1))
  {
    var e, at := Put(d, p.0, p.1), First(d, p.0);
    PutAt(d, p.0, p.1);
    forall j | 0 <= j < |e|
      ensures IsLast(given + [p], e[j])
    {
      LastOfMore(given, p, e[j].0);
      if j != at {
        assert IsLast(given, d[j]);
        OtherKey(given, d, p.0, j);
      }
    }
  }

  /** Keys are distinct, so a key elsewhere is another one. */
  lemma OtherKey(given: Dict, d: Dict, k: string, j: nat)
    requires InOrder(given, d) && j < |d| && j != First(d, k)
    ensures d[j].0 != k
  {
    var at := First(d, k);
    if at < j {
      assert First(given, d[at].0) < First(given, d[j].0);
    }
  }

  lemma StillInOrder(given: Dict, d: Dict, p: (string, string))
    requires LastWins(given, d)
    ensures InOrder(given + [p], Put(d, p.0, p.1))
  {
    var e, at := Put(d, p.0, p.1), First(d, p.0);
    PutAt(d, p.0, p.1);
    forall j, l | 0 <= j < l < |e|
      ensures First(given + [p], e[j].0) < First(given + [p], e[l].0)
    {
      assert e[j].0 == d[j].0;
      Written(given, d, j);
      FirstOfMore(given, p, e[j].0);
      FirstOfMore(given, p, e[l].0);
      if l < |d| {
        assert e[l].0 == d[l].0;
        Written(given, d, l);
        assert First(given, d[j].0) < First(given, d[l].0);
      } else {
        NotWritten(given, d, p.0);
      }
    }
  }

  lemma Written(given: Dict, d: Dict, j: nat)
    requires LastValues(given, d) && j < |d|
    ensures First(given, d[j].0) < |given|
  {
    assert IsLast(given, d[j]);
    SameFirst(given, d[j].0);
  }

  lemma NotWritten(given: Dict, d: Dict, k: string)
    requires AllThere(given, d) && First(d, k) == |d|
    ensures First(given, k) == |given|
  {
    if First(given, k) < |given| {
      assert First(d, given[First(given, k)].0) < |d|;
      assert false;
    }
  }

  lemma PutWins(given: Dict, d: Dict, p: (string, string))
    requires LastWins(given, d)
    ensures LastWins(given + [p], Put(d, p.0, p.1))
  {
    AllStillThere(given, d, p);
    StillLast(given, d, p);
    StillInOrder(given, d, p);
  }

  /** One more pair in front of the rest. */
  lemma Regrouped(a: Dict, p: (string, string), rest: Dict)
    ensures a + [p] + rest == a + ([p] + rest)
  {
  }

  lemma {:induction false} OptionsWin(words: seq<string>, args: Dict, settings: Dict, a: Dict, s: Dict)
    requires Options(words, args, settings).Ok? && LastWins(a, args) && LastWins(s, settings)
    ensures var d := Options(words, args, settings).value;
      LastWins(a + Given(words, "-a"), d.0) && LastWins(s + Given(words, "-s"), d.1)
    decreases |words|
  {
    if words == [] {
      assert a + [] == a && s + [] == s;
    } else {
      var p := Halves(words[1]);
      HalvesOfPair(words[1]);
      if words[0] == "-a" {
        PutWins(a, args, p);
        OptionsWin(words[2..], Put(args, p.0, p.1), settings, a + [p], s);
        GivenOfTwo(words, "-a", "-s");
        Regrouped(a, p, Given(words[2..], "-a"));
      } else {
        PutWins(s, settings, p);
        OptionsWin(words[2..], args, Put(settings, p.0, p.1), a, s + [p]);
        GivenOfTwo(words, "-s", "-a");
        Regrouped(s, p, Given(words[2..], "-s"));
      }
    }
  }

  lemma {:induction false} Flags(words: seq<string>, i: nat, args: Dict, settings: Dict)
    requires Options(words, args, settings).Ok? && 2 * i < |words|
    ensures 2 * i + 1 < |words| && (words[2 * i] == "-a" || words[2 * i] == "-s")
    decreases |words|
  {
    var rest := OnePairLess(words, args, settings);
    if i > 0 {
      Flags(words[2..], i - 1, rest.0, rest.1);
    }
  }

  /**
   An accepted command is `scrapy crawl`, its spider, and flags each with a pair.  Of the
   pairs behind a flag the last one for a key decides, and the keys stand in the order in
   which they were first written.
   */
  lemma LastWriteWins(s: string)
    requires Parse(s).Ok?
    ensures Tokens(s).Ok? && |Tokens(s).value| >= 3
    ensures var p, w := Parse(s).value, Tokens(s).value;
      && w[0] == "scrapy" && w[1] == "crawl" && w[2] == p.spider
      && LastWins(Given(w[3..], "-a"), p.args) && LastWins(Given(w[3..], "-s"), p.settings)
    ensures var w := Tokens(s).value[3..];
      forall i | 0 <= 2 * i < |w| :: 2 * i + 1 < |w| && (w[2 * i] == "-a" || w[2 * i] == "-s")
  {
    AcceptedOptions(s);
    var w := Tokens(s).value[3..];
    OptionsWin(w, [], [], [], []);
    assert [] + Given(w, "-a") == Given(w, "-a") && [] + Given(w, "-s") == Given(w, "-s");
    forall i | 0 <= 2 * i < |w|
      ensures 2 * i + 1 < |w| && (w[2 * i] == "-a" || w[2 * i] == "-s")
    {
      Flags(w, i, [], []);
    }
  }
}
