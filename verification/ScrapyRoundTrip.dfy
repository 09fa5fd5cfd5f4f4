/** When the parser reads back what the synthesizer wrote. */
module ScrapyRoundTrip {
  import opened Prelude
  import opened ScrapyCommand

  // ---------------------------------------------------------------- texts in pieces

  lemma {:induction false} ScannedInParts(st: Scan, a: string, b: string)
    ensures Scanned(st, a + b) == Scanned(Scanned(st, a), b)
  {
    if b == "" {
      assert a + b == a;
    } else {
      assert (a + b)[..|a + b|-1] == a + b[..|b|-1];
      ScannedInParts(st, a, b[..|b|-1]);
    }
  }

  lemma {:induction false} LexedInParts(st: Lexer, a: string, b: string)
    ensures Lexed(st, a + b) == Lexed(Lexed(st, a), b)
  {
    if b == "" {
      assert a + b == a;
    } else {
      assert (a + b)[..|a + b|-1] == a + b[..|b|-1];
      LexedInParts(st, a, b[..|b|-1]);
    }
  }

  lemma OneChar(c: char)
    ensures forall st :: Scanned(st, [c]) == ScanStep(st, c)
    ensures forall st :: Lexed(st, [c]) == LexStep(st, c)
  {
    assert [c][..0] == "";
    assert forall st: Scan :: Scanned(st, [c][..0]) == st;
    assert forall st: Lexer :: Lexed(st, [c][..0]) == st;
  }

  /** Between words. */
  function Fresh(tokens: seq<string>): Lexer { Lexer(Space, tokens, "", false) }

  /** Nothing the scan or the splitter would notice. */
  predicate Quiet(s: string) {
    forall i | 0 <= i < |s| :: !Blank(s[i]) && !IsQuote(s[i]) && s[i] !in META
  }

  lemma {:induction false} QuietWord(st: Lexer, s: string)
    requires Quiet(s) && st.mode == Word
    ensures Lexed(st, s) == st.(token := st.token + s)
  {
    if s == "" {
      assert st.token + s == st.token;
    } else {
      QuietWord(st, s[..|s|-1]);
      assert st.token + s == st.token + s[..|s|-1] + [s[|s|-1]];
    }
  }

  lemma {:induction false} QuietScan(s: string)
    requires Quiet(s)
    ensures Scanned(Bare, s) == Bare
  {
    if s != "" {
      QuietScan(s[..|s|-1]);
    }
  }

  lemma QuietStart(tokens: seq<string>, s: string)
    requires Quiet(s) && s != ""
    ensures Lexed(Fresh(tokens), s) == Lexer(Word, tokens, s, false)
  {
    assert s == [s[0]] + s[1..];
    LexedInParts(Fresh(tokens), [s[0]], s[1..]);
    OneChar(s[0]);
    QuietWord(Lexer(Word, tokens, [s[0]], false), s[1..]);
  }

  // ---------------------------------------------------------------- values

  /** Every backslash stands before something other than a backslash. */
  predicate LoneBackslashes(v: string) {
    forall i | 0 <= i < |v| && v[i] == '\\' :: i + 1 < |v| && v[i+1] != '\\'
  }

  /** Values whose printed form is one word, the value itself. */
  predicate Readable(v: string) {
    '"' !in v && (NeedsQuotes(v) || '\'' !in v) && LoneBackslashes(v)
  }

  /** Values that come back. */
  predicate Survives(v: string) {
    Readable(v) && forall i | 0 <= i < |v| :: !Control(v[i])
  }

  lemma {:induction false} NothingToEscape(v: string)
    requires '"' !in v
    ensures Escaped(v) == v
  {
    if v != "" {
      NothingToEscape(v[..|v|-1]);
    }
  }

  /** Inside double quotes, with each backslash kept by what follows it. */
  lemma {:induction false} LexQuoted(st: Lexer, v: string, n: nat)
    requires st.mode == In('"') && n <= |v| && '"' !in v
    requires forall i | 0 <= i < n - 1 && v[i] == '\\' :: v[i+1] != '\\'
    ensures Lexed(st, v[..n]) ==
      if n > 0 && v[n-1] == '\\' then Lexer(Escape(In('"')), st.tokens, st.token + v[..n-1], true)
      else Lexer(In('"'), st.tokens, st.token + v[..n], n > 0 || st.quoted)
  {
    if n == 0 {
      assert st.token + v[..0] == st.token;
    } else {
      LexQuoted(st, v, n - 1);
      assert v[..n][..n-1] == v[..n-1] && v[n-1] != '"';
      assert st.token + v[..n] == st.token + v[..n-1] + [v[n-1]];
      if n > 1 && v[n-2] == '\\' {
        assert v[..n-1] == v[..n-2] + ['\\'];
        assert st.token + v[..n] == st.token + v[..n-2] + ['\\', v[n-1]];
      }
    }
  }

  lemma {:induction false} ScanQuoted(v: string)
    requires '"' !in v
    ensures Scanned(Within('"'), v) == Within('"')
  {
    if v != "" {
      ScanQuoted(v[..|v|-1]);
      assert v[|v|-1] in v;
    }
  }

  /** The part reads as the word, and leaves the scan bare. */
  ghost predicate Reads(part: string, word: string) {
    && Scanned(Bare, part) == Bare
    && exists quoted :: ReadsAs(part, word, quoted)
  }

  ghost predicate ReadsAs(part: string, word: string, quoted: bool) {
    (word != "" || quoted) && forall tokens :: Lexed(Fresh(tokens), part) == Lexer(Word, tokens, word, quoted)
  }

  lemma QuietReads(s: string)
    requires Quiet(s) && s != ""
    ensures Reads(s, s)
  {
    QuietScan(s);
    forall tokens ensures Lexed(Fresh(tokens), s) == Lexer(Word, tokens, s, false) {
      QuietStart(tokens, s);
    }
    assert ReadsAs(s, s, false);
  }

  lemma KeyIsQuiet(k: string)
    requires KeyName(k) || SpiderName(k)
    ensures Quiet(k) && Quiet(k + "=") && '=' !in k
  {
  }

  /** A pair with a readable value reads as that pair. */
  lemma PairReads(k: string, v: string)
    requires KeyName(k) && Readable(v)
    ensures Reads(k + "=" + Quote(v), k + "=" + v)
  {
    KeyIsQuiet(k);
    if !NeedsQuotes(v) {
      assert Quiet(k + "=" + v);
      QuietReads(k + "=" + v);
    } else {
      QuotedPairReads(k + "=", v);
    }
  }

  lemma QuotedPairReads(head: string, v: string)
    requires Quiet(head) && head != "" && '"' !in v && LoneBackslashes(v) && NeedsQuotes(v)
    ensures Reads(head + Quote(v), head + v)
  {
    QuotedPair(head, v);
    ScannedInParts(Bare, head + ['"'] + v, ['"']);
    ScannedInParts(Bare, head + ['"'], v);
    ScannedInParts(Bare, head, ['"']);
    QuietScan(head);
    ScanQuoted(v);
    OneChar('"');
    forall tokens ensures Lexed(Fresh(tokens), head + Quote(v)) == Lexer(Word, tokens, head + v, true) {
      LexedInParts(Fresh(tokens), head + ['"'] + v, ['"']);
      LexedInParts(Fresh(tokens), head + ['"'], v);
      LexedInParts(Fresh(tokens), head, ['"']);
      QuietStart(tokens, head);
      LexQuoted(Lexer(In('"'), tokens, head, false), v, |v|);
      assert v[..|v|] == v;
    }
    assert ReadsAs(head + Quote(v), head + v, true);
  }

  lemma QuotedPair(head: string, v: string)
    requires NeedsQuotes(v) && '"' !in v
    ensures head + Quote(v) == head + ['"'] + v + ['"']
  {
    NothingToEscape(v);
  }

  // ---------------------------------------------------------------- whole commands

  /** Everything so far reads as these words and the open one. */
  ghost predicate ReadSoFar(text: string, words: seq<string>, open: string, quoted: bool) {
    Scanned(Bare, text) == Bare && (open != "" || quoted) && Lexed(START, text) == Lexer(Word, words, open, quoted)
  }

  lemma OneMorePart(text: string, words: seq<string>, open: string, was: bool, part: string, word: string)
    returns (quoted: bool)
    requires ReadSoFar(text, words, open, was) && Reads(part, word)
    ensures ReadSoFar(text + " " + part, words + [open], word, quoted)
  {
    quoted :| ReadsAs(part, word, quoted);
    ScannedInParts(Bare, text + " ", part);
    ScannedInParts(Bare, text, " ");
    LexedInParts(START, text + " ", part);
    LexedInParts(START, text, " ");
    OneChar(' ');
    assert Lexed(START, text + " ") == Fresh(words + [open]);
  }

  ghost predicate AllRead(parts: seq<string>, words: seq<string>) {
    |parts| == |words| &&
    (parts == [] || (AllRead(parts[..|parts|-1], words[..|words|-1]) && Reads(parts[|parts|-1], words[|words|-1])))
  }

  lemma OneMoreReads(parts: seq<string>, words: seq<string>, part: string, word: string)
    requires AllRead(parts, words) && Reads(part, word)
    ensures AllRead(parts + [part], words + [word])
  {
    assert (parts + [part])[..|parts|] == parts && (words + [word])[..|words|] == words;
  }

  lemma {:induction false} AllReadOn(parts: seq<string>, words: seq<string>, more: seq<string>, moreWords: seq<string>)
    requires AllRead(parts, words) && AllRead(more, moreWords)
    ensures AllRead(parts + more, words + moreWords)
  {
    if more == [] {
      assert parts + more == parts && words + moreWords == words;
    } else {
      var n := |more| - 1;
      AllReadOn(parts, words, more[..n], moreWords[..n]);
      OneMoreReads(parts + more[..n], words + moreWords[..n], more[n], moreWords[n]);
      assert parts + more == parts + more[..n] + [more[n]] &&
        words + moreWords == words + moreWords[..n] + [moreWords[n]];
    }
  }

  /** Words joined by blanks come back as these words. */
  lemma {:induction false} JoinReads(parts: seq<string>, words: seq<string>) returns (quoted: bool)
    requires parts != [] && AllRead(parts, words)
    ensures ReadSoFar(Join(parts), words[..|words|-1], words[|words|-1], quoted)
  {
    var n := |parts| - 1;
    if n == 0 {
      quoted :| ReadsAs(parts[0], words[0], quoted);
      assert Lexed(Fresh([]), parts[0]) == Lexer(Word, [], words[0], quoted);
      assert START == Fresh([]) && words[..0] == [];
    } else {
      var was := JoinReads(parts[..n], words[..n]);
      quoted := OneMorePart(Join(parts[..n]), words[..n][..n-1], words[n-1], was, parts[n], words[n]);
      assert words[..n][..n-1] + [words[n-1]] == words[..n];
    }
  }

  lemma JoinTokens(parts: seq<string>, words: seq<string>)
    requires parts != [] && AllRead(parts, words)
    ensures Tokens(Join(parts)) == Ok(words)
  {
    var _ := JoinReads(parts, words);
    var n := |words| - 1;
    assert words == words[..n] + [words[n]];
  }

  // ---------------------------------------------------------------- dictionaries

  ghost predicate Entries(d: Dict) {
    && (forall i | 0 <= i < |d| :: KeyName(d[i].0) && Survives(d[i].1))
    && (forall i, j | 0 <= i < j < |d| :: d[i].0 != d[j].0)
  }

  function PairWords(flag: string, d: Dict): seq<string> {
    if d == [] then [] else PairWords(flag, d[..|d|-1]) + [flag, d[|d|-1].0 + "=" + d[|d|-1].1]
  }

  lemma {:induction false} PartsRead(flag: string, d: Dict)
    requires Entries(d) && (flag == "-a" || flag == "-s")
    ensures AllRead(Parts(flag, d), PairWords(flag, d))
  {
    if d != [] {
      var rest, last := d[..|d|-1], d[|d|-1];
      PartsRead(flag, rest);
      FlagAndPair(Parts(flag, rest), PairWords(flag, rest), flag, last.0, last.1);
    }
  }

  lemma FlagAndPair(parts: seq<string>, words: seq<string>, flag: string, k: string, v: string)
    requires AllRead(parts, words) && (flag == "-a" || flag == "-s") && KeyName(k) && Readable(v)
    ensures AllRead(parts + [flag, k + "=" + Quote(v)], words + [flag, k + "=" + v])
  {
    assert Quiet("-a") && Quiet("-s");
    QuietReads(flag);
    PairReads(k, v);
    OneMoreReads(parts, words, flag, flag);
    OneMoreReads(parts + [flag], words + [flag], k + "=" + Quote(v), k + "=" + v);
    assert parts + [flag] + [k + "=" + Quote(v)] == parts + [flag, k + "=" + Quote(v)];
    assert words + [flag] + [k + "=" + v] == words + [flag, k + "=" + v];
  }

  lemma {:induction false} PutNew(d: Dict, k: string, v: string)
    requires forall i | 0 <= i < |d| :: d[i].0 != k
    ensures Put(d, k, v) == d + [(k, v)]
  {
    if d != [] {
      PutNew(d[1..], k, v);
    }
  }

  lemma {:induction false} FindIs(s: string, c: char, i: nat)
    requires i < |s| && s[i] == c && forall j | 0 <= j < i :: s[j] != c
    ensures Find(s, c) == i
  {
  }

  lemma PairParses(k: string, v: string)
    requires KeyName(k) && forall i | 0 <= i < |v| :: !Control(v[i])
    ensures Pair(k + "=" + v) == Ok((k, v))
  {
    var word := k + "=" + v;
    KeyIsQuiet(k);
    FindIs(word, '=', |k|);
    assert word[..|k|] == k && word[|k|+1..] == v;
    assert forall i | |k| < i < |word| :: word[i] == v[i - |k| - 1];
  }

  /** Reading on behind words that were read. */
  lemma {:induction false} OptionsOn(words: seq<string>, more: seq<string>, args: Dict, settings: Dict)
    requires Options(words, args, settings).Ok?
    ensures var mid := Options(words, args, settings).value;
      Options(words + more, args, settings) == Options(more, mid.0, mid.1)
    decreases |words|
  {
    if words == [] {
      assert words + more == more;
    } else {
      var pair := Pair(words[1]).value;
      assert (words + more)[2..] == words[2..] + more && (words + more)[1] == words[1];
      if words[0] == "-a" {
        OptionsOn(words[2..], more, Put(args, pair.0, pair.1), settings);
      } else {
        OptionsOn(words[2..], more, args, Put(settings, pair.0, pair.1));
      }
    }
  }

  /** One more pair behind words that were read. */
  lemma OnePairMore(words: seq<string>, flag: string, k: string, v: string, args: Dict, settings: Dict)
    requires KeyName(k) && (forall i | 0 <= i < |v| :: !Control(v[i])) && (flag == "-a" || flag == "-s")
    requires Options(words, args, settings).Ok?
    ensures var mid := Options(words, args, settings).value;
      Options(words + [flag, k + "=" + v], args, settings) ==
        Ok(if flag == "-a" then (Put(mid.0, k, v), mid.1) else (mid.0, Put(mid.1, k, v)))
  {
    var last := [flag, k + "=" + v];
    OptionsOn(words, last, args, settings);
    PairParses(k, v);
    assert last[2..] == [];
  }

  lemma {:induction false} ArgsParse(d: Dict, settings: Dict)
    requires Entries(d)
    ensures Options(PairWords("-a", d), [], settings) == Ok((d, settings))
  {
    if d != [] {
      var rest, last := d[..|d|-1], d[|d|-1];
      ArgsParse(rest, settings);
      OnePairMore(PairWords("-a", rest), "-a", last.0, last.1, [], settings);
      PutNew(rest, last.0, last.1);
      assert d == rest + [last];
    }
  }

  lemma {:induction false} SettingsParse(args: Dict, d: Dict)
    requires Entries(d)
    ensures Options(PairWords("-s", d), args, []) == Ok((args, d))
  {
    if d != [] {
      var rest, last := d[..|d|-1], d[|d|-1];
      SettingsParse(args, rest);
      OnePairMore(PairWords("-s", rest), "-s", last.0, last.1, args, []);
      PutNew(rest, last.0, last.1);
      assert d == rest + [last];
    }
  }

  // ---------------------------------------------------------------- print, then parse

  lemma BuildReads(spider: string, args: Dict, settings: Dict)
    requires SpiderName(spider) && Entries(args) && Entries(settings)
    ensures Tokens(Build(spider, args, settings)) ==
      Ok(["scrapy", "crawl", spider] + PairWords("-a", args) + PairWords("-s", settings))
  {
    var head := ["scrapy", "crawl", spider];
    HeadReads(spider);
    PartsRead("-a", args);
    PartsRead("-s", settings);
    AllReadOn(head, head, Parts("-a", args), PairWords("-a", args));
    AllReadOn(head + Parts("-a", args), head + PairWords("-a", args), Parts("-s", settings), PairWords("-s", settings));
    JoinTokens(head + Parts("-a", args) + Parts("-s", settings),
               head + PairWords("-a", args) + PairWords("-s", settings));
  }

  lemma HeadReads(spider: string)
    requires SpiderName(spider)
    ensures AllRead(["scrapy", "crawl", spider], ["scrapy", "crawl", spider])
  {
    KeyIsQuiet(spider);
    QuietReads("scrapy");
    QuietReads("crawl");
    QuietReads(spider);
    assert AllRead([], []);
    OneMoreReads([], [], "scrapy", "scrapy");
    OneMoreReads(["scrapy"], ["scrapy"], "crawl", "crawl");
    OneMoreReads(["scrapy", "crawl"], ["scrapy", "crawl"], spider, spider);
    assert ["scrapy", "crawl"] + [spider] == ["scrapy", "crawl", spider];
  }

  lemma CommandParses(spider: string, args: Dict, settings: Dict)
    requires SpiderName(spider) && Entries(args) && Entries(settings)
    ensures Command(["scrapy", "crawl", spider] + PairWords("-a", args) + PairWords("-s", settings)) ==
      Ok(Parsed(spider, args, settings))
  {
    var rest := PairWords("-a", args) + PairWords("-s", settings);
    ArgsParse(args, []);
    OptionsOn(PairWords("-a", args), PairWords("-s", settings), [], []);
    SettingsParse(args, settings);
    SpiderThen(spider, rest);
    assert ["scrapy", "crawl", spider] + PairWords("-a", args) + PairWords("-s", settings) ==
      ["scrapy", "crawl", spider] + rest;
  }

  lemma SpiderThen(spider: string, rest: seq<string>)
    requires SpiderName(spider)
    ensures var options := Options(rest, [], []);
      Command(["scrapy", "crawl", spider] + rest) ==
        if options.Error? then Error(options.reason) else Ok(Parsed(spider, options.value.0, options.value.1))
  {
    var words := ["scrapy", "crawl", spider] + rest;
    assert words[3..] == rest && words[2] == spider;
    assert NameChar(spider[|spider|-1]);
    assert BeforeNewline(spider) == spider;
  }

  /** The same spider, and the same dictionaries in the same order. */
  lemma PrintThenParse(spider: string, args: Dict, settings: Dict)
    requires SpiderName(spider) && Entries(args) && Entries(settings)
    ensures Parse(Build(spider, args, settings)) == Ok(Parsed(spider, args, settings))
  {
    BuildReads(spider, args, settings);
    CommandParses(spider, args, settings);
    NotBlank(["scrapy", "crawl", spider] + Parts("-a", args) + Parts("-s", settings));
  }

  lemma {:induction false} NotBlank(parts: seq<string>)
    requires |parts| > 0 && parts[0] == "scrapy"
    ensures |Join(parts)| > 0 && Join(parts)[0] == 's'
  {
    if |parts| > 1 {
      NotBlank(parts[..|parts|-1]);
    }
  }
}
