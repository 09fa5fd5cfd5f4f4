/** Exactly which dictionaries survive printing and parsing. */
module ScrapyExact {
  import opened Prelude
  import opened ScrapyCommand
  import opened ScrapyRoundTrip
  import opened ScrapyCounting
  import opened ScrapyWrongWord
  import opened ScrapyProgram

  // ---------------------------------------------------------------- both dictionaries as one list

  datatype Item = Item(flag: string, key: string, value: string)

  function Items(flag: string, d: Dict): seq<Item> {
    if d == [] then [] else Items(flag, d[..|d|-1]) + [Item(flag, d[|d|-1].0, d[|d|-1].1)]
  }

  function Printed(i: Item): string { i.key + "=" + Quote(i.value) }

  function Meant(i: Item): string { i.key + "=" + i.value }

  function ItemParts(items: seq<Item>): seq<string> {
    if items == [] then [] else ItemParts(items[..|items|-1]) + [items[|items|-1].flag, Printed(items[|items|-1])]
  }

  function ItemWords(items: seq<Item>): seq<string> {
    if items == [] then [] else ItemWords(items[..|items|-1]) + [items[|items|-1].flag, Meant(items[|items|-1])]
  }

  /** Names as the parser wants them. */
  ghost predicate Named(items: seq<Item>) {
    forall i | i in items :: KeyName(i.key) && (i.flag == "-a" || i.flag == "-s")
  }

  function All(args: Dict, settings: Dict): seq<Item> { Items("-a", args) + Items("-s", settings) }

  lemma {:induction false} ItemsOfDict(flag: string, d: Dict)
    ensures |Items(flag, d)| == |d| && ItemParts(Items(flag, d)) == Parts(flag, d)
    ensures forall i | 0 <= i < |d| :: Items(flag, d)[i] == Item(flag, d[i].0, d[i].1)
  {
    if d != [] {
      var rest := Items(flag, d[..|d|-1]);
      ItemsOfDict(flag, d[..|d|-1]);
      assert Items(flag, d)[..|d|-1] == rest;
    }
  }

  lemma ItemsJoin(a: seq<Item>, b: seq<Item>)
    ensures ItemParts(a + b) == ItemParts(a) + ItemParts(b) && ItemWords(a + b) == ItemWords(a) + ItemWords(b)
  {
    PartsJoin(a, b);
    WordsJoin(a, b);
  }

  lemma LastOfBoth(a: seq<Item>, b: seq<Item>)
    ensures if b == [] then a + b == a else
      (a + b)[..|a + b|-1] == a + b[..|b|-1] && (a + b)[|a + b|-1] == b[|b|-1]
  {
  }

  lemma {:induction false} PartsJoin(a: seq<Item>, b: seq<Item>)
    ensures ItemParts(a + b) == ItemParts(a) + ItemParts(b)
  {
    LastOfBoth(a, b);
    if b != [] {
      PartsJoin(a, b[..|b|-1]);
    }
  }

  lemma {:induction false} WordsJoin(a: seq<Item>, b: seq<Item>)
    ensures ItemWords(a + b) == ItemWords(a) + ItemWords(b)
  {
    LastOfBoth(a, b);
    if b != [] {
      WordsJoin(a, b[..|b|-1]);
    }
  }

  const HEAD: seq<string> := ["scrapy", "crawl"]

  lemma BuildIsJoin(spider: string, args: Dict, settings: Dict)
    ensures Build(spider, args, settings) == Join(HEAD + [spider] + ItemParts(All(args, settings)))
  {
    ItemsOfDict("-a", args);
    ItemsOfDict("-s", settings);
    ItemsJoin(Items("-a", args), Items("-s", settings));
    assert HEAD + [spider] == ["scrapy", "crawl", spider];
    assert HEAD + [spider] + ItemParts(All(args, settings))
        == ["scrapy", "crawl", spider] + Parts("-a", args) + Parts("-s", settings);
  }

  // ---------------------------------------------------------------- how many blanks there are

  lemma {:induction false} BlanksOfJoin(parts: seq<string>)
    requires parts != []
    ensures Blanks(Join(parts)) == BlanksIn(parts) + |parts| - 1
  {
    if |parts| > 1 {
      var rest, last := parts[..|parts|-1], parts[|parts|-1];
      BlanksOfJoin(rest);
      BlanksInParts(Join(rest) + " ", last);
      BlanksInParts(Join(rest), " ");
      assert " "[..0] == "" && Blanks(" ") == 1;
    } else {
      assert parts[..0] == [];
    }
  }

  function Load(d: Dict): nat {
    if d == [] then 0 else Blanks(d[0].1) + Load(d[1..])
  }

  lemma {:induction false} QuietHasNoBlanks(s: string)
    requires Quiet(s)
    ensures Blanks(s) == 0
  {
    if s != "" {
      QuietHasNoBlanks(s[..|s|-1]);
    }
  }

  lemma {:induction false} LoadJoin(a: Dict, b: Dict)
    ensures Load(a + b) == Load(a) + Load(b)
  {
    if a == [] {
      assert a + b == b;
    } else {
      assert (a + b)[1..] == a[1..] + b;
      LoadJoin(a[1..], b);
    }
  }

  /** A printed dictionary has the blanks of its values. */
  lemma {:induction false} BlanksOfParts(flag: string, d: Dict)
    requires (flag == "-a" || flag == "-s") && forall i | 0 <= i < |d| :: KeyName(d[i].0)
    ensures BlanksIn(Parts(flag, d)) == Load(d) && |Parts(flag, d)| == 2 * |d|
  {
    if d != [] {
      var rest, last := d[..|d|-1], d[|d|-1];
      BlanksOfParts(flag, rest);
      LoadJoin(rest, [last]);
      assert d == rest + [last] && [last][1..] == [];
      BlanksOfPair(flag, last.0, last.1);
      BlanksOfWords(Parts(flag, rest), [flag, last.0 + "=" + Quote(last.1)]);
    }
  }

  lemma TwoWords(a: string, b: string)
    ensures BlanksIn([a, b]) == Blanks(a) + Blanks(b)
  {
    assert [a, b][..1] == [a] && [a][..0] == [];
    assert BlanksIn([a]) == BlanksIn([]) + Blanks(a);
  }

  lemma BlanksOfPair(flag: string, k: string, v: string)
    requires (flag == "-a" || flag == "-s") && KeyName(k)
    ensures BlanksIn([flag, k + "=" + Quote(v)]) == Blanks(v)
  {
    KeyIsQuiet(k);
    QuietHasNoBlanks(k + "=");
    FlagHasNoBlanks(flag);
    PrintedCounts(k + "=", v, '-');
    BlanksInParts(k + "=", v);
    TwoWords(flag, k + "=" + Quote(v));
  }

  lemma FlagHasNoBlanks(flag: string)
    requires flag == "-a" || flag == "-s"
    ensures Quiet(flag) && Blanks(flag) == 0
  {
    assert Quiet("-a") && Quiet("-s");
    QuietHasNoBlanks(flag);
  }

  // ---------------------------------------------------------------- what reading gives

  /** The two halves of a word, at its first `=`. */
  function Halves(word: string): (string, string) {
    var eq := Find(word, '=');
    if eq < |word| then (word[..eq], word[eq+1..]) else (word, "")
  }

  /** The pairs behind one flag. */
  function Given(words: seq<string>, flag: string): Dict {
    if |words| < 2 then [] else
      (if words[0] == flag then [Halves(words[1])] else []) + Given(words[2..], flag)
  }

  lemma {:induction false} PutLoad(d: Dict, k: string, v: string)
    ensures |d| <= |Put(d, k, v)| <= |d| + 1 && Load(Put(d, k, v)) <= Load(d) + Blanks(v)
  {
    if d != [] {
      if d[0].0 == k {
        assert Put(d, k, v)[1..] == d[1..];
      } else {
        PutLoad(d[1..], k, v);
        assert Put(d, k, v)[1..] == Put(d[1..], k, v);
      }
    } else {
      assert [(k, v)][1..] == [];
    }
  }

  lemma {:induction false} PutLength(d: Dict, k: string, v: string)
    ensures |Put(d, k, v)| == |d| + 1 ==> forall i | 0 <= i < |d| :: d[i].0 != k
    ensures |Put(d, k, v)| <= |d| + 1
  {
    if d != [] {
      PutLength(d[1..], k, v);
    }
  }

  lemma PutAppends(d: Dict, k: string, v: string)
    requires |Put(d, k, v)| == |d| + 1
    ensures Put(d, k, v) == d + [(k, v)]
  {
    PutLength(d, k, v);
    PutNew(d, k, v);
  }

  lemma HalvesOfPair(word: string)
    requires Pair(word).Ok?
    ensures Pair(word).value == Halves(word) && word == Halves(word).0 + "=" + Halves(word).1
    ensures Blanks(Halves(word).1) <= Blanks(word)
  {
    var eq := Find(word, '=');
    assert word == word[..eq] + "=" + word[eq+1..];
    BlanksInParts(word[..eq] + "=", word[eq+1..]);
  }

  /**
   What is read has no more entries than pairs, nor more blanks than the words; with as
   many entries as pairs, nothing was overwritten and all stands in order.
   */
  ghost predicate Loaded(words: seq<string>, args: Dict, settings: Dict, d: (Dict, Dict)) {
    |words| % 2 == 0 &&
    LoadedWith(|words| / 2, BlanksIn(words), Given(words, "-a"), Given(words, "-s"), args, settings, d)
  }

  ghost predicate LoadedWith(pairs: nat, blanks: nat, a: Dict, s: Dict, args: Dict, settings: Dict, d: (Dict, Dict)) {
    && |d.0| + |d.1| <= |args| + |settings| + pairs
    && Load(d.0) + Load(d.1) <= Load(args) + Load(settings) + blanks
    && (|d.0| + |d.1| == |args| + |settings| + pairs ==> d.0 == args + a && d.1 == settings + s)
  }

  lemma FirstTwo(words: seq<string>)
    requires |words| >= 2
    ensures BlanksIn(words) == Blanks(words[0]) + Blanks(words[1]) + BlanksIn(words[2..])
  {
    TwoInFront(words[0], words[1], words[2..]);
    assert words == [words[0], words[1]] + words[2..];
  }

  lemma TwoInFront(a: string, b: string, rest: seq<string>)
    ensures BlanksIn([a, b] + rest) == Blanks(a) + Blanks(b) + BlanksIn(rest)
  {
    BlanksOfWords([a, b], rest);
    TwoWords(a, b);
  }

  /** One pair more in front, for either dictionary. */
  lemma ArgMore(pairs: nat, blanks: nat, more: nat, a: Dict, s: Dict, args: Dict, settings: Dict, p: (string, string),
                d: (Dict, Dict))
    requires LoadedWith(pairs, blanks, a, s, Put(args, p.0, p.1), settings, d) && Blanks(p.1) <= more
    ensures LoadedWith(pairs + 1, blanks + more, [p] + a, s, args, settings, d)
  {
    PutLoad(args, p.0, p.1);
    if |Put(args, p.0, p.1)| == |args| + 1 {
      PutAppends(args, p.0, p.1);
      InFront(args, p, a);
    }
  }

  lemma SettingMore(pairs: nat, blanks: nat, more: nat, a: Dict, s: Dict, args: Dict, settings: Dict,
                    p: (string, string), d: (Dict, Dict))
    requires LoadedWith(pairs, blanks, a, s, args, Put(settings, p.0, p.1), d) && Blanks(p.1) <= more
    ensures LoadedWith(pairs + 1, blanks + more, a, [p] + s, args, settings, d)
  {
    PutLoad(settings, p.0, p.1);
    if |Put(settings, p.0, p.1)| == |settings| + 1 {
      PutAppends(settings, p.0, p.1);
      InFront(settings, p, s);
    }
  }

  lemma InFront(d: Dict, p: (string, string), rest: Dict)
    ensures d + [p] + rest == d + ([p] + rest)
  {
  }

  lemma GivenOfTwo(words: seq<string>, flag: string, other: string)
    requires |words| >= 2 && words[0] == flag && other != flag
    ensures Given(words, flag) == [Halves(words[1])] + Given(words[2..], flag) &&
      Given(words, other) == Given(words[2..], other)
  {
    assert [] + Given(words[2..], other) == Given(words[2..], other);
  }

  lemma {:induction false} OptionsLoad(words: seq<string>, args: Dict, settings: Dict)
    requires Options(words, args, settings).Ok?
    ensures Loaded(words, args, settings, Options(words, args, settings).value)
    decreases |words|
  {
    if words == [] {
      assert args + [] == args && settings + [] == settings;
    } else {
      var rest, p, d := words[2..], Halves(words[1]), Options(words, args, settings).value;
      var more := Blanks(words[0]) + Blanks(words[1]);
      HalvesOfPair(words[1]);
      FirstTwo(words);
      assert |words| / 2 == |rest| / 2 + 1;
      if words[0] == "-a" {
        OptionsLoad(rest, Put(args, p.0, p.1), settings);
        ArgMore(|rest| / 2, BlanksIn(rest), more, Given(rest, "-a"), Given(rest, "-s"), args, settings, p, d);
        GivenOfTwo(words, "-a", "-s");
      } else {
        OptionsLoad(rest, args, Put(settings, p.0, p.1));
        SettingMore(|rest| / 2, BlanksIn(rest), more, Given(rest, "-a"), Given(rest, "-s"), args, settings, p, d);
        GivenOfTwo(words, "-s", "-a");
      }
    }
  }

  // ---------------------------------------------------------------- nothing can be made up for

  /** The words of an accepted text, were the splitter asked alone. */
  lemma TokensAreFinal(s: string)
    requires Tokens(s).Ok?
    ensures Tokens(s).value == Final(Lexed(START, s))
    ensures Lexed(START, s).mode == Word || Lexed(START, s).mode == Space
    ensures BlanksIn(Tokens(s).value) + |Tokens(s).value| <= Blanks(s) + 1
  {
    BlanksPaid(s);
    var st := Lexed(START, s);
    SaneStays(START, s);
    if st.mode == Word {
      BlanksOfWords(st.tokens, [st.token]);
      assert BlanksIn([st.token]) == Blanks(st.token) by { assert [st.token][..0] == []; }
    }
  }

  /** A command that comes back had exactly its words, each entry from its own pair, in order. */
  lemma ReadInOrder(spider: string, args: Dict, settings: Dict)
    requires SpiderName(spider) && Named(All(args, settings))
    requires Parse(Build(spider, args, settings)) == Ok(Parsed(spider, args, settings))
    ensures var w := Tokens(Build(spider, args, settings)).value;
      && |w| >= 3 && args == Given(w[3..], "-a") && settings == Given(w[3..], "-s")
  {
    var s := Build(spider, args, settings);
    var w := Tokens(s).value;
    TokensAreFinal(s);
    OptionsLoad(w[3..], [], []);
    assert w == w[..3] + w[3..];
    BlanksOfWords(w[..3], w[3..]);
    BlanksOfBuild(spider, args, settings);
    assert [] + Given(w[3..], "-a") == Given(w[3..], "-a") && [] + Given(w[3..], "-s") == Given(w[3..], "-s");
  }

  lemma BlanksOfBuild(spider: string, args: Dict, settings: Dict)
    requires SpiderName(spider) && Named(All(args, settings))
    ensures Blanks(Build(spider, args, settings)) == Load(args) + Load(settings) + 2 + 2 * (|args| + |settings|)
  {
    var head := ["scrapy", "crawl", spider];
    NamedDicts(args, settings);
    BlanksOfParts("-a", args);
    BlanksOfParts("-s", settings);
    BlanksOfWords(head, Parts("-a", args));
    BlanksOfWords(head + Parts("-a", args), Parts("-s", settings));
    BlanksOfHead(spider);
    BlanksOfJoin(head + Parts("-a", args) + Parts("-s", settings));
  }

  lemma BlanksOfHead(spider: string)
    requires SpiderName(spider)
    ensures BlanksIn(["scrapy", "crawl", spider]) == 0
  {
    KeyIsQuiet(spider);
    assert Quiet("scrapy") && Quiet("crawl");
    QuietHasNoBlanks("scrapy");
    QuietHasNoBlanks("crawl");
    QuietHasNoBlanks(spider);
    TwoWords("scrapy", "crawl");
    assert ["scrapy", "crawl", spider][..2] == ["scrapy", "crawl"];
  }

  lemma NamedDicts(args: Dict, settings: Dict)
    requires Named(All(args, settings))
    ensures forall i | 0 <= i < |args| :: KeyName(args[i].0)
    ensures forall i | 0 <= i < |settings| :: KeyName(settings[i].0)
  {
    ItemsOfDict("-a", args);
    ItemsOfDict("-s", settings);
    forall i | 0 <= i < |args| ensures KeyName(args[i].0) {
      assert Items("-a", args)[i] in All(args, settings);
    }
    forall i | 0 <= i < |settings| ensures KeyName(settings[i].0) {
      assert Items("-s", settings)[i] in All(args, settings);
    }
  }

  // ---------------------------------------------------------------- the first misread value

  /** Parts with a blank behind each. */
  function Line(parts: seq<string>): string {
    if parts == [] then "" else Line(parts[..|parts|-1]) + parts[|parts|-1] + " "
  }

  lemma {:induction false} JoinIsLine(parts: seq<string>)
    requires parts != []
    ensures Join(parts) + " " == Line(parts)
  {
    if |parts| == 1 {
      assert parts[..0] == [] && "" + parts[0] == parts[0];
    } else {
      JoinIsLine(parts[..|parts|-1]);
    }
  }

  lemma {:induction false} JoinInTwo(a: seq<string>, b: seq<string>)
    requires a != [] && b != []
    ensures Join(a + b) == Join(a) + " " + Join(b)
  {
    var n := |b| - 1;
    assert (a + b)[..|a + b|-1] == a + b[..n] && (a + b)[|a + b|-1] == b[n];
    if n == 0 {
      assert a + b[..0] == a;
    } else {
      JoinInTwo(a, b[..n]);
    }
  }

  ghost predicate LexReads(part: string, word: string) {
    exists quoted :: ReadsAs(part, word, quoted)
  }

  ghost predicate AllLexRead(parts: seq<string>, words: seq<string>) {
    |parts| == |words| && forall i | 0 <= i < |parts| :: LexReads(parts[i], words[i])
  }

  /** Parts the splitter reads one by one it reads in a row. */
  lemma {:induction false} LineReads(parts: seq<string>, words: seq<string>)
    requires AllLexRead(parts, words)
    ensures Lexed(START, Line(parts)) == Fresh(words)
  {
    if parts != [] {
      var n := |parts| - 1;
      AllButLast(parts, words);
      LineReads(parts[..n], words[..n]);
      OneMoreLexed(Line(parts[..n]), words[..n], parts[n], words[n]);
    }
  }

  lemma AllButLast(parts: seq<string>, words: seq<string>)
    requires AllLexRead(parts, words) && parts != []
    ensures var n := |parts| - 1;
      AllLexRead(parts[..n], words[..n]) && LexReads(parts[n], words[n]) && words[..n] + [words[n]] == words
  {
  }

  lemma OneMoreLexed(line: string, words: seq<string>, part: string, word: string)
    requires Lexed(START, line) == Fresh(words) && LexReads(part, word)
    ensures Lexed(START, line + part + " ") == Fresh(words + [word])
  {
    var quoted :| ReadsAs(part, word, quoted);
    LexedInParts(START, line + part, " ");
    LexedInParts(START, line, part);
    OneChar(' ');
  }

  lemma ExactStep(tokens: seq<string>, head: string, v: string, n: nat)
    requires n < |v| && !(n > 0 && v[n-1] == '\\' && (v[n] == '\\' || v[n] == '"'))
    requires Lexed(Lexer(In('"'), tokens, head, false), Escaped(v[..n])) == Exact(tokens, head, v, n)
    ensures Lexed(Lexer(In('"'), tokens, head, false), Escaped(v[..n+1])) == Exact(tokens, head, v, n + 1)
  {
    assert v[..n+1][..n] == v[..n];
    TakenIsLexed(Lexer(In('"'), tokens, head, false), v[..n+1]);
    ExactGoesOn(tokens, head, v, n);
  }

  lemma {:induction false} WalkExact(tokens: seq<string>, head: string, v: string, n: nat)
    requires n <= |v| && !Lost(v, n)
    ensures Lexed(Lexer(In('"'), tokens, head, false), Escaped(v[..n])) == Exact(tokens, head, v, n)
  {
    if n > 0 {
      LostNow(v, n - 1);
      WalkExact(tokens, head, v, n - 1);
      ExactStep(tokens, head, v, n - 1);
    } else {
      assert head + v[..0] == head;
    }
  }

  lemma GoodLosesNothing(v: string)
    requires NeedsQuotes(v) && LexGood(v)
    ensures !Lost(v, |v|) && (v != "" ==> v[|v|-1] != '\\')
  {
  }

  lemma GoodReads(k: string, v: string)
    requires KeyName(k) && LexGood(v)
    ensures LexReads(k + "=" + Quote(v), k + "=" + v)
  {
    KeyIsQuiet(k);
    if NeedsQuotes(v) {
      GoodLosesNothing(v);
      forall tokens ensures Lexed(Fresh(tokens), k + "=" + Quote(v)) == Lexer(Word, tokens, k + "=" + v, true) {
        QuotedFrom(tokens, k + "=", v);
        WalkExact(tokens, k + "=", v, |v|);
        assert v[..|v|] == v;
      }
      assert ReadsAs(k + "=" + Quote(v), k + "=" + v, true);
    } else {
      assert Quiet(k + "=" + v);
      QuietReads(k + "=" + v);
    }
  }

  lemma {:induction false} ItemsRead(items: seq<Item>)
    requires Named(items) && forall i | i in items :: LexGood(i.value)
    ensures AllLexRead(ItemParts(items), ItemWords(items))
  {
    if items != [] {
      var rest, last := items[..|items|-1], items[|items|-1];
      assert last in items && forall i | i in rest :: i in items;
      ItemsRead(rest);
      GoodReads(last.key, last.value);
      FlagHasNoBlanks(last.flag);
      QuietReads(last.flag);
    }
  }

  lemma HeadLexReads(spider: string)
    requires SpiderName(spider)
    ensures AllLexRead(HEAD + [spider], HEAD + [spider])
  {
    KeyIsQuiet(spider);
    assert Quiet("scrapy") && Quiet("crawl");
    QuietReads("scrapy");
    QuietReads("crawl");
    QuietReads(spider);
  }

  /** What `i` pairs and a flag print to, and what they mean. */
  function PartsTo(spider: string, items: seq<Item>, i: nat): seq<string>
    requires i < |items|
  {
    HEAD + [spider] + ItemParts(items[..i]) + [items[i].flag]
  }

  function WordsTo(spider: string, items: seq<Item>, i: nat): seq<string>
    requires i < |items|
  {
    HEAD + [spider] + ItemWords(items[..i]) + [items[i].flag]
  }

  function After(items: seq<Item>, i: nat): string
    requires i < |items|
  {
    if i + 1 == |items| then "" else " " + Join(ItemParts(items[i+1..]))
  }

  lemma {:induction false} JoinStarts(parts: seq<string>)
    requires parts != [] && parts[0] != ""
    ensures Join(parts) != "" && Join(parts)[0] == parts[0][0]
  {
    if |parts| > 1 {
      JoinStarts(parts[..|parts|-1]);
    }
  }

  lemma {:induction false} ItemsStart(items: seq<Item>)
    requires items != []
    ensures ItemParts(items) != [] && ItemParts(items)[0] == items[0].flag
  {
    if |items| > 1 {
      ItemsStart(items[..|items|-1]);
    } else {
      assert items[..0] == [];
    }
  }

  /** A blank and a flag come behind every pair but the last. */
  lemma AfterIsFlag(items: seq<Item>, i: nat)
    requires i < |items| && Named(items)
    ensures After(items, i) == "" || (|After(items, i)| > 1 && After(items, i)[0] == ' ' && After(items, i)[1] == '-')
  {
    if i + 1 < |items| {
      var rest := items[i+1..];
      ItemsStart(rest);
      assert rest[0] in items;
      JoinStarts(ItemParts(rest));
    }
  }

  lemma JoinCut(before: seq<string>, p: string, rest: seq<string>)
    requires before != []
    ensures Join(before + [p] + rest) == Line(before) + p + if rest == [] then "" else " " + Join(rest)
  {
    JoinIsLine(before);
    JoinInTwo(before, [p]);
    assert Join([p]) == p;
    if rest == [] {
      assert before + [p] + rest == before + [p] && Line(before) + p + "" == Line(before) + p;
    } else {
      JoinInTwo(before + [p], rest);
      assert Line(before) + p + " " + Join(rest) == Line(before) + p + (" " + Join(rest));
    }
  }

  lemma PartsCut(spider: string, items: seq<Item>, i: nat)
    requires i < |items|
    ensures HEAD + [spider] + ItemParts(items) ==
      PartsTo(spider, items, i) + [Printed(items[i])] + ItemParts(items[i+1..])
  {
    ItemsInThree(items, i);
    Regroup(HEAD + [spider], ItemParts(items[..i]), items[i].flag, Printed(items[i]), ItemParts(items[i+1..]));
  }

  lemma ItemsInThree(items: seq<Item>, i: nat)
    requires i < |items|
    ensures ItemParts(items) == ItemParts(items[..i]) + ([items[i].flag, Printed(items[i])] + ItemParts(items[i+1..]))
  {
    ItemsCut(items, i);
    ItemsJoin(items[..i], [items[i]] + items[i+1..]);
    ItemsJoin([items[i]], items[i+1..]);
    OneItem(items[i]);
  }

  lemma ItemsCut(items: seq<Item>, i: nat)
    requires i < |items|
    ensures items == items[..i] + ([items[i]] + items[i+1..])
  {
  }

  lemma OneItem(i: Item)
    ensures ItemParts([i]) == [i.flag, Printed(i)] && With([i], i.flag) == [(i.key, i.value)]
  {
    assert [i][..0] == [];
  }

  lemma Regroup(head: seq<string>, before: seq<string>, flag: string, p: string, rest: seq<string>)
    ensures head + (before + ([flag, p] + rest)) == head + before + [flag] + [p] + rest
  {
  }

  /** The command, cut at its pair `i`. */
  lemma CutAt(spider: string, items: seq<Item>, i: nat)
    requires i < |items|
    ensures Join(HEAD + [spider] + ItemParts(items)) ==
      Line(PartsTo(spider, items, i)) + Printed(items[i]) + After(items, i)
  {
    var rest := items[i+1..];
    PartsCut(spider, items, i);
    JoinCut(PartsTo(spider, items, i), Printed(items[i]), ItemParts(rest));
    if rest != [] {
      ItemsStart(rest);
    }
  }

  // ---------------------------------------------------------------- what each dictionary is given

  function With(items: seq<Item>, flag: string): Dict {
    if items == [] then [] else
      With(items[..|items|-1], flag)
        + (if items[|items|-1].flag == flag then [(items[|items|-1].key, items[|items|-1].value)] else [])
  }

  lemma {:induction false} WithOfDict(flag: string, d: Dict, other: string)
    ensures With(Items(flag, d), other) == if flag == other then d else []
  {
    if d != [] {
      WithOfDict(flag, d[..|d|-1], other);
      assert Items(flag, d)[..|d|-1] == Items(flag, d[..|d|-1]) by { ItemsOfDict(flag, d[..|d|-1]); }
      ItemsOfDict(flag, d);
      assert d == d[..|d|-1] + [d[|d|-1]];
    }
  }

  lemma {:induction false} WithJoin(a: seq<Item>, b: seq<Item>, flag: string)
    ensures With(a + b, flag) == With(a, flag) + With(b, flag)
  {
    if b == [] {
      assert a + b == a;
    } else {
      assert (a + b)[..|a + b|-1] == a + b[..|b|-1];
      WithJoin(a, b[..|b|-1], flag);
    }
  }

  lemma WithAll(args: Dict, settings: Dict)
    ensures With(All(args, settings), "-a") == args && With(All(args, settings), "-s") == settings
  {
    WithOfDict("-a", args, "-a");
    WithOfDict("-a", args, "-s");
    WithOfDict("-s", settings, "-a");
    WithOfDict("-s", settings, "-s");
    WithJoin(Items("-a", args), Items("-s", settings), "-a");
    WithJoin(Items("-a", args), Items("-s", settings), "-s");
  }

  lemma {:induction false} GivenInTwo(a: seq<string>, b: seq<string>, flag: string)
    requires |a| % 2 == 0
    ensures Given(a + b, flag) == Given(a, flag) + Given(b, flag)
    decreases |a|
  {
    if a == [] {
      assert a + b == b;
    } else {
      assert (a + b)[2..] == a[2..] + b;
      GivenInTwo(a[2..], b, flag);
    }
  }

  lemma HalvesOfMeant(i: Item)
    requires KeyName(i.key)
    ensures Halves(Meant(i)) == (i.key, i.value)
  {
    KeyIsQuiet(i.key);
    FindIs(Meant(i), '=', |i.key|);
    assert Meant(i)[..|i.key|] == i.key && Meant(i)[|i.key|+1..] == i.value;
  }

  /** Their own words give the items back. */
  lemma {:induction false} GivenOfItems(items: seq<Item>, flag: string)
    requires Named(items)
    ensures |ItemWords(items)| == 2 * |items| && Given(ItemWords(items), flag) == With(items, flag)
  {
    if items != [] {
      var rest, last := items[..|items|-1], items[|items|-1];
      assert last in items && forall i | i in rest :: i in items;
      GivenOfItems(rest, flag);
      var two := [last.flag, Meant(last)];
      GivenInTwo(ItemWords(rest), two, flag);
      HalvesOfMeant(last);
      assert two[2..] == [] && Given([], flag) == [];
    }
  }

  // ---------------------------------------------------------------- a misread value

  lemma WordsToRead(spider: string, items: seq<Item>, i: nat)
    requires SpiderName(spider) && Named(items) && i < |items| && forall j | 0 <= j < i :: LexGood(items[j].value)
    ensures Lexed(START, Line(PartsTo(spider, items, i))) == Fresh(WordsTo(spider, items, i))
  {
    HeadLexReads(spider);
    assert forall x | x in items[..i] :: x in items && LexGood(x.value);
    ItemsRead(items[..i]);
    assert items[i] in items;
    FlagHasNoBlanks(items[i].flag);
    QuietReads(items[i].flag);
    LineReads(PartsTo(spider, items, i), WordsTo(spider, items, i));
  }

  /** The first misread value is not the word at its place. */
  lemma MisreadWord(spider: string, args: Dict, settings: Dict, i: nat)
    requires SpiderName(spider) && Named(All(args, settings)) && i < |All(args, settings)|
    requires !LexGood(All(args, settings)[i].value) && forall j | 0 <= j < i :: LexGood(All(args, settings)[j].value)
    requires Tokens(Build(spider, args, settings)).Ok?
    ensures var items := All(args, settings);
      var w, to := Tokens(Build(spider, args, settings)).value, WordsTo(spider, items, i);
      to < w && w[|to|] != Meant(items[i])
  {
    var items, s := All(args, settings), Build(spider, args, settings);
    BuildIsJoin(spider, args, settings);
    TokensAreFinal(s);
    LexedTo(spider, items, i);
    AfterIsFlag(items, i);
    NamedAt(items, i);
    WrongWord(WordsTo(spider, items, i), items[i].key, items[i].value, After(items, i));
  }

  lemma NamedAt(items: seq<Item>, i: nat)
    requires Named(items) && i < |items|
    ensures KeyName(items[i].key)
  {
  }

  /** Read up to a pair: the words so far, then the pair and what follows it. */
  lemma LexedTo(spider: string, items: seq<Item>, i: nat)
    requires SpiderName(spider) && Named(items) && i < |items| && forall j | 0 <= j < i :: LexGood(items[j].value)
    ensures Lexed(START, Join(HEAD + [spider] + ItemParts(items)))
      == Lexed(Fresh(WordsTo(spider, items, i)), Printed(items[i]) + After(items, i))
  {
    CutAt(spider, items, i);
    WordsToRead(spider, items, i);
    LexedBehind(Line(PartsTo(spider, items, i)), Printed(items[i]), After(items, i), WordsTo(spider, items, i));
  }

  lemma LexedBehind(before: string, p: string, after: string, words: seq<string>)
    requires Lexed(START, before) == Fresh(words)
    ensures Lexed(START, before + p + after) == Lexed(Fresh(words), p + after)
  {
    assert before + (p + after) == before + p + after;
    LexedInParts(START, before, p + after);
  }

  /** Were it accepted all the same, its entry would have to be read there. */
  lemma EntryIsThere(spider: string, items: seq<Item>, i: nat, w: seq<string>)
    requires Named(items) && i < |items| && WordsTo(spider, items, i) < w
    requires With(items, items[i].flag) == Given(w[3..], items[i].flag)
    ensures Halves(w[|WordsTo(spider, items, i)|]) == (items[i].key, items[i].value)
  {
    var item, n := items[i], |WordsTo(spider, items, i)|;
    GivenInThree(spider, items, i, w);
    WithInThree(items, i);
    SameNext(With(items[..i], item.flag), Halves(w[n]), Given(w[n+1..], item.flag),
             (item.key, item.value), With(items[i+1..], item.flag));
  }

  lemma GivenInThree(spider: string, items: seq<Item>, i: nat, w: seq<string>)
    requires Named(items) && i < |items| && WordsTo(spider, items, i) < w
    ensures var flag, n := items[i].flag, |WordsTo(spider, items, i)|;
      Given(w[3..], flag) == With(items[..i], flag) + ([Halves(w[n])] + Given(w[n+1..], flag))
  {
    var flag, n := items[i].flag, |WordsTo(spider, items, i)|;
    var before := ItemWords(items[..i]);
    assert forall x | x in items[..i] :: x in items;
    GivenOfItems(items[..i], flag);
    WordsCut(before, spider, flag, w);
    GivenInTwo(before, [flag, w[n]] + w[n+1..], flag);
    GivenFirst(flag, w[n], w[n+1..]);
  }

  lemma WithInThree(items: seq<Item>, i: nat)
    requires i < |items|
    ensures var item := items[i];
      With(items, item.flag) == With(items[..i], item.flag) + ([(item.key, item.value)] + With(items[i+1..], item.flag))
  {
    var item := items[i];
    ItemsCut(items, i);
    WithJoin(items[..i], [item] + items[i+1..], item.flag);
    WithJoin([item], items[i+1..], item.flag);
    OneItem(item);
  }

  lemma SameNext(before: Dict, a: (string, string), more: Dict, b: (string, string), rest: Dict)
    requires before + ([a] + more) == before + ([b] + rest)
    ensures a == b
  {
    assert (before + ([a] + more))[|before|] == a && (before + ([b] + rest))[|before|] == b;
  }

  lemma WordsCut(before: seq<string>, spider: string, flag: string, w: seq<string>)
    requires HEAD + [spider] + before + [flag] < w
    ensures var n := |before| + 4; w[3..] == before + ([flag, w[n]] + w[n+1..])
  {
    var to := HEAD + [spider] + before + [flag];
    assert w == to + w[|to|..];
    assert to[3..] == before + [flag];
  }

  lemma GivenFirst(flag: string, word: string, rest: seq<string>)
    ensures Given([flag, word] + rest, flag) == [Halves(word)] + Given(rest, flag)
  {
    assert ([flag, word] + rest)[2..] == rest;
  }

  /** Every second word of accepted options is a pair. */
  lemma {:induction false} PairAt(words: seq<string>, i: nat, args: Dict, settings: Dict)
    requires Options(words, args, settings).Ok? && 2 * i + 1 < |words|
    ensures Pair(words[2 * i + 1]).Ok?
    decreases |words|
  {
    var rest := OnePairLess(words, args, settings);
    if i > 0 {
      PairAt(words[2..], i - 1, rest.0, rest.1);
    }
  }

  lemma OnePairLess(words: seq<string>, args: Dict, settings: Dict) returns (rest: (Dict, Dict))
    requires Options(words, args, settings).Ok? && words != []
    ensures |words| > 1 && Pair(words[1]).Ok? && Options(words[2..], rest.0, rest.1).Ok?
  {
    var pair := Pair(words[1]).value;
    rest := if words[0] == "-a" then (Put(args, pair.0, pair.1), settings) else (args, Put(settings, pair.0, pair.1));
  }

  lemma MisreadIsLost(spider: string, args: Dict, settings: Dict, i: nat)
    requires SpiderName(spider) && Named(All(args, settings)) && i < |All(args, settings)|
    requires !LexGood(All(args, settings)[i].value) && forall j | 0 <= j < i :: LexGood(All(args, settings)[j].value)
    ensures Parse(Build(spider, args, settings)) != Ok(Parsed(spider, args, settings))
  {
    var items, s := All(args, settings), Build(spider, args, settings);
    if Parse(s) == Ok(Parsed(spider, args, settings)) {
      ReadInOrder(spider, args, settings);
      MisreadWord(spider, args, settings, i);
      WithAll(args, settings);
      assert items[i] in items;
      AcceptedOptions(s);
      EntryMeant(spider, items, i, Tokens(s).value);
      assert false;
    }
  }

  lemma AcceptedOptions(s: string)
    requires Parse(s).Ok?
    ensures Tokens(s).Ok? && |Tokens(s).value| >= 3 && Options(Tokens(s).value[3..], [], []).Ok?
  {
  }

  /** The word there is then the pair itself. */
  lemma EntryMeant(spider: string, items: seq<Item>, i: nat, w: seq<string>)
    requires Named(items) && i < |items| && WordsTo(spider, items, i) < w && Options(w[3..], [], []).Ok?
    requires With(items, items[i].flag) == Given(w[3..], items[i].flag)
    ensures w[|WordsTo(spider, items, i)|] == Meant(items[i])
  {
    var n := |WordsTo(spider, items, i)|;
    EntryIsThere(spider, items, i, w);
    WordsToLength(spider, items, i);
    assert w[3..][2 * i + 1] == w[n];
    PairAt(w[3..], i, [], []);
    HalvesOfPair(w[n]);
  }

  lemma WordsToLength(spider: string, items: seq<Item>, i: nat)
    requires Named(items) && i < |items|
    ensures |WordsTo(spider, items, i)| == 2 * i + 4
  {
    assert forall x | x in items[..i] :: x in items;
    GivenOfItems(items[..i], "-a");
  }

  // ---------------------------------------------------------------- a double quote

  /** The scan is not bare, and will not be. */
  predicate Open(st: Scan) { st == Within('"') || st == Within('\'') || st == Refused }

  /** States behind an escaped double quote, and all that can come of them. */
  predicate Behind(st: Scan) { st == Bare || st == Within('\'') || st == Refused }

  lemma {:induction false} QuietKeeps(st: Scan, s: string)
    requires Quiet(s)
    ensures Open(st) || st == Bare ==> Scanned(st, s) == st
  {
    if s != "" {
      QuietKeeps(st, s[..|s|-1]);
    }
  }

  lemma EscapedStep(st: Scan, v: string)
    requires v != ""
    ensures var mid, c := Scanned(st, Escaped(v[..|v|-1])), v[|v|-1];
      Scanned(st, Escaped(v)) == if c == '"' then ScanStep(ScanStep(mid, '\\'), '"') else ScanStep(mid, c)
  {
    var rest, c := Escaped(v[..|v|-1]), v[|v|-1];
    OneChar(c);
    if c == '"' {
      OneChar('\\');
      assert Escaped(v) == rest + ['\\'] + ['"'];
      ScannedInParts(st, rest + ['\\'], ['"']);
      ScannedInParts(st, rest, ['\\']);
    } else {
      ScannedInParts(st, rest, [c]);
    }
  }

  /** An escaped value never takes the scan back between double quotes. */
  lemma {:induction false} EscapedScan(st: Scan, v: string)
    requires Behind(st) || st == Within('"')
    ensures var e := Scanned(st, Escaped(v));
      if Behind(st) || '"' in v then Behind(e) else e == Within('"')
  {
    if v != "" {
      EscapedScan(st, v[..|v|-1]);
      EscapedStep(st, v);
      LastOrBefore(v);
      OneEscaped(Scanned(st, Escaped(v[..|v|-1])), v[|v|-1]);
    }
  }

  lemma LastOrBefore(v: string)
    requires v != ""
    ensures '"' in v <==> '"' in v[..|v|-1] || v[|v|-1] == '"'
  {
    assert v == v[..|v|-1] + [v[|v|-1]];
  }

  lemma OneEscaped(st: Scan, c: char)
    requires Behind(st) || st == Within('"')
    ensures var e := if c == '"' then ScanStep(ScanStep(st, '\\'), '"') else ScanStep(st, c);
      if Behind(st) || c == '"' then Behind(e) else e == Within('"')
  {
  }

  lemma QuotedScan(st: Scan, v: string)
    requires NeedsQuotes(v) && (Open(st) || st == Bare)
    ensures var e := Scanned(st, Quote(v)); Open(e) || (e == Bare && st == Bare && '"' !in v)
  {
    ScannedInParts(st, ['"'] + Escaped(v), ['"']);
    ScannedInParts(st, ['"'], Escaped(v));
    OneChar('"');
    EscapedScan(ScanStep(st, '"'), v);
  }

  lemma PairScan(st: Scan, k: string, v: string)
    requires KeyName(k) && LexGood(v) && (Open(st) || st == Bare)
    ensures var e := Scanned(st, k + "=" + Quote(v)); Open(e) || (e == Bare && st == Bare && '"' !in v)
  {
    KeyIsQuiet(k);
    ScannedInParts(st, k + "=", Quote(v));
    QuietKeeps(st, k + "=");
    if NeedsQuotes(v) {
      QuotedScan(st, v);
    } else {
      QuietKeeps(st, v);
    }
  }

  lemma HeadScan(spider: string)
    requires SpiderName(spider)
    ensures Scanned(Bare, Join(HEAD + [spider])) == Bare
  {
    HeadReads(spider);
    assert HEAD + [spider] == ["scrapy", "crawl", spider];
    var _ := JoinReads(HEAD + [spider], HEAD + [spider]);
  }

  lemma JoinOne(parts: seq<string>, a: string, b: string, st: Scan)
    requires parts != []
    ensures Scanned(st, Join(parts + [a, b]))
      == Scanned(Scanned(Scanned(Scanned(Scanned(st, Join(parts)), " "), a), " "), b)
  {
    assert parts + [a, b] == parts + [a] + [b];
    JoinInTwo(parts + [a], [b]);
    JoinInTwo(parts, [a]);
    assert Join([a]) == a && Join([b]) == b;
    ScannedInParts(st, Join(parts) + " " + a + " ", b);
    ScannedInParts(st, Join(parts) + " " + a, " ");
    ScannedInParts(st, Join(parts) + " ", a);
    ScannedInParts(st, Join(parts), " ");
  }

  /** A value with a double quote leaves the scan open for good. */
  lemma {:induction false} ScanStaysOpen(spider: string, items: seq<Item>)
    requires SpiderName(spider) && Named(items) && forall i | i in items :: LexGood(i.value)
    ensures var e := Scanned(Bare, Join(HEAD + [spider] + ItemParts(items)));
      Open(e) || (e == Bare && forall i | i in items :: '"' !in i.value)
  {
    var head := HEAD + [spider];
    if items == [] {
      HeadScan(spider);
      assert head + [] == head;
    } else {
      var rest, last := items[..|items|-1], items[|items|-1];
      assert items == rest + [last] && last in items && forall i | i in rest :: i in items;
      ScanStaysOpen(spider, rest);
      FlagHasNoBlanks(last.flag);
      var parts := head + ItemParts(rest);
      assert head + ItemParts(items) == parts + [last.flag, Printed(last)];
      OneMoreScanned(parts, last);
    }
  }

  lemma OneMoreScanned(parts: seq<string>, i: Item)
    requires parts != [] && KeyName(i.key) && (i.flag == "-a" || i.flag == "-s") && LexGood(i.value)
    requires Open(Scanned(Bare, Join(parts))) || Scanned(Bare, Join(parts)) == Bare
    ensures var st, e := Scanned(Bare, Join(parts)), Scanned(Bare, Join(parts + [i.flag, Printed(i)]));
      Open(e) || (e == Bare && st == Bare && '"' !in i.value)
  {
    var st := Scanned(Bare, Join(parts));
    JoinOne(parts, i.flag, Printed(i), Bare);
    FlagHasNoBlanks(i.flag);
    BlankKeeps(st);
    QuietKeeps(st, i.flag);
    PairScan(st, i.key, i.value);
  }

  lemma BlankKeeps(st: Scan)
    ensures Open(st) || st == Bare ==> Scanned(st, " ") == st
  {
    OneChar(' ');
    assert " " == [' '];
  }

  // ---------------------------------------------------------------- the theorem

  lemma {:induction false} FirstMisread(items: seq<Item>) returns (i: nat)
    ensures i <= |items| && (forall j | 0 <= j < i :: LexGood(items[j].value))
    ensures i < |items| ==> !LexGood(items[i].value)
  {
    if items == [] {
      i := 0;
    } else {
      i := FirstMisread(items[..|items|-1]);
      if i == |items| - 1 && LexGood(items[i].value) {
        i := i + 1;
      }
    }
  }

  lemma {:induction false} WellFormedMeans(d: Dict)
    requires WellFormed(d)
    ensures forall i | 0 <= i < |d| :: Allowed(d[i].0, d[i].1) && d[i].0 in Keys(d)
    ensures forall i, j | 0 <= i < j < |d| :: d[i].0 != d[j].0
  {
    if d != [] {
      WellFormedMeans(d[1..]);
      assert forall i | 1 <= i < |d| :: d[i] == d[1..][i-1];
    }
  }

  lemma GoodIsReadable(v: string)
    requires LexGood(v) && '"' !in v
    ensures Readable(v)
  {
  }

  lemma EntriesOf(flag: string, d: Dict, items: seq<Item>)
    requires Named(items) && WellFormed(d) && forall i | i in Items(flag, d) :: i in items
    requires forall i | i in items :: LexGood(i.value) && '"' !in i.value
    ensures Entries(d)
  {
    ItemsOfDict(flag, d);
    WellFormedMeans(d);
    forall i | 0 <= i < |d| ensures KeyName(d[i].0) && Survives(d[i].1) {
      assert Items(flag, d)[i] in items;
      GoodIsReadable(d[i].1);
    }
  }

  /** An accepted command leaves the scan bare. */
  lemma AcceptedIsBare(s: string)
    requires Parse(s).Ok?
    ensures Scanned(Bare, s) == Bare
  {
  }

  lemma NoneMisread(spider: string, args: Dict, settings: Dict)
    requires SpiderName(spider) && Named(All(args, settings))
    requires Parse(Build(spider, args, settings)) == Ok(Parsed(spider, args, settings))
    ensures forall i | i in All(args, settings) :: LexGood(i.value) && '"' !in i.value
  {
    var items := All(args, settings);
    var i := FirstMisread(items);
    if i < |items| {
      MisreadIsLost(spider, args, settings, i);
      assert false;
    } else {
      BuildIsJoin(spider, args, settings);
      AcceptedIsBare(Build(spider, args, settings));
      ScanStaysOpen(spider, items);
    }
  }

  lemma ComesBackOnlyIf(spider: string, args: Dict, settings: Dict)
    requires SpiderName(spider) && Named(All(args, settings))
    requires Parse(Build(spider, args, settings)) == Ok(Parsed(spider, args, settings))
    ensures Entries(args) && Entries(settings)
  {
    NoneMisread(spider, args, settings);
    AcceptedIsWellFormed(Build(spider, args, settings));
    EntriesOf("-a", args, All(args, settings));
    EntriesOf("-s", settings, All(args, settings));
  }

  lemma NamedIfKeysAre(args: Dict, settings: Dict)
    requires forall i | 0 <= i < |args| :: KeyName(args[i].0)
    requires forall i | 0 <= i < |settings| :: KeyName(settings[i].0)
    ensures Named(All(args, settings))
  {
    ItemsOfDict("-a", args);
    ItemsOfDict("-s", settings);
  }

  /**
   The values that come back, character by character: no control character, no double
   quote, a single quote only beside whitespace or a metacharacter, and every backslash
   before something other than a backslash.
   */
  lemma SurvivesMeans(v: string)
    ensures Survives(v) <==>
      && (forall i | 0 <= i < |v| :: !Control(v[i]) && v[i] != '"')
      && ('\'' in v ==> exists i | 0 <= i < |v| :: IsSpace(v[i]) || v[i] in META)
      && (forall i | 0 <= i < |v| && v[i] == '\\' :: i + 1 < |v| && v[i+1] != '\\')
  {
  }

  /**
   For every spider and all dictionaries with valid names: the command comes back unchanged
   if and only if no key is there twice and every value survives.
   */
  lemma PrintParseIff(spider: string, args: Dict, settings: Dict)
    requires SpiderName(spider)
    requires forall i | 0 <= i < |args| :: KeyName(args[i].0)
    requires forall i | 0 <= i < |settings| :: KeyName(settings[i].0)
    ensures Parse(Build(spider, args, settings)) == Ok(Parsed(spider, args, settings))
      <==> Entries(args) && Entries(settings)
  {
    if Entries(args) && Entries(settings) {
      PrintThenParse(spider, args, settings);
    } else if Parse(Build(spider, args, settings)) == Ok(Parsed(spider, args, settings)) {
      NamedIfKeysAre(args, settings);
      ComesBackOnlyIf(spider, args, settings);
    }
  }
}
