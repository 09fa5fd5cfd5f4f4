/** The web form's own check of a command, and how far it mirrors the parser. */
module WebMirror {
  import opened Prelude
  import opened ScrapyCommand
  import opened ScrapyRoundTrip
  import opened ScrapyProgram
  import opened WebWords

  // ---------------------------------------------------------------- the web check

  /** What JavaScript's trim removes. */
  predicate JsSpace(c: char) {
    || '\t' <= c <= '\r' || c == ' ' || c == '\U{A0}' || c == '\U{1680}' || '\U{2000}' <= c <= '\U{200A}'
    || c == '\U{2028}' || c == '\U{2029}' || c == '\U{202F}' || c == '\U{205F}' || c == '\U{3000}' || c == '\U{FEFF}'
  }

  function TrimStart(s: string): string {
    if s != "" && JsSpace(s[0]) then TrimStart(s[1..]) else s
  }

  function TrimEnd(s: string): string {
    if s != "" && JsSpace(s[|s|-1]) then TrimEnd(s[..|s|-1]) else s
  }

  function WebPair(word: string): Option<Reason> {
    var eq := Find(word, '=');
    if eq == |word| then Some(MalformedPair)
    else if !KeyName(word[..eq]) then Some(InvalidKey) else None
  }

  function WebOptions(words: seq<string>): Option<Reason> {
    if words == [] then None
    else if words[0] != "-a" && words[0] != "-s" then Some(UnsupportedFlag)
    else if |words| == 1 then Some(MissingValue)
    else if WebPair(words[1]).Some? then WebPair(words[1])
    else WebOptions(words[2..])
  }

  function WebCommand(words: seq<string>): Option<Reason> {
    if |words| < 2 || words[0] != "scrapy" || words[1] != "crawl" then Some(NotScrapyCrawl)
    else if |words| < 3 || !SpiderName(words[2]) then Some(MissingSpider)
    else WebOptions(words[3..])
  }

  /** Why the form refuses the command; None if it does not. */
  function Check(s: string): Option<Reason> {
    var trimmed := TrimEnd(TrimStart(s));
    if trimmed == "" then Some(Empty)
    else
      var words := WebTokens(trimmed);
      if words.Error? then Some(words.reason) else WebCommand(words.value)
  }

  // ---------------------------------------------------------------- trimming

  lemma {:induction false} RefusedForGood(s: string)
    ensures Scanned(Refused, s) == Refused
  {
    if s != "" {
      RefusedForGood(s[..|s|-1]);
    }
  }

  /** Text that started with `c` has it at the start of its first word. */
  lemma {:induction false} FirstWordStarts(c: char, s: string)
    ensures var st := Lexed(Lexer(Word, [], [c], false), s);
      (st.mode.Escape? ==> st.mode.back != Space && !st.mode.back.Escape?) &&
      if st.tokens == [] then st.token != "" && st.token[0] == c && st.mode != Space
      else st.tokens[0] != "" && st.tokens[0][0] == c
  {
    if s != "" {
      FirstWordStarts(c, s[..|s|-1]);
    }
  }

  lemma DropFirst(s: string)
    requires s != "" && JsSpace(s[0])
    requires Tokens(s).Ok? && Tokens(s).value != [] && Tokens(s).value[0] == "scrapy"
    ensures Tokens(s[1..]) == Tokens(s) && (NoEscapedQuote(s) ==> NoEscapedQuote(s[1..]))
  {
    var c, rest := s[0], s[1..];
    assert s == [c] + rest;
    ScannedInParts(Bare, [c], rest);
    LexedInParts(START, [c], rest);
    OneChar(c);
    if c in META {
      RefusedForGood(rest);
    } else if !Blank(c) {
      FirstWordStarts(c, rest);
    } else {
      forall i | 0 <= i < |rest|
        ensures rest[i] == s[i+1] && Lexed(START, s[..i+1]) == Lexed(START, rest[..i])
      {
        assert s[..i+1] == [c] + rest[..i];
        LexedInParts(START, [c], rest[..i]);
      }
    }
  }

  lemma {:induction false} TrimmedStart(s: string)
    requires Tokens(s).Ok? && Tokens(s).value != [] && Tokens(s).value[0] == "scrapy"
    ensures Tokens(TrimStart(s)) == Tokens(s)
    ensures NoEscapedQuote(s) ==> NoEscapedQuote(TrimStart(s))
  {
    if s != "" && JsSpace(s[0]) {
      DropFirst(s);
      TrimmedStart(s[1..]);
    }
  }

  lemma FindShorter(x: string, c: char)
    requires c != '='
    ensures Find(x + [c], '=') == if Find(x, '=') == |x| then |x| + 1 else Find(x, '=')
  {
    var word, i := x + [c], Find(x, '=');
    if i < |x| {
      FindIs(word, '=', i);
    } else {
      assert word[|x|] == c;
    }
  }

  /** Without trailing blanks in the last value a list of options is still one, with the same keys. */
  lemma {:induction false} ShorterValue(words: seq<string>, x: string, c: char, args: Dict, settings: Dict)
    requires JsSpace(c) && Options(words + [x + [c]], args, settings).Ok?
    ensures x != "" && Options(words + [x], args, settings).Ok?
    ensures WebOptions(words + [x]) == WebOptions(words + [x + [c]])
    decreases |words|
  {
    var longer, shorter := words + [x + [c]], words + [x];
    assert (x + [c])[|x|] == c;
    assert longer[0] == if words == [] then x + [c] else words[0];
    if |words| == 1 {
      FindShorter(x, c);
      var eq := Find(x, '=');
      assert eq < |x| ==> (x + [c])[..eq] == x[..eq];
      assert forall i | 0 <= i < |x| :: (x + [c])[i] == x[i];
      assert shorter[2..] == [] && longer[2..] == [];
    } else if |words| > 1 {
      var pair := Pair(words[1]).value;
      assert longer[1] == words[1] && shorter[1] == words[1] && shorter[0] == words[0];
      assert longer[2..] == words[2..] + [x + [c]] && shorter[2..] == words[2..] + [x];
      if words[0] == "-a" {
        ShorterValue(words[2..], x, c, Put(args, pair.0, pair.1), settings);
      } else {
        ShorterValue(words[2..], x, c, args, Put(settings, pair.0, pair.1));
      }
    }
  }

  lemma NotAName(x: string, c: char)
    requires JsSpace(c) && c != '\n'
    ensures !SpiderName(BeforeNewline(x + [c])) && x + [c] != "scrapy" && x + [c] != "crawl"
  {
    var word := x + [c];
    assert word[|x|] == c && BeforeNewline(word) == word;
    assert !NameChar(word[|x|]);
    assert "scrapy"[5] == 'y' && "crawl"[4] == 'l';
  }

  lemma ShorterLast(words: seq<string>, x: string, c: char)
    requires JsSpace(c) && c != '\n' && Command(words + [x + [c]]).Ok?
    ensures x != "" && Command(words + [x]).Ok?
    ensures WebCommand(words + [x]) == WebCommand(words + [x + [c]])
  {
    var longer, shorter := words + [x + [c]], words + [x];
    NotAName(x, c);
    assert longer[|words|] == x + [c];
    assert |words| >= 3;
    assert longer[3..] == words[3..] + [x + [c]] && shorter[3..] == words[3..] + [x];
    assert forall i | 0 <= i < 3 :: longer[i] == words[i] == shorter[i];
    ShorterValue(words[3..], x, c, [], []);
  }

  lemma DropLast(s: string)
    requires s != "" && JsSpace(s[|s|-1]) && NoEscapedQuote(s)
    requires Tokens(s).Ok? && Command(Tokens(s).value).Ok?
    ensures var shorter := Tokens(s[..|s|-1]);
      shorter.Ok? && Command(shorter.value).Ok? && WebCommand(shorter.value) == WebCommand(Tokens(s).value)
  {
    var rest, c := s[..|s|-1], s[|s|-1];
    EscapedSoFar(s);
    WalkClose(rest);
    var st := Lexed(START, rest);
    assert !IsQuote(c) && Scanned(Bare, rest) == Bare;
    if !Blank(c) {
      assert st.token == "" ==> st.token + [c] == [c];
      assert Lexed(START, s) == st.(mode := Word, token := st.token + [c]);
      assert Tokens(s).value == st.tokens + [st.token + [c]];
      ShorterLast(st.tokens, st.token, c);
    }
  }

  lemma {:induction false} TrimmedEnd(s: string)
    requires NoEscapedQuote(s) && Tokens(s).Ok? && Command(Tokens(s).value).Ok?
    ensures var t := TrimEnd(s);
      NoEscapedQuote(t) && t != "" && Tokens(t).Ok? && Command(Tokens(t).value).Ok?
      && WebCommand(Tokens(t).value) == WebCommand(Tokens(s).value)
  {
    if s != "" && JsSpace(s[|s|-1]) {
      DropLast(s);
      EscapedSoFar(s);
      TrimmedEnd(s[..|s|-1]);
    }
  }

  // ---------------------------------------------------------------- what the parser takes, the form takes

  ghost predicate KeysNamed(d: Dict) { forall k | k in Keys(d) :: KeyName(k) }

  /** Of options the parser takes the form asks only that keys end before any newline. */
  lemma {:induction false} OptionsMirrored(words: seq<string>, args: Dict, settings: Dict)
    requires Options(words, args, settings).Ok?
    ensures var d := Options(words, args, settings).value;
      (WebOptions(words) == None && KeysNamed(args) && KeysNamed(settings)) <==> (KeysNamed(d.0) && KeysNamed(d.1))
    decreases |words|
  {
    if words != [] {
      var pair := Pair(words[1]).value;
      if words[0] == "-a" {
        KeysOfPut(args, pair.0, pair.1);
        OptionsMirrored(words[2..], Put(args, pair.0, pair.1), settings);
      } else {
        KeysOfPut(settings, pair.0, pair.1);
        OptionsMirrored(words[2..], args, Put(settings, pair.0, pair.1));
      }
    }
  }

  // ---------------------------------------------------------------- doubled backslashes do not matter

  lemma PairClose(p: string, w: string)
    requires SameWord(p, w) && Pair(p).Ok?
    ensures WebPair(w) == WebPair(p)
  {
    var eq := Find(p, '=');
    var head := p[..eq] + ['='];
    assert head <= p && forall i | 0 <= i < eq :: p[i] != '\\' by { NoBackslashInKey(p[..eq]); }
    SameStart(p, w, head);
    assert w[..eq] == head[..eq] == p[..eq] && w[eq] == head[eq];
    FindIs(w, '=', eq);
  }

  lemma NoBackslashInKey(k: string)
    requires KeyName(BeforeNewline(k)) || SpiderName(BeforeNewline(k))
    ensures forall i | 0 <= i < |k| :: k[i] != '\\'
  {
    forall i | 0 <= i < |k| ensures k[i] != '\\' {
      if i < |BeforeNewline(k)| {
        assert k[i] == BeforeNewline(k)[i];
      }
    }
  }

  /** Words the parser takes for options the form judges alike, however their backslashes are doubled. */
  lemma {:induction false} OptionsClose(p: seq<string>, w: seq<string>, args: Dict, settings: Dict)
    requires SameWords(p, w) && Options(p, args, settings).Ok?
    ensures WebOptions(w) == WebOptions(p)
    decreases |p|
  {
    if p != [] {
      var pair := Pair(p[1]).value;
      SameName(p[0], w[0]);
      PairClose(p[1], w[1]);
      if p[0] == "-a" {
        OptionsClose(p[2..], w[2..], Put(args, pair.0, pair.1), settings);
      } else {
        OptionsClose(p[2..], w[2..], args, Put(settings, pair.0, pair.1));
      }
    }
  }

  lemma CommandClose(p: seq<string>, w: seq<string>)
    requires SameWords(p, w) && Command(p).Ok?
    ensures WebCommand(w) == WebCommand(p)
  {
    SameName(p[0], w[0]);
    SameName(p[1], w[1]);
    NoBackslashInKey(p[2]);
    SameName(p[2], w[2]);
    OptionsClose(p[3..], w[3..], [], []);
  }

  lemma FormReads(s: string)
    requires NoEscapedQuote(s) && Tokens(s).Ok? && Command(Tokens(s).value).Ok?
    ensures WebTokens(s).Ok? && WebCommand(WebTokens(s).value) == WebCommand(Tokens(s).value)
  {
    TokensClose(s);
    CommandClose(Tokens(s).value, WebTokens(s).value);
  }

  lemma ParsedWords(s: string)
    requires Parse(s).Ok?
    ensures Tokens(s).Ok? && Command(Tokens(s).value) == Parse(s)
    ensures Tokens(s).value != [] && Tokens(s).value[0] == "scrapy"
  {
  }

  /** The form's check is its check of the parser's words. */
  lemma CheckedWords(s: string)
    requires NoEscapedQuote(s) && Parse(s).Ok?
    ensures Tokens(s).Ok? && Command(Tokens(s).value) == Parse(s) && Check(s) == WebCommand(Tokens(s).value)
  {
    ParsedWords(s);
    TrimmedStart(s);
    TrimmedEnd(TrimStart(s));
    FormReads(TrimEnd(TrimStart(s)));
  }

  /**
   Unless a double quote is escaped, the form takes an accepted command exactly if no name
   in it ends with a newline.
   */
  lemma FormAcceptsIff(s: string)
    requires NoEscapedQuote(s) && Parse(s).Ok?
    ensures var p := Parse(s).value;
      Check(s) == None <==> SpiderName(p.spider) && KeysNamed(p.args) && KeysNamed(p.settings)
  {
    CheckedWords(s);
    WordsMirrored(Tokens(s).value);
  }

  lemma WordsMirrored(words: seq<string>)
    requires Command(words).Ok?
    ensures var p := Command(words).value;
      WebCommand(words) == None <==> SpiderName(p.spider) && KeysNamed(p.args) && KeysNamed(p.settings)
  {
    OptionsMirrored(words[3..], [], []);
    assert Keys([]) == {};
  }

  lemma {:induction false} WordsOneLine(s: string)
    requires '\n' !in s
    ensures (forall w | w in Lexed(START, s).tokens :: '\n' !in w) && '\n' !in Lexed(START, s).token
  {
    if s != "" {
      WordsOneLine(s[..|s|-1]);
      assert s[|s|-1] in s;
    }
  }

  lemma {:induction false} KeysOneLine(words: seq<string>, args: Dict, settings: Dict)
    requires (forall w | w in words :: '\n' !in w) && Options(words, args, settings).Ok?
    requires KeysNamed(args) && KeysNamed(settings)
    ensures var d := Options(words, args, settings).value; KeysNamed(d.0) && KeysNamed(d.1)
    decreases |words|
  {
    if words != [] {
      var pair := Pair(words[1]).value;
      assert words[1] in words && BeforeNewline(pair.0) == pair.0;
      if words[0] == "-a" {
        KeysOfPut(args, pair.0, pair.1);
        KeysOneLine(words[2..], Put(args, pair.0, pair.1), settings);
      } else {
        KeysOfPut(settings, pair.0, pair.1);
        KeysOneLine(words[2..], args, Put(settings, pair.0, pair.1));
      }
    }
  }

  /** On one line, whatever the parser accepts the form accepts, unless a double quote is escaped. */
  lemma AcceptedByTheForm(s: string)
    requires NoEscapedQuote(s) && '\n' !in s && Parse(s).Ok?
    ensures Check(s) == None
  {
    var words := Tokens(s).value;
    WordsOneLine(s);
    assert words[2] in words && BeforeNewline(words[2]) == words[2];
    assert Keys([]) == {};
    KeysOneLine(words[3..], [], []);
    FormAcceptsIff(s);
  }

  // ---------------------------------------------------------------- where the mirror breaks

  lemma QuotedReads(v: string)
    requires '"' !in v && LoneBackslashes(v)
    ensures Reads(['"'] + v + ['"'], v)
  {
    var part := ['"'] + v + ['"'];
    ScannedInParts(Bare, ['"'] + v, ['"']);
    ScannedInParts(Bare, ['"'], v);
    ScanQuoted(v);
    OneChar('"');
    forall tokens ensures Lexed(Fresh(tokens), part) == Lexer(Word, tokens, v, true) {
      QuotedLex(tokens, v);
    }
    assert ReadsAs(part, v, true);
  }

  lemma QuotedLex(tokens: seq<string>, v: string)
    requires '"' !in v && LoneBackslashes(v)
    ensures Lexed(Fresh(tokens), ['"'] + v + ['"']) == Lexer(Word, tokens, v, true)
  {
    LexedInParts(Fresh(tokens), ['"'] + v, ['"']);
    LexedInParts(Fresh(tokens), ['"'], v);
    OneChar('"');
    LexQuoted(Lexer(In('"'), tokens, "", false), v, |v|);
    assert v[..|v|] == v && "" + v == v;
  }

  function WithNewline(x: string): string { "scrapy crawl \"" + x + "\n\"" }

  lemma NewlineTokens(x: string)
    requires SpiderName(x)
    ensures Tokens(WithNewline(x)) == Ok(["scrapy", "crawl", x + "\n"])
  {
    var name := x + "\n";
    var part := ['"'] + name + ['"'];
    KeyIsQuiet(x);
    QuotedReads(name);
    HeadReads(x);
    assert ["scrapy", "crawl", x][..2] == ["scrapy", "crawl"];
    OneMoreReads(["scrapy", "crawl"], ["scrapy", "crawl"], part, name);
    JoinTokens(["scrapy", "crawl"] + [part], ["scrapy", "crawl"] + [name]);
    JoinOfThree("scrapy", "crawl", part);
    assert "scrapy" + " " + "crawl" + " " + part == WithNewline(x);
    assert ["scrapy", "crawl"] + [name] == ["scrapy", "crawl", name];
  }

  lemma JoinOfThree(a: string, b: string, c: string)
    ensures Join([a, b] + [c]) == a + " " + b + " " + c
  {
    assert ([a, b] + [c])[..2] == [a, b] && [a, b][..1] == [a];
    assert Join([a]) == a && Join([a, b]) == a + " " + b;
  }

  /** A quoted newline behind the spider's name: the parser takes it, the form does not. */
  lemma NewlineBreaksTheMirror(x: string)
    requires SpiderName(x)
    ensures Parse(WithNewline(x)) == Ok(Parsed(x + "\n", [], []))
    ensures Check(WithNewline(x)) == Some(MissingSpider)
  {
    var name, s := x + "\n", WithNewline(x);
    NewlineTokens(x);
    NewlineWords(x, name);
    NewlineEnds(x);
    NoBackslash(x);
    TokensAgree(s);
  }

  /** Neither end of the command is trimmed. */
  lemma NewlineEnds(x: string)
    ensures var s := WithNewline(x); s != "" && s[0] == 's' && TrimEnd(TrimStart(s)) == s
  {
    var head, s := "scrapy crawl \"", WithNewline(x);
    assert head[0] == 's' && "\n\""[1] == '"';
    assert s[0] == head[0] && s[|s|-1] == "\n\""[1];
  }

  lemma NewlineWords(x: string, name: string)
    requires SpiderName(x) && name == x + "\n"
    ensures Command(["scrapy", "crawl", name]) == Ok(Parsed(name, [], []))
    ensures WebCommand(["scrapy", "crawl", name]) == Some(MissingSpider)
  {
    assert name[|x|] == '\n' && BeforeNewline(name) == x;
    assert ["scrapy", "crawl", name][3..] == [];
  }

  lemma NoBackslash(x: string)
    requires SpiderName(x)
    ensures NoLiveEscape(WithNewline(x))
  {
    KeyIsQuiet(x);
    assert forall i | 0 <= i < |WithNewline(x)| :: WithNewline(x)[i] != '\\';
    NoBackslashNoEscape(WithNewline(x));
  }

  lemma {:induction false} WebInParts(st: Web, a: string, b: string)
    ensures WebRun(st, a + b) == WebRun(WebRun(st, a), b)
  {
    if b == "" {
      assert a + b == a;
    } else {
      assert (a + b)[..|a + b|-1] == a + b[..|b|-1];
      WebInParts(st, a, b[..|b|-1]);
    }
  }

  /** `"\" "\"`: one quoted word and an escape to the parser, two words to the form. */
  const PUZZLE: string := "\"\\\" \"\\\""

  lemma PuzzleChars()
    ensures PUZZLE[0] == '"' && PUZZLE[1] == '\\' && PUZZLE[2] == '"' && PUZZLE[3] == ' '
    ensures |PUZZLE| == 7 && PUZZLE[4] == '"' && PUZZLE[5] == '\\' && PUZZLE[6] == '"'
    ensures PUZZLE[..0] == "" && PUZZLE[..7] == PUZZLE
  {
  }

  lemma PuzzleScan()
    ensures Scanned(Bare, PUZZLE) == Bare
  {
    PuzzleChars();
    forall n: nat | n < 7
      ensures Scanned(Bare, PUZZLE[..n+1]) == ScanStep(Scanned(Bare, PUZZLE[..n]), PUZZLE[n])
    {
      assert PUZZLE[..n+1][..n] == PUZZLE[..n];
    }
    assert Scanned(Bare, PUZZLE[..3]) == Bare;
    assert Scanned(Bare, PUZZLE[..5]) == Within('"');
  }

  lemma PuzzleLex(tokens: seq<string>, cur: string, quoted: bool)
    ensures Lexed(Lexer(Word, tokens, cur, quoted), PUZZLE) == Lexer(Word, tokens, cur + "\" \"", true)
  {
    var st, p := Lexer(Word, tokens, cur, quoted), PUZZLE;
    PuzzleChars();
    forall n: nat | n < 7 {
      OneStep(st, EMPTY, p, n);
    }
    assert Lexed(st, p[..3]) == Lexer(In('"'), tokens, cur + "\"", true);
    assert Lexed(st, p[..4]) == Lexer(In('"'), tokens, cur + "\"" + " ", true);
    assert Lexed(st, p[..6]) == Lexer(Escape(Word), tokens, cur + "\"" + " ", true);
    assert cur + "\"" + " " + "\"" == cur + "\" \"";
  }

  lemma PuzzleWeb(tokens: seq<string>, cur: string)
    ensures WebRun(Web(tokens, cur, true, None), PUZZLE) == Web(tokens + [cur + "\\"], "\\", true, None)
  {
    var w, p := Web(tokens, cur, true, None), PUZZLE;
    PuzzleChars();
    forall n: nat | n < 7 {
      OneStep(START, w, p, n);
    }
    assert WebRun(w, p[..2]) == Web(tokens, cur + "\\", true, Some('"'));
    assert WebRun(w, p[..4]) == Web(tokens + [cur + "\\"], "", false, None);
  }

  lemma OneStep(st: Lexer, w: Web, p: string, n: nat)
    requires n < |p|
    ensures Lexed(st, p[..n+1]) == LexStep(Lexed(st, p[..n]), p[n])
    ensures WebRun(w, p[..n+1]) == WebStep(WebRun(w, p[..n]), p[n])
  {
    assert p[..n+1][..n] == p[..n];
  }

  function Puzzle(x: string, k: string): string {
    Join(["scrapy", "crawl", x, "-a", k + "="]) + PUZZLE
  }

  /** What was read so far the form reads alike. */
  lemma HeadAlike(parts: seq<string>, words: seq<string>, open: string) returns (quoted: bool)
    requires AllRead(parts, parts) && '\\' !in Join(parts) && parts == words + [open]
    ensures ReadSoFar(Join(parts), words, open, quoted)
    ensures WebRun(EMPTY, Join(parts)) == Web(words, open, true, None)
  {
    quoted := JoinReads(parts, parts);
    assert parts[..|parts|-1] == words;
    NoBackslashNoEscape(Join(parts));
    WalkAlike(Join(parts));
  }

  lemma PuzzleParts(x: string, k: string)
    requires SpiderName(x) && KeyName(k)
    ensures var parts := ["scrapy", "crawl", x, "-a", k + "="]; AllRead(parts, parts)
  {
    HeadReads(x);
    KeyIsQuiet(k);
    assert Quiet("-a");
    QuietReads("-a");
    QuietReads(k + "=");
    OneMoreReads(["scrapy", "crawl", x], ["scrapy", "crawl", x], "-a", "-a");
    OneMoreReads(["scrapy", "crawl", x] + ["-a"], ["scrapy", "crawl", x] + ["-a"], k + "=", k + "=");
    assert ["scrapy", "crawl", x] + ["-a"] + [k + "="] == ["scrapy", "crawl", x, "-a", k + "="];
  }

  lemma {:induction false} QuietJoin(parts: seq<string>)
    requires forall p | p in parts :: Quiet(p)
    ensures '\\' !in Join(parts)
  {
    if parts != [] {
      assert parts[|parts|-1] in parts && forall p | p in parts[..|parts|-1] :: p in parts;
      QuietJoin(parts[..|parts|-1]);
    }
  }

  /** The command's words, as the parser and as the form see them. */
  lemma PuzzleWords(head: string, words: seq<string>, open: string, quoted: bool)
    requires ReadSoFar(head, words, open, quoted) && WebRun(EMPTY, head) == Web(words, open, true, None)
    ensures Tokens(head + PUZZLE) == Ok(words + [open + "\" \""])
    ensures WebTokens(head + PUZZLE) == Ok(words + [open + "\\", "\\"])
  {
    ScannedInParts(Bare, head, PUZZLE);
    LexedInParts(START, head, PUZZLE);
    WebInParts(EMPTY, head, PUZZLE);
    PuzzleScan();
    PuzzleLex(words, open, quoted);
    PuzzleWeb(words, open);
    assert words + [open + "\\"] + ["\\"] == words + [open + "\\", "\\"];
  }

  lemma PuzzleQuiet(x: string, k: string)
    requires SpiderName(x) && KeyName(k)
    ensures '\\' !in Join(["scrapy", "crawl", x, "-a", k + "="])
  {
    KeyIsQuiet(x);
    KeyIsQuiet(k);
    assert Quiet("scrapy") && Quiet("crawl") && Quiet("-a");
    QuietJoin(["scrapy", "crawl", x, "-a", k + "="]);
  }

  lemma PuzzleHead(x: string, k: string) returns (quoted: bool)
    requires SpiderName(x) && KeyName(k)
    ensures var head := Join(["scrapy", "crawl", x, "-a", k + "="]);
      && ReadSoFar(head, ["scrapy", "crawl", x, "-a"], k + "=", quoted)
      && WebRun(EMPTY, head) == Web(["scrapy", "crawl", x, "-a"], k + "=", true, None)
  {
    var parts := ["scrapy", "crawl", x, "-a", k + "="];
    PuzzleParts(x, k);
    PuzzleQuiet(x, k);
    quoted := HeadAlike(parts, ["scrapy", "crawl", x, "-a"], k + "=");
  }

  lemma PuzzleBothWays(x: string, k: string)
    requires SpiderName(x) && KeyName(k)
    ensures Tokens(Puzzle(x, k)) == Ok(["scrapy", "crawl", x] + ["-a", k + "=" + "\" \""])
    ensures WebTokens(Puzzle(x, k)) == Ok(["scrapy", "crawl", x, "-a", k + "=" + "\\", "\\"])
  {
    var words := ["scrapy", "crawl", x, "-a"];
    var quoted := PuzzleHead(x, k);
    assert words + [k + "="] == ["scrapy", "crawl", x, "-a", k + "="];
    PuzzleWords(Join(words + [k + "="]), words, k + "=", quoted);
    assert words + [k + "=" + "\\", "\\"] == ["scrapy", "crawl", x, "-a", k + "=" + "\\", "\\"];
    assert words + [k + "=" + "\" \""] == ["scrapy", "crawl", x] + ["-a", k + "=" + "\" \""];
  }

  /** Neither end of the command is trimmed. */
  lemma PuzzleEnds(x: string, k: string)
    ensures var s := Puzzle(x, k);
      s != "" && s[0] == 's' && TrimEnd(TrimStart(s)) == s
  {
    NotBlank(["scrapy", "crawl", x, "-a", k + "="]);
    PuzzleChars();
    var s := Puzzle(x, k);
    assert s[|s|-1] == '"';
  }

  /** An escape inside quotes: the parser reads one pair, the form sees a stray word. */
  lemma EscapesBreakTheMirror(x: string, k: string)
    requires SpiderName(x) && KeyName(k)
    ensures Parse(Puzzle(x, k)) == Ok(Parsed(x, [(k, "\" \"")], []))
    ensures Check(Puzzle(x, k)) == Some(UnsupportedFlag)
  {
    PuzzleBothWays(x, k);
    PuzzleEnds(x, k);
    PuzzlePair(x, k, "\" \"");
    StrayWord(x, k);
  }

  lemma PuzzlePair(x: string, k: string, value: string)
    requires SpiderName(x) && KeyName(k) && forall i | 0 <= i < |value| :: !Control(value[i])
    ensures Command(["scrapy", "crawl", x] + ["-a", k + "=" + value]) == Ok(Parsed(x, [(k, value)], []))
  {
    SpiderThen(x, ["-a", k + "=" + value]);
    PairParses(k, value);
    assert ["-a", k + "=" + value][2..] == [];
  }

  lemma StrayWord(x: string, k: string)
    requires SpiderName(x) && KeyName(k)
    ensures WebCommand(["scrapy", "crawl", x, "-a", k + "=" + "\\", "\\"]) == Some(UnsupportedFlag)
  {
    var words := ["scrapy", "crawl", x, "-a", k + "=" + "\\", "\\"];
    KeyIsQuiet(k);
    FindIs(k + "=" + "\\", '=', |k|);
    assert (k + "=" + "\\")[..|k|] == k;
    assert WebPair(k + "=" + "\\") == None;
    assert "\\"[0] == '\\' && WebOptions(["\\"]) == Some(UnsupportedFlag);
    var options := ["-a", k + "=" + "\\", "\\"];
    assert words[3..] == options && options[2..] == ["\\"];
    assert WebOptions(options) == Some(UnsupportedFlag);
  }

  // ---------------------------------------------------------------- the loops

  method Tokenize(command: string) returns (r: Result<seq<string>>)
    ensures r == WebTokens(command)
  {
    var tokens, cur, quote, has := [], "", None, false;
    for i := 0 to |command|
      invariant WebRun(EMPTY, command[..i]) == Web(tokens, cur, has, quote)
    {
      var ch := command[i];
      assert command[..i+1][..i] == command[..i];
      if quote.Some? {
        if ch == quote.value {
          quote := None;
        } else {
          cur := cur + [ch];
        }
        has := true;
      } else if IsQuote(ch) {
        quote, has := Some(ch), true;
      } else if ch == ' ' || ch == '\t' {
        if has {
          tokens, cur, has := tokens + [cur], "", false;
        }
      } else if ch in META {
        ThrewForGood(command, i + 1);
        return Error(ShellMetacharacter);
      } else {
        cur, has := cur + [ch], true;
      }
    }
    assert command[..|command|] == command;
    if quote.Some? {
      return Error(UnbalancedQuote);
    }
    r := Ok(if has then tokens + [cur] else tokens);
  }

  lemma {:induction false} ThrewForGood(s: string, n: nat)
    requires n <= |s| && WebRun(EMPTY, s[..n]) == Threw
    ensures WebRun(EMPTY, s) == Threw
    decreases |s| - n
  {
    if n < |s| {
      assert s[..n+1][..n] == s[..n];
      ThrewForGood(s, n + 1);
    } else {
      assert s[..n] == s;
    }
  }

  method CheckScrapyCommand(command: string) returns (reason: Option<Reason>)
    ensures reason == Check(command)
  {
    var trimmed := TrimEnd(TrimStart(command));
    if trimmed == "" {
      return Some(Empty);
    }
    var r := Tokenize(trimmed);
    if r.Error? {
      return Some(r.reason);
    }
    var tokens := r.value;
    if |tokens| < 2 || tokens[0] != "scrapy" || tokens[1] != "crawl" {
      return Some(NotScrapyCrawl);
    }
    if |tokens| < 3 || !SpiderName(tokens[2]) {
      return Some(MissingSpider);
    }
    var i := 3;
    while i < |tokens|
      invariant 3 <= i <= |tokens|
      invariant WebOptions(tokens[i..]) == WebOptions(tokens[3..])
    {
      var rest := tokens[i..];
      if tokens[i] != "-a" && tokens[i] != "-s" {
        return Some(UnsupportedFlag);
      }
      i := i + 1;
      if i >= |tokens| {
        return Some(MissingValue);
      }
      assert rest[1] == tokens[i] && rest[2..] == tokens[i+1..];
      var pair := tokens[i];
      var eq := Find(pair, '=');
      if eq == |pair| {
        return Some(MalformedPair);
      }
      if !KeyName(pair[..eq]) {
        return Some(InvalidKey);
      }
      i := i + 1;
    }
    reason := None;
  }
}
