/** The parser and the synthesizer as loops, against the functions that specify them. */
module ScrapyProgram {
  import opened Prelude
  import opened ScrapyCommand

  /** Refuses a bare metacharacter or a quote left open. */
  method RejectUnquotedMetacharacters(command: string) returns (error: Option<Reason>)
    ensures error == match Scanned(Bare, command)
      case Bare => None
      case Refused => Some(ShellMetacharacter)
      case Within(_) => Some(UnbalancedQuote)
  {
    var quote: Option<char> := None;
    for i := 0 to |command|
      invariant Scanned(Bare, command[..i]) == if quote.Some? then Within(quote.value) else Bare
    {
      var ch := command[i];
      assert command[..i+1][..i] == command[..i];
      if quote.Some? {
        if ch == quote.value {
          quote := None;
        }
      } else if IsQuote(ch) {
        quote := Some(ch);
      } else if ch in META {
        RefusedStays(command, i + 1);
        return Some(ShellMetacharacter);
      }
    }
    assert command[..|command|] == command;
    error := if quote.Some? then Some(UnbalancedQuote) else None;
  }

  lemma {:induction false} RefusedStays(s: string, n: nat)
    requires n <= |s| && Scanned(Bare, s[..n]) == Refused
    ensures Scanned(Bare, s) == Refused
    decreases |s| - n
  {
    if n < |s| {
      assert s[..n+1][..n] == s[..n];
      RefusedStays(s, n + 1);
    } else {
      assert s[..n] == s;
    }
  }

  /** The library's word splitter, one character at a time. */
  method Split(command: string) returns (words: Option<seq<string>>)
    ensures words == Words(command)
  {
    var st := START;
    for i := 0 to |command|
      invariant st == Lexed(START, command[..i])
    {
      assert command[..i+1][..i] == command[..i];
      st := LexStep(st, command[i]);
    }
    assert command[..|command|] == command;
    if st.mode == Word {
      return Some(Emitted(st).tokens);
    }
    words := if st.mode == Space then Some(st.tokens) else None;
  }

  method Tokenize(command: string) returns (r: Result<seq<string>>)
    ensures r == Tokens(command)
  {
    var error := RejectUnquotedMetacharacters(command);
    if error.Some? {
      return Error(error.value);
    }
    var words := Split(command);
    r := if words.Some? then Ok(words.value) else Error(UnbalancedQuote);
  }

  /** The parser: two dictionaries filled while the words go by. */
  method ParseScrapyCommand(command: string) returns (r: Result<Parsed>)
    ensures r == Parse(command)
  {
    if forall i | 0 <= i < |command| :: IsSpace(command[i]) {
      return Error(Empty);
    }
    var tokens := Tokenize(command);
    if tokens.Error? {
      return Error(tokens.reason);
    }
    var words := tokens.value;
    if |words| < 2 || words[0] != "scrapy" || words[1] != "crawl" {
      return Error(NotScrapyCrawl);
    }
    if |words| < 3 {
      return Error(MissingSpider);
    }
    var spider := words[2];
    if !SpiderName(BeforeNewline(spider)) {
      return Error(MissingSpider);
    }
    var options := ReadOptions(words[3..]);
    r := if options.Error? then Error(options.reason) else Ok(Parsed(spider, options.value.0, options.value.1));
  }

  method ReadOptions(words: seq<string>) returns (r: Result<(Dict, Dict)>)
    ensures r == Options(words, [], [])
  {
    var args: Dict, settings: Dict, i := [], [], 0;
    while i < |words|
      invariant i <= |words|
      invariant Options(words[i..], args, settings) == Options(words, [], [])
    {
      var flag, rest := words[i], words[i..];
      if flag != "-a" && flag != "-s" {
        return Error(UnsupportedFlag);
      }
      i := i + 1;
      if i >= |words| {
        return Error(MissingValue);
      }
      assert rest[1] == words[i] && rest[2..] == words[i+1..];
      var pair := Pair(words[i]);
      if pair.Error? {
        return Error(pair.reason);
      }
      if flag == "-a" {
        args := Put(args, pair.value.0, pair.value.1);
      } else {
        settings := Put(settings, pair.value.0, pair.value.1);
      }
      i := i + 1;
    }
    r := Ok((args, settings));
  }

  /** The synthesizer: parts collected from both dictionaries, then joined. */
  method BuildScrapyCommand(spider: string, args: Dict, settings: Dict) returns (command: string)
    ensures command == Build(spider, args, settings)
  {
    var parts := ["scrapy", "crawl", spider];
    for i := 0 to |args|
      invariant parts == ["scrapy", "crawl", spider] + Parts("-a", args[..i])
    {
      assert args[..i+1][..i] == args[..i];
      parts := parts + ["-a", args[i].0 + "=" + Quote(args[i].1)];
    }
    assert args[..|args|] == args;
    ghost var head := parts;
    for i := 0 to |settings|
      invariant parts == head + Parts("-s", settings[..i])
    {
      assert settings[..i+1][..i] == settings[..i];
      parts := parts + ["-s", settings[i].0 + "=" + Quote(settings[i].1)];
    }
    assert settings[..|settings|] == settings;
    command := Join(parts);
  }

  /** Whatever is accepted has a spider, keys and values of the allowed form, each key once. */
  lemma AcceptedIsWellFormed(command: string)
    requires Parse(command).Ok?
    ensures var p := Parse(command).value;
      SpiderName(BeforeNewline(p.spider)) && WellFormed(p.args) && WellFormed(p.settings)
  {
    var words := Tokens(command).value;
    OptionsWellFormed(words[3..], [], []);
  }

  function Keys(d: Dict): set<string> {
    if d == [] then {} else {d[0].0} + Keys(d[1..])
  }

  lemma {:induction false} KeysOfPut(d: Dict, k: string, v: string)
    ensures Keys(Put(d, k, v)) == Keys(d) + {k}
  {
    if d != [] {
      if d[0].0 == k {
        assert Put(d, k, v)[1..] == d[1..];
      } else {
        KeysOfPut(d[1..], k, v);
        assert Put(d, k, v)[1..] == Put(d[1..], k, v);
      }
    }
  }

  predicate Allowed(k: string, v: string) {
    KeyName(BeforeNewline(k)) && '=' !in k && forall j | 0 <= j < |v| :: !Control(v[j])
  }

  ghost predicate WellFormed(d: Dict) {
    d == [] || (Allowed(d[0].0, d[0].1) && d[0].0 !in Keys(d[1..]) && WellFormed(d[1..]))
  }

  lemma {:induction false} OptionsWellFormed(words: seq<string>, args: Dict, settings: Dict)
    requires WellFormed(args) && WellFormed(settings) && Options(words, args, settings).Ok?
    ensures var d := Options(words, args, settings).value; WellFormed(d.0) && WellFormed(d.1)
    decreases |words|
  {
    if words != [] {
      var pair := Pair(words[1]).value;
      assert forall j | 0 <= j < |pair.1| :: pair.1[j] == words[1][|pair.0| + 1 + j];
      if words[0] == "-a" {
        PutWellFormed(args, pair.0, pair.1);
        OptionsWellFormed(words[2..], Put(args, pair.0, pair.1), settings);
      } else {
        PutWellFormed(settings, pair.0, pair.1);
        OptionsWellFormed(words[2..], args, Put(settings, pair.0, pair.1));
      }
    }
  }

  lemma {:induction false} PutWellFormed(d: Dict, k: string, v: string)
    requires WellFormed(d) && Allowed(k, v)
    ensures WellFormed(Put(d, k, v))
  {
    KeysOfPut(d, k, v);
    if d != [] {
      if d[0].0 == k {
        assert Put(d, k, v)[1..] == d[1..];
      } else {
        PutWellFormed(d[1..], k, v);
        KeysOfPut(d[1..], k, v);
        assert Put(d, k, v)[1..] == Put(d[1..], k, v);
      }
    }
  }
}
