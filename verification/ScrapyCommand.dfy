/**
 The one-command grammar: a scan for bare metacharacters, a POSIX word splitter, an
 allowlist parser, and the synthesizer that is meant to be the parser's inverse.
 */
module ScrapyCommand {
  import opened Prelude

  datatype Result<+T> = Ok(value: T) | Error(reason: Reason)
  datatype Reason = Empty | ShellMetacharacter | UnbalancedQuote | NotScrapyCrawl | MissingSpider
                  | UnsupportedFlag | MissingValue | MalformedPair | InvalidKey | InvalidValue

  // ---------------------------------------------------------------- characters

  const META: set<char> := {';', '&', '|', '<', '>', '`', '$', '(', ')', '{', '}', '\\', '!', '*',
    '?', '[', ']', '#', '~', '\n', '\r'}

  predicate IsQuote(c: char) { c == '\'' || c == '"' }

  /** What the word splitter takes for whitespace. */
  predicate Blank(c: char) { c == ' ' || c == '\t' || c == '\r' || c == '\n' }

  /** What Python's str.isspace takes for whitespace. */
  predicate IsSpace(c: char) {
    || '\t' <= c <= '\r' || '\U{1C}' <= c <= ' ' || c == '\U{85}' || c == '\U{A0}' || c == '\U{1680}'
    || '\U{2000}' <= c <= '\U{200A}' || c == '\U{2028}' || c == '\U{2029}' || c == '\U{202F}' ||
      c == '\U{205F}' || c == '\U{3000}'
  }

  /** Never allowed in a value: all control characters but tab, newline and return. */
  predicate Control(c: char) {
    c <= '\U{08}' || c == '\U{0B}' || c == '\U{0C}' || '\U{0E}' <= c <= '\U{1F}' || c == '\U{7F}'
  }

  predicate Letter(c: char) { 'A' <= c <= 'Z' || 'a' <= c <= 'z' }

  predicate Alnum(c: char) { Letter(c) || '0' <= c <= '9' }

  predicate NameChar(c: char) { Alnum(c) || c in {'.', '_', '-'} }

  predicate SpiderName(s: string) {
    s != "" && Alnum(s[0]) && forall i | 0 <= i < |s| :: NameChar(s[i])
  }

  predicate KeyName(s: string) {
    s != "" && (Letter(s[0]) || s[0] == '_') && forall i | 0 <= i < |s| :: NameChar(s[i])
  }

  /** A trailing `$` also matches in front of one last newline. */
  function BeforeNewline(s: string): string {
    if s != "" && s[|s|-1] == '\n' then s[..|s|-1] else s
  }

  // ---------------------------------------------------------------- the scan

  datatype Scan = Bare | Within(quote: char) | Refused

  function ScanStep(st: Scan, c: char): Scan {
    match st
    case Refused => Refused
    case Within(q) => if c == q then Bare else st
    case Bare => if IsQuote(c) then Within(c) else if c in META then Refused else Bare
  }

  function Scanned(st: Scan, s: string): Scan {
    if s == "" then st else ScanStep(Scanned(st, s[..|s|-1]), s[|s|-1])
  }

  // ---------------------------------------------------------------- the word splitter

  datatype Mode = Space | Word | In(quote: char) | Escape(back: Mode)

  datatype Lexer = Lexer(mode: Mode, tokens: seq<string>, token: string, quoted: bool)

  const START := Lexer(Space, [], "", false)

  function LexStep(st: Lexer, c: char): Lexer {
    match st.mode
    case Space =>
      if Blank(c) then st
      else if c == '\\' then st.(mode := Escape(Word))
      else if IsQuote(c) then st.(mode := In(c))
      else st.(mode := Word, token := [c])
    case In(q) =>
      if c == q then st.(mode := Word, quoted := true)
      else if c == '\\' && q == '"' then st.(mode := Escape(In(q)), quoted := true)
      else st.(token := st.token + [c], quoted := true)
    case Escape(back) =>
      st.(mode := back,
          token := st.token + (if back.In? && c != '\\' && c != back.quote then ['\\', c] else [c]))
    case Word =>
      if Blank(c) then Emitted(st)
      else if IsQuote(c) then st.(mode := In(c))
      else if c == '\\' then st.(mode := Escape(Word))
      else st.(token := st.token + [c])
  }

  /** The word so far is complete. */
  function Emitted(st: Lexer): Lexer {
    Lexer(Space, if st.token != "" || st.quoted then st.tokens + [st.token] else st.tokens, "", false)
  }

  function Lexed(st: Lexer, s: string): Lexer {
    if s == "" then st else LexStep(Lexed(st, s[..|s|-1]), s[|s|-1])
  }

  /** The words of a text; None where a quote or an escape is left open. */
  function Words(s: string): Option<seq<string>> {
    var end := Lexed(START, s);
    if end.mode == Word then Some(Emitted(end).tokens)
    else if end.mode == Space then Some(end.tokens) else None
  }

  function Tokens(s: string): Result<seq<string>> {
    var scan := Scanned(Bare, s);
    if scan == Refused then Error(ShellMetacharacter)
    else if scan != Bare || Words(s) == None then Error(UnbalancedQuote)
    else Ok(Words(s).value)
  }

  // ---------------------------------------------------------------- the parser

  /** A dictionary in insertion order. */
  type Dict = seq<(string, string)>

  datatype Parsed = Parsed(spider: string, args: Dict, settings: Dict)

  /** Last write wins, in the first one's place. */
  function Put(d: Dict, k: string, v: string): Dict {
    if d == [] then [(k, v)]
    else if d[0].0 == k then [(k, v)] + d[1..]
    else [d[0]] + Put(d[1..], k, v)
  }

  /** The position of the first `c`. */
  function Find(s: string, c: char): (i: nat)
    ensures i <= |s| && (forall j | 0 <= j < i :: s[j] != c) && (i < |s| ==> s[i] == c)
  {
    if s == "" || s[0] == c then 0 else 1 + Find(s[1..], c)
  }

  /** One `key=value` word. */
  function Pair(word: string): Result<(string, string)> {
    var eq := Find(word, '=');
    if eq == |word| then Error(MalformedPair)
    else if !KeyName(BeforeNewline(word[..eq])) then Error(InvalidKey)
    else if exists i | eq < i < |word| :: Control(word[i]) then Error(InvalidValue)
    else Ok((word[..eq], word[eq+1..]))
  }

  /** The flags and pairs behind the spider. */
  function Options(words: seq<string>, args: Dict, settings: Dict): Result<(Dict, Dict)> {
    if words == [] then Ok((args, settings))
    else if words[0] != "-a" && words[0] != "-s" then Error(UnsupportedFlag)
    else if |words| == 1 then Error(MissingValue)
    else
      var pair := Pair(words[1]);
      if pair.Error? then Error(pair.reason)
      else if words[0] == "-a" then Options(words[2..], Put(args, pair.value.0, pair.value.1), settings)
      else Options(words[2..], args, Put(settings, pair.value.0, pair.value.1))
  }

  function Command(words: seq<string>): Result<Parsed> {
    if |words| < 2 || words[0] != "scrapy" || words[1] != "crawl" then Error(NotScrapyCrawl)
    else if |words| < 3 || !SpiderName(BeforeNewline(words[2])) then Error(MissingSpider)
    else
      var options := Options(words[3..], [], []);
      if options.Error? then Error(options.reason) else Ok(Parsed(words[2], options.value.0, options.value.1))
  }

  function Parse(s: string): Result<Parsed> {
    if forall i | 0 <= i < |s| :: IsSpace(s[i]) then Error(Empty)
    else
      var words := Tokens(s);
      if words.Error? then Error(words.reason) else Command(words.value)
  }

  // ---------------------------------------------------------------- the synthesizer

  predicate NeedsQuotes(v: string) {
    v == "" || exists i | 0 <= i < |v| :: IsSpace(v[i]) || v[i] in META
  }

  /** Each double quote behind a backslash. */
  function Escaped(v: string): string {
    if v == "" then "" else Escaped(v[..|v|-1]) + (if v[|v|-1] == '"' then ['\\', '"'] else [v[|v|-1]])
  }

  function Quote(v: string): string {
    if NeedsQuotes(v) then ['"'] + Escaped(v) + ['"'] else v
  }

  /** Words for one dictionary: a flag and a pair for each entry. */
  function Parts(flag: string, d: Dict): seq<string> {
    if d == [] then [] else Parts(flag, d[..|d|-1]) + [flag, d[|d|-1].0 + "=" + Quote(d[|d|-1].1)]
  }

  function Join(parts: seq<string>): string {
    if parts == [] then "" else if |parts| == 1 then parts[0] else Join(parts[..|parts|-1]) + " " + parts[|parts|-1]
  }

  function Build(spider: string, args: Dict, settings: Dict): string {
    Join(["scrapy", "crawl", spider] + Parts("-a", args) + Parts("-s", settings))
  }
}
