/** The web form's own word splitter, and when it sees the words that the parser sees. */
module WebWords {
  import opened Prelude
  import opened ScrapyCommand
  import opened ScrapyRoundTrip
  import opened ScrapyCounting

  datatype Web = Web(tokens: seq<string>, cur: string, has: bool, quote: Option<char>) | Threw

  const EMPTY := Web([], "", false, None)

  function WebStep(st: Web, c: char): Web {
    if st.Threw? then Threw
    else if st.quote.Some? then
      st.(quote := if c == st.quote.value then None else st.quote,
          cur := if c == st.quote.value then st.cur else st.cur + [c], has := true)
    else if IsQuote(c) then st.(quote := Some(c), has := true)
    else if c == ' ' || c == '\t' then (if st.has then Web(st.tokens + [st.cur], "", false, None) else st)
    else if c in META then Threw
    else st.(cur := st.cur + [c], has := true)
  }

  function WebRun(st: Web, s: string): Web {
    if s == "" then st else WebStep(WebRun(st, s[..|s|-1]), s[|s|-1])
  }

  function WebTokens(s: string): Result<seq<string>> {
    var st := WebRun(EMPTY, s);
    if st.Threw? then Error(ShellMetacharacter)
    else if st.quote.Some? then Error(UnbalancedQuote)
    else Ok(if st.has then st.tokens + [st.cur] else st.tokens)
  }

  // ---------------------------------------------------------------- the same words

  /** An escape that the parser's splitter knows and the form's does not. */
  predicate Live(st: Lexer, c: char) { st.mode == Escape(In('"')) && (c == '\\' || c == '"') }

  /** Between double quotes no backslash escapes anything. */
  predicate NoLiveEscape(s: string) {
    forall i | 0 <= i < |s| :: !Live(Lexed(START, s[..i]), s[i])
  }

  lemma LiveSoFar(s: string)
    requires s != ""
    ensures NoLiveEscape(s) <==> NoLiveEscape(s[..|s|-1]) && !Live(Lexed(START, s[..|s|-1]), s[|s|-1])
  {
    assert forall i | 0 <= i < |s| - 1 :: s[..|s|-1][..i] == s[..i] && s[..|s|-1][i] == s[i];
  }

  /** The web state that goes with a scan and a word splitter. */
  ghost predicate Alike(scan: Scan, st: Lexer, w: Web) {
    match scan
    case Refused => w == Threw
    case Bare =>
      && (st.mode == Word ==> st.quoted || st.token != "")
      && (st.mode == Space ==> st.token == "" && !st.quoted)
      && (st.mode == Word || st.mode == Space)
      && w == Web(st.tokens, st.token, st.mode == Word, None)
    case Within(q) =>
      && IsQuote(q)
      && (st.mode == In(q) || (q == '"' && st.mode == Escape(In(q))))
      && w == Web(st.tokens, if st.mode.Escape? then st.token + ['\\'] else st.token, true, Some(q))
  }

  lemma {:induction false} WalkAlike(s: string)
    requires NoLiveEscape(s)
    ensures Alike(Scanned(Bare, s), Lexed(START, s), WebRun(EMPTY, s))
  {
    if s != "" {
      LiveSoFar(s);
      WalkAlike(s[..|s|-1]);
      AlikeStep(Scanned(Bare, s[..|s|-1]), Lexed(START, s[..|s|-1]), WebRun(EMPTY, s[..|s|-1]), s[|s|-1]);
    }
  }

  lemma AlikeStep(scan: Scan, st: Lexer, w: Web, c: char)
    requires Alike(scan, st, w) && !Live(st, c)
    ensures Alike(ScanStep(scan, c), LexStep(st, c), WebStep(w, c))
  {
    assert "" + [c] == [c] && st.token + ['\\'] + [c] == st.token + ['\\', c];
  }

  /** Without a backslash nothing is escaped. */
  lemma {:induction false} NoBackslashNoEscape(s: string)
    requires '\\' !in s
    ensures NoLiveEscape(s) && !Lexed(START, s).mode.Escape?
  {
    if s != "" {
      NoBackslashNoEscape(s[..|s|-1]);
      LiveSoFar(s);
    }
  }

  /** The same words, or the same refusal. */
  lemma TokensAgree(s: string)
    requires NoLiveEscape(s)
    ensures WebTokens(s) == Tokens(s)
  {
    WalkAlike(s);
  }

  // ---------------------------------------------------------------- every live escape shows

  function CountIn(words: seq<string>, c: char): nat {
    if words == [] then 0 else CountIn(words[..|words|-1], c) + Count(words[|words|-1], c)
  }

  lemma OneMoreWord(words: seq<string>, word: string, c: char)
    ensures CountIn(words + [word], c) == CountIn(words, c) + Count(word, c)
  {
    assert (words + [word])[..|words|] == words;
  }

  /** The form keeps every backslash it does not refuse. */
  lemma {:induction false} WebKeepsAll(s: string)
    ensures var w := WebRun(EMPTY, s);
      w.Web? ==>
        && (w.quote.Some? ==> IsQuote(w.quote.value))
        && CountIn(w.tokens, '\\') + Count(w.cur, '\\') == Count(s, '\\')
  {
    if s != "" {
      WebKeepsAll(s[..|s|-1]);
      var w, c := WebRun(EMPTY, s[..|s|-1]), s[|s|-1];
      if w.Web? {
        OneCounted(w.cur, c, '\\');
        OneMoreWord(w.tokens, w.cur, '\\');
      }
    }
  }

  /** Backslashes in the words and the open word, and a pending one. */
  function Backslashes(st: Lexer): nat {
    CountIn(st.tokens, '\\') + Count(st.token, '\\') + if st.mode.Escape? then 1 else 0
  }

  lemma BackslashStep(st: Lexer, c: char)
    requires Sane(st)
    ensures Backslashes(LexStep(st, c)) <= Backslashes(st) + if c == '\\' && !Live(st, c) then 1 else 0
    ensures Live(st, '"') && c == '"' ==> Backslashes(LexStep(st, c)) < Backslashes(st)
  {
    OneCounted(st.token, c, '\\');
    OneCounted("", c, '\\');
    assert "" + [c] == [c];
    TwoCounted(st.token, c, '\\');
    OneMoreWord(st.tokens, st.token, '\\');
  }

  /** The parser's splitter drops one for every live escape. */
  lemma {:induction false} LexerDropsSome(s: string)
    ensures Backslashes(Lexed(START, s)) <= Count(s, '\\')
    ensures !NoLiveEscape(s) ==> Backslashes(Lexed(START, s)) < Count(s, '\\')
  {
    if s != "" {
      LexerDropsSome(s[..|s|-1]);
      LiveSoFar(s);
      SaneStays(START, s[..|s|-1]);
      BackslashStep(Lexed(START, s[..|s|-1]), s[|s|-1]);
    }
  }

  /** Of what the parser takes apart, the form sees the same words if and only if nothing is escaped. */
  lemma TokensAgreeIff(s: string)
    requires Tokens(s).Ok?
    ensures WebTokens(s) == Tokens(s) <==> NoLiveEscape(s)
  {
    if NoLiveEscape(s) {
      TokensAgree(s);
    } else {
      var st, w := Lexed(START, s), WebRun(EMPTY, s);
      LexerDropsSome(s);
      WebKeepsAll(s);
      OneMoreWord(st.tokens, st.token, '\\');
      if w.Web? {
        OneMoreWord(w.tokens, w.cur, '\\');
        HasWord(s);
      }
    }
  }

  lemma {:induction false} HasWord(s: string)
    ensures var w := WebRun(EMPTY, s); w.Web? && !w.has ==> w.cur == ""
  {
    if s != "" {
      HasWord(s[..|s|-1]);
    }
  }

  // ---------------------------------------------------------------- the same words but for doubled backslashes

  /** Between double quotes no double quote is escaped; doubled backslashes may be there. */
  predicate NoEscapedQuote(s: string) {
    forall i | 0 <= i < |s| :: s[i] == '"' ==> Lexed(START, s[..i]).mode != Escape(In('"'))
  }

  lemma EscapedSoFar(s: string)
    requires s != "" && NoEscapedQuote(s)
    ensures NoEscapedQuote(s[..|s|-1])
    ensures s[|s|-1] == '"' ==> Lexed(START, s[..|s|-1]).mode != Escape(In('"'))
  {
    assert forall i | 0 <= i < |s| - 1 :: s[..|s|-1][..i] == s[..i] && s[..|s|-1][i] == s[i];
  }

  predicate Ends(x: string) { x != "" && x[|x|-1] == '\\' }

  /** One backslash for every run of them. */
  function Squeeze(x: string): string {
    if x == "" then ""
    else if Ends(x) && Ends(x[..|x|-1]) then Squeeze(x[..|x|-1])
    else Squeeze(x[..|x|-1]) + [x[|x|-1]]
  }

  predicate SameWord(p: string, w: string) { Squeeze(p) == Squeeze(w) }

  ghost predicate SameWords(p: seq<string>, w: seq<string>) {
    |p| == |w| && forall i | 0 <= i < |p| :: SameWord(p[i], w[i])
  }

  lemma {:induction false} EndsAlike(x: string)
    ensures Ends(Squeeze(x)) <==> Ends(x)
    ensures Squeeze(x) == "" <==> x == ""
  {
    if x != "" {
      EndsAlike(x[..|x|-1]);
    }
  }

  lemma OneSqueezed(x: string, c: char)
    ensures Squeeze(x + [c]) == if c == '\\' && Ends(x) then Squeeze(x) else Squeeze(x) + [c]
  {
    assert (x + [c])[..|x|] == x;
  }

  lemma SameMore(p: string, w: string, c: char)
    requires SameWord(p, w)
    ensures SameWord(p + [c], w + [c])
  {
    OneSqueezed(p, c);
    OneSqueezed(w, c);
    EndsAlike(p);
    EndsAlike(w);
  }

  /** A second backslash makes no difference. */
  lemma SameDoubled(p: string, w: string)
    requires SameWord(p + ['\\'], w)
    ensures SameWord(p + ['\\'], w + ['\\'])
  {
    EndsAlike(p + ['\\']);
    EndsAlike(w);
    OneSqueezed(w, '\\');
  }

  /** The web state that goes with a scan and a word splitter, but for doubled backslashes. */
  ghost predicate Close(scan: Scan, st: Lexer, w: Web) {
    match scan
    case Refused => w == Threw
    case Bare =>
      && (st.mode == Word ==> st.quoted || st.token != "")
      && (st.mode == Space ==> st.token == "" && !st.quoted)
      && (st.mode == Word || st.mode == Space)
      && w.Web? && w.quote == None && w.has == (st.mode == Word)
      && SameWords(st.tokens, w.tokens) && SameWord(st.token, w.cur)
    case Within(q) =>
      && IsQuote(q)
      && (st.mode == In(q) || (q == '"' && st.mode == Escape(In(q))))
      && w.Web? && w.quote == Some(q) && w.has
      && SameWords(st.tokens, w.tokens) && SameWord(if st.mode.Escape? then st.token + ['\\'] else st.token, w.cur)
  }

  lemma CloseStep(scan: Scan, st: Lexer, w: Web, c: char)
    requires Close(scan, st, w) && (st.mode == Escape(In('"')) ==> c != '"')
    ensures Close(ScanStep(scan, c), LexStep(st, c), WebStep(w, c))
  {
    if scan == Bare {
      CloseBare(st, w, c);
    } else if scan != Refused {
      if st.mode.Escape? {
        CloseEscape(st, w, c);
      } else {
        CloseWithin(scan.quote, st, w, c);
      }
    }
  }

  lemma CloseBare(st: Lexer, w: Web, c: char)
    requires Close(Bare, st, w)
    ensures Close(ScanStep(Bare, c), LexStep(st, c), WebStep(w, c))
  {
    if st.mode == Space {
      CloseSpace(st, w, c);
    } else if c == ' ' || c == '\t' {
      CloseEmit(st, w, c);
    } else {
      SameMore(st.token, w.cur, c);
    }
  }

  lemma CloseSpace(st: Lexer, w: Web, c: char)
    requires Close(Bare, st, w) && st.mode == Space
    ensures Close(ScanStep(Bare, c), LexStep(st, c), WebStep(w, c))
  {
    EndsAlike(w.cur);
    assert w.cur == "" && "" + [c] == [c];
  }

  lemma CloseEmit(st: Lexer, w: Web, c: char)
    requires Close(Bare, st, w) && st.mode == Word && (c == ' ' || c == '\t')
    ensures Close(ScanStep(Bare, c), LexStep(st, c), WebStep(w, c))
  {
    SameWordsMore(st.tokens, w.tokens, st.token, w.cur);
  }

  lemma SameWordsMore(p: seq<string>, w: seq<string>, a: string, b: string)
    requires SameWords(p, w) && SameWord(a, b)
    ensures SameWords(p + [a], w + [b])
  {
  }

  lemma CloseWithin(q: char, st: Lexer, w: Web, c: char)
    requires Close(Within(q), st, w) && st.mode == In(q)
    ensures Close(ScanStep(Within(q), c), LexStep(st, c), WebStep(w, c))
  {
    SameMore(st.token, w.cur, c);
  }

  lemma CloseEscape(st: Lexer, w: Web, c: char)
    requires Close(Within('"'), st, w) && st.mode == Escape(In('"')) && c != '"'
    ensures Close(ScanStep(Within('"'), c), LexStep(st, c), WebStep(w, c))
  {
    if c == '\\' {
      SameDoubled(st.token, w.cur);
    } else {
      SameMore(st.token + ['\\'], w.cur, c);
      assert st.token + ['\\'] + [c] == st.token + ['\\', c];
    }
  }

  lemma {:induction false} WalkClose(s: string)
    requires NoEscapedQuote(s)
    ensures Close(Scanned(Bare, s), Lexed(START, s), WebRun(EMPTY, s))
  {
    if s != "" {
      EscapedSoFar(s);
      WalkClose(s[..|s|-1]);
      CloseStep(Scanned(Bare, s[..|s|-1]), Lexed(START, s[..|s|-1]), WebRun(EMPTY, s[..|s|-1]), s[|s|-1]);
    }
  }

  /** The same words up to doubled backslashes, or the same refusal. */
  lemma TokensClose(s: string)
    requires NoEscapedQuote(s)
    ensures if Tokens(s).Ok? then WebTokens(s).Ok? && SameWords(Tokens(s).value, WebTokens(s).value)
      else WebTokens(s) == Tokens(s)
  {
    WalkClose(s);
  }

  lemma {:induction false} NoneSqueezed(x: string)
    ensures '\\' in x <==> '\\' in Squeeze(x)
    ensures '\\' !in x ==> Squeeze(x) == x
  {
    if x != "" {
      NoneSqueezed(x[..|x|-1]);
      assert x == x[..|x|-1] + [x[|x|-1]];
    }
  }

  /** In front of the first backslash nothing is squeezed. */
  lemma {:induction false} StartKept(p: string, y: string)
    requires y <= p && '\\' !in y
    ensures y <= Squeeze(p)
  {
    if y == p {
      NoneSqueezed(p);
    } else {
      StartKept(p[..|p|-1], y);
    }
  }

  lemma {:induction false} StartSqueezed(w: string, y: string)
    requires y <= Squeeze(w) && '\\' !in y
    ensures y <= w
  {
    if y == Squeeze(w) {
      NoneSqueezed(w);
    } else if w != "" {
      StartSqueezed(w[..|w|-1], y);
    }
  }

  /** Words that are the same up to doubled backslashes agree in front of the first one. */
  lemma SameStart(p: string, w: string, y: string)
    requires SameWord(p, w) && y <= p && '\\' !in y
    ensures y <= w
  {
    StartKept(p, y);
    StartSqueezed(w, y);
  }

  /** A word without a backslash is the same only as itself. */
  lemma SameName(p: string, w: string)
    requires SameWord(p, w) && '\\' !in p
    ensures w == p
  {
    NoneSqueezed(p);
    NoneSqueezed(w);
  }
}
