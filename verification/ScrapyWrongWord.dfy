/** A value the splitter misreads spoils the word it stands in, whatever follows. */
module ScrapyWrongWord {
  import opened Prelude
  import opened ScrapyCommand
  import opened ScrapyRoundTrip
  import opened ScrapyCounting

  /** The printed form of the value is one word of the splitter's, the value itself. */
  predicate LexGood(v: string) {
    if NeedsQuotes(v) then forall i | 0 <= i < |v| && v[i] == '\\' :: i + 1 < |v| && v[i+1] != '\\' && v[i+1] != '"'
    else '"' !in v && '\'' !in v
  }

  /** Characters held: those in the word, and a pending backslash. */
  function Held(st: Lexer): nat {
    |st.token| + if st.mode.Escape? then 1 else 0
  }

  // ---------------------------------------------------------------- inside double quotes

  /** A backslash whose printed successor is a backslash was passed. */
  ghost predicate Lost(v: string, n: nat)
    requires n <= |v|
  {
    exists i | 0 < i < n :: v[i-1] == '\\' && (v[i] == '\\' || v[i] == '"')
  }

  /** Single quotes have not been read as marks. */
  predicate Double(m: Mode) {
    m == Word || m == In('"') || m == Escape(Word) || m == Escape(In('"'))
  }

  /** The state after the opening quote and `n` printed characters, none of them misread. */
  function Exact(tokens: seq<string>, head: string, v: string, n: nat): Lexer
    requires n <= |v|
  {
    if n > 0 && v[n-1] == '\\' then Lexer(Escape(In('"')), tokens, head + v[..n-1], true)
    else Lexer(In('"'), tokens, head + v[..n], n > 0)
  }

  /** While the word is open: a single quote was lost, or as many characters are held as printed, or fewer. */
  ghost predicate Walked(tokens: seq<string>, head: string, v: string, n: nat, st: Lexer)
    requires n <= |v|
  {
    && Sane(st) && tokens <= st.tokens
    && (st.tokens == tokens ==>
      && Count(st.token, '\'') <= Count(v[..n], '\'')
      && (Count(st.token, '\'') < Count(v[..n], '\'')
          || (Double(st.mode) && Held(st) <= |head| + n &&
            (if Lost(v, n) then Held(st) < |head| + n else st == Exact(tokens, head, v, n)))))
  }

  /** What printing adds for one character, as the splitter takes it. */
  function Taken(st: Lexer, c: char): Lexer {
    if c == '"' then LexStep(LexStep(st, '\\'), '"') else LexStep(st, c)
  }

  /** At most one character more is held, with single quotes out of the way. */
  lemma HeldGrowsByOne(st: Lexer, c: char)
    requires Sane(st) && Double(st.mode)
    ensures var e := Taken(st, c);
      e.tokens == st.tokens ==> Held(e) <= Held(st) + 1 && (Double(e.mode) || (c == '\'' && e.token == st.token))
  {
  }

  /** The exact state goes on exactly, unless a backslash is lost. */
  lemma ExactGoesOn(tokens: seq<string>, head: string, v: string, n: nat)
    requires n < |v|
    ensures var e := Taken(Exact(tokens, head, v, n), v[n]);
      if n > 0 && v[n-1] == '\\' && (v[n] == '\\' || v[n] == '"') then
        e.tokens == tokens && Held(e) <= |head| + n && Double(e.mode)
      else e == Exact(tokens, head, v, n + 1)
  {
    assert head + v[..n+1] == head + v[..n] + [v[n]];
    if n > 0 {
      assert v[..n] == v[..n-1] + [v[n-1]];
      assert head + v[..n+1] == head + v[..n-1] + [v[n-1], v[n]];
    }
  }

  lemma CountTaken(st: Lexer, c: char)
    requires Sane(st)
    ensures var e := Taken(st, c);
      Sane(e) && st.tokens <= e.tokens
      && (e.tokens == st.tokens ==> Count(e.token, '\'') <= Count(st.token, '\'') + if c == '\'' then 1 else 0)
  {
    if c == '"' {
      SaneCount(st, '\\');
      SaneCount(LexStep(st, '\\'), '"');
    } else {
      SaneCount(st, c);
    }
  }

  lemma SaneCount(st: Lexer, c: char)
    requires Sane(st)
    ensures var e := LexStep(st, c);
      Sane(e) && st.tokens <= e.tokens
      && (e.tokens == st.tokens ==> Count(e.token, '\'') <= Count(st.token, '\'') + if c == '\'' then 1 else 0)
  {
    StepKinds(st, c);
    OneCounted(st.token, c, '\'');
    TwoCounted(st.token, c, '\'');
    OneChar(c);
    SaneStays(st, [c]);
  }

  lemma WalkStep(tokens: seq<string>, head: string, v: string, n: nat, st: Lexer)
    requires n < |v| && Walked(tokens, head, v, n, st)
    ensures Walked(tokens, head, v, n + 1, Taken(st, v[n]))
  {
    var c, e := v[n], Taken(st, v[n]);
    CountTaken(st, c);
    assert v[..n+1] == v[..n] + [c];
    OneCounted(v[..n], c, '\'');
    if e.tokens == tokens && Count(e.token, '\'') == Count(v[..n+1], '\'') {
      HeldGrowsByOne(st, c);
      ExactGoesOn(tokens, head, v, n);
      LostNow(v, n);
    }
  }

  lemma LostNow(v: string, n: nat)
    requires n < |v|
    ensures Lost(v, n + 1) <==> Lost(v, n) || (n > 0 && v[n-1] == '\\' && (v[n] == '\\' || v[n] == '"'))
  {
    if n > 0 && v[n-1] == '\\' && (v[n] == '\\' || v[n] == '"') {
      assert 0 < n < n + 1;
    }
  }

  lemma TakenIsLexed(st: Lexer, v: string)
    requires v != ""
    ensures Lexed(st, Escaped(v)) == Taken(Lexed(st, Escaped(v[..|v|-1])), v[|v|-1])
  {
    var rest, c := Escaped(v[..|v|-1]), v[|v|-1];
    if c == '"' {
      LexedInParts(st, rest, ['\\', '"']);
      assert ['\\', '"'] == ['\\'] + ['"'];
      LexedInParts(Lexed(st, rest), ['\\'], ['"']);
      OneChar('\\');
      OneChar('"');
    } else {
      LexedInParts(st, rest, [c]);
      OneChar(c);
    }
  }

  lemma {:induction false} Walk(tokens: seq<string>, head: string, v: string, n: nat)
    requires n <= |v| && Count(head, '\'') == 0
    ensures Walked(tokens, head, v, n, Lexed(Lexer(In('"'), tokens, head, false), Escaped(v[..n])))
  {
    if n > 0 {
      Walk(tokens, head, v, n - 1);
      assert v[..n][..n-1] == v[..n-1];
      TakenIsLexed(Lexer(In('"'), tokens, head, false), v[..n]);
      WalkStep(tokens, head, v, n - 1, Lexed(Lexer(In('"'), tokens, head, false), Escaped(v[..n-1])));
    } else {
      assert head + v[..0] == head;
    }
  }

  // ---------------------------------------------------------------- the end of the part

  lemma {:induction false} EscapedCounts(v: string, d: char)
    ensures d != '"' && d != '\\' ==> Count(Escaped(v), d) == Count(v, d)
    ensures Blanks(Escaped(v)) == Blanks(v)
  {
    if v != "" {
      var rest, c := v[..|v|-1], v[|v|-1];
      EscapedCounts(rest, d);
      TwoCounted(Escaped(rest), '"', d);
      OneCounted(Escaped(rest), c, d);
    }
  }

  /** Printing adds quotes and backslashes only. */
  lemma PrintedCounts(head: string, v: string, d: char)
    requires d != '"' && d != '\\'
    ensures Count(head + Quote(v), d) == Count(head + v, d) && Blanks(head + Quote(v)) == Blanks(head + v)
  {
    CountInParts(head, Quote(v), d);
    CountInParts(head, v, d);
    BlanksInParts(head, Quote(v));
    BlanksInParts(head, v);
    EscapedCounts(v, d);
    OneCounted("", '"', d);
    assert "" + ['"'] == ['"'];
    CountInParts(['"'], Escaped(v), d);
    BlanksInParts(['"'], Escaped(v));
    OneCounted(['"'] + Escaped(v), '"', d);
  }

  /** Raw quote marks are never part of the word. */
  lemma {:induction false} RawLosesQuotes(tokens: seq<string>, p: string, n: nat)
    requires n <= |p| && forall i | 0 <= i < |p| :: !Blank(p[i]) && p[i] != '\\'
    ensures var st := Lexed(Fresh(tokens), p[..n]);
      && st.tokens == tokens && |st.token| <= n && (st.mode.In? ==> |st.token| < n)
      && (st.mode == Word || st.mode.In? || (st.mode == Space && n == 0 && st.token == ""))
      && ((exists i | 0 <= i < n :: IsQuote(p[i])) ==> |st.token| < n)
  {
    if n > 0 {
      RawLosesQuotes(tokens, p, n - 1);
      assert p[..n][..n-1] == p[..n-1];
    }
  }

  /** If the word ends with its part, it is not the pair. */
  lemma PartEnd(tokens: seq<string>, k: string, v: string)
    requires KeyName(k) && !LexGood(v)
    ensures var st := Lexed(Fresh(tokens), k + "=" + Quote(v));
      st.tokens == tokens && st.mode == Word ==> st.token != k + "=" + v
  {
    if NeedsQuotes(v) {
      QuotedPartEnd(tokens, k + "=", v);
    } else {
      RawPartEnd(tokens, k, v);
    }
  }

  lemma RawPartEnd(tokens: seq<string>, k: string, v: string)
    requires KeyName(k) && !LexGood(v) && !NeedsQuotes(v)
    ensures |Lexed(Fresh(tokens), k + "=" + v).token| < |k + "=" + v|
  {
    var p := k + "=" + v;
    KeyIsQuiet(k);
    var i :| 0 <= i < |v| && IsQuote(v[i]);
    assert IsQuote(p[|k| + 1 + i]);
    assert forall j | 0 <= j < |p| :: p[j] == if j < |k| then k[j] else if j == |k| then '=' else v[j - |k| - 1];
    RawLosesQuotes(tokens, p, |p|);
    assert p[..|p|] == p;
  }

  lemma NoSingleQuotes(s: string)
    requires Quiet(s)
    ensures Count(s, '\'') == 0
  {
    if s != "" {
      NoSingleQuotes(s[..|s|-1]);
    }
  }

  /** With nothing misread so far, only a backslash at the end is left to blame. */
  lemma NothingLost(v: string)
    requires NeedsQuotes(v) && !LexGood(v) && !Lost(v, |v|)
    ensures v != "" && v[|v|-1] == '\\'
  {
    var i :| 0 <= i < |v| && v[i] == '\\' && !(i + 1 < |v| && v[i+1] != '\\' && v[i+1] != '"');
    LostAt(v, i + 1);
  }

  lemma LostAt(v: string, n: nat)
    ensures 0 < n < |v| && v[n-1] == '\\' && (v[n] == '\\' || v[n] == '"') ==> Lost(v, |v|)
  {
  }

  /** The closing quote does not make the pair of a word that lost something. */
  lemma AfterClosing(tokens: seq<string>, head: string, v: string, e: Lexer)
    requires NeedsQuotes(v) && !LexGood(v) && Walked(tokens, head, v, |v|, e) && v[..|v|] == v
    requires Count(head + v, '\'') == Count(v, '\'')
    ensures var st := LexStep(e, '"'); st.tokens == tokens && st.mode == Word ==> st.token != head + v
  {
    OneCounted(e.token, '"', '\'');
    if !Lost(v, |v|) {
      NothingLost(v);
    }
  }

  lemma QuotedPartEnd(tokens: seq<string>, k: string, v: string)
    requires Quiet(k) && k != "" && NeedsQuotes(v) && !LexGood(v)
    ensures var st := Lexed(Fresh(tokens), k + Quote(v));
      st.tokens == tokens && st.mode == Word ==> st.token != k + v
  {
    NoSingleQuotes(k);
    Walk(tokens, k, v, |v|);
    assert v[..|v|] == v;
    QuotedFrom(tokens, k, v);
    CountInParts(k, v, '\'');
    AfterClosing(tokens, k, v, Lexed(Lexer(In('"'), tokens, k, false), Escaped(v)));
  }

  lemma QuotedFrom(tokens: seq<string>, k: string, v: string)
    requires Quiet(k) && k != "" && NeedsQuotes(v)
    ensures Lexed(Fresh(tokens), k + Quote(v)) == LexStep(Lexed(Lexer(In('"'), tokens, k, false), Escaped(v)), '"')
  {
    assert k + Quote(v) == k + ['"'] + Escaped(v) + ['"'];
    LexedInParts(Fresh(tokens), k + ['"'] + Escaped(v), ['"']);
    LexedInParts(Fresh(tokens), k + ['"'], Escaped(v));
    LexedInParts(Fresh(tokens), k, ['"']);
    OneChar('"');
    QuietStart(tokens, k);
  }

  // ---------------------------------------------------------------- whatever follows

  /** The words, once the text is over. */
  function Final(e: Lexer): seq<string> {
    if e.mode == Word then Emitted(e).tokens else e.tokens
  }

  /** A misread value is not the word at its place, whatever flag and pairs follow. */
  lemma WrongWord(tokens: seq<string>, k: string, v: string, after: string)
    requires KeyName(k) && !LexGood(v) && (after == "" || (|after| > 1 && after[0] == ' ' && after[1] == '-'))
    requires var e := Lexed(Fresh(tokens), k + "=" + Quote(v) + after); e.mode == Word || e.mode == Space
    ensures var w := Final(Lexed(Fresh(tokens), k + "=" + Quote(v) + after));
      tokens < w && w[|tokens|] != k + "=" + v
  {
    var p := k + "=" + Quote(v);
    var st := Lexed(Fresh(tokens), p);
    LexedInParts(Fresh(tokens), p, after);
    PartEnd(tokens, k, v);
    ReadingFrom(tokens, p);
    SaneStays(Fresh(tokens), p);
    WordsOnlyGrow(st, after);
    SaneStays(st, after);
    PrintedCounts(k + "=", v, '-');
    if st.tokens == tokens {
      if st.mode == Word {
        EndedWord(tokens, st, after);
      } else {
        Swallowed(tokens, k, v, after);
      }
    }
  }

  /** The open word is the word, if the text is over or a blank comes. */
  lemma EndedWord(tokens: seq<string>, st: Lexer, after: string)
    requires Sane(st) && st.mode == Word && st.tokens == tokens && (after == "" || after[0] == ' ')
    ensures tokens + [st.token] <= Final(Lexed(st, after))
  {
    if after != "" {
      assert after == [after[0]] + after[1..];
      LexedInParts(st, [after[0]], after[1..]);
      OneChar(after[0]);
      WordsOnlyGrow(LexStep(st, ' '), after[1..]);
    }
  }

  /** Neither the blank nor the hyphen ends a word that is not over with its part. */
  lemma SwallowTwo(st: Lexer)
    requires Sane(st) && st.mode != Word && st.mode != Space
    ensures Lexed(st, " -").tokens == st.tokens
  {
    assert " -" == [' '] + ['-'];
    LexedInParts(st, [' '], ['-']);
    OneChar(' ');
    OneChar('-');
  }

  /** A word that runs on over the blank takes in the hyphen behind it. */
  lemma Swallowed(tokens: seq<string>, k: string, v: string, after: string)
    requires KeyName(k) && (after == "" || (|after| > 1 && after[0] == ' ' && after[1] == '-'))
    requires var p := k + "=" + Quote(v);
      var st := Lexed(Fresh(tokens), p); st.tokens == tokens && st.mode != Word
    requires var e := Lexed(Fresh(tokens), k + "=" + Quote(v) + after); e.mode == Word || e.mode == Space
    ensures var w := Final(Lexed(Fresh(tokens), k + "=" + Quote(v) + after));
      tokens < w && Count(w[|tokens|], '-') > Count(k + "=" + v, '-')
  {
    var p := k + "=" + Quote(v);
    var st := Lexed(Fresh(tokens), p);
    SaneStays(Fresh(tokens), p);
    LexedInParts(Fresh(tokens), p, after);
    NotSpace(tokens, k, v);
    assert after != "";
    var y := after[2..];
    assert after == " -" + y;
    SwallowTwo(st);
    LexedInParts(st, " -", y);
    LexedInParts(Fresh(tokens), p, " -");
    PrintedCounts(k + "=", v, '-');
    HyphenMore(tokens, p, y);
  }

  lemma HyphenMore(tokens: seq<string>, p: string, y: string)
    requires Lexed(Fresh(tokens), p + " -").tokens == tokens
    requires var e := Lexed(Lexed(Fresh(tokens), p + " -"), y); e.mode == Word || e.mode == Space
    ensures var w := Final(Lexed(Lexed(Fresh(tokens), p + " -"), y));
      tokens < w && Count(w[|tokens|], '-') > Count(p, '-')
  {
    var st := Lexed(Fresh(tokens), p + " -");
    var e := Lexed(st, y);
    ReadingFrom(tokens, p + " -");
    SaneStays(Fresh(tokens), p + " -");
    SaneStays(st, y);
    WordsOnlyGrow(st, y);
    CountInParts(p, " -", '-');
    assert " -"[..1] == " " && Count(" -", '-') == Count(" ", '-') + 1;
    CountOfPrefix(st.token, if e.tokens == tokens then e.token else e.tokens[|tokens|], '-');
    assert Count(st.token, '-') > 0;
  }

  lemma NotSpace(tokens: seq<string>, k: string, v: string)
    requires KeyName(k)
    ensures var st := Lexed(Fresh(tokens), k + "=" + Quote(v)); st.tokens == tokens ==> st.mode != Space
  {
    KeyIsQuiet(k);
    var head := k + "=";
    LexedInParts(Fresh(tokens), head, Quote(v));
    QuietStart(tokens, head);
    StaysOpen(Lexer(Word, tokens, head, false), Quote(v));
  }

  /** An open word stays open until it is one of the words. */
  lemma {:induction false} StaysOpen(st: Lexer, y: string)
    requires Sane(st) && st.mode != Space
    ensures Lexed(st, y).tokens == st.tokens ==> Lexed(st, y).mode != Space
  {
    if y != "" {
      var rest := y[..|y|-1];
      StaysOpen(st, rest);
      SaneStays(st, rest);
      WordsOnlyGrow(st, rest);
    }
  }
}
