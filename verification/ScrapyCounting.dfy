/** What the word splitter can and cannot do with the characters of a text. */
module ScrapyCounting {
  import opened Prelude
  import opened ScrapyCommand
  import opened ScrapyRoundTrip

  function Count(s: string, c: char): nat {
    if s == "" then 0 else Count(s[..|s|-1], c) + if s[|s|-1] == c then 1 else 0
  }

  function Blanks(s: string): nat {
    if s == "" then 0 else Blanks(s[..|s|-1]) + if Blank(s[|s|-1]) then 1 else 0
  }

  function BlanksIn(words: seq<string>): nat {
    if words == [] then 0 else BlanksIn(words[..|words|-1]) + Blanks(words[|words|-1])
  }

  lemma {:induction false} CountInParts(a: string, b: string, c: char)
    ensures Count(a + b, c) == Count(a, c) + Count(b, c)
  {
    if b == "" {
      assert a + b == a;
    } else {
      assert (a + b)[..|a + b|-1] == a + b[..|b|-1];
      CountInParts(a, b[..|b|-1], c);
    }
  }

  lemma {:induction false} BlanksInParts(a: string, b: string)
    ensures Blanks(a + b) == Blanks(a) + Blanks(b)
  {
    if b == "" {
      assert a + b == a;
    } else {
      assert (a + b)[..|a + b|-1] == a + b[..|b|-1];
      BlanksInParts(a, b[..|b|-1]);
    }
  }

  lemma {:induction false} BlanksOfWords(a: seq<string>, b: seq<string>)
    ensures BlanksIn(a + b) == BlanksIn(a) + BlanksIn(b)
  {
    if b == [] {
      assert a + b == a;
    } else {
      assert (a + b)[..|a + b|-1] == a + b[..|b|-1];
      BlanksOfWords(a, b[..|b|-1]);
    }
  }

  lemma OneCounted(s: string, c: char, d: char)
    ensures Count(s + [c], d) == Count(s, d) + if c == d then 1 else 0
    ensures Blanks(s + [c]) == Blanks(s) + if Blank(c) then 1 else 0
  {
    assert (s + [c])[..|s|] == s;
  }

  // ---------------------------------------------------------------- states that occur

  predicate Sane(st: Lexer) {
    match st.mode
    case Space => st.token == "" && !st.quoted
    case Word => st.token != "" || st.quoted
    case In(q) => IsQuote(q)
    case Escape(back) => back == Word || (back == In('"') && st.quoted)
  }

  lemma {:induction false} SaneStays(st: Lexer, s: string)
    requires Sane(st)
    ensures Sane(Lexed(st, s))
  {
    if s != "" {
      SaneStays(st, s[..|s|-1]);
    }
  }

  /** What one character can do to the words read so far. */
  ghost predicate Kind(st: Lexer, c: char, e: Lexer) {
    || (e.tokens == st.tokens && e.token == st.token && (IsQuote(c) || c == '\\' || Blank(c)))
    || (e.tokens == st.tokens && e.token == st.token + [c])
    || (e.tokens == st.tokens && e.token == st.token + ['\\', c] && c != '\\' && c != '"')
    || (e.tokens == st.tokens + [st.token] && e.token == "" && Blank(c))
  }

  lemma StepKinds(st: Lexer, c: char)
    requires Sane(st)
    ensures Kind(st, c, LexStep(st, c))
  {
    assert st.token == "" ==> [c] == st.token + [c];
  }

  lemma TwoCounted(s: string, c: char, d: char)
    ensures Count(s + ['\\', c], d) == Count(s, d) + (if d == '\\' then 1 else 0) + if c == d then 1 else 0
    ensures Blanks(s + ['\\', c]) == Blanks(s) + if Blank(c) then 1 else 0
  {
    assert s + ['\\', c] == s + ['\\'] + [c];
    OneCounted(s + ['\\'], c, d);
    OneCounted(s, '\\', d);
  }

  // ---------------------------------------------------------------- blanks are words' or separators'

  lemma PaidStep(st: Lexer, c: char)
    requires Sane(st)
    ensures var e := LexStep(st, c);
      BlanksIn(e.tokens) + Blanks(e.token) + |e.tokens|
        <= BlanksIn(st.tokens) + Blanks(st.token) + |st.tokens| + if Blank(c) then 1 else 0
  {
    StepKinds(st, c);
    OneCounted(st.token, c, c);
    TwoCounted(st.token, c, c);
    assert (st.tokens + [st.token])[..|st.tokens|] == st.tokens;
  }

  /** Every blank is inside a word, or ends at most one. */
  lemma {:induction false} BlanksPaid(s: string)
    ensures var st := Lexed(START, s); BlanksIn(st.tokens) + Blanks(st.token) + |st.tokens| <= Blanks(s)
  {
    if s != "" {
      BlanksPaid(s[..|s|-1]);
      SaneStays(START, s[..|s|-1]);
      PaidStep(Lexed(START, s[..|s|-1]), s[|s|-1]);
    }
  }

  // ---------------------------------------------------------------- one word

  /**
   The first word from `tokens` on, while it is read and once it ended: it never has a
   single quote more than the text, it has every hyphen, and when a blank ends it there
   is a blank it lacks.
   */
  ghost predicate Reading(tokens: seq<string>, st: Lexer, x: string) {
    && tokens <= st.tokens
    && if st.tokens == tokens then
         Blanks(st.token) <= Blanks(x) && Count(st.token, '\'') <= Count(x, '\'') &&
           Count(st.token, '-') == Count(x, '-')
       else Blanks(st.tokens[|tokens|]) < Blanks(x)
  }

  lemma ReadingStep(tokens: seq<string>, st: Lexer, x: string, c: char, e: Lexer)
    requires Reading(tokens, st, x) && Kind(st, c, e)
    ensures Reading(tokens, e, x + [c])
  {
    OneCounted(x, c, '\'');
    OneCounted(x, c, '-');
    OneCounted(st.token, c, '\'');
    OneCounted(st.token, c, '-');
    TwoCounted(st.token, c, '\'');
    TwoCounted(st.token, c, '-');
  }

  lemma {:induction false} ReadingGoesOn(tokens: seq<string>, st: Lexer, x: string, y: string)
    requires Sane(st) && Reading(tokens, st, x)
    ensures Reading(tokens, Lexed(st, y), x + y)
  {
    if y == "" {
      assert x + y == x;
    } else {
      var rest, c := y[..|y|-1], y[|y|-1];
      ReadingGoesOn(tokens, st, x, rest);
      SaneStays(st, rest);
      StepKinds(Lexed(st, rest), c);
      ReadingStep(tokens, Lexed(st, rest), x + rest, c, LexStep(Lexed(st, rest), c));
      assert x + y == x + rest + [c];
    }
  }

  lemma ReadingFrom(tokens: seq<string>, x: string)
    ensures Reading(tokens, Lexed(Fresh(tokens), x), x)
  {
    ReadingGoesOn(tokens, Fresh(tokens), "", x);
    assert "" + x == x;
  }

  /** An open word only grows until it is one of the words, and words stay. */
  lemma {:induction false} WordsOnlyGrow(st: Lexer, y: string)
    requires Sane(st)
    ensures var e := Lexed(st, y);
      st.tokens <= e.tokens && st.token <= (if e.tokens == st.tokens then e.token else e.tokens[|st.tokens|])
  {
    if y != "" {
      WordsOnlyGrow(st, y[..|y|-1]);
      SaneStays(st, y[..|y|-1]);
      StepKinds(Lexed(st, y[..|y|-1]), y[|y|-1]);
    }
  }

  lemma {:induction false} CountOfPrefix(a: string, b: string, c: char)
    requires a <= b
    ensures Count(a, c) <= Count(b, c)
  {
    CountInParts(a, b[|a|..], c);
    assert b == a + b[|a|..];
  }
}
