/** The C-style path quoting spoken with fast-export and fast-import. */
module PathQuoting {
  import opened Prelude

  const QUOTE: Byte := 34
  const BACKSLASH: Byte := 92
  const LF: Byte := 10
  const SPACE: Byte := 32

  predicate Printable(c: Byte) { 32 <= c < 127 }

  /** Left as it is: printable, and free of quote, backslash, newline and blank. */
  predicate Plain(p: Bytes) {
    forall c | c in p :: Printable(c) && c !in {QUOTE, BACKSLASH, LF, SPACE}
  }

  /** Three octal digits. */
  function Digits(c: Byte): (d: Bytes)
    ensures |d| == 3 && forall i | 0 <= i < 3 :: 48 <= d[i] < 56
  {
    [48 + c / 64, 48 + c / 8 % 8, 48 + c % 8]
  }

  function EscapeByte(c: Byte): (e: Bytes)
    ensures LF !in e
  {
    if c == QUOTE || c == BACKSLASH then [BACKSLASH, c]
    else if c == LF then [BACKSLASH, 110]
    else if Printable(c) then [c]
    else [BACKSLASH] + Digits(c)
  }

  function Escaped(p: Bytes): Bytes {
    if p == [] then [] else EscapeByte(p[0]) + Escaped(p[1..])
  }

  function Quoted(p: Bytes): Bytes {
    if Plain(p) then p else [QUOTE] + Escaped(p) + [QUOTE]
  }

  /** The byte a letter stands for after a backslash. */
  function Letter(c: Byte): Option<Byte> {
    match c
    case 110 => Some(10)  // n
    case 116 => Some(9)   // t
    case 34 => Some(34)   // "
    case 92 => Some(92)   // backslash
    case 97 => Some(7)    // a
    case 98 => Some(8)    // b
    case 102 => Some(12)  // f
    case 114 => Some(13)  // r
    case 118 => Some(11)  // v
    case _ => None
  }

  predicate IsOctal(d: Bytes) { forall i | 0 <= i < |d| :: 48 <= d[i] < 56 }

  function OctalValue(d: Bytes): nat
    requires IsOctal(d)
  {
    if d == [] then 0 else OctalValue(d[..|d|-1]) * 8 + (d[|d|-1] as int - 48)
  }

  /** One to three octal digits, if they make a byte. */
  function Octal(d: Bytes): Option<Byte> {
    if d == [] || !IsOctal(d) || OctalValue(d) >= 256 then None else Some(OctalValue(d))
  }

  function Take(s: Bytes, n: nat): Bytes { if n <= |s| then s[..n] else s }

  function Drop(s: Bytes, n: nat): Bytes { if n <= |s| then s[n..] else [] }

  function Prepend(head: Bytes, tail: Option<Bytes>): Option<Bytes> {
    if tail.Some? then Some(head + tail.value) else None
  }

  /** Reads the inside of a quoted path; None where the program raises. */
  function Unescaped(s: Bytes): Option<Bytes>
    decreases |s|
  {
    if s == [] then Some([])
    else if s[0] != BACKSLASH then Prepend([s[0]], Unescaped(s[1..]))
    else if |s| > 1 && Letter(s[1]).Some? then Prepend([Letter(s[1]).value], Unescaped(s[2..]))
    else
      var o := Octal(Take(s[1..], 3));
      if o == None then None else Prepend([o.value], Unescaped(Drop(s, 4)))
  }

  predicate InQuotes(p: Bytes) {
    p != [] && p[0] == QUOTE && p[|p|-1] == QUOTE
  }

  function Inside(p: Bytes): Bytes
    requires InQuotes(p)
  {
    if |p| < 2 then [] else p[1..|p|-1]
  }

  function Unquoted(p: Bytes): Option<Bytes> {
    if InQuotes(p) then Unescaped(Inside(p)) else Some(p)
  }

  // ---------------------------------------------------------------- the laws

  lemma ByteRoundTrip(c: Byte, rest: Bytes)
    ensures Unescaped(EscapeByte(c) + rest) == Prepend([c], Unescaped(rest))
  {
    var s := EscapeByte(c) + rest;
    if c == QUOTE || c == BACKSLASH || c == LF {
      assert s[2..] == rest;
    } else if Printable(c) {
      assert s[1..] == rest;
    } else {
      assert Take(s[1..], 3) == Digits(c);
      ThreeDigits(c);
      assert Letter(s[1]) == None;
      assert s[4..] == rest;
    }
  }

  lemma ThreeDigits(c: Byte)
    ensures Octal(Digits(c)) == Some(c)
  {
    var d := Digits(c);
    var two, one := d[..2], d[..1];
    assert IsOctal(d) && IsOctal(two) && IsOctal(one);
    assert two[..1] == one && one[..0] == [];
    assert OctalValue(one) == c as int / 64;
    assert OctalValue(two) == c as int / 64 * 8 + c as int / 8 % 8 == c as int / 8;
    assert OctalValue(d) == c as int / 8 * 8 + c as int % 8;
  }

  lemma {:induction false} EscapeRoundTrip(p: Bytes)
    ensures Unescaped(Escaped(p)) == Some(p)
  {
    if p != [] {
      ByteRoundTrip(p[0], Escaped(p[1..]));
      EscapeRoundTrip(p[1..]);
      assert [p[0]] + p[1..] == p;
    }
  }

  /** Every byte string comes back from its quoted form. */
  lemma QuoteRoundTrip(p: Bytes)
    ensures Unquoted(Quoted(p)) == Some(p)
  {
    if Plain(p) {
      assert p != [] ==> p[0] in p;
    } else {
      assert Inside(Quoted(p)) == Escaped(p);
      EscapeRoundTrip(p);
    }
  }

  /** Quoted paths are equal only for equal paths. */
  lemma QuoteIsInjective(p: Bytes, q: Bytes)
    ensures Quoted(p) == Quoted(q) <==> p == q
  {
    QuoteRoundTrip(p);
    QuoteRoundTrip(q);
  }

  /** A quoted path stays on its line. */
  lemma {:induction false} QuotedIsOneLine(p: Bytes)
    ensures LF !in Escaped(p) && LF !in Quoted(p)
  {
    if p != [] {
      QuotedIsOneLine(p[1..]);
    }
  }

  /** A quoted path is printable ASCII, and has a blank only within quotes. */
  lemma {:induction false} QuotedIsPrintable(p: Bytes)
    ensures forall c | c in Escaped(p) :: 32 <= c < 127
    ensures forall c | c in Quoted(p) :: 32 <= c < 127
    ensures SPACE in Quoted(p) ==> InQuotes(Quoted(p))
  {
    if p != [] {
      QuotedIsPrintable(p[1..]);
      assert Escaped(p) == EscapeByte(p[0]) + Escaped(p[1..]);
    }
  }

  // ---------------------------------------------------------------- git's own quoting

  /** The letter git writes behind a backslash, where it has one. */
  function GitLetter(c: Byte): Option<Byte> {
    match c
    case 7 => Some(97)     // a
    case 8 => Some(98)     // b
    case 9 => Some(116)    // t
    case 10 => Some(110)   // n
    case 11 => Some(118)   // v
    case 12 => Some(102)   // f
    case 13 => Some(114)   // r
    case 34 => Some(34)    // "
    case 92 => Some(92)    // backslash
    case _ => None
  }

  /** `raw` leaves bytes above ASCII as they are. */
  function GitByte(c: Byte, raw: bool): Bytes {
    if GitLetter(c).Some? then [BACKSLASH, GitLetter(c).value]
    else if Printable(c) || (c >= 128 && raw) then [c]
    else [BACKSLASH] + Digits(c)
  }

  function GitEscaped(p: Bytes, raw: bool): Bytes {
    if p == [] then [] else GitByte(p[0], raw) + GitEscaped(p[1..], raw)
  }

  /** A path as git streams it: in quotes if a byte needs an escape or a blank would end it. */
  function GitQuoted(p: Bytes, raw: bool): Bytes {
    if forall c | c in p :: GitByte(c, raw) == [c] && c != SPACE then p else [QUOTE] + GitEscaped(p, raw) + [QUOTE]
  }

  lemma LettersAgree(c: Byte)
    ensures GitLetter(c).Some? ==> Letter(GitLetter(c).value) == Some(c)
  {
  }

  lemma LetterReads(letter: Byte, rest: Bytes)
    requires Letter(letter).Some?
    ensures Unescaped([BACKSLASH, letter] + rest) == Prepend([Letter(letter).value], Unescaped(rest))
  {
    var s := [BACKSLASH, letter] + rest;
    assert s[0] == BACKSLASH && s[1] == letter && s[2..] == rest;
  }

  lemma DigitsRead(c: Byte, rest: Bytes)
    ensures Unescaped([BACKSLASH] + Digits(c) + rest) == Prepend([c], Unescaped(rest))
  {
    var s := [BACKSLASH] + Digits(c) + rest;
    assert s[0] == BACKSLASH && Take(s[1..], 3) == Digits(c);
    ThreeDigits(c);
    assert s[1] == Digits(c)[0] && Letter(s[1]) == None;
    assert s[4..] == rest;
  }

  lemma GitByteReads(c: Byte, raw: bool, rest: Bytes)
    ensures Unescaped(GitByte(c, raw) + rest) == Prepend([c], Unescaped(rest))
  {
    LettersAgree(c);
    if GitLetter(c).Some? {
      LetterReads(GitLetter(c).value, rest);
    } else if Printable(c) || (c >= 128 && raw) {
      assert ([c] + rest)[1..] == rest;
    } else {
      DigitsRead(c, rest);
    }
  }

  lemma {:induction false} GitEscapesRead(p: Bytes, raw: bool)
    ensures Unescaped(GitEscaped(p, raw)) == Some(p)
  {
    if p != [] {
      GitByteReads(p[0], raw, GitEscaped(p[1..], raw));
      GitEscapesRead(p[1..], raw);
      assert [p[0]] + p[1..] == p;
    }
  }

  /** Every path is read back from git's own quoting, letters, octal escapes and raw bytes alike. */
  lemma GitQuotingIsRead(p: Bytes, raw: bool)
    ensures Unquoted(GitQuoted(p, raw)) == Some(p)
  {
    if forall c | c in p :: GitByte(c, raw) == [c] && c != SPACE {
      assert p != [] ==> p[0] in p;
      assert GitByte(QUOTE, raw) != [QUOTE];
    } else {
      assert Inside(GitQuoted(p, raw)) == GitEscaped(p, raw);
      GitEscapesRead(p, raw);
    }
  }

  // ---------------------------------------------------------------- the loops

  lemma Joined(a: Bytes, b: Bytes, c: Bytes)
    ensures a + b + c == a + (b + c)
  {
  }

  lemma {:induction false} EscapedAppend(p: Bytes, c: Byte)
    ensures Escaped(p + [c]) == Escaped(p) + EscapeByte(c)
  {
    var q := p + [c];
    if p == [] {
      assert q[1..] == [];
    } else {
      assert q[0] == p[0] && q[1..] == p[1..] + [c];
      EscapedAppend(p[1..], c);
      Joined(EscapeByte(p[0]), Escaped(p[1..]), EscapeByte(c));
    }
  }

  method AppendByte(before: Bytes, ch: Byte) returns (out: Bytes)
    ensures out == before + EscapeByte(ch)
  {
    out := before;
    if ch == QUOTE || ch == BACKSLASH {
      out := out + [BACKSLASH, ch];
    } else if ch == LF {
      out := out + [BACKSLASH, 110];
    } else if Printable(ch) {
      out := out + [ch];
    } else {
      out := out + [BACKSLASH] + Digits(ch);
    }
  }

  method Quote(p: Bytes) returns (q: Bytes)
    ensures q == Quoted(p)
  {
    if (QUOTE !in p && BACKSLASH !in p && LF !in p && SPACE !in p) && forall c | c in p :: Printable(c) {
      return p;
    }
    var out := [QUOTE];
    for i := 0 to |p|
      invariant out == [QUOTE] + Escaped(p[..i])
    {
      var ch := p[i];
      EscapedAppend(p[..i], ch);
      assert p[..i+1] == p[..i] + [ch];
      out := AppendByte(out, ch);
      Joined([QUOTE], Escaped(p[..i]), EscapeByte(ch));
    }
    assert p[..|p|] == p;
    q := out + [QUOTE];
  }

  /** One more item read: the rest of the reading goes on behind it. */
  lemma ReadOn(s: Bytes, i: nat, n: nat, out: Bytes, c: Byte)
    requires Unescaped(s) == Prepend(out, Unescaped(Drop(s, i)))
    requires Unescaped(Drop(s, i)) == Prepend([c], Unescaped(Drop(s, n)))
    ensures Unescaped(s) == Prepend(out + [c], Unescaped(Drop(s, n)))
  {
    var tail := Unescaped(Drop(s, n));
    if tail.Some? {
      assert out + ([c] + tail.value) == (out + [c]) + tail.value;
    }
  }

  method Unquote(p: Bytes) returns (r: Option<Bytes>)
    ensures r == Unquoted(p)
  {
    if !InQuotes(p) {
      return Some(p);
    }
    var s, out, i := Inside(p), [], 0;
    assert Unescaped(s) == Prepend([], Unescaped(s)) by {
      if Unescaped(s).Some? {
        assert [] + Unescaped(s).value == Unescaped(s).value;
      }
    }
    while i < |s|
      invariant Unescaped(s) == Prepend(out, Unescaped(Drop(s, i)))
    {
      var rest := s[i..];
      if s[i] != BACKSLASH {
        assert Drop(s, i + 1) == rest[1..];
        ReadOn(s, i, i + 1, out, s[i]);
        out, i := out + [s[i]], i + 1;
      } else if i + 1 < |s| && Letter(s[i+1]).Some? {
        assert Drop(s, i + 2) == rest[2..];
        ReadOn(s, i, i + 2, out, Letter(s[i+1]).value);
        out, i := out + [Letter(s[i+1]).value], i + 2;
      } else {
        var o := Octal(Take(rest[1..], 3));
        assert Drop(s, i + 4) == Drop(rest, 4);
        if o == None {
          return None;
        }
        ReadOn(s, i, i + 4, out, o.value);
        out, i := out + [o.value], i + 4;
      }
    }
    assert Drop(s, i) == [] && out + [] == out;
    r := Some(out);
  }
}
