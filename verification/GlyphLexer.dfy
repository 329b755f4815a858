/** From GlyphLang source text to tokens. */
module GlyphLexer {
  import opened Words
  import opened Assembler
  import opened GlyphCompiler

  predicate IsName(c: char) {
    'a' <= c <= 'z' || 'A' <= c <= 'Z' || '0' <= c <= '9' || c == '_'
  }

  predicate IsNumberChar(c: char) {
    '0' <= c <= '9' || 'a' <= c <= 'f' || 'A' <= c <= 'F' || c == 'x' || c == 'X'
  }

  predicate NotNewline(c: char) {
    c != '\n'
  }

  predicate NotQuote(c: char) {
    c != '"'
  }

  /** How many leading characters satisfy `p`. */
  function Span(p: char -> bool, s: string): (n: nat)
    ensures n <= |s| && (forall i :: 0 <= i < n ==> p(s[i])) && (n < |s| ==> !p(s[n]))
  {
    if s == [] || !p(s[0]) then 0 else 1 + Span(p, s[1..])
  }

  /** The value of a scanned number; malformed or oversized ones read as zero. */
  function NumberValue(s: string): u32 {
    var v := if |s| >= 2 && s[0] == '0' && s[1] in "xX" then ParseRadix(s[2..], 16) else ParseBelow(s, TWO_32);
    if v.Some? then v.value else 0
  }

  /** Tokens spelled with one character; white space and unknown characters give none. */
  function Single(c: char): Option<Token> {
    if c == '+' || c == '-' || c == '*' || c == '/' then Some(Op(c))
    else if c == '>' || c == '<' || c == '=' then Some(Cmp(c))
    else if c == '?' then Some(Conditional)
    else if c == 'L' then Some(Loop)
    else if c == 'M' then Some(Mutate)
    else if c == 'S' then Some(Spawn)
    else if c == '.' then Some(Output)
    else if c == '@' then Some(Halt)
    else if 'a' <= c <= 'z' then Some(StoreReg((c - 'a') as int + 1))
    else if 'A' <= c <= 'Z' then Some(LoadReg((c - 'A') as int + 1))
    else if c == '[' then Some(Rectf)
    else if c == '{' then Some(DrawText)
    else if c == '!' then Some(Frame)
    else if c == '^' then Some(Ikey)
    else if c == '|' then Some(Fill)
    else if c == '$' then Some(Ls)
    else if c == '&' then Some(Exec)
    else None
  }

  /** Characters that introduce a name. */
  predicate IsMark(c: char) {
    c == ':' || c == '~' || c == '(' || c == ')'
  }

  function Named(c: char, name: string): Token {
    if c == ':' then Token.Label(name) else if c == '~' then Jump(name) else if c == '(' then Jz(name) else Jnz(name)
  }

  /** One turn of the scanner on non-empty text: the token found, if any, and the characters used. */
  function First(s: string): (r: (Option<Token>, nat))
    requires s != []
    ensures 1 <= r.1 <= |s|
  {
    var c, rest := s[0], s[1..];
    if c == '#' then (None, 1 + Span(NotNewline, rest))
    else if IsDigit(c) then
      var n := 1 + Span(IsNumberChar, rest);
      (Some(Number(NumberValue(s[..n]))), n)
    else if c == '"' then
      var n := Span(NotQuote, rest);
      (Some(StringLiteral(rest[..n])), if n < |rest| then n + 2 else n + 1)
    else if IsMark(c) then
      var n := Span(IsName, rest);
      (Some(Named(c, rest[..n])), n + 1)
    else (Single(c), 1)
  }

  function Lexed(s: string): seq<Token> {
    if s == [] then []
    else
      var (t, n) := First(s);
      (if t.Some? then [t.value] else []) + Lexed(s[n..])
  }

  // ---- The scanner as written, with its position and its inner loops ----

  method Take(p: char -> bool, source: string, start: nat) returns (end: nat)
    requires start <= |source|
    ensures end == start + Span(p, source[start..]) <= |source|
  {
    end := start;
    while end < |source| && p(source[end])
      invariant start <= end <= |source|
      invariant end + Span(p, source[end..]) == start + Span(p, source[start..])
    {
      assert source[end..][1..] == source[end + 1..];
      end := end + 1;
    }
  }

  method Lex(source: string) returns (tokens: seq<Token>)
    ensures tokens == Lexed(source)
  {
    hide First;
    tokens := [];
    var i := 0;
    while i < |source|
      invariant i <= |source|
      invariant tokens + Lexed(source[i..]) == Lexed(source)
    {
      var t, next := Scan(source, i);
      assert source[i..][next - i..] == source[next..];
      if t.Some? {
        tokens := tokens + [t.value];
      }
      i := next;
    }
    assert source[|source|..] == [];
  }

  /** One turn of the scanner at position `i`. */
  method Scan(source: string, i: nat) returns (t: Option<Token>, next: nat)
    requires i < |source|
    ensures i < next <= |source|
    ensures (t, next - i) == First(source[i..])
  {
    hide Single, Named, NumberValue, Span;
    var c := source[i];
    ghost var s := source[i..];
    assert s[1..] == source[i + 1..];
    t, next := None, i + 1;
    if c == '#' {
      next := Take(NotNewline, source, i + 1);
    } else if IsDigit(c) {
      next := Take(IsNumberChar, source, i + 1);
      assert source[i..next] == s[..next - i];
      t := Some(Number(NumberValue(source[i..next])));
    } else if c == '"' {
      var end := Take(NotQuote, source, i + 1);
      assert source[i + 1..end] == s[1..][..end - (i + 1)];
      t := Some(StringLiteral(source[i + 1..end]));
      next := if end < |source| then end + 1 else end;
    } else if IsMark(c) {
      next := Take(IsName, source, i + 1);
      assert source[i + 1..next] == s[1..][..next - (i + 1)];
      t := Some(Named(c, source[i + 1..next]));
    } else {
      t := Single(c);
    }
  }

  // ---- Rendering ----

  /** Tokens that have a spelling: names and strings use only characters the scanner accepts, and the
      letters L, M and S are taken by other tokens, so those three variables cannot be loaded. */
  predicate Lexable(t: Token) {
    match t
    case Op(c) => c in "+-*/"
    case Cmp(c) => c in "><="
    case StoreReg(i) => 1 <= i <= 26
    case LoadReg(i) => 1 <= i <= 26 && i != 12 && i != 13 && i != 19
    case StringLiteral(s) => '"' !in s
    case Label(n) => forall c <- n :: IsName(c)
    case Jump(n) => forall c <- n :: IsName(c)
    case Jz(n) => forall c <- n :: IsName(c)
    case Jnz(n) => forall c <- n :: IsName(c)
    case _ => true
  }

  function Text(t: Token): string
    requires Lexable(t)
  {
    match t
    case Number(n) => Dec(n)
    case Op(c) => [c]
    case Cmp(c) => [c]
    case Conditional => "?"
    case Loop => "L"
    case Spawn => "S"
    case Mutate => "M"
    case Output => "."
    case Halt => "@"
    case StoreReg(i) => ['a' + (i - 1) as char]
    case LoadReg(i) => ['A' + (i - 1) as char]
    case StringLiteral(s) => "\"" + s + "\""
    case Rectf => "["
    case DrawText => "{"
    case Frame => "!"
    case Ikey => "^"
    case Fill => "|"
    case Ls => "$"
    case Label(n) => ":" + n
    case Jump(n) => "~" + n
    case Exec => "&"
    case Jz(n) => "(" + n
    case Jnz(n) => ")" + n
  }

  /** The tokens' spellings, each followed by a space. */
  function Render(tokens: seq<Token>): string
    requires forall t <- tokens :: Lexable(t)
  {
    if tokens == [] then "" else Text(tokens[0]) + " " + Render(tokens[1..])
  }

  lemma {:induction false} SpanOver(p: char -> bool, a: string, b: string)
    requires forall c <- a :: p(c)
    requires b != [] && !p(b[0])
    ensures Span(p, a + b) == |a|
  {
    if a == [] {
      assert a + b == b;
    } else {
      assert (a + b)[1..] == a[1..] + b;
      SpanOver(p, a[1..], b);
    }
  }

  lemma SpanSlice(p: char -> bool, a: string, b: string)
    requires forall c <- a :: p(c)
    requires b != [] && !p(b[0])
    ensures Span(p, a + b) == |a| && (a + b)[..|a|] == a
  {
    SpanOver(p, a, b);
  }

  lemma NumberFirst(d: string, tail: string)
    requires d != [] && AllDigits(d) && tail != [] && tail[0] == ' '
    ensures First(d + tail) == (Some(Number(NumberValue(d))), |d|)
  {
    hide Single, Named, NumberValue;
    var s := d + tail;
    assert s[1..] == d[1..] + tail;
    assert forall c <- d[1..] :: IsNumberChar(c);
    SpanSlice(IsNumberChar, d[1..], tail);
    assert s[0] == d[0] && IsDigit(d[0]);
    assert s[..|d|] == d;
  }

  lemma DecNumber(n: u32)
    ensures NumberValue(Dec(n)) == n
  {
    hide DecVal;
    var d := Dec(n);
    ParseDec(n, TWO_32);
    assert |d| >= 2 ==> IsDigit(d[1]);
  }

  lemma NameFirst(mark: char, n: string, tail: string)
    requires IsMark(mark) && (forall c <- n :: IsName(c)) && tail != [] && tail[0] == ' '
    ensures First([mark] + n + tail) == (Some(Named(mark, n)), 1 + |n|)
  {
    hide Single, Named, NumberValue;
    var s := [mark] + n + tail;
    assert s[1..] == n + tail && s[0] == mark;
    SpanSlice(IsName, n, tail);
  }

  lemma StringFirst(x: string, tail: string)
    requires '"' !in x
    ensures First("\"" + x + "\"" + tail) == (Some(StringLiteral(x)), |x| + 2)
  {
    hide Single, Named, NumberValue;
    var s := "\"" + x + "\"" + tail;
    var end := "\"" + tail;
    assert s[1..] == x + end && s[0] == '"';
    SpanSlice(NotQuote, x, end);
  }

  lemma SingleFirst(c: char, tail: string)
    requires c != '#' && !IsDigit(c) && c != '"' && !IsMark(c)
    ensures First([c] + tail) == (Single(c), 1)
  {
    assert ([c] + tail)[0] == c;
  }

  lemma SingleText(t: Token)
    requires Lexable(t) && !t.Number? && !t.StringLiteral? && !t.Label? && !t.Jump? && !t.Jz? && !t.Jnz?
    ensures |Text(t)| == 1
    ensures var c := Text(t)[0]; c != '#' && !IsDigit(c) && c != '"' && !IsMark(c) && Single(c) == Some(t)
  {
  }

  lemma MarkText(t: Token)
    requires Lexable(t) && (t.Label? || t.Jump? || t.Jz? || t.Jnz?)
    ensures forall c <- t.name :: IsName(c)
    ensures Text(t) != [] && IsMark(Text(t)[0]) && Text(t) == [Text(t)[0]] + t.name && Named(Text(t)[0], t.name) == t
  {
  }

  /** The scanner reads a rendered token back and stops at the space. */
  lemma TextFirst(t: Token, tail: string)
    requires Lexable(t) && tail != [] && tail[0] == ' '
    ensures First(Text(t) + tail) == (Some(t), |Text(t)|)
  {
    hide First, Single, Named, NumberValue, Span;
    if t.Number? {
      NumberFirst(Dec(t.n), tail);
      DecNumber(t.n);
    } else if t.StringLiteral? {
      StringFirst(t.text, tail);
    } else if t.Label? || t.Jump? || t.Jz? || t.Jnz? {
      hide Lexable, Text;
      MarkText(t);
      NameFirst(Text(t)[0], t.name, tail);
    } else {
      SingleText(t);
      hide Lexable, Text;
      assert Text(t) == [Text(t)[0]];
      SingleFirst(Text(t)[0], tail);
    }
  }

  /** Lexing undoes rendering. */
  lemma {:induction false} LexRender(tokens: seq<Token>)
    requires forall t <- tokens :: Lexable(t)
    ensures Lexed(Render(tokens)) == tokens
  {
    hide First, Text;
    if tokens != [] {
      var t, rest := tokens[0], Render(tokens[1..]);
      TextFirst(t, " " + rest);
      assert Text(t) + (" " + rest) == Text(t) + " " + rest;
      assert (Text(t) + " " + rest)[|Text(t)|..] == " " + rest;
      SpaceFirst(rest);
      assert (" " + rest)[1..] == rest;
      LexRender(tokens[1..]);
    }
  }

  lemma SpaceFirst(rest: string)
    ensures First(" " + rest) == (None, 1)
  {
  }

  /** Nothing without a spelling ever comes out of the scanner. */
  lemma {:induction false} LexedLexable(s: string)
    ensures forall t <- Lexed(s) :: Lexable(t)
  {
    hide Lexable, First;
    if s != [] {
      FirstLexable(s);
      LexedLexable(s[First(s).1..]);
    }
  }

  lemma FirstLexable(s: string)
    requires s != []
    ensures First(s).0.Some? ==> Lexable(First(s).0.value)
  {
    hide NumberValue;
  }

  /** The token lists some text lexes to are exactly those made of tokens with a spelling. */
  lemma LexImage(tokens: seq<Token>)
    ensures (exists s :: Lexed(s) == tokens) <==> forall t <- tokens :: Lexable(t)
  {
    hide Lexable;
    if forall t <- tokens :: Lexable(t) {
      LexRender(tokens);
    }
    if s :| Lexed(s) == tokens {
      LexedLexable(s);
    }
  }

  // ---- Joining sources ----

  /** No string literal is still open at the end of the text. */
  predicate Closed(s: string) {
    if s == [] then true
    else !(s[0] == '"' && '"' !in s[1..]) && Closed(s[First(s).1..])
  }

  lemma {:induction false} SpanJoin(p: char -> bool, a: string, b: string)
    requires Span(p, a) < |a| || (b != [] && !p(b[0]))
    ensures Span(p, a + b) == Span(p, a)
  {
    if a == [] {
      assert a + b == b;
    } else if p(a[0]) {
      assert (a + b)[1..] == a[1..] + b;
      SpanJoin(p, a[1..], b);
    }
  }

  lemma FirstJoin(s: string, tail: string)
    requires s != [] && !(s[0] == '"' && '"' !in s[1..]) && tail != [] && tail[0] == '\n'
    ensures First(s + tail) == First(s)
  {
    hide NumberValue, Single, Named, Span;
    var u, c, rest := s + tail, s[0], s[1..];
    assert u[1..] == rest + tail && u[0] == c;
    if c == '#' {
      SpanJoin(NotNewline, rest, tail);
    } else if IsDigit(c) {
      SpanJoin(IsNumberChar, rest, tail);
      var n := 1 + Span(IsNumberChar, rest);
      assert u[..n] == s[..n];
    } else if c == '"' {
      SpanJoin(NotQuote, rest, tail);
      var n := Span(NotQuote, rest);
      assert u[1..][..n] == rest[..n];
    } else if IsMark(c) {
      SpanJoin(IsName, rest, tail);
      var n := Span(IsName, rest);
      assert u[1..][..n] == rest[..n];
    }
  }

  lemma NewlineFirst(t: string)
    ensures Lexed("\n" + t) == Lexed(t)
  {
    assert First("\n" + t) == (None, 1);
    assert ("\n" + t)[1..] == t;
  }

  /** With an open string, the rest of the joined text is swallowed by it. */
  lemma OpenJoin(s: string, t: string)
    requires s != [] && s[0] == '"' && '"' !in s[1..]
    ensures Lexed(s) == [StringLiteral(s[1..])]
    ensures var l := Lexed(s + "\n" + t); l != [] && l[0].StringLiteral? && |l[0].text| > |s| - 1
  {
    hide NumberValue, Single, Named;
    var u := s + "\n" + t;
    assert u[1..] == s[1..] + ("\n" + t);
    SpanAll(s[1..]);
    SpanPast(s[1..], "\n" + t);
    assert s[1..][..|s| - 1] == s[1..];
    assert First(s) == (Some(StringLiteral(s[1..])), |s|);
    assert s[|s|..] == [];
  }

  lemma {:induction false} SpanAll(a: string)
    requires '"' !in a
    ensures Span(NotQuote, a) == |a|
  {
  }

  lemma {:induction false} SpanPast(a: string, b: string)
    requires '"' !in a && b != [] && b[0] != '"'
    ensures Span(NotQuote, a + b) > |a|
  {
    if a == [] {
      assert a + b == b;
    } else {
      assert (a + b)[1..] == a[1..] + b;
      SpanPast(a[1..], b);
    }
  }

  /** Joining two sources with a newline joins their tokens exactly when the first one leaves no
      string open. */
  lemma {:induction false} LexJoin(s: string, t: string)
    ensures Lexed(s + "\n" + t) == Lexed(s) + Lexed(t) <==> Closed(s)
    decreases |s|
  {
    hide First;
    if s == [] {
      assert s + "\n" + t == "\n" + t;
      NewlineFirst(t);
    } else if s[0] == '"' && '"' !in s[1..] {
      OpenJoin(s, t);
      assert (Lexed(s) + Lexed(t))[0] == StringLiteral(s[1..]);
    } else {
      FirstJoin(s, "\n" + t);
      assert s + ("\n" + t) == s + "\n" + t;
      var (x, n) := First(s);
      var head := if x.Some? then [x.value] else [];
      assert (s + "\n" + t)[n..] == s[n..] + "\n" + t;
      LexJoin(s[n..], t);
      var a, b := Lexed(s[n..] + "\n" + t), Lexed(s[n..]) + Lexed(t);
      assert Lexed(s) + Lexed(t) == head + b;
      assert head + a == head + b ==> a == b by {
        assert a == (head + a)[|head|..] && b == (head + b)[|head|..];
      }
    }
  }
}
