/** The scanner by its laws: what each piece of source text becomes, whatever follows it. */
module GlyphLexLaws {
  import opened Words
  import opened Assembler
  import opened GlyphCompiler
  import opened GlyphLexer
  import opened Numerals

  lemma LexedStep(s: string)
    requires s != ""
    ensures Lexed(s) == (if First(s).0.Some? then [First(s).0.value] else []) + Lexed(s[First(s).1..])
  {
    hide First;
  }

  /** A piece the scanner takes in one turn. */
  lemma Piece(a: string, tail: string)
    requires a != "" && First(a + tail).1 == |a|
    ensures var t := First(a + tail).0;
            Lexed(a + tail) == (if t.Some? then [t.value] else []) + Lexed(tail)
  {
    hide First, Lexed;
    LexedStep(a + tail);
    assert (a + tail)[|a|..] == tail;
  }

  lemma {:induction false} SpanUpTo(p: char -> bool, a: string, tail: string)
    requires (forall c <- a :: p(c)) && (tail == "" || !p(tail[0]))
    ensures Span(p, a + tail) == |a|
  {
    if a == [] {
      assert a + tail == tail;
    } else {
      assert (a + tail)[1..] == a[1..] + tail;
      SpanUpTo(p, a[1..], tail);
    }
  }

  // ---- Text that gives no token ----

  /** A comment up to the end of its line, or of the text, gives no token. */
  lemma Comment(c: string, t: string)
    requires '\n' !in c
    ensures Lexed("#" + c + "\n" + t) == Lexed(t)
    ensures Lexed("#" + c) == []
  {
    hide Lexed, NumberValue, Single, Named, Span;
    var s := "#" + c;
    CommentFirst(c, "\n" + t);
    Piece(s, "\n" + t);
    assert s + ("\n" + t) == "#" + c + "\n" + t;
    NewlineFirst(t);
    CommentFirst(c, "");
    Piece(s, "");
    assert s + "" == s;
    assert Lexed("") == [] by { NoText(); }
    assert Lexed("\n" + t) == Lexed(t);
  }

  lemma NoText()
    ensures Lexed("") == []
  {
  }

  lemma CommentFirst(c: string, tail: string)
    requires '\n' !in c && (tail == "" || tail[0] == '\n')
    ensures First("#" + c + tail) == (None, 1 + |c|)
  {
    hide NumberValue, Single, Named, Span;
    assert ("#" + c + tail)[1..] == c + tail;
    SpanUpTo(NotNewline, c, tail);
  }

  predicate IsLetter(c: char) {
    'a' <= c <= 'z' || 'A' <= c <= 'Z'
  }

  /** White space, and every character that is not used by the language, is skipped. */
  lemma Skipped(c: char, t: string)
    requires !IsLetter(c) && !IsDigit(c) && c !in "#\":~()+-*/><=?.@[{!^|$&"
    ensures Lexed([c] + t) == Lexed(t)
  {
    hide Lexed;
    Piece([c], t);
    assert First([c] + t) == (None, 1);
  }

  // ---- Numbers ----

  /** The text ends here for a scanned number: no hexadecimal digit and no `x` follows. */
  predicate EndsNumber(tail: string) {
    tail == "" || (!HasDigit(16, tail[0]) && tail[0] != 'x' && tail[0] != 'X')
  }

  lemma NumberChars(c: char)
    ensures IsNumberChar(c) <==> HasDigit(16, c) || c == 'x' || c == 'X'
  {
    hide HasDigit;
    NoDigit(c, 16);
  }

  lemma NumberPiece(s: string, tail: string)
    requires s != "" && IsDigit(s[0]) && (forall c <- s :: IsNumberChar(c)) && EndsNumber(tail)
    ensures Lexed(s + tail) == [Number(NumberValue(s))] + Lexed(tail)
  {
    hide Lexed, NumberValue, Single, Named, Span, HasDigit, IsNumberChar;
    if tail != "" { NumberChars(tail[0]); }
    assert (s + tail)[1..] == s[1..] + tail;
    SpanUpTo(IsNumberChar, s[1..], tail);
    assert (s + tail)[..|s|] == s;
    assert First(s + tail) == (Some(Number(NumberValue(s))), |s|);
    Piece(s, tail);
  }

  /** A value that does not fit 32 bits reads as zero. */
  function OrZero(v: nat): u32 {
    if v < 0x1_0000_0000 then v else 0
  }

  lemma NumeralChars(b: nat, s: string, ds: seq<nat>)
    requires b <= 16 && Numeral(b, s, ds)
    ensures s != "" && forall c <- s :: IsNumberChar(c)
  {
    hide Means, IsNumberChar;
    forall i | 0 <= i < |s| ensures IsNumberChar(s[i]) {
      assert Means(s[i], ds[i]);
      NumberChars(s[i]);
    }
  }

  lemma PrefixChars()
    ensures forall c <- "0x" + "0X" :: IsNumberChar(c)
  {
  }

  /** A hexadecimal literal, in either letter case, is the number it spells in base 16. */
  lemma HexLiteral(prefix: string, s: string, ds: seq<nat>, tail: string)
    requires prefix == "0x" || prefix == "0X"
    requires Numeral(16, s, ds) && EndsNumber(tail)
    ensures Lexed(prefix + s + tail) == [Number(OrZero(Positional(16, ds)))] + Lexed(tail)
  {
    hide Lexed, Numeral, Positional, EndsNumber, ParseRadix, IsNumberChar;
    NumeralChars(16, s, ds);
    PrefixChars();
    NumberPiece(prefix + s, tail);
    assert (prefix + s)[2..] == s;
    RadixExact(16, s, ds);
  }

  /** Every word written in hexadecimal reads back. */
  lemma HexRead(n: u32, upper: bool, tail: string)
    requires EndsNumber(tail)
    ensures Lexed("0x" + Hex(n, upper) + tail) == Lexed("0X" + Hex(n, upper) + tail) == [Number(n)] + Lexed(tail)
  {
    hide Lexed, Hex, Numeral, Positional, EndsNumber;
    HexValue(n);
    HexLiteral("0x", Hex(n, upper), HexDigits(n), tail);
    HexLiteral("0X", Hex(n, upper), HexDigits(n), tail);
  }

  /** A decimal literal, leading zeros or not, is the number it spells in base 10. */
  lemma DecimalLiteral(s: string, ds: seq<nat>, tail: string)
    requires Numeral(10, s, ds) && EndsNumber(tail)
    ensures Lexed(s + tail) == [Number(OrZero(Positional(10, ds)))] + Lexed(tail)
  {
    hide Lexed, Numeral, Positional, EndsNumber, IsNumberChar, ParseBelow;
    NumeralChars(10, s, ds);
    DecimalMeans(s, ds);
    NumberPiece(s, tail);
    DecimalExact(s, ds);
    PlainDecimal(s, ds);
  }

  /** A literal that is neither, such as `0x`, `1f` or `0x1x`, reads as zero. */
  lemma Malformed(s: string, tail: string)
    requires s != "" && IsDigit(s[0]) && (forall c <- s :: HasDigit(16, c) || c == 'x' || c == 'X') && EndsNumber(tail)
    requires exists i :: 0 <= i < |s| && !HasDigit(10, s[i])
    requires |s| >= 2 && s[0] == '0' && s[1] in "xX" ==> s[2..] == "" || exists i :: 2 <= i < |s| && !HasDigit(16, s[i])
    ensures Lexed(s + tail) == [Number(0)] + Lexed(tail)
  {
    hide Lexed, HasDigit, EndsNumber, ParseRadix, ParseBelow;
    forall c <- s ensures IsNumberChar(c) { NumberChars(c); }
    NumberPiece(s, tail);
    DecimalExact(s, []);
    if |s| >= 2 && s[0] == '0' && s[1] in "xX" {
      if i :| 2 <= i < |s| && !HasDigit(16, s[i]) { assert s[2..][i - 2] == s[i]; }
      RadixExact(16, s[2..], []);
    }
  }

  // ---- Names, strings and single characters ----

  /** No letter, digit or underscore follows. */
  predicate EndsName(tail: string) {
    tail == "" || !(IsLetter(tail[0]) || IsDigit(tail[0]) || tail[0] == '_')
  }

  /** What must not follow a token's spelling for the token to end there. */
  predicate Ends(t: Token, tail: string) {
    match t
    case Number(_) => EndsNumber(tail)
    case Label(_) => EndsName(tail)
    case Jump(_) => EndsName(tail)
    case Jz(_) => EndsName(tail)
    case Jnz(_) => EndsName(tail)
    case _ => true
  }

  lemma NamePiece(mark: char, n: string, tail: string)
    requires IsMark(mark) && (forall c <- n :: IsName(c)) && EndsName(tail)
    ensures Lexed([mark] + n + tail) == [Named(mark, n)] + Lexed(tail)
  {
    hide Lexed, Single, Named, NumberValue, Span;
    var s := [mark] + n;
    assert (s + tail)[1..] == n + tail;
    SpanUpTo(IsName, n, tail);
    assert (n + tail)[..|n|] == n;
    assert First(s + tail) == (Some(Named(mark, n)), |s|);
    Piece(s, tail);
  }

  /** A string runs to the next quote, whatever its characters; without one, to the end of the text. */
  lemma StringPiece(x: string, tail: string)
    requires '"' !in x
    ensures Lexed("\"" + x + "\"" + tail) == [StringLiteral(x)] + Lexed(tail)
    ensures Lexed("\"" + x) == [StringLiteral(x)]
  {
    hide Lexed, Single, Named, NumberValue, Span;
    StringFirst(x, tail);
    Piece("\"" + x + "\"", tail);
    var s := "\"" + x;
    assert s[1..] == x && x + "" == x && s + "" == s;
    SpanUpTo(NotQuote, x, "");
    assert x[..|x|] == x;
    assert First(s) == (Some(StringLiteral(x)), |s|);
    Piece(s, "");
    NoText();
  }

  /** A token's spelling becomes that token wherever it ends, with or without a space behind it. */
  lemma TokenPiece(t: Token, tail: string)
    requires Lexable(t) && Ends(t, tail)
    ensures Lexed(Text(t) + tail) == [t] + Lexed(tail)
  {
    hide Lexed, First, Single, Named, NumberValue, EndsNumber, EndsName;
    if t.Number? {
      var ds := DecMeans(t.n);
      DecimalLiteral(Dec(t.n), ds, tail);
    } else if t.StringLiteral? {
      StringPiece(t.text, tail);
    } else if t.Label? || t.Jump? || t.Jz? || t.Jnz? {
      hide Lexable, Text;
      MarkText(t);
      NamePiece(Text(t)[0], t.name, tail);
    } else {
      SingleText(t);
      hide Lexable, Text;
      assert Text(t) == [Text(t)[0]];
      SingleFirst(Text(t)[0], tail);
      Piece(Text(t), tail);
    }
  }
}
