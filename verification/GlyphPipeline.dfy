/** From source text to bytecode. */
module GlyphPipeline {
  import opened Words
  import opened Assembler
  import opened GlyphCompiler
  import opened GlyphLabels
  import opened GlyphLexer

  /** The scanner never produces an operator the translator rejects. */
  lemma LexedValid(source: string)
    ensures Valid(Lexed(source))
  {
    hide Lexed, Lexable;
    var tokens := Lexed(source);
    LexedLexable(source);
    forall i | 0 <= i < |tokens| ensures ValidToken(tokens[i]) {
      assert Lexable(tokens[i]);
      LexableValid(tokens[i]);
    }
  }

  lemma LexableValid(t: Token)
    requires Lexable(t)
    ensures ValidToken(t)
  {
  }

  /** Source text always translates. */
  method CompileGlyph(source: string) returns (r: Result<seq<Line>>)
    ensures r == Ok(Compiled(Lexed(source)))
  {
    var tokens := Lex(source);
    LexedValid(source);
    r := CompileTokens(tokens);
  }

  /**
   * Text without reserved names assembles exactly when each jump names a defined label or a number
   * and each string survives line splitting; scanned registers always exist.
   */
  method CompileGlyphToBytecode(source: string) returns (r: Result<seq<u32>>)
    ensures r.Ok? ==> r == Assemble(Compiled(Lexed(source)))
    ensures Unreserved(Lexed(source)) ==>
      (r.Ok? <==> forall j :: 0 <= j < |Lexed(source)| ==> TokenAssembles(Lexed(source), Lexed(source)[j]))
  {
    hide Lexed, Compiled, TokenAssembles, Unreserved, Assemble;
    var lines := CompileGlyph(source);
    assert Valid(Lexed(source)) by { LexedValid(source); }
    r := Assemble(lines.value);
    if r.Err? {
      r := Err("Assembly failed: " + r.message);
    }
    if Unreserved(Lexed(source)) {
      AssemblesIff(Lexed(source));
    }
  }
}
