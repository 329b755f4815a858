/** GlyphLang tokens and their translation to assembly lines. */
module GlyphCompiler {
  import opened Words
  import opened GlyphVm
  import opened Assembler

  datatype Token =
    | Number(n: u32)
    | Op(op: char)
    | Cmp(op: char)
    | Conditional
    | Loop
    | Spawn
    | Mutate
    | Output
    | Halt
    | StoreReg(idx: u32)
    | LoadReg(idx: u32)
    | StringLiteral(text: string)
    | Rectf
    | DrawText
    | Frame
    | Ikey
    | Fill
    | Ls
    | Label(name: string)
    | Jump(name: string)
    | Exec
    | Jz(name: string)
    | Jnz(name: string)

  /** Scratch registers of the backend. */
  const R25: u32 := 25
  const R26: u32 := 26
  const R27: u32 := 27
  const R28: u32 := 28
  const R29: u32 := 29

  /** The k-th label handed out by the fresh-label generator. */
  function Gl(k: nat): string {
    "_gl" + Dec(k)
  }

  function StrName(k: nat): string {
    "_str" + Dec(k)
  }

  predicate ValidToken(t: Token) {
    (t.Op? ==> t.op in "+-*/") && (t.Cmp? ==> t.op in "><=")
  }

  function OpKind(op: char): AluKind {
    if op == '+' then ADD else if op == '-' then SUB else if op == '*' then MUL else DIV
  }

  /** How many fresh labels the code of a token uses. */
  function Fresh(t: Token): nat {
    match t
    case Cmp(op) => if op == '=' then 1 else 2
    case Conditional => 2
    case Loop => 2
    case _ => 0
  }

  function Do(i: Instr): Line {
    Ins(Plain(i))
  }

  /** The code of one valid token, when `c` labels and `n` strings have been used before it. */
  function Block(t: Token, c: nat, n: nat): seq<Line> {
    match t
    case Number(v) => [Do(LDI(R27, v)), Do(PUSH(R27))]
    case Op(op) => [Do(POP(R28)), Do(POP(R27)), Do(ALU(OpKind(op), R27, R28)), Do(PUSH(R27))]
    case Cmp(op) =>
      if op == '=' then
        [Do(POP(R28)), Do(POP(R27)), Do(CMP(R27, R28)), Do(LDI(R27, 1)), Ins(JzL(0, Gl(c))),
         Do(LDI(R27, 0)), Line.Label(Gl(c)), Do(PUSH(R27))]
      else
        [Do(POP(R28)), Do(POP(R27)), Do(CMP(R27, R28)), Do(LDI(R27, if op == '>' then 1 else 0xFFFF_FFFF)),
         Do(CMP(0, R27)), Ins(JzL(0, Gl(c))), Do(LDI(R27, 0)), Ins(JmpL(Gl(c + 1))),
         Line.Label(Gl(c)), Do(LDI(R27, 1)), Line.Label(Gl(c + 1)), Do(PUSH(R27))]
    case Conditional =>
      [Do(POP(R28)), Do(POP(R27)), Do(POP(R29)), Ins(JnzL(R29, Gl(c))), Do(PUSH(R28)), Ins(JmpL(Gl(c + 1))),
       Line.Label(Gl(c)), Do(PUSH(R27)), Line.Label(Gl(c + 1))]
    case Loop =>
      [Do(POP(R28)), Do(POP(R27)), Line.Label(Gl(c)), Do(PUSH(R27)), Do(POP(R29)), Do(LDI(R25, 0x00FF00)),
       Do(PSET(R29, R28, R25)), Do(LDI(R26, 1)), Do(ALU(ADD, R27, R26)), Do(CMP(R27, R28)),
       Ins(BltL(0, Gl(c))), Line.Label(Gl(c + 1))]
    case Spawn => [Do(POP(R27)), Do(SYS(SPAWN, R27)), Do(PUSH(R27))]
    case Mutate => [Do(POP(R27)), Do(POP(R28)), Do(STORE(R27, R28))]
    case Output => [Do(POP(R27)), Do(PSET(R27, R28, R27))]
    case Halt => [Do(HALT)]
    case StoreReg(idx) => [Do(POP(idx))]
    case LoadReg(idx) => [Do(PUSH(idx))]
    case StringLiteral(_) => [Ins(LdiL(R27, StrName(n))), Do(PUSH(R27))]
    case Rectf =>
      [Do(POP(R29)), Do(POP(R28)), Do(POP(R27)), Do(POP(R26)), Do(POP(R25)), Do(RECTF(R25, R26, R27, R28, R29))]
    case DrawText =>
      [Do(POP(R29)), Do(POP(R28)), Do(POP(R27)), Do(POP(R26)), Do(POP(R25)), Do(DRAWTEXT(R25, R26, R27, R28, R29))]
    case Frame => [Do(FRAME)]
    case Ikey => [Do(SYS(IKEY, R27)), Do(PUSH(R27))]
    case Fill => [Do(POP(R27)), Do(FILL(R27))]
    case Ls => [Do(POP(R27)), Do(SYS(LS, R27)), Do(PUSH(0))]
    case Label(name) => [Line.Label(name)]
    case Jump(name) => [Ins(JmpL(name))]
    case Exec => [Do(POP(R27)), Do(SYS(EXEC, R27))]
    case Jz(name) => [Do(POP(R27)), Ins(JzL(R27, name))]
    case Jnz(name) => [Do(POP(R27)), Ins(JnzL(R27, name))]
  }

  const PROLOGUE: seq<Line> := [Do(LDI(30, 0x8000)), Do(LDI(R29, 0)), Do(LDI(R28, 0))]

  /** Everything the translation loop has accumulated. */
  datatype Emitted = Emitted(asm: seq<Line>, labels: nat, strings: seq<string>)

  predicate Valid(tokens: seq<Token>) {
    forall i :: 0 <= i < |tokens| ==> ValidToken(tokens[i])
  }

  function Emit(e: Emitted, t: Token): Emitted {
    Emitted(e.asm + Block(t, e.labels, |e.strings|), e.labels + Fresh(t),
            if t.StringLiteral? then e.strings + [t.text] else e.strings)
  }

  /** The state of the translation after the first `k` tokens. */
  function After(tokens: seq<Token>, k: nat): Emitted
    requires k <= |tokens|
  {
    if k == 0 then Emitted(PROLOGUE, 0, []) else Emit(After(tokens, k - 1), tokens[k - 1])
  }

  predicate Contains(s: string, sub: string) {
    exists i :: 0 <= i <= |s| && sub <= s[i..]
  }

  /** The text of the line contains the letters HALT: it is that instruction or carries a name
      with those letters in it. */
  predicate MentionsHalt(l: Line) {
    match l
    case Label(n) => Contains(n, "HALT")
    case Str(_) => false
    case Ins(a) =>
      match a
      case Plain(i) => i.HALT?
      case JmpL(n) => Contains(n, "HALT")
      case LdiL(_, n) => Contains(n, "HALT")
      case JzL(_, n) => Contains(n, "HALT")
      case JnzL(_, n) => Contains(n, "HALT")
      case BltL(_, n) => Contains(n, "HALT")
  }

  predicate AnyHalt(asm: seq<Line>) {
    exists i :: 0 <= i < |asm| && MentionsHalt(asm[i])
  }

  function StringSection(strings: seq<string>, k: nat): seq<Line>
    requires k <= |strings|
  {
    if k == 0 then [] else StringSection(strings, k - 1) + [Line.Label(StrName(k - 1)), Str(strings[k - 1])]
  }

  function Finish(e: Emitted): seq<Line> {
    e.asm + (if AnyHalt(e.asm) then [] else [Do(HALT)]) + StringSection(e.strings, |e.strings|)
  }

  function Compiled(tokens: seq<Token>): seq<Line> {
    Finish(After(tokens, |tokens|))
  }

  /** The translation loop over the tokens, with its output text, string table and label counter. */
  method EmitTokens(tokens: seq<Token>) returns (r: Result<Emitted>)
    ensures r.Ok? <==> Valid(tokens)
    ensures r.Ok? ==> r.value == After(tokens, |tokens|)
  {
    hide Block, Fresh;
    var asm := PROLOGUE;
    var strings := [];
    var labelCounter: nat := 0;
    for k := 0 to |tokens|
      invariant forall i :: 0 <= i < k ==> ValidToken(tokens[i])
      invariant Emitted(asm, labelCounter, strings) == After(tokens, k)
    {
      var token := tokens[k];
      if !ValidToken(token) {
        return Err(if token.Op? then "Unknown arithmetic operator: " + [token.op]
                   else "Unknown comparison operator: " + [token.op]);
      }
      asm := asm + Block(token, labelCounter, |strings|);
      labelCounter := labelCounter + Fresh(token);
      if token.StringLiteral? {
        strings := strings + [token.text];
      }
    }
    r := Ok(Emitted(asm, labelCounter, strings));
  }

  /** Translation fails exactly on a token list with an unknown operator, and otherwise yields the
      lines the rest of this model reasons about. */
  method CompileTokens(tokens: seq<Token>) returns (r: Result<seq<Line>>)
    ensures r.Ok? <==> Valid(tokens)
    ensures r.Ok? ==> r.value == Compiled(tokens)
  {
    var e := EmitTokens(tokens);
    if e.Err? {
      return Err(e.message);
    }
    var asm := e.value.asm;
    if !AnyHalt(asm) {
      asm := asm + [Do(HALT)];
    }
    var tail := EmitStrings(e.value.strings);
    assert e.value.asm + [] == e.value.asm;
    r := Ok(asm + tail);
  }

  method EmitStrings(strings: seq<string>) returns (asm: seq<Line>)
    ensures asm == StringSection(strings, |strings|)
  {
    asm := [];
    for k := 0 to |strings|
      invariant asm == StringSection(strings, k)
    {
      asm := asm + [Line.Label(StrName(k)), Str(strings[k])];
    }
  }
}
