/** The words each token becomes, in numbers, and the operands of the tokens whose effect lies outside
    this model. */
module GlyphBytecode {
  import opened Words
  import opened GlyphVm
  import opened Assembler
  import opened GlyphCompiler
  import opened GlyphLabels
  import opened LineMachine

  function Flat(parts: seq<seq<u32>>): seq<u32> {
    if parts == [] then [] else Flat(parts[..|parts| - 1]) + parts[|parts| - 1]
  }

  lemma FlatSnoc(parts: seq<seq<u32>>, part: seq<u32>)
    ensures Flat([]) == [] && Flat(parts + [part]) == Flat(parts) + part
  {
    assert (parts + [part])[..|parts|] == parts;
  }

  lemma Cut(ram: seq<u32>, a: nat, b: nat, c: nat)
    requires a <= b <= c <= |ram|
    ensures ram[a..c] == ram[a..b] + ram[b..c]
  {
  }

  function ArithCode(op: char): u32 {
    if op == '+' then 0x20 else if op == '-' then 0x21 else if op == '*' then 0x22 else 0x23
  }

  /** The bytecode of token `t` at address `a`, instruction by instruction; `x` is the address its name
      or its string stands for. A place where code jumps to inside the token takes no words. */
  function Listing(t: Token, a: nat, x: u32): seq<seq<u32>> {
    match t
    case Number(v) => [[0x10, 27, v], [0x60, 27]]
    case Op(op) => [[0x61, 28], [0x61, 27], [ArithCode(op), 27, 28], [0x60, 27]]
    case Cmp(op) =>
      if op == '=' then
        [[0x61, 28], [0x61, 27], [0x50, 27, 28], [0x10, 27, 1], [0x31, 0, Wrap(a + 16)], [0x10, 27, 0], [], [0x60, 27]]
      else
        [[0x61, 28], [0x61, 27], [0x50, 27, 28], [0x10, 27, if op == '>' then 1 else 0xFFFF_FFFF], [0x50, 0, 27],
         [0x31, 0, Wrap(a + 21)], [0x10, 27, 0], [0x30, Wrap(a + 24)], [], [0x10, 27, 1], [], [0x60, 27]]
    case Conditional =>
      [[0x61, 28], [0x61, 27], [0x61, 29], [0x32, 29, Wrap(a + 13)], [0x60, 28], [0x30, Wrap(a + 15)], [], [0x60, 27], []]
    case Loop =>
      [[0x61, 28], [0x61, 27], [], [0x60, 27], [0x61, 29], [0x10, 25, 0xFF00], [0x40, 29, 28, 25], [0x10, 26, 1],
       [0x20, 27, 26], [0x50, 27, 28], [0x35, 0, Wrap(a + 4)], []]
    case Spawn => [[0x61, 27], [0x4D, 27], [0x60, 27]]
    case Mutate => [[0x61, 27], [0x61, 28], [0x12, 27, 28]]
    case Output => [[0x61, 27], [0x40, 27, 28, 27]]
    case Halt => [[0x00]]
    case StoreReg(i) => [[0x61, i]]
    case LoadReg(i) => [[0x60, i]]
    case StringLiteral(_) => [[0x10, 27, x], [0x60, 27]]
    case Rectf => [[0x61, 29], [0x61, 28], [0x61, 27], [0x61, 26], [0x61, 25], [0x43, 25, 26, 27, 28, 29]]
    case DrawText => [[0x61, 29], [0x61, 28], [0x61, 27], [0x61, 26], [0x61, 25], [0x8C, 25, 26, 27, 28, 29]]
    case Frame => [[0x02]]
    case Ikey => [[0x48, 27], [0x60, 27]]
    case Fill => [[0x61, 27], [0x42, 27]]
    case Ls => [[0x61, 27], [0x59, 27], [0x60, 0]]
    case Label(_) => [[]]
    case Jump(_) => [[0x30, x]]
    case Exec => [[0x61, 27], [0x66, 27]]
    case Jz(_) => [[0x61, 27], [0x31, 27, x]]
    case Jnz(_) => [[0x61, 27], [0x32, 27, x]]
  }

  /** The address or number the token's own name or string resolves to. */
  function Operand(tokens: seq<Token>, j: nat): u32
    requires j < |tokens|
  {
    var lines := Compiled(tokens);
    var name :=
      match tokens[j]
      case Jump(n) => n
      case Jz(n) => n
      case Jnz(n) => n
      case _ => StrName(|After(tokens, j).strings|);
    match Target(lines, name)
    case Some(x) => x
    case None => 0
  }

  // ---- Offsets inside a block ----

  function SizeOf(block: seq<Line>, p: nat): nat
    requires p <= |block|
  {
    if p == 0 then 0 else SizeOf(block, p - 1) + LineSize(block[p - 1])
  }

  lemma {:induction false} BlockOffset(lines: seq<Line>, s: nat, block: seq<Line>, p: nat)
    requires s + |block| <= |lines| && p <= |block|
    requires forall t :: 0 <= t < |block| ==> lines[s + t] == block[t]
    ensures Offset(lines, s + p) == Offset(lines, s) + SizeOf(block, p)
  {
    if p > 0 {
      BlockOffset(lines, s, block, p - 1);
    }
  }

  /** A block's generated labels stand for these offsets in it. */
  function LabelSize(t: Token, d: nat): nat {
    match t
    case Cmp(op) => if op == '=' then 16 else 21 + 3 * d
    case Conditional => 13 + 2 * d
    case Loop => 4 + 23 * d
    case _ => 0
  }

  lemma SizeStart(block: seq<Line>)
    ensures SizeOf(block, 0) == 0
  {
  }

  lemma SizeStep(block: seq<Line>, p: nat)
    requires p < |block|
    ensures SizeOf(block, p + 1) == SizeOf(block, p) + LineSize(block[p])
  {
  }

  lemma EqualLines(c: nat, n: nat)
    ensures var b := Block(Cmp('='), c, n);
            |b| == 8 && LineSize(b[0]) == 2 && LineSize(b[1]) == 2 && LineSize(b[2]) == 3 && LineSize(b[3]) == 3 && LineSize(b[4]) == 3 && LineSize(b[5]) == 3
  {
    hide Gl;
  }

  lemma EqualSizes(c: nat, n: nat)
    ensures |Block(Cmp('='), c, n)| == 8 && SizeOf(Block(Cmp('='), c, n), 6) == 16
  {
    hide SizeOf, Block, LineSize;
    var b := Block(Cmp('='), c, n);
    EqualLines(c, n);
    SizeStart(b);
    SizeStep(b, 0); SizeStep(b, 1); SizeStep(b, 2); SizeStep(b, 3);
    SizeStep(b, 4); SizeStep(b, 5);
  }

  lemma OrderLines(op: char, c: nat, n: nat)
    requires op == '>' || op == '<'
    ensures var b := Block(Cmp(op), c, n);
            |b| == 12 && LineSize(b[0]) == 2 && LineSize(b[1]) == 2 && LineSize(b[2]) == 3 && LineSize(b[3]) == 3 && LineSize(b[4]) == 3 && LineSize(b[5]) == 3
            && LineSize(b[6]) == 3 && LineSize(b[7]) == 2 && LineSize(b[8]) == 0 && LineSize(b[9]) == 3
  {
    hide Gl;
  }

  lemma OrderSizes(op: char, c: nat, n: nat)
    requires op == '>' || op == '<'
    ensures |Block(Cmp(op), c, n)| == 12 && SizeOf(Block(Cmp(op), c, n), 8) == 21 && SizeOf(Block(Cmp(op), c, n), 10) == 24
  {
    hide SizeOf, Block, LineSize;
    var b := Block(Cmp(op), c, n);
    OrderLines(op, c, n);
    SizeStart(b);
    SizeStep(b, 0); SizeStep(b, 1); SizeStep(b, 2); SizeStep(b, 3);
    SizeStep(b, 4); SizeStep(b, 5); SizeStep(b, 6); SizeStep(b, 7);
    SizeStep(b, 8); SizeStep(b, 9);
  }

  lemma ConditionalLines(c: nat, n: nat)
    ensures var b := Block(Conditional, c, n);
            |b| == 9 && LineSize(b[0]) == 2 && LineSize(b[1]) == 2 && LineSize(b[2]) == 2 && LineSize(b[3]) == 3 && LineSize(b[4]) == 2 && LineSize(b[5]) == 2
            && LineSize(b[6]) == 0 && LineSize(b[7]) == 2
  {
    hide Gl;
  }

  lemma ConditionalSizes(c: nat, n: nat)
    ensures |Block(Conditional, c, n)| == 9 && SizeOf(Block(Conditional, c, n), 6) == 13 && SizeOf(Block(Conditional, c, n), 8) == 15
  {
    hide SizeOf, Block, LineSize;
    var b := Block(Conditional, c, n);
    ConditionalLines(c, n);
    SizeStart(b);
    SizeStep(b, 0); SizeStep(b, 1); SizeStep(b, 2); SizeStep(b, 3);
    SizeStep(b, 4); SizeStep(b, 5); SizeStep(b, 6); SizeStep(b, 7);
  }

  lemma LoopLines(c: nat, n: nat)
    ensures var b := Block(Loop, c, n);
            |b| == 12 && LineSize(b[0]) == 2 && LineSize(b[1]) == 2 && LineSize(b[2]) == 0 && LineSize(b[3]) == 2 && LineSize(b[4]) == 2 && LineSize(b[5]) == 3
            && LineSize(b[6]) == 4 && LineSize(b[7]) == 3 && LineSize(b[8]) == 3 && LineSize(b[9]) == 3 && LineSize(b[10]) == 3
  {
    hide Gl;
  }

  lemma LoopSizes(c: nat, n: nat)
    ensures |Block(Loop, c, n)| == 12 && SizeOf(Block(Loop, c, n), 2) == 4 && SizeOf(Block(Loop, c, n), 11) == 27
  {
    hide SizeOf, Block, LineSize;
    var b := Block(Loop, c, n);
    LoopLines(c, n);
    SizeStart(b);
    SizeStep(b, 0); SizeStep(b, 1); SizeStep(b, 2); SizeStep(b, 3);
    SizeStep(b, 4); SizeStep(b, 5); SizeStep(b, 6); SizeStep(b, 7);
    SizeStep(b, 8); SizeStep(b, 9); SizeStep(b, 10);
  }

  lemma LabelSizes(t: Token, c: nat, n: nat, d: nat)
    requires ValidToken(t) && d < Fresh(t)
    ensures LabelPos(t, d) < |Block(t, c, n)|
    ensures SizeOf(Block(t, c, n), LabelPos(t, d)) == LabelSize(t, d)
  {
    hide SizeOf, Block;
    match t {
      case Cmp(op) => if op == '=' { EqualSizes(c, n); } else { OrderSizes(op, c, n); }
      case Conditional => ConditionalSizes(c, n);
      case Loop => LoopSizes(c, n);
      case _ =>
    }
  }

  lemma LabelAddress(tokens: seq<Token>, j: nat, d: nat)
    requires Unreserved(tokens) && j < |tokens| && ValidToken(tokens[j]) && d < Fresh(tokens[j])
    ensures Start(tokens, j) <= |Compiled(tokens)|
    ensures Target(Compiled(tokens), Gl(After(tokens, j).labels + d))
         == Some(Wrap(Offset(Compiled(tokens), Start(tokens, j)) + LabelSize(tokens[j], d)))
  {
    hide Block, Compiled, After, Unreserved, Offset, LabelSize, LabelPos, Target, SizeOf, Code;
    var e := After(tokens, j);
    CodeIs(tokens, j);
    BlockLinesAt(tokens, j);
    LabelSizes(tokens[j], e.labels, |e.strings|, d);
    GeneratedTarget(tokens, j, d);
    BlockOffset(Compiled(tokens), Start(tokens, j), Code(tokens, j), LabelPos(tokens[j], d));
  }

  lemma CodeIs(tokens: seq<Token>, j: nat)
    requires j < |tokens|
    ensures Code(tokens, j) == Block(tokens[j], After(tokens, j).labels, |After(tokens, j).strings|)
  {
  }

  lemma BlockLinesAt(tokens: seq<Token>, j: nat)
    requires j < |tokens|
    ensures Start(tokens, j + 1) == Start(tokens, j) + |Code(tokens, j)| <= |Compiled(tokens)|
    ensures forall t :: 0 <= t < |Code(tokens, j)| ==> Compiled(tokens)[Start(tokens, j) + t] == Code(tokens, j)[t]
  {
    hide Compiled, Code, After, StringBase;
    BlockLines(tokens, j);
    forall t | 0 <= t < |Code(tokens, j)| ensures Compiled(tokens)[Start(tokens, j) + t] == Code(tokens, j)[t] {
      assert Compiled(tokens)[Start(tokens, j)..Start(tokens, j + 1)][t] == Code(tokens, j)[t];
    }
  }

  // ---- The words of a block ----

  /** Lines whose words are the parts. */
  ghost predicate Becomes(lines: seq<Line>, block: seq<Line>, parts: seq<seq<u32>>) {
    |block| == |parts| && forall p :: 0 <= p < |block| ==> LineOk(lines, block[p]) && LineWords(lines, block[p]) == parts[p]
  }

  lemma {:induction false} BlockWords(ram: seq<u32>, lines: seq<Line>, s: nat, block: seq<Line>, parts: seq<seq<u32>>)
    requires Loaded(ram, lines) && s + |block| <= |lines| && Becomes(lines, block, parts)
    requires forall t :: 0 <= t < |block| ==> lines[s + t] == block[t]
    ensures Offset(lines, s) <= Offset(lines, s + |block|) == Offset(lines, s) + |Flat(parts)| <= |ram|
    ensures ram[Offset(lines, s)..Offset(lines, s + |block|)] == Flat(parts)
    decreases |block|
  {
    hide Loaded, LineOk, LineWords, AllOk, Image;
    if block == [] {
      EmptyBlock(ram, lines, s);
    } else {
      var k := |block| - 1;
      BlockWords(ram, lines, s, block[..k], parts[..k]);
      LineIn(ram, lines, s + k);
      Cut(ram, Offset(lines, s), Offset(lines, s + k), Offset(lines, s + k + 1));
    }
  }

  lemma EmptyBlock(ram: seq<u32>, lines: seq<Line>, s: nat)
    requires Loaded(ram, lines) && s <= |lines|
    ensures Offset(lines, s) <= |ram|
  {
    hide AllOk, Offset;
    OffsetMonotone(lines, s, |lines|);
  }

  lemma LineIn(ram: seq<u32>, lines: seq<Line>, k: nat)
    requires Loaded(ram, lines) && k < |lines|
    ensures LineOk(lines, lines[k]) && Offset(lines, k) <= Offset(lines, k + 1) <= |ram|
    ensures Offset(lines, k + 1) == Offset(lines, k) + |LineWords(lines, lines[k])|
    ensures ram[Offset(lines, k)..Offset(lines, k + 1)] == LineWords(lines, lines[k])
  {
    hide Image, LineOk, LineWords;
    LineAt(ram, lines, k);
  }

  // ---- Each token ----

  /** The generated labels of a token at address `a` stand for their places in it. */
  ghost predicate LabelsStand(lines: seq<Line>, t: Token, c: nat, a: nat) {
    && (Fresh(t) > 0 ==> Target(lines, Gl(c)) == Some(Wrap(a + LabelSize(t, 0))))
    && (Fresh(t) > 1 ==> Target(lines, Gl(c + 1)) == Some(Wrap(a + LabelSize(t, 1))))
  }

  lemma EqualBecomes(lines: seq<Line>, c: nat, n: nat, a: nat, x: u32)
    requires LabelsStand(lines, Cmp('='), c, a)
    ensures Becomes(lines, Block(Cmp('='), c, n), Listing(Cmp('='), a, x))
  {
    hide Target, Gl, StrName;
  }

  lemma OrderBecomes(lines: seq<Line>, op: char, c: nat, n: nat, a: nat, x: u32)
    requires (op == '>' || op == '<') && LabelsStand(lines, Cmp(op), c, a)
    ensures Becomes(lines, Block(Cmp(op), c, n), Listing(Cmp(op), a, x))
  {
    hide Target, Gl, StrName;
  }

  lemma ConditionalBecomes(lines: seq<Line>, c: nat, n: nat, a: nat, x: u32)
    requires LabelsStand(lines, Conditional, c, a)
    ensures Becomes(lines, Block(Conditional, c, n), Listing(Conditional, a, x))
  {
    hide Target, Gl, StrName;
  }

  lemma LoopBecomes(lines: seq<Line>, c: nat, n: nat, a: nat, x: u32)
    requires LabelsStand(lines, Loop, c, a)
    ensures Becomes(lines, Block(Loop, c, n), Listing(Loop, a, x))
  {
    hide Target, Gl, StrName;
  }

  predicate AllLinesOk(lines: seq<Line>, block: seq<Line>) {
    forall p :: 0 <= p < |block| ==> LineOk(lines, block[p])
  }

  lemma NamedBecomes(lines: seq<Line>, t: Token, c: nat, n: nat, a: nat, x: u32)
    requires AllLinesOk(lines, Block(t, c, n))
    requires (t.Jump? || t.Jz? || t.Jnz?) && Target(lines, t.name) == Some(x)
    ensures Becomes(lines, Block(t, c, n), Listing(t, a, x))
  {
    hide Target, Gl, StrName;
  }

  lemma StringBecomes(lines: seq<Line>, t: Token, c: nat, n: nat, a: nat, x: u32)
    requires t.StringLiteral? && Target(lines, StrName(n)) == Some(x)
    ensures Becomes(lines, Block(t, c, n), Listing(t, a, x))
  {
    hide Target, Gl, StrName;
  }

  lemma FiveBecomes(lines: seq<Line>, t: Token, c: nat, n: nat, a: nat, x: u32)
    requires (t.Rectf? || t.DrawText?)
    ensures Becomes(lines, Block(t, c, n), Listing(t, a, x))
  {
    hide Target, Gl, StrName;
  }

  lemma StackBecomes(lines: seq<Line>, t: Token, c: nat, n: nat, a: nat, x: u32)
    requires AllLinesOk(lines, Block(t, c, n)) && ValidToken(t)
    requires t.Number? || t.Op? || t.StoreReg? || t.LoadReg?
    ensures Becomes(lines, Block(t, c, n), Listing(t, a, x))
  {
    hide Target, Gl, StrName;
  }

  lemma OtherBecomes(lines: seq<Line>, t: Token, c: nat, n: nat, a: nat, x: u32)
    requires t.Output? || t.Fill? || t.Frame? || t.Halt? || t.Label?
    ensures Becomes(lines, Block(t, c, n), Listing(t, a, x))
  {
    hide Target, Gl, StrName;
  }

  lemma SystemBecomes(lines: seq<Line>, t: Token, c: nat, n: nat, a: nat, x: u32)
    requires (t.Spawn? || t.Mutate? || t.Ikey? || t.Ls? || t.Exec?)
    ensures Becomes(lines, Block(t, c, n), Listing(t, a, x))
  {
    hide Target, Gl, StrName;
  }

  lemma BlockBecomes(lines: seq<Line>, t: Token, c: nat, n: nat, a: nat, x: u32)
    requires ValidToken(t) && AllLinesOk(lines, Block(t, c, n)) && LabelsStand(lines, t, c, a)
    requires t.Jump? || t.Jz? || t.Jnz? ==> Target(lines, t.name) == Some(x)
    requires t.StringLiteral? ==> Target(lines, StrName(n)) == Some(x)
    ensures Becomes(lines, Block(t, c, n), Listing(t, a, x))
  {
    hide Target, Gl, StrName, Block, Becomes, Listing, AllLinesOk, LabelsStand;
    match t {
      case Cmp(op) => if op == '=' { EqualBecomes(lines, c, n, a, x); } else { OrderBecomes(lines, op, c, n, a, x); }
      case Conditional => ConditionalBecomes(lines, c, n, a, x);
      case Loop => LoopBecomes(lines, c, n, a, x);
      case Jump(_) => NamedBecomes(lines, t, c, n, a, x);
      case Jz(_) => NamedBecomes(lines, t, c, n, a, x);
      case Jnz(_) => NamedBecomes(lines, t, c, n, a, x);
      case StringLiteral(_) => StringBecomes(lines, t, c, n, a, x);
      case Rectf => FiveBecomes(lines, t, c, n, a, x);
      case DrawText => FiveBecomes(lines, t, c, n, a, x);
      case Spawn => SystemBecomes(lines, t, c, n, a, x);
      case Mutate => SystemBecomes(lines, t, c, n, a, x);
      case Ikey => SystemBecomes(lines, t, c, n, a, x);
      case Ls => SystemBecomes(lines, t, c, n, a, x);
      case Exec => SystemBecomes(lines, t, c, n, a, x);
      case Number(_) => StackBecomes(lines, t, c, n, a, x);
      case Op(_) => StackBecomes(lines, t, c, n, a, x);
      case StoreReg(_) => StackBecomes(lines, t, c, n, a, x);
      case LoadReg(_) => StackBecomes(lines, t, c, n, a, x);
      case _ => OtherBecomes(lines, t, c, n, a, x);
    }
  }

  /** In memory, token `j`'s code is its listing at the address where it starts. */
  lemma TokenBytecode(tokens: seq<Token>, ram: seq<u32>, j: nat)
    requires Valid(tokens) && Unreserved(tokens) && j < |tokens|
    requires Loaded(ram, Compiled(tokens))
    ensures Start(tokens, j) <= Start(tokens, j + 1) <= |Compiled(tokens)|
    ensures var a, b := Offset(Compiled(tokens), Start(tokens, j)), Offset(Compiled(tokens), Start(tokens, j + 1));
            && a <= b == a + |Flat(Listing(tokens[j], a, Operand(tokens, j)))| <= |ram|
            && ram[a..b] == Flat(Listing(tokens[j], a, Operand(tokens, j)))
  {
    hide Compiled, After, Block, Listing, Becomes, AllLinesOk, LabelsStand, Offset, Unreserved, Loaded, Operand, Code, Flat;
    var lines, e := Compiled(tokens), After(tokens, j);
    BlockLinesAt(tokens, j);
    CodeIs(tokens, j);
    var a, x := Offset(lines, Start(tokens, j)), Operand(tokens, j);
    LinesLoaded(ram, lines, Start(tokens, j), Code(tokens, j));
    LabelsStandThere(tokens, j);
    OperandResolves(tokens, ram, j);
    BlockBecomes(lines, tokens[j], e.labels, |e.strings|, a, x);
    BlockWords(ram, lines, Start(tokens, j), Code(tokens, j), Listing(tokens[j], a, x));
  }

  lemma LinesLoaded(ram: seq<u32>, lines: seq<Line>, s: nat, block: seq<Line>)
    requires Loaded(ram, lines) && s + |block| <= |lines|
    requires forall t :: 0 <= t < |block| ==> lines[s + t] == block[t]
    ensures AllLinesOk(lines, block)
  {
    hide LineOk, Image;
  }

  lemma LabelsStandThere(tokens: seq<Token>, j: nat)
    requires Valid(tokens) && Unreserved(tokens) && j < |tokens|
    ensures Start(tokens, j) <= |Compiled(tokens)|
    ensures LabelsStand(Compiled(tokens), tokens[j], After(tokens, j).labels, Offset(Compiled(tokens), Start(tokens, j)))
  {
    hide Compiled, After, Block, Unreserved, Offset, LabelSize, Target, Gl, CodeSize;
    assert Start(tokens, j) <= |Compiled(tokens)| by { BlockLinesAt(tokens, j); }
    if Fresh(tokens[j]) > 0 { LabelAddress(tokens, j, 0); }
    if Fresh(tokens[j]) > 1 { LabelAddress(tokens, j, 1); }
  }

  /** What the token's name or string resolves to, all lines being assembled. */
  lemma OperandResolves(tokens: seq<Token>, ram: seq<u32>, j: nat)
    requires Valid(tokens) && Unreserved(tokens) && j < |tokens| && Loaded(ram, Compiled(tokens))
    ensures var t := tokens[j];
            && (t.Jump? || t.Jz? || t.Jnz? ==> Target(Compiled(tokens), t.name) == Some(Operand(tokens, j)))
            && (t.StringLiteral? ==> Target(Compiled(tokens), StrName(|After(tokens, j).strings|)) == Some(Operand(tokens, j)))
  {
    hide Compiled, After, Unreserved, Target, StrName, Image, StringBase;
    var lines, t := Compiled(tokens), tokens[j];
    BlockLinesAt(tokens, j);
    if t.StringLiteral? {
      StringOfToken(tokens, j);
      StringTarget(tokens, |After(tokens, j).strings|);
    } else if t.Jump? {
      assert Code(tokens, j)[0] == Ins(JmpL(t.name));
      assert LineOk(lines, lines[Start(tokens, j)]);
    } else if t.Jz? || t.Jnz? {
      assert Code(tokens, j)[1] == Ins(if t.Jz? then JzL(R27, t.name) else JnzL(R27, t.name));
      assert LineOk(lines, lines[Start(tokens, j) + 1]);
    }
  }

  // ---- The whole program ----

  /** The code of the first `k` tokens, behind the nine words that set up r30, r29 and r28. */
  function Body(tokens: seq<Token>, k: nat): seq<u32>
    requires k <= |tokens|
  {
    if k == 0 then [0x10, 30, 0x8000, 0x10, 29, 0, 0x10, 28, 0]
    else Body(tokens, k - 1) + Flat(Listing(tokens[k - 1], |Body(tokens, k - 1)|, Operand(tokens, k - 1)))
  }

  lemma {:induction false} BodyLoaded(tokens: seq<Token>, ram: seq<u32>, k: nat)
    requires Valid(tokens) && Unreserved(tokens) && Loaded(ram, Compiled(tokens)) && k <= |tokens|
    ensures Start(tokens, k) <= |Compiled(tokens)|
    ensures Offset(Compiled(tokens), Start(tokens, k)) == |Body(tokens, k)| <= |ram|
    ensures ram[..|Body(tokens, k)|] == Body(tokens, k)
  {
    hide Compiled, After, Listing, Unreserved, Loaded, Operand, Flat, Offset;
    if k == 0 {
      PrologueLoaded(tokens, ram);
    } else {
      BodyLoaded(tokens, ram, k - 1);
      TokenBytecode(tokens, ram, k - 1);
      var a, b := |Body(tokens, k - 1)|, Offset(Compiled(tokens), Start(tokens, k));
      assert ram[..b] == ram[..a] + ram[a..b];
    }
  }

  lemma SetupParts()
    ensures Flat([[0x10, 30, 0x8000], [0x10, 29, 0], [0x10, 28, 0]]) == [0x10, 30, 0x8000, 0x10, 29, 0, 0x10, 28, 0]
  {
    hide Flat;
    var x, y, z: seq<u32> := [0x10, 30, 0x8000], [0x10, 29, 0], [0x10, 28, 0];
    FlatSnoc([], x);
    FlatSnoc([x], y);
    FlatSnoc([x, y], z);
    assert [] + [x] == [x] && [x] + [y] == [x, y] && [x, y] + [z] == [x, y, z];
  }

  lemma SetupBecomes(lines: seq<Line>)
    ensures Becomes(lines, PROLOGUE, [[0x10, 30, 0x8000], [0x10, 29, 0], [0x10, 28, 0]])
  {
  }

  lemma PrologueLoaded(tokens: seq<Token>, ram: seq<u32>)
    requires Loaded(ram, Compiled(tokens))
    ensures Start(tokens, 0) <= |Compiled(tokens)|
    ensures Offset(Compiled(tokens), Start(tokens, 0)) == |Body(tokens, 0)| <= |ram|
    ensures ram[..|Body(tokens, 0)|] == Body(tokens, 0)
  {
    var lines := Compiled(tokens);
    assert Start(tokens, 0) == 3 && Offset(lines, 0) == 0 && |PROLOGUE| == 3;
    hide Compiled, Loaded, Becomes, Flat, Offset;
    PrologueFirst(tokens);
    SetupBecomes(lines);
    SetupParts();
    BlockWords(ram, lines, 0, PROLOGUE, [[0x10, 30, 0x8000], [0x10, 29, 0], [0x10, 28, 0]]);
    assert ram[0..9] == ram[..9];
  }

  /** The characters of the first `k` strings, each closed by a zero word. */
  function TextWords(strings: seq<string>, k: nat): seq<u32>
    requires k <= |strings|
  {
    if k == 0 then []
    else
      var s := strings[k - 1];
      TextWords(strings, k - 1) + seq(|s|, i requires 0 <= i < |s| => s[i] as int) + [0]
  }

  lemma NoTexts(strings: seq<string>)
    ensures TextWords(strings, 0) == []
  {
  }

  lemma TextWordsMore(strings: seq<string>, k: nat)
    requires 0 < k <= |strings|
    ensures TextWords(strings, k) == TextWords(strings, k - 1) + StrWords(strings[k - 1])
  {
    var s := strings[k - 1];
    assert StrWords(s) == seq(|s|, i requires 0 <= i < |s| => s[i] as int) + [0];
  }

  lemma TextParts(lines: seq<Line>, name: string, s: string)
    requires StrOk(s)
    ensures Becomes(lines, [Line.Label(name), Str(s)], [[], StrWords(s)])
    ensures Flat([[], StrWords(s)]) == StrWords(s)
  {
    hide Flat;
    var none: seq<seq<u32>> := [];
    FlatSnoc(none, []);
    FlatSnoc(none + [[]], StrWords(s));
    assert none + [[]] + [StrWords(s)] == [[], StrWords(s)];
  }

  lemma {:induction false} TextsLoaded(tokens: seq<Token>, ram: seq<u32>, k: nat)
    requires Loaded(ram, Compiled(tokens)) && k <= |StringsOf(tokens)|
    ensures StringBase(tokens) + 2 * k <= |Compiled(tokens)|
    ensures Offset(Compiled(tokens), StringBase(tokens)) <= |ram|
    ensures var a := Offset(Compiled(tokens), StringBase(tokens));
            && Offset(Compiled(tokens), StringBase(tokens) + 2 * k) == a + |TextWords(StringsOf(tokens), k)| <= |ram|
            && ram[a..a + |TextWords(StringsOf(tokens), k)|] == TextWords(StringsOf(tokens), k)
  {
    hide Compiled, StringBase, StringsOf, Loaded, Becomes, Flat, Offset, StrOk, StrName, TextWords, StrWords;
    var lines, base, strings := Compiled(tokens), StringBase(tokens), StringsOf(tokens);
    StringSectionLines(tokens, 0);
    if k == 0 {
      EmptyBlock(ram, lines, base);
      assert TextWords(strings, 0) == [] by { NoTexts(strings); }
    } else {
      TextsLoaded(tokens, ram, k - 1);
      StringSectionLines(tokens, k - 1);
      var s, at := strings[k - 1], base + 2 * (k - 1);
      LineIn(ram, lines, at + 1);
      TextParts(lines, StrName(k - 1), s);
      BlockWords(ram, lines, at, [Line.Label(StrName(k - 1)), Str(s)], [[], StrWords(s)]);
      Cut(ram, Offset(lines, base), Offset(lines, at), Offset(lines, at + 2));
      TextWordsMore(strings, k);
    }
  }

  function Trailer(tokens: seq<Token>): seq<u32> {
    if AnyHalt(After(tokens, |tokens|).asm) then [] else [0x00]
  }

  lemma TrailerLoaded(tokens: seq<Token>, ram: seq<u32>)
    requires Loaded(ram, Compiled(tokens))
    ensures Start(tokens, |tokens|) <= StringBase(tokens) <= |Compiled(tokens)|
    ensures var a, b := Offset(Compiled(tokens), Start(tokens, |tokens|)), Offset(Compiled(tokens), StringBase(tokens));
            a <= b == a + |Trailer(tokens)| <= |ram| && ram[a..b] == Trailer(tokens)
  {
    hide After, AnyHalt, Loaded, Offset;
    var lines, k := Compiled(tokens), Start(tokens, |tokens|);
    assert k <= StringBase(tokens) <= |lines|;
    if AnyHalt(After(tokens, |tokens|).asm) {
      EmptyBlock(ram, lines, k);
    } else {
      assert lines[k] == Do(HALT);
      LineIn(ram, lines, k);
    }
  }

  /** The assembled program, word for word: setup, the tokens' listings, a HALT where no token or name
      mentions one, and the strings. */
  lemma ProgramBytecode(tokens: seq<Token>)
    requires Valid(tokens) && Unreserved(tokens) && Assemble(Compiled(tokens)).Ok?
    ensures Assemble(Compiled(tokens)).value
         == Body(tokens, |tokens|) + Trailer(tokens) + TextWords(StringsOf(tokens), |StringsOf(tokens)|)
  {
    hide Compiled, Unreserved, AllOk, Image, Offset, Body, Trailer, TextWords, StringBase, StringsOf;
    var lines, strings := Compiled(tokens), StringsOf(tokens);
    var ram := Image(lines, |lines|);
    StringSectionLines(tokens, 0);
    BodyLoaded(tokens, ram, |tokens|);
    TrailerLoaded(tokens, ram);
    TextsLoaded(tokens, ram, |strings|);
    var a, b := Offset(lines, Start(tokens, |tokens|)), Offset(lines, StringBase(tokens));
    Cut(ram, 0, a, b);
    Cut(ram, 0, b, |ram|);
    assert ram[0..a] == ram[..a] && ram[0..|ram|] == ram;
  }
}
