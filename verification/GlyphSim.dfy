/** Each token's code does what the token does: the simulation, token by token, at line level. */
module GlyphSim {
  import opened Words
  import opened GlyphVm
  import opened Assembler
  import opened GlyphCompiler
  import opened GlyphLabels
  import opened LineMachine
  import G = GlyphSource

  function WorldOf(tokens: seq<Token>): G.World {
    var lines := Compiled(tokens);
    var base := StringBase(tokens);
    G.World(MaxDepth(lines), TextOffsets(tokens, |StringsOf(tokens)|),
            AnyHalt(After(tokens, |tokens|).asm) && StringsOf(tokens) != [])
  }

  function TextOffsets(tokens: seq<Token>, m: nat): (r: seq<u32>)
    ensures |r| == m
  {
    seq(m, i requires 0 <= i < m => TextOffset(tokens, i))
  }

  /** Where the characters of the i-th string literal are assembled. */
  function TextOffset(tokens: seq<Token>, i: nat): u32 {
    var k := StringBase(tokens) + 2 * i;
    if k <= |Compiled(tokens)| then Wrap(Offset(Compiled(tokens), k)) else 0
  }

  /** A source state and a line-level state are at the same point of the same computation. */
  ghost predicate Match(tokens: seq<Token>, s: G.State, c: Cfg) {
    var lines := Compiled(tokens);
    && s.at <= |tokens| && c.k <= |lines| && Start(tokens, s.at) <= |lines|
    && |s.vars| == G.VARS
    && c.st == s.stack && c.ds == s.draws && c.halted == s.halted
    && (forall i :: 1 <= i <= 26 ==> c.rs[i] == s.vars[i - 1]) && c.rs[28] == s.second
    && (!s.halted ==> Settle(lines, c.k) == Settle(lines, Start(tokens, s.at)))
  }

  predicate ScratchUser(t: Token) {
    t.Loop? || t.Rectf? || t.DrawText?
  }

  /** While a token's code runs the variables still have their old values. */
  ghost predicate VarsKept(t: Token, c0: Cfg, c: Cfg) {
    && (forall i :: 1 <= i <= 24 ==> c.rs[i] == c0.rs[i])
    && (!ScratchUser(t) ==> c.rs[25] == c0.rs[25] && c.rs[26] == c0.rs[26])
  }

  /** `c` is inside the code of token `j`. */
  ghost predicate InCode(tokens: seq<Token>, j: nat, c0: Cfg, c: Cfg)
    requires j < |tokens|
  {
    && c.k <= |Compiled(tokens)| && !c.halted
    && Start(tokens, j) <= Settle(Compiled(tokens), c.k) < Start(tokens, j + 1)
    && VarsKept(tokens[j], c0, c)
  }

  /** A run inside the code of token `j`, except possibly for its last state. */
  ghost predicate Inside(tokens: seq<Token>, j: nat, cs: seq<Cfg>)
    requires j < |tokens|
  {
    && Trail(Compiled(tokens), cs)
    && forall t :: 0 <= t < |cs| - 1 ==> InCode(tokens, j, cs[0], cs[t])
  }

  function Last(cs: seq<Cfg>): Cfg
    requires |cs| > 0
  {
    cs[|cs| - 1]
  }

  // ---- One line ----

  lemma CodeLines(tokens: seq<Token>, j: nat)
    requires j < |tokens|
    ensures Start(tokens, j + 1) == Start(tokens, j) + |Code(tokens, j)| <= |Compiled(tokens)|
    ensures forall t :: 0 <= t < |Code(tokens, j)| ==> Compiled(tokens)[Start(tokens, j) + t] == Code(tokens, j)[t]
  {
    hide Compiled, Code, After, StringBase;
    BlockLines(tokens, j);
    forall t | 0 <= t < |Code(tokens, j)|
      ensures Compiled(tokens)[Start(tokens, j) + t] == Code(tokens, j)[t]
    {
      assert Compiled(tokens)[Start(tokens, j)..Start(tokens, j + 1)][t] == Code(tokens, j)[t];
    }
  }

  /** The run `cs` has stayed inside the code of token `j` and is about to execute its position `t`. */
  ghost predicate Ready(tokens: seq<Token>, j: nat, t: nat, cs: seq<Cfg>) {
    && j < |tokens| && t <= |Code(tokens, j)|
    && Start(tokens, j) + t <= |Compiled(tokens)|
    && Inside(tokens, j, cs)
    && !Last(cs).halted && VarsKept(tokens[j], cs[0], Last(cs))
    && Settle(Compiled(tokens), Last(cs).k) == Settle(Compiled(tokens), Start(tokens, j) + t)
  }

  /** Registers the code of a token may write before it ends. */
  predicate Scratch(t: Token, r: u32) {
    r == 0 || 27 <= r < USER_REGS || (ScratchUser(t) && (r == 25 || r == 26))
  }

  /** The line at position `t` takes the run to position `u` and state `d`. */
  lemma Follow(tokens: seq<Token>, j: nat, t: nat, u: nat, cs: seq<Cfg>, d: Cfg) returns (ds: seq<Cfg>)
    requires Ready(tokens, j, t, cs) && t < |Code(tokens, j)| && Code(tokens, j)[t].Ins?
    requires InsStep(Compiled(tokens), Last(cs).(k := Start(tokens, j) + t + 1), Code(tokens, j)[t].asm) == Some(d)
    requires u <= |Code(tokens, j)| && d.k == Start(tokens, j) + u
    requires !d.halted && VarsKept(tokens[j], Last(cs), d)
    ensures Ready(tokens, j, u, ds) && |ds| == |cs| + 1 && ds[0] == cs[0] && Last(ds) == d
  {
    hide Compiled, Code, After, InsStep, Inside;
    ds := Finally(tokens, j, t, cs, d);
  }

  /** As `Follow`, for the last line of a token's code. */
  lemma Finally(tokens: seq<Token>, j: nat, t: nat, cs: seq<Cfg>, d: Cfg) returns (ds: seq<Cfg>)
    requires j < |tokens| && Ready(tokens, j, t, cs) && t < |Code(tokens, j)| && Code(tokens, j)[t].Ins?
    requires InsStep(Compiled(tokens), Last(cs).(k := Start(tokens, j) + t + 1), Code(tokens, j)[t].asm) == Some(d)
    ensures d.k <= |Compiled(tokens)| ==> Inside(tokens, j, ds) && |ds| == |cs| + 1 && ds[0] == cs[0] && Last(ds) == d
    ensures Start(tokens, j + 1) == Start(tokens, j) + |Code(tokens, j)| <= |Compiled(tokens)|
  {
    hide Compiled, Code, After, InsStep;
    CodeLines(tokens, j);
    ds := cs + [d];
    assert LineStep(Compiled(tokens), Last(cs)) == Some(d);
    assert InCode(tokens, j, cs[0], Last(cs));
  }

  lemma PassLabel(tokens: seq<Token>, j: nat, t: nat, cs: seq<Cfg>)
    requires Ready(tokens, j, t, cs) && t < |Code(tokens, j)| && Code(tokens, j)[t].Label?
    ensures Ready(tokens, j, t + 1, cs)
  {
    hide Compiled, Code, After, Inside, VarsKept;
    CodeLines(tokens, j);
  }

  lemma Ldi(tokens: seq<Token>, j: nat, t: nat, cs: seq<Cfg>, r: u32, v: u32) returns (ds: seq<Cfg>)
    requires Ready(tokens, j, t, cs) && t < |Code(tokens, j)| && Code(tokens, j)[t] == Do(LDI(r, v))
    requires Scratch(tokens[j], r)
    ensures Ready(tokens, j, t + 1, ds) && |ds| == |cs| + 1 && ds[0] == cs[0]
    ensures Last(ds) == Last(cs).(k := Start(tokens, j) + t + 1, rs := Last(cs).rs[r := v])
  {
    hide Compiled, Code, After;
    ds := Follow(tokens, j, t, t + 1, cs, Last(cs).(k := Start(tokens, j) + t + 1, rs := Last(cs).rs[r := v]));
  }

  lemma Alu(tokens: seq<Token>, j: nat, t: nat, cs: seq<Cfg>, kind: AluKind, a: u32, b: u32) returns (ds: seq<Cfg>)
    requires Ready(tokens, j, t, cs) && t < |Code(tokens, j)| && Code(tokens, j)[t] == Do(ALU(kind, a, b))
    requires Scratch(tokens[j], a) && b < USER_REGS
    ensures Ready(tokens, j, t + 1, ds) && |ds| == |cs| + 1 && ds[0] == cs[0]
    ensures Last(ds) == Last(cs).(k := Start(tokens, j) + t + 1,
                                  rs := Last(cs).rs[a := AluResult(kind, Last(cs).rs[a], Last(cs).rs[b])])
  {
    hide Compiled, Code, After, AluResult;
    ds := Follow(tokens, j, t, t + 1, cs,
                 Last(cs).(k := Start(tokens, j) + t + 1,
                           rs := Last(cs).rs[a := AluResult(kind, Last(cs).rs[a], Last(cs).rs[b])]));
  }

  lemma Cmp3(tokens: seq<Token>, j: nat, t: nat, cs: seq<Cfg>, a: u32, b: u32) returns (ds: seq<Cfg>)
    requires Ready(tokens, j, t, cs) && t < |Code(tokens, j)| && Code(tokens, j)[t] == Do(CMP(a, b))
    requires a < USER_REGS && b < USER_REGS
    ensures Ready(tokens, j, t + 1, ds) && |ds| == |cs| + 1 && ds[0] == cs[0]
    ensures Last(ds) == Last(cs).(k := Start(tokens, j) + t + 1,
                                  rs := Last(cs).rs[0 := Compare(Last(cs).rs[a], Last(cs).rs[b])])
  {
    hide Compiled, Code, After, Compare;
    ds := Follow(tokens, j, t, t + 1, cs,
                 Last(cs).(k := Start(tokens, j) + t + 1,
                           rs := Last(cs).rs[0 := Compare(Last(cs).rs[a], Last(cs).rs[b])]));
  }

  lemma Push(tokens: seq<Token>, j: nat, t: nat, cs: seq<Cfg>, r: u32) returns (ds: seq<Cfg>)
    requires Ready(tokens, j, t, cs) && t < |Code(tokens, j)| && Code(tokens, j)[t] == Do(PUSH(r))
    requires r < USER_REGS && |Last(cs).st| < MaxDepth(Compiled(tokens))
    ensures Ready(tokens, j, t + 1, ds) && |ds| == |cs| + 1 && ds[0] == cs[0]
    ensures Last(ds) == Last(cs).(k := Start(tokens, j) + t + 1, st := Last(cs).st + [Last(cs).rs[r]])
  {
    hide Compiled, Code, After, MaxDepth;
    ds := Follow(tokens, j, t, t + 1, cs, Last(cs).(k := Start(tokens, j) + t + 1, st := Last(cs).st + [Last(cs).rs[r]]));
  }

  lemma Pop(tokens: seq<Token>, j: nat, t: nat, cs: seq<Cfg>, r: u32) returns (ds: seq<Cfg>)
    requires Ready(tokens, j, t, cs) && t < |Code(tokens, j)| && Code(tokens, j)[t] == Do(POP(r))
    requires Scratch(tokens[j], r) && Last(cs).st != []
    ensures Ready(tokens, j, t + 1, ds) && |ds| == |cs| + 1 && ds[0] == cs[0]
    ensures Last(ds) == Last(cs).(k := Start(tokens, j) + t + 1, st := Below(Last(cs).st),
                                  rs := Last(cs).rs[r := Top(Last(cs).st)])
  {
    hide Compiled, Code, After;
    ds := Follow(tokens, j, t, t + 1, cs,
                 Last(cs).(k := Start(tokens, j) + t + 1, st := Below(Last(cs).st),
                           rs := Last(cs).rs[r := Top(Last(cs).st)]));
  }

  /** A drawing call, given by the event it logs. */
  lemma Draw(tokens: seq<Token>, j: nat, t: nat, cs: seq<Cfg>, i: Instr, e: Event) returns (ds: seq<Cfg>)
    requires Ready(tokens, j, t, cs) && t < |Code(tokens, j)| && Code(tokens, j)[t] == Do(i)
    requires PlainStep(MaxDepth(Compiled(tokens)), Last(cs), i) == Some(Last(cs).(ds := Last(cs).ds + [e]))
    requires i.PSET? || i.FILL? || i.FRAME? || i.RECTF? || i.DRAWTEXT?
    ensures Ready(tokens, j, t + 1, ds) && |ds| == |cs| + 1 && ds[0] == cs[0]
    ensures Last(ds) == Last(cs).(k := Start(tokens, j) + t + 1, ds := Last(cs).ds + [e])
  {
    hide Compiled, Code, After, MaxDepth;
    ds := Follow(tokens, j, t, t + 1, cs, Last(cs).(k := Start(tokens, j) + t + 1, ds := Last(cs).ds + [e]));
  }

  /** The d-th label generated for token `j`. */
  function OwnName(tokens: seq<Token>, j: nat, d: nat): string
    requires j <= |tokens|
  {
    Gl(After(tokens, j).labels + d)
  }

  lemma OwnLabel(tokens: seq<Token>, j: nat, d: nat)
    requires Unreserved(tokens) && j < |tokens| && d < Fresh(tokens[j])
    ensures LabelPos(tokens[j], d) < |Code(tokens, j)|
    ensures LabelLine(Compiled(tokens), OwnName(tokens, j, d)) == Some(Start(tokens, j) + LabelPos(tokens[j], d))
  {
    hide Compiled, After, Unreserved, Code, LabelPos;
    GeneratedKey(OwnName(tokens, j, d), After(tokens, j).labels + d);
    GeneratedLine(tokens, j, d);
  }

  predicate IsBranch(a: Asm, name: string) {
    match a
    case JmpL(n) => n == name
    case JzL(r, n) => r < USER_REGS && n == name
    case JnzL(r, n) => r < USER_REGS && n == name
    case BltL(_, n) => n == name
    case _ => false
  }

  /** The branch is taken with registers `rs`. */
  predicate Taken(a: Asm, rs: Regs) {
    match a
    case JzL(r, _) => r < USER_REGS && rs[r] == 0
    case JnzL(r, _) => r < USER_REGS && rs[r] != 0
    case BltL(_, _) => rs[0] == 0xFFFF_FFFF
    case _ => true
  }

  /** Position at which a branch to the d-th own label continues. */
  function After1(tokens: seq<Token>, j: nat, t: nat, a: Asm, d: nat, rs: Regs): nat
    requires j < |tokens|
  {
    if Taken(a, rs) then LabelPos(tokens[j], d) else t + 1
  }

  /** A jump inside the token's own code, to its d-th label. */
  lemma Branch(tokens: seq<Token>, j: nat, t: nat, cs: seq<Cfg>, a: Asm, d: nat) returns (ds: seq<Cfg>)
    requires j < |tokens| && Ready(tokens, j, t, cs) && Unreserved(tokens) && d < Fresh(tokens[j])
    requires t < |Code(tokens, j)| && Code(tokens, j)[t] == Ins(a) && IsBranch(a, OwnName(tokens, j, d))
    ensures |ds| == |cs| + 1 && ds[0] == cs[0] && Ready(tokens, j, After1(tokens, j, t, a, d, Last(cs).rs), ds)
    ensures Last(ds) == Last(cs).(k := Start(tokens, j) + After1(tokens, j, t, a, d, Last(cs).rs))
  {
    hide Compiled, Code, After, LabelLine, Unreserved, LabelPos;
    OwnLabel(tokens, j, d);
    var u := After1(tokens, j, t, a, d, Last(cs).rs);
    ds := Follow(tokens, j, t, u, cs, Last(cs).(k := Start(tokens, j) + u));
  }

  // ---- Tokens ----

  /** A source state about to execute a token, and the matching line-level state. */
  ghost predicate Poised(tokens: seq<Token>, s: G.State, c: Cfg) {
    && Match(tokens, s, c) && !s.halted && s.at < |tokens|
    && |c.st| <= MaxDepth(Compiled(tokens))
    && G.TokenStep(WorldOf(tokens), tokens, s).Some?
  }

  /** The run `cs` of a token's code ends where the token's meaning says. */
  ghost predicate Simulated(tokens: seq<Token>, s: G.State, c: Cfg, cs: seq<Cfg>) {
    && Poised(tokens, s, c) && Inside(tokens, s.at, cs) && cs[0] == c
    && (|cs| > 1 || tokens[s.at].Label?)
    && Match(tokens, G.TokenStep(WorldOf(tokens), tokens, s).value, Last(cs))
  }

  /** Facts of a poised state that the token lemmas start from. */
  lemma Begin(tokens: seq<Token>, s: G.State, c: Cfg) returns (cs: seq<Cfg>)
    requires Poised(tokens, s, c)
    ensures cs == [c] && Ready(tokens, s.at, 0, cs)
    ensures !c.halted && c.st == s.stack && c.ds == s.draws && c.rs[28] == s.second && |s.vars| == G.VARS
    ensures |c.st| <= MaxDepth(Compiled(tokens)) == WorldOf(tokens).depth
  {
    hide Compiled, Code, After, G.TokenStep;
    CodeLines(tokens, s.at);
    cs := [c];
  }

  /** A run that has reached the end of its code with the token's effect done. */
  lemma Done(tokens: seq<Token>, s: G.State, c: Cfg, cs: seq<Cfg>, d: G.State)
    requires Poised(tokens, s, c) && Ready(tokens, s.at, |Code(tokens, s.at)|, cs) && cs[0] == c
    requires |cs| > 1 || tokens[s.at].Label?
    requires G.TokenStep(WorldOf(tokens), tokens, s) == Some(d) && d.at == s.at + 1 && !d.halted
    requires |d.vars| == G.VARS && Last(cs).st == d.stack && Last(cs).ds == d.draws && Last(cs).rs[28] == d.second
    requires forall i :: 1 <= i <= 26 ==> Last(cs).rs[i] == d.vars[i - 1]
    ensures Simulated(tokens, s, c, cs)
  {
    hide Compiled, Code, After, G.TokenStep, WorldOf, VarsKept;
    CodeLines(tokens, s.at);
  }

  /** Pops two operands, the upper one into r28 and the lower one into r27. */
  lemma PopTwo(tokens: seq<Token>, j: nat, cs0: seq<Cfg>) returns (cs: seq<Cfg>)
    requires j < |tokens| && Ready(tokens, j, 0, cs0) && |cs0| > 0 && |Last(cs0).st| >= 2
    requires |Code(tokens, j)| >= 2 && Code(tokens, j)[0] == Do(POP(R28)) && Code(tokens, j)[1] == Do(POP(R27))
    ensures |cs| > |cs0| && cs[0] == cs0[0] && Ready(tokens, j, 2, cs)
    ensures var st := Last(cs0).st;
            Last(cs) == Last(cs0).(k := Start(tokens, j) + 2, st := st[..|st| - 2],
                                   rs := Last(cs0).rs[28 := st[|st| - 1]][27 := st[|st| - 2]])
  {
    hide Compiled, After, Ready, MaxDepth, Settle, Code;
    cs := Pop(tokens, j, 0, cs0, R28);
    cs := Pop(tokens, j, 1, cs, R27);
    ghost var st := Last(cs0).st;
    assert Below(Below(st)) == st[..|st| - 2];
  }

  lemma NumberCode(tokens: seq<Token>, s: G.State, c: Cfg) returns (cs: seq<Cfg>)
    requires Poised(tokens, s, c) && tokens[s.at].Number?
    ensures Simulated(tokens, s, c, cs)
  {
    hide Compiled, After, Ready, MaxDepth, Settle, Simulated;
    var j := s.at;
    assert Code(tokens, j) == [Do(LDI(R27, tokens[j].n)), Do(PUSH(R27))];
    hide Code;
    cs := Begin(tokens, s, c);
    cs := Ldi(tokens, j, 0, cs, R27, tokens[j].n);
    cs := Push(tokens, j, 1, cs, R27);
    Done(tokens, s, c, cs, G.TokenStep(WorldOf(tokens), tokens, s).value);
  }

  lemma OpMeaning(op: char, a: u32, b: u32)
    requires op in "+-*/"
    ensures AluResult(OpKind(op), a, b) == G.Arith(op, a, b)
  {
  }

  lemma OpCode(tokens: seq<Token>, s: G.State, c: Cfg) returns (cs: seq<Cfg>)
    requires Poised(tokens, s, c) && tokens[s.at].Op? && ValidToken(tokens[s.at])
    ensures Simulated(tokens, s, c, cs)
  {
    hide Compiled, After, Ready, MaxDepth, Settle, Simulated, AluResult, OpKind, G.Arith;
    var j, st := s.at, s.stack;
    var op := tokens[j].op;
    assert Code(tokens, j) == [Do(POP(R28)), Do(POP(R27)), Do(ALU(OpKind(op), R27, R28)), Do(PUSH(R27))];
    hide Code;
    cs := Begin(tokens, s, c);
    cs := PopTwo(tokens, j, cs);
    cs := Alu(tokens, j, 2, cs, OpKind(op), R27, R28);
    cs := Push(tokens, j, 3, cs, R27);
    OpMeaning(op, st[|st| - 2], st[|st| - 1]);
    Done(tokens, s, c, cs, G.TokenStep(WorldOf(tokens), tokens, s).value);
  }

  // ---- Comparisons ----

  /** Comparing CMP's answer with 1 (or with -1) yields zero exactly on greater (or less). */
  lemma CompareTwice(op: char, a: u32, b: u32)
    requires op in "><"
    ensures Compare(Compare(a, b), if op == '>' then 1 else 0xFFFF_FFFF) == 0 <==> G.Truth(op, a, b) == 1
  {
  }

  lemma CompareZero(a: u32, b: u32)
    ensures Compare(a, b) == 0 <==> G.Truth('=', a, b) == 1
  {
  }

  /** What a comparison does to the source state. */
  lemma CmpMeaning(tokens: seq<Token>, s: G.State, c: Cfg)
    requires Poised(tokens, s, c) && tokens[s.at].Cmp?
    ensures |s.vars| == G.VARS && |s.stack| >= 2
    ensures var st, n := s.stack, |s.stack|;
            G.TokenStep(WorldOf(tokens), tokens, s) ==
            Some(s.(at := s.at + 1, stack := st[..n - 2] + [G.Truth(tokens[s.at].op, st[n - 2], st[n - 1])], second := st[n - 1]))
  {
    hide WorldOf, Compiled, After, MaxDepth, Settle, G.Truth;
  }

  /** What a conditional does to it. */
  lemma ConditionalMeaning(tokens: seq<Token>, s: G.State, c: Cfg)
    requires Poised(tokens, s, c) && tokens[s.at].Conditional?
    ensures |s.vars| == G.VARS && |s.stack| >= 3
    ensures var st, n := s.stack, |s.stack|;
            G.TokenStep(WorldOf(tokens), tokens, s) ==
            Some(s.(at := s.at + 1, stack := st[..n - 3] + [if st[n - 3] != 0 then st[n - 2] else st[n - 1]], second := st[n - 1]))
  {
    hide WorldOf, Compiled, After, MaxDepth, Settle;
  }

  lemma EqualCode(tokens: seq<Token>, s: G.State, c: Cfg) returns (cs: seq<Cfg>)
    requires Poised(tokens, s, c) && tokens[s.at] == Cmp('=') && Unreserved(tokens)
    ensures Simulated(tokens, s, c, cs)
  {
    hide Compiled, After, Ready, MaxDepth, Settle, Simulated, Compare, G.Truth, Unreserved, G.TokenStep, WorldOf;
    CmpMeaning(tokens, s, c);
    var j, st := s.at, s.stack;
    ghost var a, b := st[|st| - 2], st[|st| - 1];
    var own := OwnName(tokens, j, 0);
    assert Code(tokens, j) == [Do(POP(R28)), Do(POP(R27)), Do(CMP(R27, R28)), Do(LDI(R27, 1)), Ins(JzL(0, own)),
                               Do(LDI(R27, 0)), Line.Label(own), Do(PUSH(R27))];
    hide Code, OwnName;
    cs := Begin(tokens, s, c);
    cs := PopTwo(tokens, j, cs);
    cs := Cmp3(tokens, j, 2, cs, R27, R28);
    cs := Ldi(tokens, j, 3, cs, R27, 1);
    CompareZero(a, b);
    cs := Branch(tokens, j, 4, cs, JzL(0, own), 0);
    if Compare(a, b) != 0 {
      cs := Ldi(tokens, j, 5, cs, R27, 0);
    }
    PassLabel(tokens, j, 6, cs);
    assert Last(cs).rs[27] == G.Truth('=', a, b) by { TruthIsBit('=', a, b); }
    cs := Push(tokens, j, 7, cs, R27);
    Done(tokens, s, c, cs, G.TokenStep(WorldOf(tokens), tokens, s).value);
  }

  lemma TruthIsBit(op: char, a: u32, b: u32)
    ensures G.Truth(op, a, b) == 0 || G.Truth(op, a, b) == 1
  {
  }

  /** After the two comparisons the branch on r0 is about to be taken exactly when the answer is 1. */
  lemma OrderTest(tokens: seq<Token>, j: nat, cs0: seq<Cfg>) returns (cs: seq<Cfg>)
    requires j < |tokens| && Ready(tokens, j, 0, cs0) && |cs0| > 0 && |Last(cs0).st| >= 2
    requires tokens[j].Cmp? && tokens[j].op in "><"
    ensures |cs| > |cs0| && cs[0] == cs0[0] && Ready(tokens, j, 5, cs)
    ensures var st, n := Last(cs0).st, |Last(cs0).st|;
            && Last(cs).st == st[..n - 2] && Last(cs).ds == Last(cs0).ds && !Last(cs0).halted && !Last(cs).halted
            && Last(cs).rs[28] == st[n - 1]
            && (forall i :: 1 <= i <= 26 ==> Last(cs).rs[i] == Last(cs0).rs[i])
            && (Last(cs).rs[0] == 0 <==> G.Truth(tokens[j].op, st[n - 2], st[n - 1]) == 1)
  {
    hide Compiled, After, Ready, MaxDepth, Settle, Simulated, Compare, G.Truth;
    var op := tokens[j].op;
    var probe: u32 := if op == '>' then 1 else 0xFFFF_FFFF;
    ghost var st := Last(cs0).st;
    var yes, no := OwnName(tokens, j, 0), OwnName(tokens, j, 1);
    assert Code(tokens, j) == [Do(POP(R28)), Do(POP(R27)), Do(CMP(R27, R28)), Do(LDI(R27, probe)), Do(CMP(0, R27)),
                               Ins(JzL(0, yes)), Do(LDI(R27, 0)), Ins(JmpL(no)), Line.Label(yes), Do(LDI(R27, 1)),
                               Line.Label(no), Do(PUSH(R27))];
    hide Code, OwnName;
    cs := PopTwo(tokens, j, cs0);
    cs := Cmp3(tokens, j, 2, cs, R27, R28);
    cs := Ldi(tokens, j, 3, cs, R27, probe);
    cs := Cmp3(tokens, j, 4, cs, 0, R27);
    CompareTwice(op, st[|st| - 2], st[|st| - 1]);
    assert !Last(cs0).halted by { ReadyRuns(tokens, j, 0, cs0); }
  }

  lemma ReadyRuns(tokens: seq<Token>, j: nat, t: nat, cs: seq<Cfg>)
    requires Ready(tokens, j, t, cs)
    ensures |cs| > 0 && !Last(cs).halted
  {
  }

  lemma OrderCode(tokens: seq<Token>, s: G.State, c: Cfg) returns (cs: seq<Cfg>)
    requires Poised(tokens, s, c) && tokens[s.at].Cmp? && tokens[s.at].op in "><" && Unreserved(tokens)
    ensures Simulated(tokens, s, c, cs)
  {
    hide Compiled, After, Ready, MaxDepth, Settle, Simulated, G.Truth, Unreserved, G.TokenStep, WorldOf;
    CmpMeaning(tokens, s, c);
    var j, st, op := s.at, s.stack, tokens[s.at].op;
    var yes, no := OwnName(tokens, j, 0), OwnName(tokens, j, 1);
    assert |Code(tokens, j)| == 12 && Code(tokens, j)[5..] ==
           [Ins(JzL(0, yes)), Do(LDI(R27, 0)), Ins(JmpL(no)), Line.Label(yes), Do(LDI(R27, 1)),
            Line.Label(no), Do(PUSH(R27))];
    hide Code, OwnName;
    cs := Begin(tokens, s, c);
    cs := OrderTest(tokens, j, cs);
    TruthIsBit(op, st[|st| - 2], st[|st| - 1]);
    var yesTaken := Last(cs).rs[0] == 0;
    cs := Branch(tokens, j, 5, cs, JzL(0, yes), 0);
    if yesTaken {
      PassLabel(tokens, j, 8, cs);
      cs := Ldi(tokens, j, 9, cs, R27, 1);
    } else {
      cs := Ldi(tokens, j, 6, cs, R27, 0);
      cs := Branch(tokens, j, 7, cs, JmpL(no), 1);
    }
    PassLabel(tokens, j, 10, cs);
    cs := Push(tokens, j, 11, cs, R27);
    Done(tokens, s, c, cs, G.TokenStep(WorldOf(tokens), tokens, s).value);
  }

  lemma ConditionalCode(tokens: seq<Token>, s: G.State, c: Cfg) returns (cs: seq<Cfg>)
    requires Poised(tokens, s, c) && tokens[s.at].Conditional? && Unreserved(tokens)
    ensures Simulated(tokens, s, c, cs)
  {
    hide Compiled, After, Ready, MaxDepth, Settle, Simulated, Unreserved, G.TokenStep, WorldOf;
    ConditionalMeaning(tokens, s, c);
    var j, st := s.at, s.stack;
    var yes, end := OwnName(tokens, j, 0), OwnName(tokens, j, 1);
    assert Code(tokens, j) == [Do(POP(R28)), Do(POP(R27)), Do(POP(R29)), Ins(JnzL(R29, yes)), Do(PUSH(R28)),
                               Ins(JmpL(end)), Line.Label(yes), Do(PUSH(R27)), Line.Label(end)];
    hide Code, OwnName;
    cs := Begin(tokens, s, c);
    cs := PopTwo(tokens, j, cs);
    cs := Pop(tokens, j, 2, cs, R29);
    cs := Branch(tokens, j, 3, cs, JnzL(R29, yes), 0);
    if st[|st| - 3] != 0 {
      PassLabel(tokens, j, 6, cs);
      cs := Push(tokens, j, 7, cs, R27);
    } else {
      cs := Push(tokens, j, 4, cs, R28);
      cs := Branch(tokens, j, 5, cs, JmpL(end), 1);
    }
    PassLabel(tokens, j, 8, cs);
    assert Below(st[..|st| - 2]) == st[..|st| - 3];
    Done(tokens, s, c, cs, G.TokenStep(WorldOf(tokens), tokens, s).value);
  }

  // ---- Variables, strings and drawing ----

  lemma LoadRegCode(tokens: seq<Token>, s: G.State, c: Cfg) returns (cs: seq<Cfg>)
    requires Poised(tokens, s, c) && tokens[s.at].LoadReg?
    ensures Simulated(tokens, s, c, cs)
  {
    hide Compiled, After, Ready, MaxDepth, Settle, Simulated;
    var j := s.at;
    assert Code(tokens, j) == [Do(PUSH(tokens[j].idx))];
    hide Code;
    cs := Begin(tokens, s, c);
    cs := Push(tokens, j, 0, cs, tokens[j].idx);
    Done(tokens, s, c, cs, G.TokenStep(WorldOf(tokens), tokens, s).value);
  }

  lemma StoreRegCode(tokens: seq<Token>, s: G.State, c: Cfg) returns (cs: seq<Cfg>)
    requires Poised(tokens, s, c) && tokens[s.at].StoreReg?
    ensures Simulated(tokens, s, c, cs)
  {
    hide Compiled, After, Ready, MaxDepth;
    var j, i := s.at, tokens[s.at].idx;
    assert Code(tokens, j) == [Do(POP(i))];
    hide Code;
    cs := Begin(tokens, s, c);
    var d := c.(k := Start(tokens, j) + 1, st := Below(c.st), rs := c.rs[i := Top(c.st)]);
    cs := Finally(tokens, j, 0, cs, d);
  }

  lemma StringLiteralCode(tokens: seq<Token>, s: G.State, c: Cfg) returns (cs: seq<Cfg>)
    requires Poised(tokens, s, c) && tokens[s.at].StringLiteral? && Unreserved(tokens)
    ensures Simulated(tokens, s, c, cs)
  {
    hide Compiled, After, Ready, MaxDepth, Settle, Simulated, Unreserved, TextOffset;
    var j := s.at;
    var i := |After(tokens, j).strings|;
    assert Code(tokens, j) == [Ins(LdiL(R27, StrName(i))), Do(PUSH(R27))];
    StringNumber(tokens, j);
    StringLine(tokens, j);
    hide Code, StrName, LabelLine;
    cs := Begin(tokens, s, c);
    cs := Follow(tokens, j, 0, 1, cs, c.(k := Start(tokens, j) + 1, rs := c.rs[27 := TextOffset(tokens, i)]));
    cs := Push(tokens, j, 1, cs, R27);
    Done(tokens, s, c, cs, G.TokenStep(WorldOf(tokens), tokens, s).value);
  }

  lemma {:induction false} StringNumber(tokens: seq<Token>, j: nat)
    requires j <= |tokens|
    ensures G.StringIndex(tokens, j) == |After(tokens, j).strings|
  {
    hide Block;
    if j > 0 {
      StringNumber(tokens, j - 1);
    }
  }

  lemma StringLine(tokens: seq<Token>, j: nat)
    requires Unreserved(tokens) && j < |tokens| && tokens[j].StringLiteral?
    ensures var i := |After(tokens, j).strings|;
            i < |StringsOf(tokens)| && LabelLine(Compiled(tokens), StrName(i)).Some?
            && Wrap(Offset(Compiled(tokens), LabelLine(Compiled(tokens), StrName(i)).value)) == TextOffset(tokens, i)
  {
    hide After, Unreserved, Compiled, Offset, StrName, Target, StringBase, ParseImm;
    var i := |After(tokens, j).strings|;
    StringOfToken(tokens, j);
    StringTarget(tokens, i);
    GeneratedKey(StrName(i), i);
  }

  lemma OutputCode(tokens: seq<Token>, s: G.State, c: Cfg) returns (cs: seq<Cfg>)
    requires Poised(tokens, s, c) && tokens[s.at].Output?
    ensures Simulated(tokens, s, c, cs)
  {
    hide Compiled, After, Ready, MaxDepth, Settle, Simulated;
    var j, st := s.at, s.stack;
    assert Code(tokens, j) == [Do(POP(R27)), Do(PSET(R27, R28, R27))];
    hide Code;
    cs := Begin(tokens, s, c);
    cs := Pop(tokens, j, 0, cs, R27);
    cs := Draw(tokens, j, 1, cs, PSET(R27, R28, R27), Pset(Top(st), s.second, Top(st)));
    Done(tokens, s, c, cs, G.TokenStep(WorldOf(tokens), tokens, s).value);
  }

  lemma FillCode(tokens: seq<Token>, s: G.State, c: Cfg) returns (cs: seq<Cfg>)
    requires Poised(tokens, s, c) && tokens[s.at].Fill?
    ensures Simulated(tokens, s, c, cs)
  {
    hide Compiled, After, Ready, MaxDepth, Settle, Simulated;
    var j := s.at;
    assert Code(tokens, j) == [Do(POP(R27)), Do(FILL(R27))];
    hide Code;
    cs := Begin(tokens, s, c);
    cs := Pop(tokens, j, 0, cs, R27);
    cs := Draw(tokens, j, 1, cs, FILL(R27), Event.Fill(Top(s.stack)));
    Done(tokens, s, c, cs, G.TokenStep(WorldOf(tokens), tokens, s).value);
  }

  lemma FrameCode(tokens: seq<Token>, s: G.State, c: Cfg) returns (cs: seq<Cfg>)
    requires Poised(tokens, s, c) && tokens[s.at].Frame?
    ensures Simulated(tokens, s, c, cs)
  {
    hide Compiled, After, Ready, MaxDepth, Settle, Simulated;
    var j := s.at;
    assert Code(tokens, j) == [Do(FRAME)];
    hide Code;
    cs := Begin(tokens, s, c);
    cs := Draw(tokens, j, 0, cs, FRAME, Event.Frame);
    Done(tokens, s, c, cs, G.TokenStep(WorldOf(tokens), tokens, s).value);
  }

  /** Pops five operands into r29 down to r25. */
  lemma PopFive(tokens: seq<Token>, j: nat, cs0: seq<Cfg>) returns (cs: seq<Cfg>)
    requires j < |tokens| && (tokens[j].Rectf? || tokens[j].DrawText?) && Ready(tokens, j, 0, cs0) && |cs0| > 0
    requires |Last(cs0).st| >= 5
    ensures |cs| > |cs0| && cs[0] == cs0[0] && Ready(tokens, j, 5, cs)
    ensures var st, rs := Last(cs0).st, Last(cs0).rs;
            var n := |st|;
            Last(cs) == Last(cs0).(k := Start(tokens, j) + 5, st := st[..n - 5],
                                   rs := rs[29 := st[n - 1]][28 := st[n - 2]][27 := st[n - 3]][26 := st[n - 4]][25 := st[n - 5]])
  {
    hide Compiled, After, Ready, MaxDepth, Settle, Simulated;
    var last := if tokens[j].Rectf? then RECTF(R25, R26, R27, R28, R29) else DRAWTEXT(R25, R26, R27, R28, R29);
    assert Code(tokens, j) == [Do(POP(R29)), Do(POP(R28)), Do(POP(R27)), Do(POP(R26)), Do(POP(R25)), Do(last)];
    hide Code;
    ghost var st, n := Last(cs0).st, |Last(cs0).st|;
    cs := Pop(tokens, j, 0, cs0, R29);
    assert Last(cs).st == st[..n - 1];
    cs := Pop(tokens, j, 1, cs, R28);
    assert Last(cs).st == st[..n - 2];
    cs := Pop(tokens, j, 2, cs, R27);
    assert Last(cs).st == st[..n - 3];
    cs := Pop(tokens, j, 3, cs, R26);
    assert Last(cs).st == st[..n - 4];
    cs := Pop(tokens, j, 4, cs, R25);
    assert Last(cs).st == st[..n - 5];
  }

  lemma FiveOperandCode(tokens: seq<Token>, s: G.State, c: Cfg) returns (cs: seq<Cfg>)
    requires Poised(tokens, s, c) && (tokens[s.at].Rectf? || tokens[s.at].DrawText?)
    ensures Simulated(tokens, s, c, cs)
  {
    hide Compiled, After, Ready, MaxDepth, Settle, Simulated;
    var j, st, n := s.at, s.stack, |s.stack|;
    cs := Begin(tokens, s, c);
    cs := PopFive(tokens, j, cs);
    if tokens[j].Rectf? {
      assert Code(tokens, j)[5] == Do(RECTF(R25, R26, R27, R28, R29));
      cs := Draw(tokens, j, 5, cs, RECTF(R25, R26, R27, R28, R29),
                 Event.Rectf(st[n - 5], st[n - 4], st[n - 3], st[n - 2], st[n - 1]));
    } else {
      assert Code(tokens, j)[5] == Do(DRAWTEXT(R25, R26, R27, R28, R29));
      cs := Draw(tokens, j, 5, cs, DRAWTEXT(R25, R26, R27, R28, R29),
                 Event.DrawText(st[n - 5], st[n - 4], st[n - 3], st[n - 2], st[n - 1]));
    }
    assert |Code(tokens, j)| == 6;
    Done(tokens, s, c, cs, G.TokenStep(WorldOf(tokens), tokens, s).value);
  }

  // ---- Control ----

  lemma HaltCode(tokens: seq<Token>, s: G.State, c: Cfg) returns (cs: seq<Cfg>)
    requires Poised(tokens, s, c) && tokens[s.at].Halt?
    ensures Simulated(tokens, s, c, cs)
  {
    hide Compiled, After, Ready, MaxDepth;
    var j := s.at;
    assert Code(tokens, j) == [Do(HALT)];
    hide Code;
    cs := Begin(tokens, s, c);
    cs := Finally(tokens, j, 0, cs, c.(k := Start(tokens, j) + 1, halted := true));
  }

  lemma LabelCode(tokens: seq<Token>, s: G.State, c: Cfg) returns (cs: seq<Cfg>)
    requires Poised(tokens, s, c) && tokens[s.at].Label?
    ensures Simulated(tokens, s, c, cs)
  {
    hide Compiled, After, Ready, MaxDepth, Settle, Simulated;
    assert Code(tokens, s.at) == [Line.Label(tokens[s.at].name)];
    hide Code;
    cs := Begin(tokens, s, c);
    PassLabel(tokens, s.at, 0, cs);
    Done(tokens, s, c, cs, G.TokenStep(WorldOf(tokens), tokens, s).value);
  }

  /** A user jump goes to the code of the label the source means. */
  lemma UserLabelLine(tokens: seq<Token>, j: nat)
    requires Unreserved(tokens) && j < |tokens| && (tokens[j].Jump? || tokens[j].Jz? || tokens[j].Jnz?)
    ensures match G.JumpTo(tokens, tokens[j].name)
            case Some(i) => i < |tokens| && LabelLine(Compiled(tokens), tokens[j].name) == Some(Start(tokens, i))
            case None => true
  {
    hide Compiled, After, Unreserved, UserName;
    UserNameOf(tokens, j);
    UserTarget(tokens, tokens[j].name);
  }

  lemma JumpCode(tokens: seq<Token>, s: G.State, c: Cfg) returns (cs: seq<Cfg>)
    requires Poised(tokens, s, c) && tokens[s.at].Jump? && Unreserved(tokens)
    ensures Simulated(tokens, s, c, cs)
  {
    hide Compiled, After, Ready, MaxDepth, LabelLine, G.JumpTo, Unreserved;
    var j, name := s.at, tokens[s.at].name;
    assert Code(tokens, j) == [Ins(JmpL(name))];
    hide Code;
    UserLabelLine(tokens, j);
    cs := Begin(tokens, s, c);
    cs := Finally(tokens, j, 0, cs, c.(k := LabelLine(Compiled(tokens), name).value));
  }

  lemma BranchCode(tokens: seq<Token>, s: G.State, c: Cfg) returns (cs: seq<Cfg>)
    requires Poised(tokens, s, c) && (tokens[s.at].Jz? || tokens[s.at].Jnz?) && Unreserved(tokens)
    ensures Simulated(tokens, s, c, cs)
  {
    hide Compiled, After, Ready, MaxDepth, LabelLine, G.JumpTo, Unreserved;
    var j, tok, name := s.at, tokens[s.at], tokens[s.at].name;
    var a := if tok.Jz? then JzL(R27, name) else JnzL(R27, name);
    assert Code(tokens, j) == [Do(POP(R27)), Ins(a)];
    hide Code;
    UserLabelLine(tokens, j);
    cs := Begin(tokens, s, c);
    cs := Pop(tokens, j, 0, cs, R27);
    var go := if tok.Jz? then Top(c.st) == 0 else Top(c.st) != 0;
    cs := Finally(tokens, j, 1, cs,
                  Last(cs).(k := if go then LabelLine(Compiled(tokens), name).value else Start(tokens, j) + 2));
  }

  // ---- The loop token ----

  /** One turn either goes back for the rest of the range or was the last. */
  lemma LoopTurn(v: u32, e: u32)
    ensures var v' := Wrap(v + 1);
            && (Compare(v', e) == 0xFFFF_FFFF <==> G.LoopCount(v, e) > 1)
            && (G.LoopCount(v, e) > 1 ==> G.LoopCount(v, e) == 1 + G.LoopCount(v', e))
  {
  }

  lemma LoopDrawsUnfold(v: u32, e: u32, n: nat)
    requires n > 0
    ensures G.LoopDraws(v, e, n) == [Pset(v, e, 0x00FF00)] + G.LoopDraws(Wrap(v + 1), e, n - 1)
  {
    var d, r := G.LoopDraws(v, e, n), [Pset(v, e, 0x00FF00)] + G.LoopDraws(Wrap(v + 1), e, n - 1);
    forall i | 0 <= i < n ensures d[i] == r[i] {
      if i == 0 {
        assert Wrap(v + 0) == v;
      } else {
        assert r[i] == Pset(Wrap(Wrap(v + 1) + (i - 1)), e, 0x00FF00);
        WrapShift(v + 1, i - 1);
      }
    }
  }

  lemma WrapShift(x: int, y: int)
    ensures Wrap(Wrap(x) + y) == Wrap(x + y)
  {
    assert x == TWO_32 * (x / TWO_32) + Wrap(x);
  }

  lemma LoopLines(tokens: seq<Token>, j: nat)
    requires j < |tokens| && tokens[j].Loop?
    ensures Code(tokens, j) ==
            [Do(POP(R28)), Do(POP(R27)), Line.Label(OwnName(tokens, j, 0)), Do(PUSH(R27)), Do(POP(R29)), Do(LDI(R25, 0x00FF00)),
             Do(PSET(R29, R28, R25)), Do(LDI(R26, 1)), Do(ALU(ADD, R27, R26)), Do(CMP(R27, R28)),
             Ins(BltL(0, OwnName(tokens, j, 0))), Line.Label(OwnName(tokens, j, 1))]
  {
    hide After;
  }

  function LoopRegs(rs: Regs, v: u32, e: u32): Regs {
    rs[29 := v][25 := 0x00FF00][26 := 1][27 := Wrap(v + 1)][0 := Compare(Wrap(v + 1), e)]
  }

  /** The body of the loop, up to its backward branch. */
  lemma LoopBody(tokens: seq<Token>, j: nat, cs0: seq<Cfg>) returns (cs: seq<Cfg>)
    requires j < |tokens| && tokens[j].Loop? && Ready(tokens, j, 3, cs0) && |cs0| > 0
    requires |Last(cs0).st| < MaxDepth(Compiled(tokens))
    ensures |cs| > |cs0| && cs[0] == cs0[0] && Ready(tokens, j, 10, cs)
    ensures var rs := Last(cs0).rs;
            var v, e := rs[27], rs[28];
            Last(cs) == Last(cs0).(k := Start(tokens, j) + 10, ds := Last(cs0).ds + [Pset(v, e, 0x00FF00)],
                                   rs := LoopRegs(rs, v, e))
  {
    hide Compiled, After, Ready, MaxDepth, Settle, Compare;
    LoopLines(tokens, j);
    hide Code, OwnName;
    ghost var v: u32, e: u32 := Last(cs0).rs[27], Last(cs0).rs[28];
    cs := Push(tokens, j, 3, cs0, R27);
    cs := Pop(tokens, j, 4, cs, R29);
    assert Last(cs).st == Last(cs0).st;
    cs := Ldi(tokens, j, 5, cs, R25, 0x00FF00);
    cs := Draw(tokens, j, 6, cs, PSET(R29, R28, R25), Pset(v, e, 0x00FF00));
    cs := Ldi(tokens, j, 7, cs, R26, 1);
    cs := Alu(tokens, j, 8, cs, ADD, R27, R26);
    cs := Cmp3(tokens, j, 9, cs, R27, R28);
  }

  /** From the loop head, the code draws the rest of the range and leaves the loop. */
  lemma {:induction false} LoopRun(tokens: seq<Token>, j: nat, cs0: seq<Cfg>) returns (cs: seq<Cfg>)
    requires j < |tokens| && tokens[j].Loop? && Ready(tokens, j, 3, cs0) && |cs0| > 0 && Unreserved(tokens)
    requires |Last(cs0).st| < MaxDepth(Compiled(tokens))
    ensures |cs| > |cs0| && cs[0] == cs0[0] && Ready(tokens, j, 12, cs)
    ensures var c, d := Last(cs0), Last(cs);
            var v, e := c.rs[27], c.rs[28];
            && d.st == c.st && d.halted == c.halted && d.ds == c.ds + G.LoopDraws(v, e, G.LoopCount(v, e))
            && (forall i :: 1 <= i <= 24 ==> d.rs[i] == c.rs[i])
            && d.rs[25] == 0x00FF00 && d.rs[26] == 1 && d.rs[28] == e
    decreases G.LoopCount(Last(cs0).rs[27], Last(cs0).rs[28])
  {
    hide Compiled, After, Ready, MaxDepth, Settle, Compare, Unreserved, G.LoopCount, G.LoopDraws;
    LoopLines(tokens, j);
    hide Code, OwnName;
    ghost var v: u32, e: u32 := Last(cs0).rs[27], Last(cs0).rs[28];
    ghost var n := G.LoopCount(v, e);
    cs := LoopBody(tokens, j, cs0);
    cs := Branch(tokens, j, 10, cs, BltL(0, OwnName(tokens, j, 0)), 0);
    LoopTurn(v, e);
    LoopDrawsUnfold(v, e, n);
    if n > 1 {
      PassLabel(tokens, j, 2, cs);
      cs := LoopRun(tokens, j, cs);
    } else {
      PassLabel(tokens, j, 11, cs);
      LoopDrawsNone(Wrap(v + 1), e);
    }
  }

  lemma LoopDrawsNone(v: u32, e: u32)
    ensures G.LoopDraws(v, e, 0) == []
  {
  }

  lemma LoopCode(tokens: seq<Token>, s: G.State, c: Cfg) returns (cs: seq<Cfg>)
    requires Poised(tokens, s, c) && tokens[s.at].Loop? && Unreserved(tokens)
    ensures Simulated(tokens, s, c, cs)
  {
    hide Compiled, After, Ready, MaxDepth, Settle, Simulated, Unreserved, G.LoopCount, G.LoopDraws;
    var j := s.at;
    LoopLines(tokens, j);
    hide Code, OwnName;
    cs := Begin(tokens, s, c);
    cs := PopTwo(tokens, j, cs);
    PassLabel(tokens, j, 2, cs);
    cs := LoopRun(tokens, j, cs);
    Done(tokens, s, c, cs, G.TokenStep(WorldOf(tokens), tokens, s).value);
  }

  /** Every token this model covers is simulated by its code. */
  lemma TokenCode(tokens: seq<Token>, s: G.State, c: Cfg) returns (cs: seq<Cfg>)
    requires Poised(tokens, s, c) && Valid(tokens) && Unreserved(tokens)
    ensures Simulated(tokens, s, c, cs)
  {
    hide Poised, Simulated, Compiled, Unreserved, MaxDepth;
    assert s.at < |tokens| by { PoisedAt(tokens, s, c); }
    var tok := tokens[s.at];
    match tok {
      case Number(_) => cs := NumberCode(tokens, s, c);
      case Op(_) => cs := OpCode(tokens, s, c);
      case Cmp(op) =>
        if op == '=' { cs := EqualCode(tokens, s, c); } else { cs := OrderCode(tokens, s, c); }
      case Conditional => cs := ConditionalCode(tokens, s, c);
      case Loop => cs := LoopCode(tokens, s, c);
      case Output => cs := OutputCode(tokens, s, c);
      case Halt => cs := HaltCode(tokens, s, c);
      case StoreReg(_) => cs := StoreRegCode(tokens, s, c);
      case LoadReg(_) => cs := LoadRegCode(tokens, s, c);
      case StringLiteral(_) => cs := StringLiteralCode(tokens, s, c);
      case Rectf => cs := FiveOperandCode(tokens, s, c);
      case DrawText => cs := FiveOperandCode(tokens, s, c);
      case Frame => cs := FrameCode(tokens, s, c);
      case Fill => cs := FillCode(tokens, s, c);
      case Label(_) => cs := LabelCode(tokens, s, c);
      case Jump(_) => cs := JumpCode(tokens, s, c);
      case Jz(_) => cs := BranchCode(tokens, s, c);
      case Jnz(_) => cs := BranchCode(tokens, s, c);
      case _ => cs := []; PoisedAt(tokens, s, c);
    }
  }

  lemma PoisedAt(tokens: seq<Token>, s: G.State, c: Cfg)
    requires Poised(tokens, s, c)
    ensures s.at < |tokens|
    ensures var t := tokens[s.at]; !t.Spawn? && !t.Mutate? && !t.Ikey? && !t.Ls? && !t.Exec?
  {
    hide Compiled, After, MaxDepth, Settle;
  }
}
