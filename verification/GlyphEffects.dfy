/** The tokens whose effect lies outside this model: how they hand their operands over, and how the
    program goes on with the answer. */
module GlyphEffects {
  import opened Words
  import opened GlyphVm
  import opened Assembler
  import opened GlyphCompiler
  import opened GlyphLabels
  import opened LineMachine
  import opened GlyphSim
  import opened GlyphRuns
  import G = GlyphSource

  predicate IsEffect(t: Token) {
    t.Mutate? || t.Spawn? || t.Ikey? || t.Ls? || t.Exec?
  }

  /** How many operands the token takes off the stack. */
  function Needs(t: Token): nat {
    if t.Mutate? then 2 else if t.Ikey? then 0 else 1
  }

  /** The instruction that does the work: `M` stores register 28 at the address in register 27, the
      system calls take register 27. */
  function Effect(t: Token): Instr
    requires IsEffect(t)
  {
    match t
    case Mutate => STORE(27, 28)
    case Spawn => SYS(SPAWN, 27)
    case Ikey => SYS(IKEY, 27)
    case Ls => SYS(LS, 27)
    case Exec => SYS(EXEC, 27)
  }

  /** The register whose value the token pushes afterwards, if it pushes one. */
  function Answer(t: Token): Option<nat> {
    if t.Ls? then Some(0) else if t.Spawn? || t.Ikey? then Some(27) else None
  }

  lemma EffectCode(tokens: seq<Token>, j: nat)
    requires j < |tokens| && IsEffect(tokens[j])
    ensures var t, code := tokens[j], Code(tokens, j);
            && |code| == Needs(t) + 1 + (if Answer(t).Some? then 1 else 0)
            && (Needs(t) > 0 ==> code[0] == Do(POP(27))) && (Needs(t) > 1 ==> code[1] == Do(POP(28)))
            && code[Needs(t)] == Do(Effect(t))
            && (Answer(t).Some? ==> code[Needs(t) + 1] == Do(PUSH(Answer(t).value)))
  {
    hide After;
  }

  /** The line-level state in which the operands have been taken and the effect comes next. */
  ghost predicate HandedOver(tokens: seq<Token>, s: G.State, c: Cfg)
    requires s.at < |tokens| && IsEffect(tokens[s.at])
  {
    var n, p := |s.stack|, Needs(tokens[s.at]);
    && n >= p && |s.vars| == G.VARS && c.st == s.stack[..n - p] && c.ds == s.draws && !c.halted
    && (forall i :: 1 <= i <= 26 ==> c.rs[i] == s.vars[i - 1])
    && (p > 0 ==> c.rs[27] == s.stack[n - 1]) && (p > 1 ==> c.rs[28] == s.stack[n - 2])
  }

  lemma ReadyAt(tokens: seq<Token>, s: G.State, c: Cfg)
    requires Match(tokens, s, c) && !s.halted && s.at < |tokens|
    ensures Ready(tokens, s.at, 0, [c])
  {
    hide Compiled, Code, After;
    CodeLines(tokens, s.at);
  }

  /** The operands are popped, the top one into register 27 and the one below into register 28. */
  lemma HandOver(tokens: seq<Token>, s: G.State, c: Cfg) returns (cs: seq<Cfg>)
    requires Match(tokens, s, c) && !s.halted && s.at < |tokens| && IsEffect(tokens[s.at])
    requires |s.stack| >= Needs(tokens[s.at])
    ensures |cs| > 0 && cs[0] == c && Ready(tokens, s.at, Needs(tokens[s.at]), cs) && HandedOver(tokens, s, Last(cs))
  {
    hide Compiled, After, Ready, MaxDepth, Settle, Code;
    var j, st := s.at, s.stack;
    EffectCode(tokens, j);
    ReadyAt(tokens, s, c);
    cs := [c];
    if Needs(tokens[j]) > 0 {
      cs := Pop(tokens, j, 0, cs, R27);
    }
    if Needs(tokens[j]) > 1 {
      cs := Pop(tokens, j, 1, cs, R28);
      assert Below(Below(st)) == st[..|st| - 2];
    }
  }

  /** The machine that decodes the effect, at the line that follows the pops. */
  lemma EffectFetched(tokens: seq<Token>, j: nat, v: Vm, cs: seq<Cfg>)
    requires j < |tokens| && IsEffect(tokens[j]) && Ready(tokens, j, Needs(tokens[j]), cs)
    requires Conf(Compiled(tokens), v, Last(cs))
    ensures v.status == Running && Decode(v.ram, v.pc) == Effect(tokens[j])
    ensures Start(tokens, j) + Needs(tokens[j]) + 1 <= |Compiled(tokens)|
    ensures v.pc + Size(Effect(tokens[j])) == Offset(Compiled(tokens), Start(tokens, j) + Needs(tokens[j]) + 1)
  {
    hide Compiled, Code, After, Offset, Loaded, Inside, Decode;
    var lines, k := Compiled(tokens), Start(tokens, j) + Needs(tokens[j]);
    EffectCode(tokens, j);
    CodeLines(tokens, j);
    assert lines[k] == Do(Effect(tokens[j]));
    FetchAt(v.ram, lines, k);
  }

  /** Whenever the source program is at such a token with its operands on the stack, the machine comes to
      execute the token's instruction with them in registers 27 and 28 and the rest of its state as the
      source's. */
  lemma EffectReached(tokens: seq<Token>, n: nat) returns (m: nat, c: Cfg)
    requires Runnable(tokens) && Source(tokens, n).Some?
    requires var s := Source(tokens, n).value;
             !s.halted && s.at < |tokens| && IsEffect(tokens[s.at]) && |s.stack| >= Needs(tokens[s.at])
    ensures var s, v := Source(tokens, n).value, Machine(tokens, m);
            var t, k := tokens[s.at], Start(tokens, s.at) + Needs(tokens[s.at]) + 1;
            && v.status == Running && Decode(v.ram, v.pc) == Effect(t)
            && k <= |Compiled(tokens)| && v.pc + Size(Effect(t)) == Offset(Compiled(tokens), k)
            && (Needs(t) > 0 ==> v.regs[27] == s.stack[|s.stack| - 1])
            && (Needs(t) > 1 ==> v.regs[28] == s.stack[|s.stack| - 2])
            && Conf(Compiled(tokens), v, c) && HandedOver(tokens, s, c)
  {
    hide Runnable, Conf, Match, HandedOver, Compiled, Machine, Source, Ready, Code, After, Decode;
    var s := Source(tokens, n).value;
    m, c := Reaches(tokens, n);
    var cs := HandOver(tokens, s, c);
    var v := Machine(tokens, m);
    assert Trail(Compiled(tokens), cs) by { ReadyTrail(tokens, s.at, Needs(tokens[s.at]), cs); }
    TrailRuns(Compiled(tokens), v, cs, |cs| - 1);
    MachineAdd(tokens, m, |cs| - 1);
    m, c := m + (|cs| - 1), Last(cs);
    EffectFetched(tokens, s.at, Machine(tokens, m), cs);
    OperandRegisters(tokens, s, Machine(tokens, m), c);
  }

  lemma ReadyTrail(tokens: seq<Token>, j: nat, t: nat, cs: seq<Cfg>)
    requires Ready(tokens, j, t, cs)
    ensures Trail(Compiled(tokens), cs)
  {
    hide Compiled, Code, After, Trail;
  }

  lemma OperandRegisters(tokens: seq<Token>, s: G.State, v: Vm, c: Cfg)
    requires s.at < |tokens| && IsEffect(tokens[s.at]) && Conf(Compiled(tokens), v, c) && HandedOver(tokens, s, c)
    ensures Needs(tokens[s.at]) > 0 ==> v.regs[27] == s.stack[|s.stack| - 1]
    ensures Needs(tokens[s.at]) > 1 ==> v.regs[28] == s.stack[|s.stack| - 2]
  {
    hide Compiled, Loaded;
    assert v.regs[27] == v.regs[..USER_REGS][27] && v.regs[28] == v.regs[..USER_REGS][28];
  }

  // ---- Going on ----

  lemma EffectEnds(tokens: seq<Token>, j: nat)
    requires j < |tokens| && IsEffect(tokens[j])
    ensures var k := Start(tokens, j) + Needs(tokens[j]) + 1;
            && k <= Start(tokens, j + 1) <= |Compiled(tokens)|
            && (Answer(tokens[j]).None? ==> k == Start(tokens, j + 1))
            && (Answer(tokens[j]).Some? ==> k + 1 == Start(tokens, j + 1) && Compiled(tokens)[k] == Do(PUSH(Answer(tokens[j]).value)))
  {
    hide Compiled, Code, After;
    EffectCode(tokens, j);
    CodeLines(tokens, j);
  }

  lemma PushStep(lines: seq<Line>, d: Cfg, r: u32)
    requires d.k < |lines| && lines[d.k] == Do(PUSH(r)) && r < USER_REGS && !d.halted && |d.st| < MaxDepth(lines)
    ensures LineStep(lines, d) == Some(d.(k := d.k + 1, st := d.st + [d.rs[r]]))
  {
    hide MaxDepth;
  }

  lemma RelFrom(tokens: seq<Token>, s: G.State, v: Vm, c: Cfg)
    requires s.at <= |tokens| && !s.halted && |s.vars| == G.VARS && Conf(Compiled(tokens), v, c)
    requires Start(tokens, s.at) <= |Compiled(tokens)| && c.k == Start(tokens, s.at)
    requires c.st == s.stack && c.ds == s.draws && !c.halted && forall i :: 1 <= i <= 26 ==> c.rs[i] == s.vars[i - 1]
    ensures Rel(tokens, s, v)
  {
    hide Compiled, After, Loaded;
    RelOf(tokens, s.(second := c.rs[28]), v, c);
  }

  /** When a system call has left its answer in the token's register and nothing else has changed, the next
      cycle pushes the answer and the machine is at the next token. */
  lemma Answered(tokens: seq<Token>, s: G.State, v: Vm, c: Cfg, x: u32)
    requires Runnable(tokens) && s.at < |tokens| && IsEffect(tokens[s.at]) && Answer(tokens[s.at]).Some?
    requires Conf(Compiled(tokens), v, c) && HandedOver(tokens, s, c) && |c.st| < MaxDepth(Compiled(tokens))
    requires Start(tokens, s.at) + Needs(tokens[s.at]) + 1 <= |Compiled(tokens)|
    ensures var next := Offset(Compiled(tokens), Start(tokens, s.at) + Needs(tokens[s.at]) + 1);
            var w := v.(pc := next, regs := v.regs[Answer(tokens[s.at]).value := x]);
            Rel(tokens, s.(at := s.at + 1, stack := c.st + [x], halted := false), Step(w))
  {
    hide Compiled, After, Code, Offset, Loaded, Step, Conf, LineStep, Rel, Runnable, MaxDepth;
    var lines, t := Compiled(tokens), tokens[s.at];
    var k, r := Start(tokens, s.at) + Needs(t) + 1, Answer(t).value;
    EffectEnds(tokens, s.at);
    ConfMove(lines, v, c, k);
    var d := c.(k := k, rs := c.rs[r := x]);
    ConfSet(lines, v.(pc := Offset(lines, k)), c.(k := k), r, x);
    var w := v.(pc := Offset(lines, k), regs := v.regs[r := x]);
    PushStep(lines, d, r);
    StepRefines(lines, w, d);
    RelFrom(tokens, s.(at := s.at + 1, stack := c.st + [x], halted := false), Step(w), d.(k := k + 1, st := d.st + [x]));
  }

  lemma ConfStore(lines: seq<Line>, v: Vm, c: Cfg, a: nat, x: u32)
    requires Conf(lines, v, c) && STACK_TOP <= a < RAM_SIZE && CodeSize(lines) < STACK_TOP
    ensures Conf(lines, v.(ram := v.ram[a := x]), c)
  {
    hide Loaded, Offset;
    PushKeepsCode(lines, v.ram, a, x);
  }

  /** When a store has put the lower operand at the address the upper one gives, above the stack, and nothing
      else has changed, the machine is at the next token with both operands gone. */
  lemma Stored(tokens: seq<Token>, s: G.State, v: Vm, c: Cfg)
    requires Runnable(tokens) && s.at < |tokens| && tokens[s.at].Mutate?
    requires Conf(Compiled(tokens), v, c) && HandedOver(tokens, s, c)
    requires STACK_TOP <= s.stack[|s.stack| - 1] < RAM_SIZE && Start(tokens, s.at + 1) <= |Compiled(tokens)|
    ensures var n := |s.stack|;
            var w := v.(pc := Offset(Compiled(tokens), Start(tokens, s.at + 1)),
                        ram := v.ram[s.stack[n - 1] := s.stack[n - 2]]);
            Rel(tokens, s.(at := s.at + 1, stack := s.stack[..n - 2], halted := false), w)
  {
    hide Compiled, After, Code, Offset, Loaded, Conf, Rel, Runnable, CodeSize;
    var lines, n, k := Compiled(tokens), |s.stack|, Start(tokens, s.at + 1);
    assert CodeSize(lines) < STACK_TOP by { CodeFits(tokens); }
    ConfMove(lines, v, c, k);
    var w := v.(pc := Offset(lines, k));
    ConfStore(lines, w, c.(k := k), s.stack[n - 1], s.stack[n - 2]);
    RelFrom(tokens, s.(at := s.at + 1, stack := s.stack[..n - 2], halted := false), w.(ram := v.ram[s.stack[n - 1] := s.stack[n - 2]]), c.(k := k));
  }

  lemma CodeFits(tokens: seq<Token>)
    requires Runnable(tokens)
    ensures CodeSize(Compiled(tokens)) < STACK_TOP
  {
    hide Compiled, Unreserved, AllOk, Offset;
  }
}
