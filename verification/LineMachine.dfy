/** The machine seen through the assembly text: a line number for the pc and a sequence for the
    memory stack. The real machine, running the assembled words, refines it step for step. */
module LineMachine {
  import opened Words
  import opened GlyphVm
  import opened Assembler

  const STACK_TOP: nat := 0x8000
  const USER_REGS: nat := 30

  type Regs = rs: seq<u32> | |rs| == USER_REGS
    witness seq(USER_REGS, _ => 0)

  /** Line, stack (top last), registers r0..r29, drawing log. */
  datatype Cfg = Cfg(k: nat, st: seq<u32>, rs: Regs, ds: seq<Event>, halted: bool)

  function CodeSize(lines: seq<Line>): nat {
    Offset(lines, |lines|)
  }

  /** How deep the stack may grow and still leave one zero word after the program. */
  function MaxDepth(lines: seq<Line>): int {
    STACK_TOP - CodeSize(lines) - 1
  }

  /** The first line from `k` on that is not a label. */
  function Settle(lines: seq<Line>, k: nat): (r: nat)
    requires k <= |lines|
    ensures k <= r <= |lines| && (r < |lines| ==> !lines[r].Label?)
    ensures Offset(lines, r) == Offset(lines, k)
    decreases |lines| - k
  {
    if k < |lines| && lines[k].Label? then Settle(lines, k + 1) else k
  }

  function LabelLine(lines: seq<Line>, name: string): (r: Option<nat>)
    ensures r.Some? ==> r.value < |lines|
  {
    if name != "" && ParseImm(name) == None then LastLabel(lines, Lower(name)) else None
  }

  function Goto(lines: seq<Line>, c: Cfg, name: string): Option<Cfg> {
    match LabelLine(lines, name)
    case Some(k) => Some(c.(k := k))
    case None => None
  }

  function Top(st: seq<u32>): u32
    requires st != []
  {
    st[|st| - 1]
  }

  function Below(st: seq<u32>): seq<u32>
    requires st != []
  {
    st[..|st| - 1]
  }

  predicate UserRegs(i: Instr) {
    match i
    case LDI(rd, _) => rd < USER_REGS
    case ALU(_, rd, rs) => rd < USER_REGS && rs < USER_REGS
    case PSET(x, y, c) => x < USER_REGS && y < USER_REGS && c < USER_REGS
    case FILL(c) => c < USER_REGS
    case RECTF(x, y, w, h, c) => x < USER_REGS && y < USER_REGS && w < USER_REGS && h < USER_REGS && c < USER_REGS
    case CMP(rd, rs) => rd < USER_REGS && rs < USER_REGS
    case PUSH(r) => r < USER_REGS
    case POP(r) => r < USER_REGS
    case DRAWTEXT(x, y, a, f, b) => x < USER_REGS && y < USER_REGS && a < USER_REGS && f < USER_REGS && b < USER_REGS
    case HALT => true
    case FRAME => true
    case _ => false
  }

  function PlainStep(room: int, c: Cfg, i: Instr): Option<Cfg>
  {
    var rs := c.rs;
    if !UserRegs(i) then None
    else match i
    case HALT => Some(c.(halted := true))
    case FRAME => Some(c.(ds := c.ds + [Frame]))
    case LDI(rd, imm) => Some(c.(rs := rs[rd := imm]))
    case ALU(kind, rd, r) => Some(c.(rs := rs[rd := AluResult(kind, rs[rd], rs[r])]))
    case PSET(x, y, p) => Some(c.(ds := c.ds + [Pset(rs[x], rs[y], rs[p])]))
    case FILL(p) => Some(c.(ds := c.ds + [Fill(rs[p])]))
    case RECTF(x, y, w, h, p) => Some(c.(ds := c.ds + [Rectf(rs[x], rs[y], rs[w], rs[h], rs[p])]))
    case CMP(a, b) => Some(c.(rs := rs[0 := Compare(rs[a], rs[b])]))
    case PUSH(r) => if |c.st| < room then Some(c.(st := c.st + [rs[r]])) else None
    case POP(r) => if c.st != [] then Some(c.(st := Below(c.st), rs := rs[r := Top(c.st)])) else None
    case DRAWTEXT(x, y, a, f, b) => Some(c.(ds := c.ds + [DrawText(rs[x], rs[y], rs[a], rs[f], rs[b])]))
    case _ => None
  }

  function InsStep(lines: seq<Line>, c: Cfg, a: Asm): Option<Cfg>
  {
    match a
    case Plain(i) => PlainStep(MaxDepth(lines), c, i)
    case LdiL(rd, n) =>
      (match LabelLine(lines, n)
       case Some(k) =>
         if rd < USER_REGS then Some(c.(rs := c.rs[rd := Wrap(Offset(lines, k))])) else None
       case None => None)
    case JmpL(n) => Goto(lines, c, n)
    case JzL(r, n) => if r >= USER_REGS then None else if c.rs[r] == 0 then Goto(lines, c, n) else Some(c)
    case JnzL(r, n) => if r >= USER_REGS then None else if c.rs[r] != 0 then Goto(lines, c, n) else Some(c)
    case BltL(_, n) => if c.rs[0] == 0xFFFF_FFFF then Goto(lines, c, n) else Some(c)
  }

  /** One instruction at line level. `None` where the program leaves what this view describes:
      stack underflow or overflow, an unmodelled instruction, or running into string data. */
  function LineStep(lines: seq<Line>, c: Cfg): Option<Cfg>
    requires c.k <= |lines|
  {
    var k := Settle(lines, c.k);
    if c.halted then None
    else if k == |lines| then Some(c.(halted := true))
    else match lines[k]
    case Ins(a) => InsStep(lines, c.(k := k + 1), a)
    case _ => None
  }

  /** The machine state `v` is the line-level state `c`. */
  ghost predicate Conf(lines: seq<Line>, v: Vm, c: Cfg) {
    && Loaded(v.ram, lines)
    && c.k <= |lines|
    && |c.st| <= MaxDepth(lines)
    && v.ram[CodeSize(lines)] == 0
    && v.regs[SP] == STACK_TOP - |c.st|
    && (forall i :: 0 <= i < |c.st| ==> v.ram[STACK_TOP - 1 - i] == c.st[i])
    && v.regs[..USER_REGS] == c.rs
    && v.draws == c.ds
    && (if c.halted then v.status == Halted else v.status == Running && v.pc == Offset(lines, c.k))
  }

  /** PUSH writes below the stack and above the program. */
  lemma PushKeepsCode(lines: seq<Line>, ram: seq<u32>, a: nat, x: u32)
    requires Loaded(ram, lines) && CodeSize(lines) <= a < |ram|
    ensures Loaded(ram[a := x], lines)
  {
    hide AllOk;
    var code := Image(lines, |lines|);
    assert ram[a := x][..|code|] == ram[..|code|];
  }

  lemma PlainRefines(lines: seq<Line>, v: Vm, c: Cfg, i: Instr, next: nat)
    requires Conf(lines, v, c) && !c.halted
    requires next <= |lines| && PlainStep(MaxDepth(lines), c.(k := next), i).Some?
    ensures Conf(lines, Exec(v, i, Offset(lines, next)), PlainStep(MaxDepth(lines), c.(k := next), i).value)
  {
    hide Loaded, AllOk, Offset;
    var w := Exec(v, i, Offset(lines, next));
    if i.PUSH? {
      var a := v.regs[SP] - 1;
      assert w.ram == v.ram[a := v.regs[i.r]];
      PushKeepsCode(lines, v.ram, a, v.regs[i.r]);
    }
  }

  /** An instruction leaves the code alone while the stack pointer is above it. */
  lemma ExecKeepsCode(lines: seq<Line>, v: Vm, i: Instr, next: nat)
    requires Loaded(v.ram, lines) && v.regs[SP] > CodeSize(lines)
    ensures Loaded(Exec(v, i, next).ram, lines)
  {
    hide Loaded, Offset, AllOk;
    if i.PUSH? && Exec(v, i, next).ram != v.ram {
      CodeInRam(v.ram, lines);
      PushKeepsCode(lines, v.ram, v.regs[SP] - 1, v.regs[i.r]);
    }
  }

  lemma CodeInRam(ram: seq<u32>, lines: seq<Line>)
    requires Loaded(ram, lines)
    ensures CodeSize(lines) <= |ram|
  {
    hide AllOk;
  }

  /** The name a line may jump to. */
  function JumpName(l: Line): Option<string> {
    match l
    case Ins(JmpL(n)) => Some(n)
    case Ins(JzL(_, n)) => Some(n)
    case Ins(JnzL(_, n)) => Some(n)
    case Ins(BltL(_, n)) => Some(n)
    case _ => None
  }

  lemma HaltStops(lines: seq<Line>, v: Vm, next: nat)
    requires AsmOk(lines, Plain(HALT))
    ensures Exec(v, Resolve(lines, Plain(HALT)), next).status == Halted
  {
  }

  /** Wherever an instruction sends the pc, it is the next line or the line it may jump to. */
  lemma ResolvedPc(lines: seq<Line>, v: Vm, l: Line, next: nat)
    requires l.Ins? && AsmOk(lines, l.asm)
    requires l.asm.Plain? ==> !l.asm.i.JMP? && !l.asm.i.JZ? && !l.asm.i.JNZ? && !l.asm.i.BLT?
    ensures var w := Exec(v, Resolve(lines, l.asm), next);
            w.pc == next || (JumpName(l).Some? && Target(lines, JumpName(l).value) == Some(w.pc))
  {
    hide Target;
  }

  lemma JumpTarget(lines: seq<Line>, name: string)
    requires LabelLine(lines, name).Some? && CodeSize(lines) < TWO_32
    ensures Target(lines, name) == Some(Offset(lines, LabelLine(lines, name).value))
  {
    OffsetMonotone(lines, LabelLine(lines, name).value, |lines|);
  }

  lemma InsRefines(lines: seq<Line>, v: Vm, c: Cfg, a: Asm, next: nat)
    requires Conf(lines, v, c) && !c.halted && AsmOk(lines, a)
    requires next <= |lines| && InsStep(lines, c.(k := next), a).Some?
    ensures Conf(lines, Exec(v, Resolve(lines, a), Offset(lines, next)), InsStep(lines, c.(k := next), a).value)
  {
    if a.Plain? {
      hide Loaded, AllOk, Offset, Conf, Exec, PlainStep;
      PlainRefines(lines, v, c, a.i, next);
    } else {
      NamedRefines(lines, v, c, a, next);
    }
  }

  lemma NamedRefines(lines: seq<Line>, v: Vm, c: Cfg, a: Asm, next: nat)
    requires Conf(lines, v, c) && !c.halted && AsmOk(lines, a) && !a.Plain?
    requires next <= |lines| && InsStep(lines, c.(k := next), a).Some?
    ensures Conf(lines, Exec(v, Resolve(lines, a), Offset(lines, next)), InsStep(lines, c.(k := next), a).value)
  {
    hide Conf, AllOk, Offset, Target, LabelLine;
    ConfMove(lines, v, c, next);
    if LabelLine(lines, a.name).Some? {
      var k := LabelLine(lines, a.name).value;
      ConfMove(lines, v, c, k);
      JumpTarget(lines, a.name);
      if a.LdiL? && a.rd < USER_REGS {
        ConfSet(lines, v.(pc := Offset(lines, next)), c.(k := next), a.rd, Wrap(Offset(lines, k)));
      }
    }
  }

  lemma ConfMove(lines: seq<Line>, v: Vm, c: Cfg, k: nat)
    requires Conf(lines, v, c) && !c.halted && k <= |lines|
    ensures Offset(lines, k) < TWO_32 && CodeSize(lines) < TWO_32
    ensures Conf(lines, v.(pc := Offset(lines, k)), c.(k := k))
    ensures forall r :: 0 <= r < USER_REGS ==> v.regs[r] == c.rs[r]
  {
    hide Loaded, AllOk, Offset;
    OffsetMonotone(lines, k, |lines|);
    assert forall r :: 0 <= r < USER_REGS ==> v.regs[r] == v.regs[..USER_REGS][r];
  }

  lemma ConfSet(lines: seq<Line>, v: Vm, c: Cfg, r: nat, x: u32)
    requires Conf(lines, v, c) && r < USER_REGS
    ensures Conf(lines, v.(regs := v.regs[r := x]), c.(rs := c.rs[r := x]))
  {
    hide Loaded, AllOk, Offset;
  }

  /** One machine cycle on the assembled words is one step of the assembly text. */
  lemma StepRefines(lines: seq<Line>, v: Vm, c: Cfg)
    requires Conf(lines, v, c) && LineStep(lines, c).Some?
    ensures Conf(lines, Step(v), LineStep(lines, c).value)
  {
    hide Exec, Encode, Resolve, InsStep, Decode, Loaded, LineStep;
    var k := Settle(lines, c.k);
    StepShape(lines, c);
    if k == |lines| {
      ZeroHalts(v);
    } else {
      FetchAt(v.ram, lines, k);
      InsRefines(lines, v, c, lines[k].asm, k + 1);
    }
  }

  lemma StepShape(lines: seq<Line>, c: Cfg)
    requires c.k <= |lines| && LineStep(lines, c).Some?
    ensures var k := Settle(lines, c.k);
            !c.halted &&
            if k == |lines| then LineStep(lines, c) == Some(c.(halted := true))
            else lines[k].Ins? && LineStep(lines, c) == InsStep(lines, c.(k := k + 1), lines[k].asm)
  {
    hide InsStep;
  }

  /** A zero word is HALT, so the memory after the program stops the machine. */
  lemma ZeroHalts(v: Vm)
    requires v.status.Running? && v.pc < RAM_SIZE && v.ram[v.pc] == 0
    ensures Step(v) == v.(pc := v.pc + 1, status := Halted)
  {
  }

  // ---- Runs ----

  /** Consecutive line-level states. */
  ghost predicate Trail(lines: seq<Line>, cs: seq<Cfg>) {
    && |cs| > 0
    && (forall t :: 0 <= t < |cs| ==> cs[t].k <= |lines|)
    && (forall t :: 0 <= t < |cs| - 1 ==> LineStep(lines, cs[t]) == Some(cs[t + 1]))
  }

  lemma {:induction false} TrailRuns(lines: seq<Line>, v: Vm, cs: seq<Cfg>, n: nat)
    requires Trail(lines, cs) && Conf(lines, v, cs[0]) && n < |cs|
    ensures Conf(lines, Run(v, n), cs[n])
    decreases n
  {
    hide LineStep, Conf, Step;
    if n > 0 {
      TrailRuns(lines, v, cs, n - 1);
      RunAdd(v, n - 1, 1);
      assert LineStep(lines, cs[n - 1]) == Some(cs[n - 1 + 1]);
      StepRefines(lines, Run(v, n - 1), cs[n - 1]);
      assert Run(Run(v, n - 1), 1) == Run(Step(Run(v, n - 1)), 0);
    }
  }
}
