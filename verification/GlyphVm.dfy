/** The part of the Geometry OS machine that compiled GlyphLang programs use: one RAM holding
    code and stack, 32 registers, and a log of the drawing calls made. */
module GlyphVm {
  import opened Words

  const RAM_SIZE: nat := 0x10000
  const NUM_REGS: nat := 32
  const SP: nat := 30

  /** A drawing or yielding call, with the operand values it was made with. */
  datatype Event =
    | Pset(x: u32, y: u32, color: u32)
    | Fill(color: u32)
    | Rectf(x: u32, y: u32, w: u32, h: u32, color: u32)
    | DrawText(x: u32, y: u32, addr: u32, fg: u32, bg: u32)
    | Frame

  datatype AluKind = ADD | SUB | MUL | DIV

  /** One decoded instruction; operands are the raw words that follow the opcode. */
  datatype Instr =
    | HALT
    | FRAME
    | LDI(rd: u32, imm: u32)
    | ALU(kind: AluKind, rd: u32, rs: u32)
    | JMP(addr: u32)
    | JZ(r: u32, addr: u32)
    | JNZ(r: u32, addr: u32)
    | BLT(r: u32, addr: u32)
    | PSET(xr: u32, yr: u32, cr: u32)
    | FILL(cr: u32)
    | RECTF(xr: u32, yr: u32, wr: u32, hr: u32, cr: u32)
    | CMP(rd: u32, rs: u32)
    | PUSH(r: u32)
    | POP(r: u32)
    | DRAWTEXT(xr: u32, yr: u32, ar: u32, fr: u32, br: u32)
    | STORE(ar: u32, r: u32)
    | SYS(call: SysCall, r: u32)
    | UNKNOWN(code: u32)

  /** Instructions whose effect lies outside this model. */
  datatype SysCall = IKEY | SPAWN | LS | EXEC

  datatype Status = Running | Halted | Unmodelled

  datatype VmState = VmState(regs: seq<u32>, ram: seq<u32>, pc: nat, status: Status, draws: seq<Event>) {
    predicate Shape() {
      |regs| == NUM_REGS && |ram| == RAM_SIZE
    }
  }

  type Vm = v: VmState | v.Shape()
    witness VmState(seq(NUM_REGS, _ => 0), seq(RAM_SIZE, _ => 0), 0, Running, [])

  function AluCode(kind: AluKind): u32 {
    match kind
    case ADD => 0x20
    case SUB => 0x21
    case MUL => 0x22
    case DIV => 0x23
  }

  function SysCode(call: SysCall): u32 {
    match call
    case IKEY => 0x48
    case SPAWN => 0x4D
    case LS => 0x59
    case EXEC => 0x66
  }

  /** The bytecode words of an instruction. */
  function Encode(i: Instr): (ws: seq<u32>)
    ensures |ws| == Size(i)
  {
    match i
    case HALT => [0x00]
    case FRAME => [0x02]
    case LDI(rd, imm) => [0x10, rd, imm]
    case STORE(ar, r) => [0x12, ar, r]
    case ALU(kind, rd, rs) => [AluCode(kind), rd, rs]
    case JMP(a) => [0x30, a]
    case JZ(r, a) => [0x31, r, a]
    case JNZ(r, a) => [0x32, r, a]
    case BLT(r, a) => [0x35, r, a]
    case PSET(x, y, c) => [0x40, x, y, c]
    case FILL(c) => [0x42, c]
    case RECTF(x, y, w, h, c) => [0x43, x, y, w, h, c]
    case CMP(rd, rs) => [0x50, rd, rs]
    case PUSH(r) => [0x60, r]
    case POP(r) => [0x61, r]
    case DRAWTEXT(x, y, a, f, b) => [0x8C, x, y, a, f, b]
    case SYS(call, r) => [SysCode(call), r]
    case UNKNOWN(code) => [code]
  }

  function Size(i: Instr): nat {
    match i
    case HALT => 1
    case FRAME => 1
    case LDI(_, _) => 3
    case STORE(_, _) => 3
    case ALU(_, _, _) => 3
    case JMP(_) => 2
    case JZ(_, _) => 3
    case JNZ(_, _) => 3
    case BLT(_, _) => 3
    case PSET(_, _, _) => 4
    case FILL(_) => 2
    case RECTF(_, _, _, _, _) => 6
    case CMP(_, _) => 3
    case PUSH(_) => 2
    case POP(_) => 2
    case DRAWTEXT(_, _, _, _, _) => 6
    case SYS(_, _) => 2
    case UNKNOWN(_) => 1
  }

  function Word(ram: seq<u32>, a: nat): u32 {
    if a < |ram| then ram[a] else 0
  }

  /** What the fetch at `pc` sees; opcode numbers as in the VM's dispatch. */
  function Decode(ram: seq<u32>, pc: nat): Instr {
    var w1, w2, w3 := Word(ram, pc + 1), Word(ram, pc + 2), Word(ram, pc + 3);
    var w4, w5 := Word(ram, pc + 4), Word(ram, pc + 5);
    match Word(ram, pc)
    case 0x00 => HALT
    case 0x02 => FRAME
    case 0x10 => LDI(w1, w2)
    case 0x12 => STORE(w1, w2)
    case 0x20 => ALU(ADD, w1, w2)
    case 0x21 => ALU(SUB, w1, w2)
    case 0x22 => ALU(MUL, w1, w2)
    case 0x23 => ALU(DIV, w1, w2)
    case 0x30 => JMP(w1)
    case 0x31 => JZ(w1, w2)
    case 0x32 => JNZ(w1, w2)
    case 0x35 => BLT(w1, w2)
    case 0x40 => PSET(w1, w2, w3)
    case 0x42 => FILL(w1)
    case 0x43 => RECTF(w1, w2, w3, w4, w5)
    case 0x48 => SYS(IKEY, w1)
    case 0x4D => SYS(SPAWN, w1)
    case 0x50 => CMP(w1, w2)
    case 0x59 => SYS(LS, w1)
    case 0x60 => PUSH(w1)
    case 0x61 => POP(w1)
    case 0x66 => SYS(EXEC, w1)
    case 0x8C => DRAWTEXT(w1, w2, w3, w4, w5)
    case code => UNKNOWN(code)
  }

  /** Decoding undoes encoding wherever the words of an instruction lie in RAM. */
  lemma DecodeEncode(ram: seq<u32>, pc: nat, i: Instr)
    requires !i.UNKNOWN?
    requires pc + Size(i) <= |ram| && ram[pc..pc + Size(i)] == Encode(i)
    ensures Decode(ram, pc) == i
  {
    var ws := ram[pc..pc + Size(i)];
    assert forall k :: 0 <= k < Size(i) ==> ws[k] == Word(ram, pc + k);
    assert ws[0] == Word(ram, pc);
    assert Size(i) > 1 ==> ws[1] == Word(ram, pc + 1);
    assert Size(i) > 2 ==> ws[2] == Word(ram, pc + 2);
    assert Size(i) > 3 ==> ws[3] == Word(ram, pc + 3);
    assert Size(i) > 4 ==> ws[4] == Word(ram, pc + 4) && ws[5] == Word(ram, pc + 5);
  }

  /** The register operands exist; otherwise the machine skips the instruction. */
  predicate RegsOk(i: Instr) {
    match i
    case LDI(rd, _) => rd < NUM_REGS
    case STORE(ar, r) => ar < NUM_REGS && r < NUM_REGS
    case ALU(_, rd, rs) => rd < NUM_REGS && rs < NUM_REGS
    case JZ(r, _) => r < NUM_REGS
    case JNZ(r, _) => r < NUM_REGS
    case BLT(r, _) => true
    case PSET(x, y, c) => x < NUM_REGS && y < NUM_REGS && c < NUM_REGS
    case FILL(c) => c < NUM_REGS
    case RECTF(x, y, w, h, c) => x < NUM_REGS && y < NUM_REGS && w < NUM_REGS && h < NUM_REGS && c < NUM_REGS
    case CMP(rd, rs) => rd < NUM_REGS && rs < NUM_REGS
    case PUSH(r) => r < NUM_REGS
    case POP(r) => r < NUM_REGS
    case DRAWTEXT(x, y, a, f, b) => x < NUM_REGS && y < NUM_REGS && a < NUM_REGS && f < NUM_REGS && b < NUM_REGS
    case SYS(_, r) => r < NUM_REGS
    case _ => true
  }

  /** Wrapping 32-bit arithmetic; the machine leaves the target alone on division by zero. */
  function AluResult(kind: AluKind, a: u32, b: u32): u32 {
    match kind
    case ADD => Wrap(a + b)
    case SUB => Wrap(a - b)
    case MUL => Wrap(a * b)
    case DIV => if b == 0 then a else a / b
  }

  /** CMP's three-way signed answer in r0. */
  function Compare(a: u32, b: u32): u32 {
    if Signed(a) < Signed(b) then 0xFFFF_FFFF else if Signed(a) > Signed(b) then 1 else 0
  }

  function Exec(v: Vm, i: Instr, next: nat): Vm {
    var w := v.(pc := next);
    var r := v.regs;
    if !RegsOk(i) then w
    else match i
    case HALT => w.(status := Halted)
    case FRAME => w.(draws := v.draws + [Frame])
    case LDI(rd, imm) => w.(regs := r[rd := imm])
    case ALU(kind, rd, rs) => w.(regs := r[rd := AluResult(kind, r[rd], r[rs])])
    case JMP(a) => w.(pc := a)
    case JZ(c, a) => if r[c] == 0 then w.(pc := a) else w
    case JNZ(c, a) => if r[c] != 0 then w.(pc := a) else w
    case BLT(_, a) => if r[0] == 0xFFFF_FFFF then w.(pc := a) else w
    case PSET(x, y, c) => w.(draws := v.draws + [Pset(r[x], r[y], r[c])])
    case FILL(c) => w.(draws := v.draws + [Fill(r[c])])
    case RECTF(x, y, wr, h, c) => w.(draws := v.draws + [Rectf(r[x], r[y], r[wr], r[h], r[c])])
    case CMP(a, b) => w.(regs := r[0 := Compare(r[a], r[b])])
    case PUSH(s) =>
      if 0 < r[SP] <= RAM_SIZE then w.(ram := v.ram[r[SP] - 1 := r[s]], regs := r[SP := r[SP] - 1]) else w
    case POP(d) =>
      if r[SP] < RAM_SIZE then w.(regs := r[d := v.ram[r[SP]]][SP := r[SP] + 1]) else w
    case DRAWTEXT(x, y, a, f, b) => w.(draws := v.draws + [DrawText(r[x], r[y], r[a], r[f], r[b])])
    case STORE(_, _) => w.(status := Unmodelled)
    case SYS(_, _) => w.(status := Unmodelled)
    case UNKNOWN(_) => w.(status := Unmodelled)
  }

  /** One machine cycle. A fetch that leaves RAM is a segfault, which halts. */
  function Step(v: Vm): Vm {
    if !v.status.Running? then v
    else
      var i := Decode(v.ram, v.pc);
      if v.pc + Size(i) > RAM_SIZE then v.(status := Halted) else Exec(v, i, v.pc + Size(i))
  }

  function Run(v: Vm, n: nat): Vm
    decreases n
  {
    if n == 0 then v else Run(Step(v), n - 1)
  }

  lemma {:induction false} RunAdd(v: Vm, m: nat, n: nat)
    ensures Run(v, m + n) == Run(Run(v, m), n)
    decreases m
  {
    if m > 0 {
      RunAdd(Step(v), m - 1, n);
    }
  }

  lemma {:induction false} RunStopped(v: Vm, n: nat)
    requires !v.status.Running?
    ensures Run(v, n) == v
    decreases n
  {
    if n > 0 {
      RunStopped(v, n - 1);
    }
  }
}
