/** The assembler's label handling: one pass lays the lines out, a second resolves names. */
module Assembler {
  import opened Words
  import opened GlyphVm

  /** An instruction as written: complete, or naming a label still to be resolved. */
  datatype Asm =
    | Plain(i: Instr)
    | LdiL(rd: u32, name: string)
    | JmpL(name: string)
    | JzL(r: u32, name: string)
    | JnzL(r: u32, name: string)
    | BltL(r: u32, name: string)

  /** One line of assembly text; comments and blank lines are not kept. */
  datatype Line = Label(name: string) | Ins(asm: Asm) | Str(text: string)

  function LowerChar(c: char): char {
    if 'A' <= c <= 'Z' then c - 'A' + 'a' else c
  }

  function Lower(s: string): (r: string)
    ensures |r| == |s|
    ensures forall i :: 0 <= i < |s| ==> r[i] == LowerChar(s[i])
  {
    seq(|s|, i requires 0 <= i < |s| => LowerChar(s[i]))
  }

  function RadixDigit(c: char, radix: nat): Option<nat> {
    var d :=
      if '0' <= c <= '9' then (c - '0') as int
      else if 'a' <= c <= 'f' then (c - 'a') as int + 10
      else if 'A' <= c <= 'F' then (c - 'A') as int + 10
      else radix;
    if d < radix then Some(d) else None
  }

  function RadixVal(s: string, radix: nat): Option<nat> {
    if s == [] then Some(0)
    else
      match (RadixVal(s[..|s| - 1], radix), RadixDigit(s[|s| - 1], radix))
      case (Some(hi), Some(d)) => Some(radix * hi + d)
      case _ => None
  }

  /** `u32::from_str_radix(..).ok()`. */
  function ParseRadix(s: string, radix: nat): Option<u32> {
    match RadixVal(s, radix)
    case Some(v) => if s != [] && v < TWO_32 then Some(v) else None
    case None => None
  }

  /** A numeric operand: `0x` hexadecimal, `0b` binary, or decimal. */
  function ParseImm(s: string): Option<u32> {
    if |s| >= 2 && s[0] == '0' && s[1] in "xX" then ParseRadix(s[2..], 16)
    else if |s| >= 2 && s[0] == '0' && s[1] in "bB" then ParseRadix(s[2..], 2)
    else ParseBelow(s, TWO_32)
  }

  function AsmSize(a: Asm): nat {
    match a
    case Plain(i) => Size(i)
    case JmpL(_) => 2
    case _ => 3
  }

  function LineSize(l: Line): nat {
    match l
    case Label(_) => 0
    case Ins(a) => AsmSize(a)
    case Str(t) => |t| + 1
  }

  /** Bytecode offset at which the first `k` lines end. */
  function Offset(lines: seq<Line>, k: nat): nat
    requires k <= |lines|
  {
    if k == 0 then 0 else Offset(lines, k - 1) + LineSize(lines[k - 1])
  }

  /** The label table keeps the last definition of a lower-cased name. */
  function LastLabel(lines: seq<Line>, key: string): (r: Option<nat>)
    ensures r.Some? ==> r.value < |lines| && lines[r.value].Label? && Lower(lines[r.value].name) == key
    ensures forall k :: 0 <= k < |lines| && lines[k].Label? && Lower(lines[k].name) == key ==> r.Some? && k <= r.value
  {
    if lines == [] then None
    else
      var k := |lines| - 1;
      if lines[k].Label? && Lower(lines[k].name) == key then Some(k) else LastLabel(lines[..k], key)
  }

  /** The word an operand `name` assembles to, if any. */
  function Target(lines: seq<Line>, name: string): Option<u32> {
    if name == "" then None
    else match ParseImm(name)
    case Some(v) => Some(v)
    case None =>
      match LastLabel(lines, Lower(name))
      case Some(k) => Some(Wrap(Offset(lines, k)))
      case None => None
  }

  predicate AsmOk(lines: seq<Line>, a: Asm) {
    match a
    case Plain(i) => RegsOk(i) && !i.UNKNOWN?
    case JmpL(n) => Target(lines, n).Some?
    case LdiL(r, n) => r < NUM_REGS && Target(lines, n).Some?
    case JzL(r, n) => r < NUM_REGS && Target(lines, n).Some?
    case JnzL(r, n) => r < NUM_REGS && Target(lines, n).Some?
    case BltL(r, n) => r < NUM_REGS && Target(lines, n).Some?
  }

  /** A `.str` line survives comment stripping and line splitting. */
  predicate StrOk(t: string) {
    ';' !in t && '\n' !in t
  }

  predicate LineOk(lines: seq<Line>, l: Line) {
    match l
    case Label(_) => true
    case Ins(a) => AsmOk(lines, a)
    case Str(t) => StrOk(t)
  }

  function Resolve(lines: seq<Line>, a: Asm): Instr
    requires AsmOk(lines, a)
  {
    match a
    case Plain(i) => i
    case JmpL(n) => JMP(Target(lines, n).value)
    case LdiL(r, n) => LDI(r, Target(lines, n).value)
    case JzL(r, n) => JZ(r, Target(lines, n).value)
    case JnzL(r, n) => JNZ(r, Target(lines, n).value)
    case BltL(r, n) => BLT(r, Target(lines, n).value)
  }

  function StrWords(t: string): (ws: seq<u32>)
    ensures |ws| == |t| + 1
  {
    seq(|t|, i requires 0 <= i < |t| => t[i] as int) + [0]
  }

  function LineWords(lines: seq<Line>, l: Line): (ws: seq<u32>)
    requires LineOk(lines, l)
    ensures |ws| == LineSize(l)
  {
    match l
    case Label(_) => []
    case Ins(a) => Encode(Resolve(lines, a))
    case Str(t) => StrWords(t)
  }

  predicate AllOk(lines: seq<Line>) {
    forall k :: 0 <= k < |lines| ==> LineOk(lines, lines[k])
  }

  function Image(lines: seq<Line>, k: nat): (ws: seq<u32>)
    requires AllOk(lines) && k <= |lines|
    ensures |ws| == Offset(lines, k)
  {
    if k == 0 then [] else Image(lines, k - 1) + LineWords(lines, lines[k - 1])
  }

  /** The whole assembly: bytecode, or an error when a name, register or string is bad. */
  function Assemble(lines: seq<Line>): Result<seq<u32>> {
    if AllOk(lines) then Ok(Image(lines, |lines|)) else Err("assembly failed")
  }

  lemma {:induction false} OffsetMonotone(lines: seq<Line>, j: nat, k: nat)
    requires j <= k <= |lines|
    ensures Offset(lines, j) <= Offset(lines, k)
    decreases k
  {
    if j < k {
      OffsetMonotone(lines, j, k - 1);
    }
  }

  lemma PrefixAppend<T>(a: seq<T>, b: seq<T>, c: seq<T>)
    requires a <= b
    ensures a <= b + c
  {
  }

  lemma {:induction false} ImagePrefix(lines: seq<Line>, j: nat, k: nat)
    requires AllOk(lines) && j <= k <= |lines|
    ensures Image(lines, j) <= Image(lines, k)
    decreases k
  {
    hide Image, AllOk;
    if j < k {
      ImagePrefix(lines, j, k - 1);
      ImageStep(lines, k);
      PrefixAppend(Image(lines, j), Image(lines, k - 1), LineWords(lines, lines[k - 1]));
    }
  }

  lemma ImageStep(lines: seq<Line>, k: nat)
    requires AllOk(lines) && 0 < k <= |lines|
    ensures LineOk(lines, lines[k - 1]) && Image(lines, k) == Image(lines, k - 1) + LineWords(lines, lines[k - 1])
  {
  }

  /** RAM starts with the assembled program. */
  predicate Loaded(ram: seq<u32>, lines: seq<Line>) {
    AllOk(lines) && Image(lines, |lines|) <= ram
  }

  /** Every line sits, encoded, between its own offset and the next one. */
  lemma LineAt(ram: seq<u32>, lines: seq<Line>, k: nat)
    requires Loaded(ram, lines) && k < |lines|
    ensures Offset(lines, k + 1) <= |Image(lines, |lines|)| <= |ram|
    ensures ram[Offset(lines, k)..Offset(lines, k + 1)] == LineWords(lines, lines[k])
  {
    ImagePrefix(lines, k + 1, |lines|);
    var ws, o := Image(lines, k + 1), Offset(lines, k);
    assert ws == ram[..Offset(lines, k + 1)];
    assert ws[o..] == LineWords(lines, lines[k]);
  }

  /** The machine decodes, at the offset of an instruction line, that instruction with its
      label resolved. */
  lemma FetchAt(ram: seq<u32>, lines: seq<Line>, k: nat)
    requires Loaded(ram, lines) && k < |lines| && lines[k].Ins?
    ensures AsmOk(lines, lines[k].asm)
    ensures Decode(ram, Offset(lines, k)) == Resolve(lines, lines[k].asm)
    ensures Offset(lines, k + 1) == Offset(lines, k) + Size(Resolve(lines, lines[k].asm)) <= |ram|
  {
    LineAt(ram, lines, k);
    assert LineOk(lines, lines[k]);
    DecodeEncode(ram, Offset(lines, k), Resolve(lines, lines[k].asm));
  }
}
