/** GlyphLang run directly: a data stack, the variables a..z, and the drawing calls made. This is
    the reference the compiled code is compared with. */
module GlyphSource {
  import opened Words
  import GlyphVm
  import opened GlyphCompiler
  import opened Assembler
  import opened GlyphLabels

  const VARS: nat := 26

  /** `at` is the next token; `stack` has its top last; `vars[i - 1]` is variable number i. `second`
      is the operand left in the backend's second scratch register, which `.` draws as its y. */
  datatype State = State(at: nat, stack: seq<u32>, vars: seq<u32>, second: u32, draws: seq<GlyphVm.Event>, halted: bool)

  function Arith(op: char, a: u32, b: u32): u32 {
    if op == '+' then Wrap(a + b)
    else if op == '-' then Wrap(a - b)
    else if op == '*' then Wrap(a * b)
    else if b == 0 then a else a / b
  }

  /** Signed comparison as a 0/1 word. */
  function Truth(op: char, a: u32, b: u32): u32 {
    var holds := if op == '>' then Signed(a) > Signed(b) else if op == '<' then Signed(a) < Signed(b) else a == b;
    if holds then 1 else 0
  }

  /** Sums, differences and products are the integer ones modulo 2^32; a quotient is rounded down, and
      dividing by zero leaves the dividend. */
  lemma ArithMeans(a: u32, b: u32)
    ensures exists k: int :: a + b == Arith('+', a, b) + k * 0x1_0000_0000
    ensures exists k: int :: a - b == Arith('-', a, b) + k * 0x1_0000_0000
    ensures exists k: int :: a * b == Arith('*', a, b) + k * 0x1_0000_0000
    ensures b > 0 ==> b * Arith('/', a, b) <= a < b * Arith('/', a, b) + b
    ensures Arith('/', a, 0) == a
  {
    var sum, difference, product := a + b, a - b, a * b;
    if b > 0 { Quotient(a, b); }
    hide Wrap;
    WrapSigned(sum, Arith('+', a, b));
    WrapSigned(difference, Arith('-', a, b));
    WrapSigned(product, Arith('*', a, b));
  }

  lemma Quotient(a: u32, b: u32)
    requires b > 0
    ensures b * Arith('/', a, b) <= a < b * Arith('/', a, b) + b
  {
  }

  /** Comparisons are those of two's-complement numbers: flipping the top bit makes them unsigned ones. */
  lemma TruthMeans(a: u32, b: u32)
    ensures Truth('=', a, b) == if a == b then 1 else 0
    ensures Truth('>', a, b) == if (a + 0x8000_0000) % 0x1_0000_0000 > (b + 0x8000_0000) % 0x1_0000_0000 then 1 else 0
    ensures Truth('<', a, b) == if (a + 0x8000_0000) % 0x1_0000_0000 < (b + 0x8000_0000) % 0x1_0000_0000 then 1 else 0
  {
  }

  /** How many values `L` draws for start `s` and end `e`: the range when it is not empty, one
      value otherwise, and the long way round when the increment overflows. */
  function LoopCount(s: u32, e: u32): (n: nat)
    ensures n > 0
  {
    if Signed(s) < Signed(e) then Signed(e) - Signed(s)
    else if s == 0x7FFF_FFFF && Signed(e) > -0x8000_0000 then 1 + Signed(e) + 0x8000_0000
    else 1
  }

  function LoopDraws(s: u32, e: u32, n: nat): seq<GlyphVm.Event> {
    seq(n, i => GlyphVm.Pset(Wrap(s + i), e, 0x00FF00))
  }

  /** Strings met before token `j`. */
  function StringIndex(tokens: seq<Token>, j: nat): nat
    requires j <= |tokens|
  {
    if j == 0 then 0 else StringIndex(tokens, j - 1) + if tokens[j - 1].StringLiteral? then 1 else 0
  }

  /** Where a jump to `name` goes: the last label of that name, ignoring case. */
  function JumpTo(tokens: seq<Token>, name: string): Option<nat> {
    if name != "" && ParseImm(name) == None then SourceLabel(tokens, Lower(name)) else None
  }

  function Goto(tokens: seq<Token>, s: State, name: string): Option<State> {
    match JumpTo(tokens, name)
    case Some(j) => Some(s.(at := j))
    case None => None
  }

  /** What the surroundings fix: how deep the stack may grow, where each string literal lies, and
      whether running off the last token ends in string data instead of stopping. */
  datatype World = World(depth: int, texts: seq<u32>, fallsIntoText: bool)

  function TokenStep(w: World, tokens: seq<Token>, s: State): Option<State>
    requires s.at < |tokens| && |s.vars| == VARS
  {
    var st, n := s.stack, |s.stack|;
    var s' := s.(at := s.at + 1);
    match tokens[s.at]
    case Number(v) => if n < w.depth then Some(s'.(stack := st + [v])) else None
    case Op(op) =>
      if n < 2 then None
      else Some(s'.(stack := st[..n - 2] + [Arith(op, st[n - 2], st[n - 1])], second := st[n - 1]))
    case Cmp(op) =>
      if n < 2 then None
      else Some(s'.(stack := st[..n - 2] + [Truth(op, st[n - 2], st[n - 1])], second := st[n - 1]))
    case Conditional =>
      if n < 3 then None
      else Some(s'.(stack := st[..n - 3] + [if st[n - 3] != 0 then st[n - 2] else st[n - 1]], second := st[n - 1]))
    case Loop =>
      if n < 2 then None
      else
        var a, b := st[n - 2], st[n - 1];
        Some(s'.(stack := st[..n - 2], vars := s.vars[24 := 0x00FF00][25 := 1], second := b,
                 draws := s.draws + LoopDraws(a, b, LoopCount(a, b))))
    case Output =>
      if n < 1 then None
      else Some(s'.(stack := st[..n - 1], draws := s.draws + [GlyphVm.Pset(st[n - 1], s.second, st[n - 1])]))
    case Halt => Some(s'.(halted := true))
    case StoreReg(i) =>
      if n < 1 || !(1 <= i <= 26) then None else Some(s'.(stack := st[..n - 1], vars := s.vars[i - 1 := st[n - 1]]))
    case LoadReg(i) =>
      if n >= w.depth || !(1 <= i <= 26) then None else Some(s'.(stack := st + [s.vars[i - 1]]))
    case StringLiteral(_) =>
      var k := StringIndex(tokens, s.at);
      if n < w.depth && k < |w.texts| then Some(s'.(stack := st + [w.texts[k]])) else None
    case Rectf =>
      if n < 5 then None
      else Some(s'.(stack := st[..n - 5], vars := s.vars[24 := st[n - 5]][25 := st[n - 4]], second := st[n - 2],
                    draws := s.draws + [GlyphVm.Rectf(st[n - 5], st[n - 4], st[n - 3], st[n - 2], st[n - 1])]))
    case DrawText =>
      if n < 5 then None
      else Some(s'.(stack := st[..n - 5], vars := s.vars[24 := st[n - 5]][25 := st[n - 4]], second := st[n - 2],
                    draws := s.draws + [GlyphVm.DrawText(st[n - 5], st[n - 4], st[n - 3], st[n - 2], st[n - 1])]))
    case Frame => Some(s'.(draws := s.draws + [GlyphVm.Frame]))
    case Fill => if n < 1 then None else Some(s'.(stack := st[..n - 1], draws := s.draws + [GlyphVm.Fill(st[n - 1])]))
    case Label(_) => Some(s')
    case Jump(name) => Goto(tokens, s, name)
    case Jz(name) =>
      if n < 1 then None
      else if st[n - 1] == 0 then Goto(tokens, s.(stack := st[..n - 1]), name) else Some(s'.(stack := st[..n - 1]))
    case Jnz(name) =>
      if n < 1 then None
      else if st[n - 1] != 0 then Goto(tokens, s.(stack := st[..n - 1]), name) else Some(s'.(stack := st[..n - 1]))
    // Spawn, Mutate, Ikey, Ls and Exec act on parts of the system outside this model.
    case _ => None
  }

  /** One token. `None` when stopped, on stack underflow or overflow, at a bad jump or at a token
      outside this model. Running off the last token stops the program. */
  function Next(w: World, tokens: seq<Token>, s: State): (r: Option<State>)
    requires |s.vars| == VARS
    ensures r.Some? ==> |r.value.vars| == VARS
  {
    if s.halted || s.at > |tokens| then None
    else if s.at == |tokens| then if w.fallsIntoText then None else Some(s.(halted := true))
    else TokenStep(w, tokens, s)
  }

  /** The state after `n` tokens, if the program gets that far. */
  function Steps(w: World, tokens: seq<Token>, s: State, n: nat): (r: Option<State>)
    requires |s.vars| == VARS
    ensures r.Some? ==> |r.value.vars| == VARS
  {
    if n == 0 then Some(s)
    else match Steps(w, tokens, s, n - 1)
    case Some(t) => Next(w, tokens, t)
    case None => None
  }

  function Initial(): State {
    State(0, [], seq(VARS, _ => 0), 0, [], false)
  }
}
