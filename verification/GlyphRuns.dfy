/** Whole runs: the machine on the assembled words against the source program. */
module GlyphRuns {
  import opened Words
  import opened GlyphVm
  import opened Assembler
  import opened GlyphCompiler
  import opened GlyphLabels
  import opened LineMachine
  import opened GlyphSim
  import G = GlyphSource

  /** A compilable program whose names avoid the generated ones, which assembles, and whose code
      leaves room for the stack below 0x8000. */
  ghost predicate Runnable(tokens: seq<Token>) {
    && Valid(tokens) && Unreserved(tokens)
    && Assemble(Compiled(tokens)).Ok? && |Assemble(Compiled(tokens)).value| < STACK_TOP
  }

  /** The empty program is one. */
  lemma EmptyIsRunnable()
    ensures Runnable([])
  {
    var lines := Compiled([]);
    assert lines == PROLOGUE + [Do(HALT)];
  }

  /** The machine with the program in RAM and everything else zero. */
  function Boot(words: seq<u32>): Vm
    requires |words| <= RAM_SIZE
  {
    VmState(seq(NUM_REGS, _ => 0), words + seq(RAM_SIZE - |words|, _ => 0), 0, Running, [])
  }

  /** The machine after `m` cycles on the compiled program. */
  ghost function Machine(tokens: seq<Token>, m: nat): Vm
    requires Runnable(tokens)
  {
    Run(Boot(Assemble(Compiled(tokens)).value), m)
  }

  /** The source program after `n` tokens. */
  ghost function Source(tokens: seq<Token>, n: nat): (r: Option<G.State>)
    ensures r.Some? ==> |r.value.vars| == G.VARS
  {
    G.Steps(WorldOf(tokens), tokens, G.Initial(), n)
  }

  ghost function NextOf(tokens: seq<Token>, s: G.State): (r: Option<G.State>)
    requires |s.vars| == G.VARS
    ensures r.Some? ==> |r.value.vars| == G.VARS
  {
    G.Next(WorldOf(tokens), tokens, s)
  }

  /** At a token boundary: r30 delimits the source stack in memory, r1..r26 are a..z, the drawing
      logs agree, and the pc is at the code of the next token. */
  ghost predicate Rel(tokens: seq<Token>, s: G.State, v: Vm) {
    && s.at <= |tokens| && |s.vars| == G.VARS && |s.stack| <= STACK_TOP
    && Start(tokens, s.at) <= |Compiled(tokens)|
    && v.regs[SP] == STACK_TOP - |s.stack|
    && (forall i :: 0 <= i < |s.stack| ==> v.ram[STACK_TOP - 1 - i] == s.stack[i])
    && (forall i :: 1 <= i <= 26 ==> v.regs[i] == s.vars[i - 1])
    && v.draws == s.draws
    && (if s.halted then v.status == Halted
        else v.status == Running && v.pc == Offset(Compiled(tokens), Start(tokens, s.at)))
  }

  // ---- Starting up ----

  lemma BootLoads(lines: seq<Line>)
    requires AllOk(lines) && CodeSize(lines) < STACK_TOP
    ensures var v := Boot(Image(lines, |lines|));
            Loaded(v.ram, lines) && v.ram[CodeSize(lines)] == 0 && v.regs[..USER_REGS] == seq(USER_REGS, _ => 0)
  {
    hide AllOk, Image, Offset;
    BootParts(Image(lines, |lines|));
  }

  lemma BootParts(words: seq<u32>)
    requires |words| < STACK_TOP
    ensures words <= Boot(words).ram && Boot(words).ram[|words|] == 0
    ensures Boot(words).regs[..USER_REGS] == seq(USER_REGS, _ => 0)
  {
    var zeros := seq(RAM_SIZE - |words|, _ => 0);
    assert zeros[0] == 0 && Boot(words).ram == words + zeros;
  }

  lemma PrologueLines(tokens: seq<Token>)
    ensures |Compiled(tokens)| >= 3 && Start(tokens, 0) == 3
    ensures Compiled(tokens)[0] == Do(LDI(30, 0x8000)) && Compiled(tokens)[1] == Do(LDI(R29, 0))
            && Compiled(tokens)[2] == Do(LDI(R28, 0))
  {
    hide Compiled;
    PrologueFirst(tokens);
  }

  lemma LdiCycle(v: Vm, lines: seq<Line>, k: nat, r: u32, x: u32)
    requires Loaded(v.ram, lines) && k < |lines| && lines[k] == Do(LDI(r, x)) && r < NUM_REGS
    requires v.status == Running && v.pc == Offset(lines, k)
    ensures Step(v) == v.(pc := Offset(lines, k + 1), regs := v.regs[r := x])
  {
    hide AllOk, Image, Decode;
    FetchAt(v.ram, lines, k);
  }

  /** The three instructions before the first token set up the initial state. */
  lemma Started(tokens: seq<Token>) returns (c: Cfg)
    requires Runnable(tokens)
    ensures Conf(Compiled(tokens), Machine(tokens, 3), c) && Match(tokens, G.Initial(), c)
  {
    hide Compiled, After, AllOk, Offset, Step, Settle, Unreserved;
    var lines := Compiled(tokens);
    BootLoads(lines);
    PrologueLines(tokens);
    var v0 := Boot(Image(lines, |lines|));
    OffsetZero(lines);
    LdiCycle(v0, lines, 0, 30, 0x8000);
    var v1 := Step(v0);
    LdiCycle(v1, lines, 1, R29, 0);
    var v2 := Step(v1);
    LdiCycle(v2, lines, 2, R28, 0);
    var v3 := Step(v2);
    assert Run(v0, 3) == Run(v1, 2) == Run(v2, 1) == Run(v3, 0) == v3;
    c := Cfg(3, [], seq(USER_REGS, _ => 0), [], false);
    assert v3.regs[..USER_REGS] == c.rs;
  }

  lemma OffsetZero(lines: seq<Line>)
    ensures Offset(lines, 0) == 0
  {
  }

  // ---- One token ----

  /** Where the tokens end the machine finds the trailing HALT or, with no strings, a zero word. */
  lemma EndCode(tokens: seq<Token>, s: G.State, c: Cfg) returns (d: Cfg)
    requires Match(tokens, s, c) && !s.halted && s.at == |tokens| && NextOf(tokens, s).Some?
    ensures LineStep(Compiled(tokens), c) == Some(d) && Match(tokens, NextOf(tokens, s).value, d)
  {
    hide After, Block, AnyHalt, MaxDepth;
    var lines := Compiled(tokens);
    var k := Start(tokens, |tokens|);
    StringSectionLines(tokens, 0);
    if k < |lines| {
      assert lines[k] == Do(HALT);
      d := c.(k := k + 1, halted := true);
    } else {
      d := c.(halted := true);
    }
  }

  /** One source step from a matching pair of states: the run of its code. */
  lemma SourceStep(tokens: seq<Token>, s: G.State, v: Vm, c: Cfg) returns (cs: seq<Cfg>)
    requires Runnable(tokens) && Conf(Compiled(tokens), v, c) && Match(tokens, s, c) && NextOf(tokens, s).Some?
    ensures |cs| > 0 && Trail(Compiled(tokens), cs) && cs[0] == c && Match(tokens, NextOf(tokens, s).value, Last(cs))
    ensures Conf(Compiled(tokens), Run(v, |cs| - 1), Last(cs))
    ensures s.at < |tokens| ==> Inside(tokens, s.at, cs) && (|cs| > 1 || tokens[s.at].Label?)
    ensures s.at == |tokens| ==> |cs| == 2
  {
    hide Compiled, After, Settle, LineStep, Unreserved, G.TokenStep;
    if s.at < |tokens| {
      cs := TokenCode(tokens, s, c);
    } else {
      var d := EndCode(tokens, s, c);
      cs := [c, d];
    }
    TrailRuns(Compiled(tokens), v, cs, |cs| - 1);
  }

  lemma MachineAdd(tokens: seq<Token>, m: nat, k: nat)
    requires Runnable(tokens)
    ensures Machine(tokens, m + k) == Run(Machine(tokens, m), k)
  {
    hide Compiled, AllOk, Boot;
    RunAdd(Boot(Assemble(Compiled(tokens)).value), m, k);
  }

  lemma SourceZero(tokens: seq<Token>)
    ensures Source(tokens, 0) == Some(G.Initial())
  {
  }

  lemma SourceNext(tokens: seq<Token>, n: nat)
    requires Source(tokens, n + 1).Some? || (Source(tokens, n).Some? && NextOf(tokens, Source(tokens, n).value).Some?)
    ensures Source(tokens, n).Some? && |Source(tokens, n).value.vars| == G.VARS
    ensures Source(tokens, n + 1) == NextOf(tokens, Source(tokens, n).value)
  {
    hide WorldOf, G.Next;
  }

  // ---- Forward: the machine does what the source does ----

  lemma {:induction false} Reaches(tokens: seq<Token>, n: nat) returns (m: nat, c: Cfg)
    requires Runnable(tokens) && Source(tokens, n).Some?
    ensures m >= 3 && Conf(Compiled(tokens), Machine(tokens, m), c) && Match(tokens, Source(tokens, n).value, c)
  {
    hide Runnable, Conf, Match, Step, Compiled, Machine, NextOf, Source;
    if n == 0 {
      assert Source(tokens, 0) == Some(G.Initial()) by { SourceZero(tokens); }
      m := 3;
      c := Started(tokens);
    } else {
      SourceNext(tokens, n - 1);
      m, c := Reaches(tokens, n - 1);
      var s := Source(tokens, n - 1).value;
      var cs := SourceStep(tokens, s, Machine(tokens, m), c);
      MachineAdd(tokens, m, |cs| - 1);
      m, c := m + (|cs| - 1), Last(cs);
    }
  }

  lemma RelOf(tokens: seq<Token>, s: G.State, v: Vm, c: Cfg)
    requires Conf(Compiled(tokens), v, c) && Match(tokens, s, c)
    ensures Rel(tokens, s, v)
  {
    hide Compiled, After, Loaded;
    forall i | 1 <= i <= 26 ensures v.regs[i] == s.vars[i - 1] {
      assert v.regs[i] == v.regs[..USER_REGS][i];
    }
  }

  /** Compiler correctness: whatever the source program reaches, loops included, the machine
      running the assembled words reaches the corresponding state. */
  lemma CompilerCorrect(tokens: seq<Token>, n: nat) returns (m: nat)
    requires Runnable(tokens) && Source(tokens, n).Some?
    ensures Rel(tokens, Source(tokens, n).value, Machine(tokens, m))
  {
    hide Runnable, Conf, Match, Rel;
    var c: Cfg;
    m, c := Reaches(tokens, n);
    RelOf(tokens, Source(tokens, n).value, Machine(tokens, m), c);
  }

  // ---- Backward: nothing else happens ----

  /** What the machine may be doing after `m` cycles, when it passed the boundary before the n-th
      token in cycle `m0`: it is inside that token's code, or at the end of the program, or the
      source program has stopped or left the model there. */
  ghost predicate Explained(tokens: seq<Token>, n: nat, m0: nat, m: nat, c: Cfg)
    requires Runnable(tokens)
  {
    && m0 <= m && Source(tokens, n).Some?
    && Conf(Compiled(tokens), Machine(tokens, m0), c) && Match(tokens, Source(tokens, n).value, c)
    && var s := Source(tokens, n).value;
    || NextOf(tokens, s).None?
    || (s.at == |tokens| && m == m0)
    || (s.at < |tokens| && exists d :: Conf(Compiled(tokens), Machine(tokens, m), d) && InCode(tokens, s.at, c, d))
  }

  lemma {:induction false} Account(tokens: seq<Token>, n0: nat, m0: nat, c0: Cfg, m: nat) returns (n: nat, k: nat, c: Cfg)
    requires Runnable(tokens) && m0 <= m && Source(tokens, n0).Some?
    requires Conf(Compiled(tokens), Machine(tokens, m0), c0) && Match(tokens, Source(tokens, n0).value, c0)
    ensures n0 <= n && m0 <= k && Explained(tokens, n, k, m, c)
    decreases m - m0, |tokens| - Source(tokens, n0).value.at
  {
    hide Runnable, Conf, Match, InCode, Step, Compiled, NextOf, Source, Trail, Machine;
    var s := Source(tokens, n0).value;
    n, k, c := n0, m0, c0;
    assert s.at <= |tokens| by { MatchedAt(tokens, s, c0); }
    if NextOf(tokens, s).Some? && (m > m0 || s.at < |tokens|) {
      var cs := SourceStep(tokens, s, Machine(tokens, m0), c0);
      MachineAdd(tokens, m0, |cs| - 1);
      if m - m0 < |cs| - 1 {
        MachineAdd(tokens, m0, m - m0);
        TrailRuns(Compiled(tokens), Machine(tokens, m0), cs, m - m0);
        if s.at < |tokens| {
          assert InCode(tokens, s.at, cs[0], cs[m - m0]);
        }
      } else {
        if |cs| == 1 {
          LabelStep(tokens, s);
        }
        SourceNext(tokens, n0);
        n, k, c := Account(tokens, n0 + 1, m0 + (|cs| - 1), Last(cs), m);
      }
    }
  }

  lemma MatchedAt(tokens: seq<Token>, s: G.State, c: Cfg)
    requires Match(tokens, s, c)
    ensures s.at <= |tokens|
  {
  }

  lemma LabelStep(tokens: seq<Token>, s: G.State)
    requires |s.vars| == G.VARS && s.at < |tokens| && tokens[s.at].Label? && NextOf(tokens, s).Some?
    ensures NextOf(tokens, s).value.at == s.at + 1
  {
    hide WorldOf;
  }

  /** Every machine state of every run is accounted for by the source program. */
  lemma EveryCycle(tokens: seq<Token>, m: nat) returns (n: nat, m0: nat, c: Cfg)
    requires Runnable(tokens) && m >= 3
    ensures Explained(tokens, n, m0, m, c)
  {
    hide Runnable, Explained, Conf, Match;
    var c0 := Started(tokens);
    SourceZero(tokens);
    n, m0, c := Account(tokens, 0, 3, c0, m);
  }

  // ---- Consequences ----

  lemma HaltedStays(tokens: seq<Token>, m0: nat, m: nat)
    requires Runnable(tokens) && m0 <= m && Machine(tokens, m0).status == Halted
    ensures Machine(tokens, m) == Machine(tokens, m0)
  {
    hide Runnable, Boot, Compiled;
    MachineAdd(tokens, m0, m - m0);
    RunStopped(Machine(tokens, m0), m - m0);
  }

  lemma InCodeVars(tokens: seq<Token>, s: G.State, c: Cfg, d: Cfg, v: Vm, i: nat)
    requires Match(tokens, s, c) && s.at < |tokens| && InCode(tokens, s.at, c, d) && Conf(Compiled(tokens), v, d)
    requires 1 <= i <= 26 && (25 <= i ==> !ScratchUser(tokens[s.at]))
    ensures v.regs[i] == s.vars[i - 1]
  {
    hide Compiled, After, Loaded, Settle;
    assert v.regs[..USER_REGS][i] == d.rs[i] == c.rs[i];
  }

  /** In the middle of a token's code, too, r1..r24 are a..x; so are r25 and r26 for y and z unless
      the token is a loop, a rectangle or a text. */
  lemma VariablesThroughout(tokens: seq<Token>, n: nat, m0: nat, m: nat, c: Cfg, i: nat)
    requires Runnable(tokens) && Explained(tokens, n, m0, m, c) && 1 <= i <= 26
    requires NextOf(tokens, Source(tokens, n).value).Some? || Source(tokens, n).value.halted
    requires 25 <= i && Source(tokens, n).value.at < |tokens| ==> !ScratchUser(tokens[Source(tokens, n).value.at])
    ensures Machine(tokens, m).regs[i] == Source(tokens, n).value.vars[i - 1]
  {
    hide Runnable, Machine, Source, NextOf, Compiled, After, Conf, Match, InCode;
    var s := Source(tokens, n).value;
    RelOf(tokens, s, Machine(tokens, m0), c);
    if s.halted {
      HaltedStays(tokens, m0, m);
    } else if s.at < |tokens| {
      var d :| Conf(Compiled(tokens), Machine(tokens, m), d) && InCode(tokens, s.at, c, d);
      InCodeVars(tokens, s, c, d, Machine(tokens, m), i);
    }
  }

  /** A token that is not the store to a variable leaves it alone, except that `L`, `[` and `{`
      overwrite y and z, which the register mapping in the source promises to keep. */
  lemma OnlyStoreWrites(tokens: seq<Token>, s: G.State, i: nat)
    requires |s.vars| == G.VARS && NextOf(tokens, s).Some? && 1 <= i <= 26
    ensures NextOf(tokens, s).value.vars[i - 1] != s.vars[i - 1] ==>
              s.at < |tokens| && (tokens[s.at] == StoreReg(i) || (25 <= i && ScratchUser(tokens[s.at])))
    ensures s.at < |tokens| && !s.halted && tokens[s.at].Loop? ==>
              NextOf(tokens, s).value.vars[24..26] == [0x00FF00, 1]
    ensures s.at < |tokens| && !s.halted && (tokens[s.at].Rectf? || tokens[s.at].DrawText?) ==>
              NextOf(tokens, s).value.vars[24..26] == s.stack[|s.stack| - 5..|s.stack| - 3]
  {
    hide WorldOf;
  }

  /** A variable that no token of the program writes is zero in every cycle, until the source program
      is stuck or falls into its strings. */
  lemma Unwritten(tokens: seq<Token>, i: nat, m: nat)
    requires Runnable(tokens) && 1 <= i <= 26 && !LostBy(tokens, m)
    requires forall j :: 0 <= j < |tokens| ==> tokens[j] != StoreReg(i) && (25 <= i ==> !ScratchUser(tokens[j]))
    ensures Machine(tokens, m).regs[i] == 0
  {
    hide Machine, Source, NextOf, Compiled, After, Runnable, Conf, Match, InCode, LostBy, StuckBy;
    if m < 3 {
      EarlyZero(tokens, i, m);
    } else {
      var n: nat, m0: nat, c: Cfg := EveryCycle(tokens, m);
      Ended(tokens, n, m0, m, c);
      UnwrittenSource(tokens, i, n);
      VariablesThroughout(tokens, n, m0, m, c, i);
    }
  }

  /** The prologue touches no variable. */
  lemma EarlyZero(tokens: seq<Token>, i: nat, m: nat)
    requires Runnable(tokens) && 1 <= i <= 26 && m < 3
    ensures Machine(tokens, m).regs[i] == 0
  {
    hide Compiled, After, AllOk, Offset, Step, Unreserved;
    var lines := Compiled(tokens);
    BootLoads(lines);
    PrologueLines(tokens);
    var v0 := Boot(Image(lines, |lines|));
    OffsetZero(lines);
    LdiCycle(v0, lines, 0, 30, 0x8000);
    var v1 := Step(v0);
    LdiCycle(v1, lines, 1, R29, 0);
    assert Run(v0, 0) == v0 && Run(v0, 1) == Run(v1, 0) == v1 && Run(v0, 2) == Run(v1, 1) == Run(Step(v1), 0);
    assert v0.regs[i] == v0.regs[..USER_REGS][i];
  }

  lemma {:induction false} UnwrittenSource(tokens: seq<Token>, i: nat, n: nat)
    requires Source(tokens, n).Some? && 1 <= i <= 26
    requires forall j :: 0 <= j < |tokens| ==> tokens[j] != StoreReg(i) && (25 <= i ==> !ScratchUser(tokens[j]))
    ensures |Source(tokens, n).value.vars| == G.VARS && Source(tokens, n).value.vars[i - 1] == 0
  {
    hide Source, NextOf;
    if n == 0 {
      SourceZero(tokens);
    } else {
      SourceNext(tokens, n - 1);
      UnwrittenSource(tokens, i, n - 1);
      OnlyStoreWrites(tokens, Source(tokens, n - 1).value, i);
    }
  }

  // ---- Staying out of the string data ----

  /** The source program only ever gets stuck by running off its last token. */
  ghost predicate OnlyFalls(tokens: seq<Token>) {
    forall n: nat :: Source(tokens, n).Some? ==>
      var s := Source(tokens, n).value; s.halted || s.at == |tokens| || NextOf(tokens, s).Some?
  }

  /** The source program is about to run off its last token into string data. */
  ghost predicate Falls(tokens: seq<Token>, n: nat) {
    && Source(tokens, n).Some?
    && var s := Source(tokens, n).value;
    !s.halted && s.at == |tokens| && WorldOf(tokens).fallsIntoText
  }

  /** The machine is about to execute a word of the string section. */
  ghost predicate InText(tokens: seq<Token>, v: Vm) {
    StringBase(tokens) <= |Compiled(tokens)| && v.status == Running && v.pc >= Offset(Compiled(tokens), StringBase(tokens))
  }

  lemma InCodeOutsideText(tokens: seq<Token>, j: nat, c: Cfg, d: Cfg, v: Vm)
    requires Runnable(tokens) && j < |tokens| && Conf(Compiled(tokens), v, d) && InCode(tokens, j, c, d)
    ensures v.pc < Offset(Compiled(tokens), StringBase(tokens))
  {
    hide Compiled, After, AllOk, Image, Unreserved;
    var lines := Compiled(tokens);
    var k := Settle(lines, d.k);
    BlockLines(tokens, j);
    assert LineSize(lines[k]) > 0 by { NonLabelSize(lines[k]); }
    OffsetMonotone(lines, k + 1, StringBase(tokens));
  }

  lemma NonLabelSize(l: Line)
    requires !l.Label?
    ensures LineSize(l) > 0
  {
  }

  /** With strings present, the machine executes string data, other than after a token without a
      meaning here, exactly when the source program runs off its end and the text already mentioned
      HALT, so that no trailing HALT was added. */
  lemma TextReached(tokens: seq<Token>)
    requires Runnable(tokens) && StringsOf(tokens) != []
    ensures (exists m: nat :: m >= 3 && !StuckBy(tokens, m) && InText(tokens, Machine(tokens, m)))
            <==> (exists n: nat :: Falls(tokens, n))
    ensures OnlyFalls(tokens) ==>
      ((exists m: nat :: m >= 3 && InText(tokens, Machine(tokens, m))) <==> (exists n: nat :: Falls(tokens, n)))
  {
    hide Runnable, Machine, InText, Falls, OnlyFalls, StringsOf, StuckBy;
    if n: nat :| Falls(tokens, n) {
      var m := FallEntersText(tokens, n);
      FallNotStuck(tokens, n, m);
    }
    if m: nat :| m >= 3 && !StuckBy(tokens, m) && InText(tokens, Machine(tokens, m)) {
      var n := TextMeansFall(tokens, m);
    }
    if OnlyFalls(tokens) {
      forall m: nat ensures !StuckBy(tokens, m) {
        NeverStuck(tokens, m);
      }
    }
  }

  // ---- Where a run ends ----

  /** The machine reached, at cycle `m0`, a source state that has no successor and is not halted. */
  ghost predicate EndedAt(tokens: seq<Token>, n: nat, m0: nat)
    requires Runnable(tokens)
  {
    && Source(tokens, n).Some? && !Source(tokens, n).value.halted && NextOf(tokens, Source(tokens, n).value).None?
    && exists c :: Conf(Compiled(tokens), Machine(tokens, m0), c) && Match(tokens, Source(tokens, n).value, c)
  }

  /** By cycle `m` the source program was stuck at one of its tokens. */
  ghost predicate StuckBy(tokens: seq<Token>, m: nat)
    requires Runnable(tokens)
  {
    exists n: nat, m0: nat :: m0 <= m && EndedAt(tokens, n, m0) && Source(tokens, n).value.at < |tokens|
  }

  /** By cycle `m` it was stuck, or had fallen into string data. */
  ghost predicate LostBy(tokens: seq<Token>, m: nat)
    requires Runnable(tokens)
  {
    exists n: nat, m0: nat :: m0 <= m && EndedAt(tokens, n, m0)
  }

  lemma {:induction false} SourceBefore(tokens: seq<Token>, n: nat, k: nat)
    requires Source(tokens, n).Some? && k <= n
    ensures Source(tokens, k).Some?
    ensures k < n ==> NextOf(tokens, Source(tokens, k).value).Some?
    decreases n
  {
    hide Source, NextOf;
    if k < n {
      SourceNext(tokens, n - 1);
      SourceBefore(tokens, n - 1, k);
    }
  }

  /** A run has one end. */
  lemma EndUnique(tokens: seq<Token>, n: nat, k: nat)
    requires Source(tokens, n).Some? && NextOf(tokens, Source(tokens, n).value).None?
    requires Source(tokens, k).Some? && NextOf(tokens, Source(tokens, k).value).None?
    ensures n == k
  {
    hide Source, NextOf;
    if k < n {
      SourceBefore(tokens, n, k);
    } else {
      SourceBefore(tokens, k, n);
    }
  }

  lemma FallNotStuck(tokens: seq<Token>, n: nat, m: nat)
    requires Runnable(tokens) && Falls(tokens, n)
    ensures !StuckBy(tokens, m)
  {
    hide Runnable, Source, Machine, Conf, Match, WorldOf;
    forall k: nat, m0: nat | EndedAt(tokens, k, m0) ensures Source(tokens, k).value.at == |tokens| {
      EndUnique(tokens, n, k);
    }
  }

  lemma NeverStuck(tokens: seq<Token>, m: nat)
    requires Runnable(tokens) && OnlyFalls(tokens)
    ensures !StuckBy(tokens, m)
  {
    hide Runnable, Source, Machine, Conf, Match, NextOf;
  }

  ghost predicate HaltsAt(tokens: seq<Token>, n: nat) {
    Source(tokens, n).Some? && Source(tokens, n).value.halted
  }

  /** The machine halts, other than after the source program got lost, exactly when that halts; and
      then stack, variables and drawings agree. */
  lemma HaltsIff(tokens: seq<Token>)
    requires Runnable(tokens)
    ensures (exists m: nat :: Machine(tokens, m).status == Halted && !LostBy(tokens, m))
            <==> (exists n: nat :: HaltsAt(tokens, n))
    ensures forall m: nat, n: nat | Machine(tokens, m).status == Halted && HaltsAt(tokens, n) ::
              Rel(tokens, Source(tokens, n).value, Machine(tokens, m))
  {
    hide Runnable, Machine, HaltsAt, LostBy, Rel, Source;
    if n: nat :| HaltsAt(tokens, n) {
      var m := HaltReached(tokens, n);
      HaltNotLost(tokens, n, m);
    }
    if m: nat :| Machine(tokens, m).status == Halted && !LostBy(tokens, m) {
      var n := HaltMeansHalt(tokens, m);
    }
    forall m: nat, n: nat | Machine(tokens, m).status == Halted && HaltsAt(tokens, n)
      ensures Source(tokens, n).Some? && Rel(tokens, Source(tokens, n).value, Machine(tokens, m))
    {
      var k := HaltReached(tokens, n);
      HaltedStays(tokens, k, if k < m then m else k);
      HaltedStays(tokens, m, if k < m then m else k);
    }
  }

  lemma HaltReached(tokens: seq<Token>, n: nat) returns (m: nat)
    requires Runnable(tokens) && HaltsAt(tokens, n)
    ensures Source(tokens, n).Some? && Machine(tokens, m).status == Halted
    ensures Rel(tokens, Source(tokens, n).value, Machine(tokens, m))
  {
    hide Runnable, Machine, Source, Compiled, WorldOf, After;
    m := CompilerCorrect(tokens, n);
  }

  lemma HaltNotLost(tokens: seq<Token>, n: nat, m: nat)
    requires Runnable(tokens) && HaltsAt(tokens, n)
    ensures !LostBy(tokens, m)
  {
    hide Runnable, Source, Machine, Conf, Match, WorldOf;
    forall k: nat, m0: nat ensures !EndedAt(tokens, k, m0) {
      if EndedAt(tokens, k, m0) {
        EndUnique(tokens, n, k);
      }
    }
  }

  lemma HaltMeansHalt(tokens: seq<Token>, m: nat) returns (n: nat)
    requires Runnable(tokens) && Machine(tokens, m).status == Halted && !LostBy(tokens, m)
    ensures HaltsAt(tokens, n)
  {
    hide Machine, Source, NextOf, Compiled, Match, Runnable, InCode, Loaded, Offset, MaxDepth, CodeSize, LostBy, StuckBy;
    EarlyRuns(tokens, m);
    var m0: nat, c: Cfg;
    n, m0, c := EveryCycle(tokens, m);
    Ended(tokens, n, m0, m, c);
    var s := Source(tokens, n).value;
    MatchedHalt(tokens, s, c);
    if !s.halted && s.at < |tokens| {
      var d :| Conf(Compiled(tokens), Machine(tokens, m), d) && InCode(tokens, s.at, c, d);
      InCodeRuns(tokens, s.at, c, d);
    }
  }

  /** A matched source state without a successor is halted, or the run is lost there. */
  lemma Ended(tokens: seq<Token>, n: nat, m0: nat, m: nat, c: Cfg)
    requires Runnable(tokens) && Source(tokens, n).Some? && m0 <= m
    requires Conf(Compiled(tokens), Machine(tokens, m0), c) && Match(tokens, Source(tokens, n).value, c)
    ensures Source(tokens, n).value.halted || NextOf(tokens, Source(tokens, n).value).Some?
         || (LostBy(tokens, m) && (Source(tokens, n).value.at < |tokens| ==> StuckBy(tokens, m)))
  {
    hide Machine, Source, NextOf, Compiled, Match, Runnable, Conf;
    if !Source(tokens, n).value.halted && NextOf(tokens, Source(tokens, n).value).None? {
      assert EndedAt(tokens, n, m0);
    }
  }

  lemma EarlyRuns(tokens: seq<Token>, m: nat)
    requires Runnable(tokens)
    ensures Machine(tokens, m).status == Halted ==> m >= 3
  {
    hide Machine, Compiled, Match, Runnable, Loaded, Offset, MaxDepth, CodeSize;
    var c := Started(tokens);
    InitialRuns(tokens, c);
    if Machine(tokens, m).status == Halted && m < 3 {
      HaltedStays(tokens, m, 3);
    }
  }

  lemma InitialRuns(tokens: seq<Token>, c: Cfg)
    requires Match(tokens, G.Initial(), c)
    ensures !c.halted
  {
    hide Compiled, After;
  }

  lemma MatchedHalt(tokens: seq<Token>, s: G.State, c: Cfg)
    requires Match(tokens, s, c)
    ensures c.halted == s.halted
  {
    hide Compiled, After;
  }

  lemma InCodeRuns(tokens: seq<Token>, j: nat, c: Cfg, d: Cfg)
    requires j < |tokens| && InCode(tokens, j, c, d)
    ensures !d.halted
  {
    hide Compiled, After;
  }

  lemma FallEntersText(tokens: seq<Token>, n: nat) returns (m: nat)
    requires Runnable(tokens) && Falls(tokens, n)
    ensures m >= 3 && InText(tokens, Machine(tokens, m))
  {
    hide Machine, Source, Compiled, After, Conf, Match, Runnable;
    var c: Cfg;
    m, c := Reaches(tokens, n);
    RelOf(tokens, Source(tokens, n).value, Machine(tokens, m), c);
  }

  lemma TextMeansFall(tokens: seq<Token>, m: nat) returns (n: nat)
    requires Runnable(tokens) && StringsOf(tokens) != []
    requires m >= 3 && InText(tokens, Machine(tokens, m)) && !StuckBy(tokens, m)
    ensures Falls(tokens, n)
  {
    hide Machine, Source, Compiled, Conf, Match, Runnable, InCode, StringsOf, AnyHalt, LostBy, StuckBy;
    var m0: nat, c: Cfg;
    n, m0, c := EveryCycle(tokens, m);
    Ended(tokens, n, m0, m, c);
    var s := Source(tokens, n).value;
    RelOf(tokens, s, Machine(tokens, m0), c);
    if s.halted {
      HaltedStays(tokens, m0, m);
    } else if s.at < |tokens| {
      var d :| Conf(Compiled(tokens), Machine(tokens, m), d) && InCode(tokens, s.at, c, d);
      InCodeOutsideText(tokens, s.at, c, d, Machine(tokens, m));
    } else if NextOf(tokens, s).Some? {
      TrailerBeforeText(tokens);
    }
  }

  lemma TrailerBeforeText(tokens: seq<Token>)
    requires !AnyHalt(After(tokens, |tokens|).asm)
    ensures Start(tokens, |tokens|) < StringBase(tokens) <= |Compiled(tokens)|
    ensures Offset(Compiled(tokens), Start(tokens, |tokens|)) < Offset(Compiled(tokens), StringBase(tokens))
  {
    hide After, AnyHalt;
    assert Compiled(tokens)[Start(tokens, |tokens|)] == Do(HALT);
  }

  /** Two checks that rule the fall out: a final halt token, or no mention of HALT before. */
  lemma {:induction false} NoFall(tokens: seq<Token>, n: nat)
    requires !AnyHalt(After(tokens, |tokens|).asm) || (tokens != [] && tokens[|tokens| - 1].Halt?)
    ensures !Falls(tokens, n)
  {
    hide Source, After, AnyHalt, StringsOf, NextOf;
    if Falls(tokens, n) {
      if n == 0 {
        SourceZero(tokens);
      } else {
        SourceNext(tokens, n - 1);
        if tokens != [] && tokens[|tokens| - 1].Halt? {
          HaltEnds(tokens, Source(tokens, n - 1).value);
        }
      }
    }
  }

  /** Past a final halt token a program only gets by halting. */
  lemma HaltEnds(tokens: seq<Token>, s: G.State)
    requires tokens != [] && tokens[|tokens| - 1].Halt? && |s.vars| == G.VARS && NextOf(tokens, s).Some?
    ensures NextOf(tokens, s).value.at < |tokens| || NextOf(tokens, s).value.halted
  {
    hide WorldOf, G.LoopCount, G.LoopDraws, G.Arith, G.Truth;
  }

  lemma {:induction false} MentionedUpTo(tokens: seq<Token>, k: nat)
    requires k <= |tokens|
    ensures AnyHalt(After(tokens, k).asm) <==>
            exists j :: 0 <= j < k && (tokens[j].Halt? || exists name <- NamesOf(tokens[j]) :: Contains(name, "HALT"))
  {
    hide Block, Contains;
    if k == 0 {
    } else {
      MentionedUpTo(tokens, k - 1);
      var e := After(tokens, k - 1);
      BlockMentions(tokens[k - 1], e.labels, |e.strings|);
      AnyHaltConcat(e.asm, Code(tokens, k - 1));
    }
  }

  lemma AnyHaltConcat(a: seq<Line>, b: seq<Line>)
    ensures AnyHalt(a + b) <==> AnyHalt(a) || AnyHalt(b)
  {
    hide MentionsHalt;
    if AnyHalt(a) {
      var i :| 0 <= i < |a| && MentionsHalt(a[i]);
      assert MentionsHalt((a + b)[i]);
    }
    if AnyHalt(b) {
      var i :| 0 <= i < |b| && MentionsHalt(b[i]);
      assert MentionsHalt((a + b)[|a| + i]);
    }
  }

  lemma NoHInGenerated(k: nat)
    ensures !Contains(Gl(k), "HALT") && !Contains(StrName(k), "HALT")
  {
    NoH(Gl(k));
    NoH(StrName(k));
  }

  lemma NoH(s: string)
    requires 'H' !in s
    ensures !Contains(s, "HALT")
  {
    forall i | 0 <= i <= |s| ensures !("HALT" <= s[i..]) {
      if i < |s| {
        assert s[i..][0] == s[i];
      }
    }
  }

  /** The code of a token mentions HALT only if it is the halt token or carries such a name. */
  lemma BlockMentions(t: Token, c: nat, n: nat)
    ensures AnyHalt(Block(t, c, n)) <==> t.Halt? || exists name <- NamesOf(t) :: Contains(name, "HALT")
  {
    hide Contains, Gl, StrName;
    NoHInGenerated(c);
    NoHInGenerated(c + 1);
    NoHInGenerated(n);
    var b := Block(t, c, n);
    if t.Halt? || t.Label? || t.Jump? {
      assert MentionsHalt(b[0]) <==> AnyHalt(b);
      assert t.Halt? || NamesOf(t)[0] == t.name;
    } else if t.Jz? || t.Jnz? {
      assert MentionsHalt(b[1]) <==> AnyHalt(b);
      assert NamesOf(t)[0] == t.name;
    }
  }
}
