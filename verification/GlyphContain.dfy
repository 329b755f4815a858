/** The machine by itself: whatever its stack holds, its pc stays at the program's own instructions. */
module GlyphContain {
  import opened Words
  import opened GlyphVm
  import opened Assembler
  import opened GlyphCompiler
  import opened GlyphLabels
  import opened LineMachine
  import opened GlyphSim
  import opened GlyphRuns
  import G = GlyphSource

  /** The code ends in a HALT: the one added at the end, or that of a final halt token. */
  predicate Guarded(tokens: seq<Token>) {
    !AnyHalt(After(tokens, |tokens|).asm) || (tokens != [] && tokens[|tokens| - 1].Halt?)
  }

  /** Jumps go to labels, not to numbers. */
  predicate LabelJumps(tokens: seq<Token>) {
    forall j :: 0 <= j < |tokens| && (tokens[j].Jump? || tokens[j].Jz? || tokens[j].Jnz?) ==> ParseImm(tokens[j].name) == None
  }

  /** The machine is about to execute line `k`, before the string section. */
  ghost predicate AtLine(tokens: seq<Token>, v: Vm, k: nat) {
    k < StringBase(tokens) <= |Compiled(tokens)| && v.pc == Offset(Compiled(tokens), k)
  }

  ghost predicate AtCode(tokens: seq<Token>, v: Vm) {
    v.status == Running ==> exists k: nat :: AtLine(tokens, v, k)
  }

  lemma TextAtEnd(tokens: seq<Token>)
    ensures Start(tokens, |tokens|) <= StringBase(tokens) <= |Compiled(tokens)|
  {
    hide After, AnyHalt;
  }

  lemma LastIsHalt(tokens: seq<Token>)
    requires Guarded(tokens)
    ensures 0 < StringBase(tokens) <= |Compiled(tokens)| && Compiled(tokens)[StringBase(tokens) - 1] == Do(HALT)
  {
    hide After, AnyHalt;
    TextAtEnd(tokens);
    if AnyHalt(After(tokens, |tokens|).asm) {
      var j := |tokens| - 1;
      hide Compiled;
      BlockLines(tokens, j);
      assert Code(tokens, j) == [Do(HALT)];
      assert Compiled(tokens)[Start(tokens, j)] == Code(tokens, j)[0];
    }
  }

  /** Labels before the string section lead to an instruction before it. */
  lemma {:induction false} SettlesBefore(tokens: seq<Token>, k: nat)
    requires Guarded(tokens) && k < StringBase(tokens) <= |Compiled(tokens)|
    ensures Settle(Compiled(tokens), k) < StringBase(tokens)
    ensures Compiled(tokens)[Settle(Compiled(tokens), k)].Ins?
    decreases StringBase(tokens) - k
  {
    hide After, AnyHalt, Compiled, StringBase, Guarded;
    LastIsHalt(tokens);
    if Compiled(tokens)[k].Label? {
      SettlesBefore(tokens, k + 1);
    } else {
      InstructionBefore(tokens, k);
    }
  }

  lemma InstructionBefore(tokens: seq<Token>, k: nat)
    requires k < StringBase(tokens) <= |Compiled(tokens)| && !Compiled(tokens)[k].Label?
    ensures Compiled(tokens)[k].Ins?
  {
    hide After, AnyHalt, Compiled, Block;
    var p := Locate(tokens, k);
    if p.InBlock? {
      NoTextInBlock(tokens[p.j], After(tokens, p.j).labels, |After(tokens, p.j).strings|, p.t);
    }
  }

  lemma NoTextInBlock(t: Token, c: nat, n: nat, i: nat)
    requires i < |Block(t, c, n)|
    ensures !Block(t, c, n)[i].Str?
  {
    hide Gl, StrName;
  }

  // ---- Jumps ----

  /** In a block, jumps go to the block's own labels or to the name its token carries. */
  lemma BlockJumps(t: Token, c: nat, n: nat, i: nat)
    requires i < |Block(t, c, n)| && JumpName(Block(t, c, n)[i]).Some?
    ensures var name := JumpName(Block(t, c, n)[i]).value;
            || (Fresh(t) > 0 && name == Gl(c)) || (Fresh(t) > 1 && name == Gl(c + 1))
            || ((t.Jump? || t.Jz? || t.Jnz?) && name == t.name)
  {
    hide Gl, StrName;
    assert |Block(t, c, n)| <= 12;
  }

  /** A jump in the code goes to a line before the string section. */
  lemma JumpInside(tokens: seq<Token>, k: nat) returns (t: nat)
    requires Runnable(tokens) && LabelJumps(tokens)
    requires k < StringBase(tokens) <= |Compiled(tokens)| && JumpName(Compiled(tokens)[k]).Some?
    ensures t < StringBase(tokens)
    ensures Target(Compiled(tokens), JumpName(Compiled(tokens)[k]).value) == Some(Offset(Compiled(tokens), t))
  {
    hide After, AnyHalt, Compiled, Block, StringBase, Target, Fresh, LabelPos, Unreserved, LabelJumps;
    var lines := Compiled(tokens);
    var p := Locate(tokens, k);
    var name := JumpName(lines[k]).value;
    TextAtEnd(tokens);
    t := 0;
    match p {
      case Prologue(i) =>
      case Trailer =>
      case StringLabel(i) =>
      case StringText(i) =>
      case InBlock(j, i) =>
        var e := After(tokens, j);
        BlockJumps(tokens[j], e.labels, |e.strings|, i);
        if Fresh(tokens[j]) > 0 && name == Gl(e.labels) {
          t := GeneratedInside(tokens, j, 0);
        } else if Fresh(tokens[j]) > 1 && name == Gl(e.labels + 1) {
          t := GeneratedInside(tokens, j, 1);
        } else {
          t := NamedInside(tokens, j);
        }
    }
  }

  lemma SmallOffset(tokens: seq<Token>, t: nat)
    requires Runnable(tokens) && t <= |Compiled(tokens)|
    ensures Wrap(Offset(Compiled(tokens), t)) == Offset(Compiled(tokens), t)
  {
    hide Compiled, Offset, Image;
    OffsetMonotone(Compiled(tokens), t, |Compiled(tokens)|);
  }

  lemma GeneratedInside(tokens: seq<Token>, j: nat, d: nat) returns (t: nat)
    requires Runnable(tokens) && j < |tokens| && d < Fresh(tokens[j])
    ensures t < Start(tokens, |tokens|)
    ensures Target(Compiled(tokens), Gl(After(tokens, j).labels + d)) == Some(Offset(Compiled(tokens), t))
  {
    hide After, AnyHalt, Compiled, Block, Target, Fresh, LabelPos, Unreserved;
    GeneratedTarget(tokens, j, d);
    t := Start(tokens, j) + LabelPos(tokens[j], d);
    StartsOrdered(tokens, j, |tokens|);
    SmallOffset(tokens, t);
    StartsUpTo(tokens, j + 1);
  }

  lemma StartsUpTo(tokens: seq<Token>, j: nat)
    requires j <= |tokens|
    ensures Start(tokens, j) <= Start(tokens, |tokens|)
  {
    hide After;
    AfterGrows(tokens, j, |tokens|);
  }

  lemma NamedInside(tokens: seq<Token>, j: nat) returns (t: nat)
    requires Runnable(tokens) && LabelJumps(tokens) && j < |tokens|
    requires tokens[j].Jump? || tokens[j].Jz? || tokens[j].Jnz?
    ensures t < Start(tokens, |tokens|)
    ensures Target(Compiled(tokens), tokens[j].name) == Some(Offset(Compiled(tokens), t))
  {
    hide After, AnyHalt, Compiled, Block, Unreserved, ParseImm, Lower, SourceLabel, LastLabel, UserName;
    var name := tokens[j].name;
    UserNameOf(tokens, j);
    AssemblesIff(tokens);
    assert TokenAssembles(tokens, tokens[j]);
    UserTarget(tokens, name);
    var src := SourceLabel(tokens, Lower(name)).value;
    t := Start(tokens, src);
    BlockLines(tokens, src);
    LabelToken(tokens, src);
    StartsUpTo(tokens, src + 1);
    SmallOffset(tokens, t);
  }

  // ---- One cycle ----

  /** What the machine executes at a line, and where the next one starts. */
  lemma CycleAt(tokens: seq<Token>, v: Vm, k: nat) returns (s: nat)
    requires Runnable(tokens) && Guarded(tokens) && Loaded(v.ram, Compiled(tokens))
    requires v.status == Running && AtLine(tokens, v, k)
    ensures s < StringBase(tokens) && Compiled(tokens)[s].Ins? && AsmOk(Compiled(tokens), Compiled(tokens)[s].asm)
    ensures Step(v) == GlyphVm.Exec(v, Resolve(Compiled(tokens), Compiled(tokens)[s].asm), Offset(Compiled(tokens), s + 1))
  {
    hide After, AnyHalt, Compiled, StringBase, Guarded, GlyphVm.Exec, Resolve, Image, AllOk, Offset, AsmOk, Decode;
    s := Settle(Compiled(tokens), k);
    SettlesBefore(tokens, k);
    FetchAt(v.ram, Compiled(tokens), s);
  }

  lemma PlainInstructions(tokens: seq<Token>, s: nat)
    requires Runnable(tokens) && s < StringBase(tokens) <= |Compiled(tokens)| && Compiled(tokens)[s].Ins?
    ensures var a := Compiled(tokens)[s].asm;
            a.Plain? ==> !a.i.JMP? && !a.i.JZ? && !a.i.JNZ? && !a.i.BLT?
  {
    hide After, AnyHalt, Compiled, Block;
    var p := Locate(tokens, s);
    if p.InBlock? && Compiled(tokens)[s].asm.Plain? {
      NoPlainJump(tokens[p.j], After(tokens, p.j).labels, |After(tokens, p.j).strings|, p.t);
    }
  }

  lemma NoPlainJump(t: Token, c: nat, n: nat, i: nat)
    requires i < |Block(t, c, n)| && Block(t, c, n)[i].Ins? && Block(t, c, n)[i].asm.Plain?
    ensures var x := Block(t, c, n)[i].asm.i; !x.JMP? && !x.JZ? && !x.JNZ? && !x.BLT?
  {
    hide Gl, StrName;
  }

  /** One cycle from code before the strings leads to such code again, or stops the machine. */
  lemma StepInside(tokens: seq<Token>, v: Vm, k: nat)
    requires Runnable(tokens) && Guarded(tokens) && LabelJumps(tokens) && Loaded(v.ram, Compiled(tokens))
    requires v.status == Running && AtLine(tokens, v, k)
    ensures AtCode(tokens, Step(v))
    ensures v.regs[SP] > CodeSize(Compiled(tokens)) ==> Loaded(Step(v).ram, Compiled(tokens))
  {
    hide After, AnyHalt, Compiled, StringBase, Guarded, GlyphVm.Exec, Resolve, Offset, AsmOk, Loaded, Target, Step, CodeSize;
    hide Unreserved, LabelJumps, AllOk, Image;
    var lines := Compiled(tokens);
    var s := CycleAt(tokens, v, k);
    TextAtEnd(tokens);
    PlainInstructions(tokens, s);
    var next := Offset(lines, s + 1);
    ResolvedPc(lines, v, lines[s], next);
    if v.regs[SP] > CodeSize(lines) {
      ExecKeepsCode(lines, v, Resolve(lines, lines[s].asm), next);
    }
    LastIsHalt(tokens);
    if s + 1 == StringBase(tokens) {
      HaltStops(lines, v, next);
    } else if Step(v).pc == next {
      assert AtLine(tokens, Step(v), s + 1);
    } else {
      var t := JumpInside(tokens, s);
      assert AtLine(tokens, Step(v), t);
    }
  }

  /** The stack pointer was above the code whenever the machine ran, up to cycle `m`. */
  ghost predicate StackAbove(tokens: seq<Token>, m: nat)
    requires Runnable(tokens)
  {
    forall k: nat :: 3 <= k < m && Machine(tokens, k).status == Running ==>
      Machine(tokens, k).regs[SP] > CodeSize(Compiled(tokens))
  }

  lemma {:induction false} CodeStays(tokens: seq<Token>, m: nat)
    requires Runnable(tokens) && Guarded(tokens) && LabelJumps(tokens) && m >= 3 && StackAbove(tokens, m)
    ensures AtCode(tokens, Machine(tokens, m))
    ensures Machine(tokens, m).status == Running ==> Loaded(Machine(tokens, m).ram, Compiled(tokens))
    decreases m
  {
    hide Runnable, Guarded, LabelJumps, AtLine, Loaded, Machine, Compiled, Step, CodeSize;
    if m == 3 {
      FirstLine(tokens);
    } else {
      CodeStays(tokens, m - 1);
      var v := Machine(tokens, m - 1);
      MachineStep(tokens, m - 1);
      if v.status == Running {
        var k: nat :| AtLine(tokens, v, k);
        StepInside(tokens, v, k);
      }
    }
  }

  lemma MachineStep(tokens: seq<Token>, m: nat)
    requires Runnable(tokens)
    ensures Machine(tokens, m + 1) == Step(Machine(tokens, m))
    ensures Machine(tokens, m).status != Running ==> Machine(tokens, m + 1) == Machine(tokens, m)
  {
    hide Runnable, Boot, Compiled, GlyphVm.Exec, Decode;
    MachineAdd(tokens, m, 1);
    assert Run(Machine(tokens, m), 1) == Run(Step(Machine(tokens, m)), 0);
  }

  /** After the prologue the machine is at the first token's code. */
  lemma FirstLine(tokens: seq<Token>)
    requires Runnable(tokens) && Guarded(tokens)
    ensures AtCode(tokens, Machine(tokens, 3)) && Loaded(Machine(tokens, 3).ram, Compiled(tokens))
  {
    hide Runnable, Guarded, Compiled, StringBase, Machine, Loaded;
    var c := Started(tokens);
    LastIsHalt(tokens);
    PrologueLines(tokens);
    StartedAt(tokens, Machine(tokens, 3), c);
    SettlesBefore(tokens, 3);
    assert AtLine(tokens, Machine(tokens, 3), Settle(Compiled(tokens), 3));
  }

  lemma StartedAt(tokens: seq<Token>, v: Vm, c: Cfg)
    requires Conf(Compiled(tokens), v, c) && Match(tokens, G.Initial(), c) && Start(tokens, 0) == 3 <= |Compiled(tokens)|
    ensures Loaded(v.ram, Compiled(tokens)) && v.pc == Offset(Compiled(tokens), Settle(Compiled(tokens), 3))
  {
    hide Compiled, After, Loaded, MaxDepth;
  }

  /** With a HALT at the end of the code and jumps to labels only, the machine executes nothing but
      the program's own instructions, whatever it pops, for as long as its stack stays above them. */
  lemma Contained(tokens: seq<Token>, m: nat)
    requires Runnable(tokens) && Guarded(tokens) && LabelJumps(tokens) && m >= 3 && StackAbove(tokens, m)
    ensures AtCode(tokens, Machine(tokens, m)) && !InText(tokens, Machine(tokens, m))
  {
    hide Runnable, Guarded, LabelJumps, StackAbove, Machine, Compiled, StringBase, After;
    CodeStays(tokens, m);
    LastIsHalt(tokens);
    var v, lines, base := Machine(tokens, m), Compiled(tokens), StringBase(tokens);
    if v.status == Running {
      var k: nat :| AtLine(tokens, v, k);
      OffsetMonotone(lines, k, base - 1);
      assert Offset(lines, base) == Offset(lines, base - 1) + 1;
    }
  }
}
