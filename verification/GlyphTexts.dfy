/** The words of string literals in memory, at load and throughout a run. */
module GlyphTexts {
  import opened Words
  import opened GlyphVm
  import opened Assembler
  import opened GlyphCompiler
  import opened GlyphLabels
  import opened LineMachine
  import opened GlyphSim
  import opened GlyphRuns
  import G = GlyphSource

  /** The characters of `s` lie in memory from address `a` on, in order, with a zero word behind. */
  ghost predicate TextAt(ram: seq<u32>, a: nat, s: string) {
    && a + |s| < |ram| && ram[a + |s|] == 0
    && forall k :: 0 <= k < |s| ==> ram[a + k] == s[k] as int
  }

  lemma WordsOfText(ram: seq<u32>, a: nat, s: string)
    requires a + |s| + 1 <= |ram| && ram[a..a + |s| + 1] == StrWords(s)
    ensures TextAt(ram, a, s)
  {
    var ws := ram[a..a + |s| + 1];
    assert ws[|s|] == ram[a + |s|];
    forall k | 0 <= k < |s| ensures ram[a + k] == s[k] as int {
      assert ws[k] == ram[a + k];
    }
  }

  lemma LabelTakesNoRoom(lines: seq<Line>, k: nat)
    requires k + 1 < |lines| && lines[k].Label? && lines[k + 1].Str?
    ensures Offset(lines, k + 1) == Offset(lines, k)
    ensures Offset(lines, k + 2) == Offset(lines, k) + |lines[k + 1].text| + 1
  {
  }

  lemma TextLine(ram: seq<u32>, lines: seq<Line>, k: nat, s: string)
    requires Loaded(ram, lines) && CodeSize(lines) < TWO_32
    requires k + 1 < |lines| && lines[k].Label? && lines[k + 1] == Str(s)
    ensures Wrap(Offset(lines, k)) == Offset(lines, k) && TextAt(ram, Offset(lines, k), s)
  {
    hide Image, Offset, StrWords, TextAt;
    LineAt(ram, lines, k + 1);
    LabelTakesNoRoom(lines, k);
    OffsetMonotone(lines, k, |lines|);
    assert LineOk(lines, lines[k + 1]);
    WordsOfText(ram, Offset(lines, k), s);
  }

  /** Wherever the compiled words are in memory, the i-th literal lies at the address its name
      resolves to. */
  lemma TextLoaded(tokens: seq<Token>, ram: seq<u32>, i: nat)
    requires Unreserved(tokens) && Loaded(ram, Compiled(tokens)) && CodeSize(Compiled(tokens)) < TWO_32
    requires i < |StringsOf(tokens)|
    ensures Target(Compiled(tokens), StrName(i)).Some?
    ensures Target(Compiled(tokens), StrName(i)).value == TextOffset(tokens, i)
    ensures TextAt(ram, TextOffset(tokens, i), StringsOf(tokens)[i])
  {
    hide Compiled, StringBase, StringsOf, Unreserved, StrName, Target, Loaded, AllOk, Offset, TextAt, CodeSize;
    StringTarget(tokens, i);
    StringSectionLines(tokens, i);
    TextLine(ram, Compiled(tokens), StringBase(tokens) + 2 * i, StringsOf(tokens)[i]);
  }

  // ---- Throughout a run ----

  lemma FitsWord(tokens: seq<Token>)
    requires Runnable(tokens)
    ensures Unreserved(tokens) && CodeSize(Compiled(tokens)) < TWO_32 && AllOk(Compiled(tokens))
    ensures CodeSize(Compiled(tokens)) < STACK_TOP
  {
    hide Compiled, Unreserved, AllOk, Offset;
  }

  lemma LoadedNow(tokens: seq<Token>, v: Vm, c: Cfg)
    requires Conf(Compiled(tokens), v, c)
    ensures Loaded(v.ram, Compiled(tokens))
  {
    hide Compiled, Loaded;
  }

  /** The compiled words are still there in every cycle until the source program is stuck or falls into
      its strings. */
  lemma LoadedThroughout(tokens: seq<Token>, m: nat)
    requires Runnable(tokens) && !LostBy(tokens, m)
    ensures Loaded(Machine(tokens, m).ram, Compiled(tokens))
  {
    hide Machine, Source, NextOf, Compiled, Runnable, Conf, Match, InCode, LostBy, StuckBy, Loaded;
    if m < 3 {
      LoadedEarly(tokens, m);
    } else {
      var n: nat, m0: nat, c: Cfg := EveryCycle(tokens, m);
      Ended(tokens, n, m0, m, c);
      LoadedNow(tokens, Machine(tokens, m0), c);
      var s := Source(tokens, n).value;
      MatchedHalt(tokens, s, c);
      if s.halted {
        HaltedMachine(tokens, m0, c);
        HaltedStays(tokens, m0, m);
      } else if s.at < |tokens| {
        var d :| Conf(Compiled(tokens), Machine(tokens, m), d) && InCode(tokens, s.at, c, d);
        LoadedNow(tokens, Machine(tokens, m), d);
      }
    }
  }

  lemma HaltedMachine(tokens: seq<Token>, m: nat, c: Cfg)
    requires Runnable(tokens) && Conf(Compiled(tokens), Machine(tokens, m), c) && c.halted
    ensures Machine(tokens, m).status == Halted
  {
    hide Machine, Compiled, Loaded, Runnable;
  }

  lemma LoadedEarly(tokens: seq<Token>, m: nat)
    requires Runnable(tokens) && m < 3
    ensures Loaded(Machine(tokens, m).ram, Compiled(tokens))
  {
    hide Compiled, After, AllOk, Offset, Step, Unreserved, Loaded;
    var lines := Compiled(tokens);
    BootLoads(lines);
    PrologueLines(tokens);
    var v0 := Boot(Image(lines, |lines|));
    OffsetZero(lines);
    LdiCycle(v0, lines, 0, 30, 0x8000);
    var v1 := Step(v0);
    LdiCycle(v1, lines, 1, R29, 0);
    assert Run(v0, 0) == v0 && Run(v0, 1) == Run(v1, 0) == v1 && Run(v0, 2) == Run(v1, 1) == Run(Step(v1), 0);
  }

  /** So are the characters of every literal. */
  lemma TextThroughout(tokens: seq<Token>, m: nat, i: nat)
    requires Runnable(tokens) && !LostBy(tokens, m) && i < |StringsOf(tokens)|
    ensures Target(Compiled(tokens), StrName(i)).Some?
    ensures TextAt(Machine(tokens, m).ram, Target(Compiled(tokens), StrName(i)).value, StringsOf(tokens)[i])
  {
    hide Machine, Compiled, Runnable, LostBy, Loaded, TextAt, TextOffset, StringsOf, Target, StrName, CodeSize, AllOk, Unreserved;
    FitsWord(tokens);
    LoadedThroughout(tokens, m);
    TextLoaded(tokens, Machine(tokens, m).ram, i);
  }

  /** After a string token the machine's top of stack is the address of that token's characters. */
  lemma StringPushed(tokens: seq<Token>, n: nat) returns (m: nat)
    requires Runnable(tokens) && Source(tokens, n).Some? && Source(tokens, n + 1).Some?
    requires var s := Source(tokens, n).value; s.at < |tokens| && tokens[s.at].StringLiteral?
    ensures var s, t := Source(tokens, n).value, Source(tokens, n + 1).value;
            && Rel(tokens, t, Machine(tokens, m)) && |t.stack| == |s.stack| + 1
            && TextAt(Machine(tokens, m).ram, t.stack[|s.stack|], tokens[s.at].text)
  {
    hide Machine, Compiled, Runnable, Loaded, TextAt, Rel, Conf, Match, CodeSize, AllOk, Unreserved, Source;
    var c: Cfg;
    m, c := Reaches(tokens, n + 1);
    RelOf(tokens, Source(tokens, n + 1).value, Machine(tokens, m), c);
    LoadedNow(tokens, Machine(tokens, m), c);
    FitsWord(tokens);
    SourceNext(tokens, n);
    var s := Source(tokens, n).value;
    PushedOffset(tokens, s);
    StringOfToken(tokens, s.at);
    TextLoaded(tokens, Machine(tokens, m).ram, |After(tokens, s.at).strings|);
  }

  lemma PushedOffset(tokens: seq<Token>, s: G.State)
    requires |s.vars| == G.VARS && s.at < |tokens| && tokens[s.at].StringLiteral? && NextOf(tokens, s).Some?
    ensures NextOf(tokens, s).value.stack == s.stack + [TextOffset(tokens, |After(tokens, s.at).strings|)]
  {
    hide Compiled, After, TextOffset, AnyHalt, MaxDepth;
    StringNumber(tokens, s.at);
  }
}
