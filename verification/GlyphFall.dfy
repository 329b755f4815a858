/** A program with a string and a jump that runs into its own string data. */
module GlyphFall {
  import opened Words
  import opened GlyphVm
  import opened Assembler
  import opened GlyphCompiler
  import opened GlyphLabels
  import opened GlyphSim
  import opened GlyphRuns
  import G = GlyphSource

  /** The jump's name contains HALT, so no trailing HALT is added. */
  const FALLING: seq<Token> := [StringLiteral("x"), Jump("HALT"), Token.Label("HALT")]

  const BEFORE: seq<Line> :=
    PROLOGUE + [Ins(LdiL(R27, "_str0")), Do(PUSH(R27)), Ins(JmpL("HALT")), Line.Label("HALT")]

  lemma FallingCode()
    ensures After(FALLING, 3) == Emitted(BEFORE, 0, ["x"]) && StrName(0) == "_str0"
    ensures AnyHalt(BEFORE) && Compiled(FALLING) == BEFORE + [Line.Label("_str0"), Str("x")]
  {
    var t := FALLING;
    assert StrName(0) == "_str0" by { assert Dec(0) == "0"; }
    assert After(t, 0) == Emitted(PROLOGUE, 0, []);
    assert After(t, 1) == Emitted(PROLOGUE + [Ins(LdiL(R27, "_str0")), Do(PUSH(R27))], 0, ["x"]);
    assert After(t, 2) == Emitted(PROLOGUE + [Ins(LdiL(R27, "_str0")), Do(PUSH(R27)), Ins(JmpL("HALT"))], 0, ["x"]);
    assert After(t, 3) == Emitted(BEFORE, 0, ["x"]);
    assert Contains("HALT", "HALT") by { assert "HALT"[0..] == "HALT"; }
    assert MentionsHalt(BEFORE[5]);
    assert StringSection(["x"], 1) == [Line.Label("_str0"), Str("x")];
  }

  lemma HaltName()
    ensures Lower("HALT") == "halt" && ParseImm("HALT") == None
    ensures SourceLabel(FALLING, "halt") == Some(2)
  {
    assert Lower("HALT") == "halt";
    assert !IsDigit("HALT"[0]);
  }

  lemma FallingUnreserved()
    ensures Valid(FALLING) && Unreserved(FALLING)
  {
    hide UserName;
    HaltIsUserName();
    forall j | 0 <= j < |FALLING| ensures forall name <- NamesOf(FALLING[j]) :: name == "HALT" {
    }
  }

  lemma HaltIsUserName()
    ensures UserName(FALLING, "HALT")
  {
    hide After, StringsOf, Gl, StrName, Lower, SourceLabel, ParseImm;
    FallingTables();
    HaltName();
    assert "halt"[0] != "_str0"[0];
  }

  lemma FallingTables()
    ensures After(FALLING, |FALLING|).labels == 0 && |StringsOf(FALLING)| == 1 && StrName(0) == "_str0"
  {
    hide After, Compiled, AnyHalt;
    FallingCode();
  }

  /** It meets every condition of the run theorems. */
  lemma FallingRunnable()
    ensures Runnable(FALLING)
  {
    hide After, Unreserved, SourceLabel, Lower, ParseImm;
    FallingCode();
    FallingUnreserved();
    HaltName();
    forall j | 0 <= j < |FALLING| ensures TokenAssembles(FALLING, FALLING[j]) {
      assert FALLING[j].StringLiteral? ==> StrOk("x");
    }
    AssemblesIff(FALLING);
    FallingSize();
  }

  lemma FallingSize()
    ensures Offset(Compiled(FALLING), |Compiled(FALLING)|) == 18
  {
    FallingCode();
    var lines := Compiled(FALLING);
    hide After, Compiled;
    assert |lines| == 9;
    assert Offset(lines, 1) == 3;
    assert Offset(lines, 2) == 6;
    assert Offset(lines, 3) == 9;
    assert Offset(lines, 5) == 14;
    assert Offset(lines, 7) == 16;
  }

  /** The source state at token `k`, once the string has been pushed. */
  function Pushed(w: G.World, k: nat): G.State
    requires |w.texts| == 1
  {
    G.Initial().(at := k, stack := [w.texts[0]])
  }

  lemma FallingSteps(w: G.World)
    requires w.depth > 0 && |w.texts| == 1
    ensures G.TokenStep(w, FALLING, G.Initial()) == Some(Pushed(w, 1))
    ensures G.TokenStep(w, FALLING, Pushed(w, 1)) == Some(Pushed(w, 2))
    ensures G.TokenStep(w, FALLING, Pushed(w, 2)) == Some(Pushed(w, 3))
  {
    hide SourceLabel, Lower, ParseImm;
    HaltName();
    assert G.StringIndex(FALLING, 0) == 0;
    assert [] + [w.texts[0]] == [w.texts[0]];
  }

  lemma FallingRun(w: G.World)
    requires w.depth > 0 && |w.texts| == 1
    ensures G.Steps(w, FALLING, G.Initial(), 3) == Some(Pushed(w, 3))
  {
    hide G.TokenStep;
    FallingSteps(w);
    assert G.Steps(w, FALLING, G.Initial(), 1) == Some(Pushed(w, 1));
    assert G.Steps(w, FALLING, G.Initial(), 2) == Some(Pushed(w, 2));
  }

  /** After its three tokens the program runs off its end, into the string. */
  lemma FallingFalls()
    ensures Falls(FALLING, 3)
  {
    hide After, Compiled, TextOffset, Offset, G.Steps;
    FallingCode();
    FallingSize();
    FallingRun(WorldOf(FALLING));
  }

  /** So the machine executes the string's characters as instructions. */
  lemma StringExecuted() returns (m: nat)
    ensures Runnable(FALLING) && m >= 3 && InText(FALLING, Machine(FALLING, m))
  {
    hide Runnable, Falls, Machine, InText;
    FallingRunnable();
    FallingFalls();
    m := FallEntersText(FALLING, 3);
  }
}
