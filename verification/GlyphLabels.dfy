/** Where every line of a compiled program comes from, and what its label names resolve to. */
module GlyphLabels {
  import opened Words
  import opened GlyphVm
  import opened Assembler
  import opened GlyphCompiler

  // ---- Generated names ----

  /** Fresh labels never repeat, whatever the size of the program. */
  lemma GlDistinct(i: nat, j: nat)
    ensures Gl(i) == Gl(j) <==> i == j
    ensures Gl(i) != StrName(j)
    ensures StrName(i) == StrName(j) <==> i == j
  {
    if Gl(i) == Gl(j) {
      assert Dec(i) == Gl(i)[3..] == Gl(j)[3..] == Dec(j);
      DecInjective(i, j);
    }
    if StrName(i) == StrName(j) {
      assert Dec(i) == StrName(i)[4..] == StrName(j)[4..] == Dec(j);
      DecInjective(i, j);
    }
    assert Gl(i)[1] == 'g' && StrName(j)[1] == 's';
  }

  /** A generated name is its own table key and is never read as a number. */
  lemma GeneratedKey(name: string, k: nat)
    requires name == Gl(k) || name == StrName(k)
    ensures Lower(name) == name && name != "" && ParseImm(name) == None
  {
    assert !IsDigit(name[0]);
    assert forall i :: 0 <= i < |name| ==> LowerChar(name[i]) == name[i];
  }

  /** The letter `a` is `b` in the other case. */
  predicate OtherCase(a: char, b: char) {
    ('a' <= a <= 'z' && b == a - 'a' + 'A') || ('A' <= a <= 'Z' && b == a - 'A' + 'a')
  }

  /** Names define and find the same label exactly when they differ in letter case at most. */
  lemma CaseBlind(a: string, b: string)
    ensures Lower(a) == Lower(b) <==> |a| == |b| && forall i :: 0 <= i < |a| ==> a[i] == b[i] || OtherCase(a[i], b[i])
  {
    if Lower(a) == Lower(b) {
      forall i | 0 <= i < |a| ensures a[i] == b[i] || OtherCase(a[i], b[i]) {
        assert Lower(a)[i] == Lower(b)[i];
      }
    }
  }

  // ---- Layout ----

  /** Line at which the code of token `j` begins. */
  function Start(tokens: seq<Token>, j: nat): nat
    requires j <= |tokens|
  {
    |After(tokens, j).asm|
  }

  function Code(tokens: seq<Token>, j: nat): seq<Line>
    requires j < |tokens|
  {
    var e := After(tokens, j);
    Block(tokens[j], e.labels, |e.strings|)
  }

  function StringsOf(tokens: seq<Token>): seq<string> {
    After(tokens, |tokens|).strings
  }

  /** Line at which the string section begins. */
  function StringBase(tokens: seq<Token>): nat {
    Start(tokens, |tokens|) + if AnyHalt(After(tokens, |tokens|).asm) then 0 else 1
  }

  lemma EmitGrows(e: Emitted, t: Token)
    ensures e.asm <= Emit(e, t).asm && e.strings <= Emit(e, t).strings && e.labels <= Emit(e, t).labels
  {
    hide Block;
  }

  lemma PrefixTrans<T>(a: seq<T>, b: seq<T>, c: seq<T>)
    requires a <= b && b <= c
    ensures a <= c
  {
  }

  lemma {:induction false} AfterGrows(tokens: seq<Token>, j: nat, k: nat)
    requires j <= k <= |tokens|
    ensures After(tokens, j).asm <= After(tokens, k).asm
    ensures After(tokens, j).strings <= After(tokens, k).strings
    ensures After(tokens, j).labels <= After(tokens, k).labels
    decreases k
  {
    hide Emit;
    if j < k {
      AfterGrows(tokens, j, k - 1);
      var d, e := After(tokens, j), After(tokens, k - 1);
      EmitGrows(e, tokens[k - 1]);
      PrefixTrans(d.asm, e.asm, After(tokens, k).asm);
      PrefixTrans(d.strings, e.strings, After(tokens, k).strings);
    }
  }

  /** The prologue comes before the code of the first token. */
  lemma PrologueFirst(tokens: seq<Token>)
    ensures PROLOGUE <= After(tokens, |tokens|).asm && 3 <= Start(tokens, |tokens|)
    ensures PROLOGUE <= Compiled(tokens)
  {
    hide AnyHalt, Emit, StringSection;
    AfterGrows(tokens, 0, |tokens|);
    var e := After(tokens, |tokens|);
    var halt := if AnyHalt(e.asm) then [] else [Do(HALT)];
    PrefixAppend(PROLOGUE, e.asm, halt);
    PrefixAppend(PROLOGUE, e.asm + halt, StringSection(e.strings, |e.strings|));
  }

  /** The code of token `j` lies in the compiled program from its start line on. */
  lemma BlockLines(tokens: seq<Token>, j: nat)
    requires j < |tokens|
    ensures Start(tokens, j + 1) == Start(tokens, j) + |Code(tokens, j)| <= StringBase(tokens) <= |Compiled(tokens)|
    ensures Compiled(tokens)[Start(tokens, j)..Start(tokens, j + 1)] == Code(tokens, j)
    ensures After(tokens, j + 1).labels == After(tokens, j).labels + Fresh(tokens[j]) <= After(tokens, |tokens|).labels
  {
    hide Block, AnyHalt;
    AfterGrows(tokens, j + 1, |tokens|);
    var body := After(tokens, j + 1).asm;
    assert body[Start(tokens, j)..] == Code(tokens, j);
    assert Compiled(tokens)[..|body|] == body;
  }

  lemma {:induction false} StringLines(strings: seq<string>, m: nat, i: nat)
    requires m <= |strings|
    ensures |StringSection(strings, m)| == 2 * m
    ensures i < m ==> StringSection(strings, m)[2 * i] == Line.Label(StrName(i))
    ensures i < m ==> StringSection(strings, m)[2 * i + 1] == Str(strings[i])
  {
    if m > 0 {
      StringLines(strings, m - 1, i);
    }
  }

  /** The place of a line in the output. */
  datatype Place = Prologue(i: nat) | InBlock(j: nat, t: nat) | Trailer | StringLabel(i: nat) | StringText(i: nat)

  ghost predicate IsAt(tokens: seq<Token>, k: nat, p: Place) {
    k < |Compiled(tokens)| &&
    var line := Compiled(tokens)[k];
    match p
    case Prologue(i) => i < 3 && k == i && line == PROLOGUE[i]
    case InBlock(j, t) => j < |tokens| && t < |Code(tokens, j)| && k == Start(tokens, j) + t && line == Code(tokens, j)[t]
    case Trailer => k == Start(tokens, |tokens|) == StringBase(tokens) - 1 && line == Do(HALT)
    case StringLabel(i) => i < |StringsOf(tokens)| && k == StringBase(tokens) + 2 * i && line == Line.Label(StrName(i))
    case StringText(i) => i < |StringsOf(tokens)| && k == StringBase(tokens) + 2 * i + 1 && line == Str(StringsOf(tokens)[i])
  }

  lemma {:induction false} FindBlock(tokens: seq<Token>, k: nat, m: nat) returns (j: nat)
    requires m <= |tokens| && 3 <= k < Start(tokens, m)
    ensures j < m && Start(tokens, j) <= k < Start(tokens, j + 1)
    decreases m
  {
    hide Emit;
    if k < Start(tokens, m - 1) {
      j := FindBlock(tokens, k, m - 1);
    } else {
      j := m - 1;
    }
  }

  /** Every line of the output has a place. */
  lemma Locate(tokens: seq<Token>, k: nat) returns (p: Place)
    requires k < |Compiled(tokens)|
    ensures IsAt(tokens, k, p)
  {
    hide Compiled, After, IsAt, StringBase, Block;
    PrologueFirst(tokens);
    var n, base := Start(tokens, |tokens|), StringBase(tokens);
    if k < 3 {
      p := LocatePrologue(tokens, k);
    } else if k < n {
      p := LocateBlock(tokens, k);
    } else if k < base {
      p := LocateTrailer(tokens, k);
    } else {
      p := LocateString(tokens, k);
    }
  }

  lemma LocatePrologue(tokens: seq<Token>, k: nat) returns (p: Place)
    requires k < 3 && k < |Compiled(tokens)|
    ensures IsAt(tokens, k, p)
  {
    hide Compiled, After;
    PrologueFirst(tokens);
    p := Prologue(k);
  }

  lemma LocateBlock(tokens: seq<Token>, k: nat) returns (p: Place)
    requires 3 <= k < Start(tokens, |tokens|) && k < |Compiled(tokens)|
    ensures IsAt(tokens, k, p)
  {
    hide Compiled, After, Block, StringBase, Code;
    var j := FindBlock(tokens, k, |tokens|);
    BlockLines(tokens, j);
    assert Compiled(tokens)[Start(tokens, j)..Start(tokens, j + 1)][k - Start(tokens, j)] == Compiled(tokens)[k];
    p := InBlock(j, k - Start(tokens, j));
  }

  lemma LocateTrailer(tokens: seq<Token>, k: nat) returns (p: Place)
    requires Start(tokens, |tokens|) <= k < StringBase(tokens) && k < |Compiled(tokens)|
    ensures IsAt(tokens, k, p)
  {
    hide After, AnyHalt;
    p := Trailer;
  }

  /** The lines of the string section. */
  lemma StringSectionLines(tokens: seq<Token>, i: nat)
    ensures |Compiled(tokens)| == StringBase(tokens) + 2 * |StringsOf(tokens)|
    ensures i < |StringsOf(tokens)| ==>
              && Compiled(tokens)[StringBase(tokens) + 2 * i] == Line.Label(StrName(i))
              && Compiled(tokens)[StringBase(tokens) + 2 * i + 1] == Str(StringsOf(tokens)[i])
  {
    hide After, AnyHalt, StrName;
    var strings := StringsOf(tokens);
    StringLines(strings, |strings|, i);
    hide StringSection;
    assert Compiled(tokens)[StringBase(tokens)..] == StringSection(strings, |strings|);
    if i < |strings| {
      assert Compiled(tokens)[StringBase(tokens)..][2 * i] == Compiled(tokens)[StringBase(tokens) + 2 * i];
      assert Compiled(tokens)[StringBase(tokens)..][2 * i + 1] == Compiled(tokens)[StringBase(tokens) + 2 * i + 1];
    }
  }

  lemma LocateString(tokens: seq<Token>, k: nat) returns (p: Place)
    requires StringBase(tokens) <= k < |Compiled(tokens)|
    ensures IsAt(tokens, k, p)
  {
    hide Compiled, After, StringBase, Code, StringsOf;
    var i := (k - StringBase(tokens)) / 2;
    StringSectionLines(tokens, i);
    p := if (k - StringBase(tokens)) % 2 == 0 then StringLabel(i) else StringText(i);
  }

  /** Two places of one line agree on the block. */
  lemma {:induction false} StartsOrdered(tokens: seq<Token>, i: nat, j: nat)
    requires i < j <= |tokens|
    ensures Start(tokens, i + 1) <= Start(tokens, j)
    ensures After(tokens, i).labels + Fresh(tokens[i]) <= After(tokens, j).labels
  {
    hide After, Compiled, Block, StringBase;
    BlockLines(tokens, i);
    AfterGrows(tokens, i + 1, j);
  }

  // ---- Labels ----

  /** Position, inside the code of a token, of the d-th fresh label it defines. */
  function LabelPos(t: Token, d: nat): nat {
    match t
    case Cmp(op) => if op == '=' then 6 else 8 + 2 * d
    case Conditional => 6 + 2 * d
    case Loop => 2 + 9 * d
    case _ => 0
  }

  lemma BlockLabels(t: Token, c: nat, n: nat, i: nat)
    requires i < |Block(t, c, n)|
    ensures Block(t, c, n)[i].Label? && !t.Label? ==>
              (i == LabelPos(t, 0) && Fresh(t) > 0 && Block(t, c, n)[i].name == Gl(c))
              || (i == LabelPos(t, 1) && Fresh(t) > 1 && Block(t, c, n)[i].name == Gl(c + 1))
  {
  }

  lemma FreshLabelLine(t: Token, c: nat, n: nat, d: nat)
    requires d < Fresh(t)
    ensures LabelPos(t, d) < |Block(t, c, n)| && Block(t, c, n)[LabelPos(t, d)] == Line.Label(Gl(c + d))
  {
  }

  function NamesOf(t: Token): seq<string> {
    match t
    case Label(n) => [n]
    case Jump(n) => [n]
    case Jz(n) => [n]
    case Jnz(n) => [n]
    case _ => []
  }

  /** No user name is, ignoring case, one of the names this compilation generates. */
  ghost predicate Unreserved(tokens: seq<Token>) {
    forall j :: 0 <= j < |tokens| ==> forall name <- NamesOf(tokens[j]) :: UserName(tokens, name)
  }

  ghost predicate UserName(tokens: seq<Token>, name: string) {
    && (forall c: nat :: c < After(tokens, |tokens|).labels ==> Lower(name) != Gl(c))
    && (forall i: nat :: i < |StringsOf(tokens)| ==> Lower(name) != StrName(i))
  }

  /** The token a name refers to in the source: its last definition, ignoring case. */
  function SourceLabel(tokens: seq<Token>, key: string): (r: Option<nat>)
    ensures r.Some? ==> r.value < |tokens| && tokens[r.value].Label? && Lower(tokens[r.value].name) == key
    ensures forall j :: 0 <= j < |tokens| && tokens[j].Label? && Lower(tokens[j].name) == key ==> r.Some? && j <= r.value
  {
    if tokens == [] then None
    else
      var j := |tokens| - 1;
      if tokens[j].Label? && Lower(tokens[j].name) == key then Some(j) else SourceLabel(tokens[..j], key)
  }

  /** A generated label is defined exactly once, inside the code of the token it was made for. */
  lemma GeneratedOnce(tokens: seq<Token>, j: nat, d: nat, k: nat)
    requires Unreserved(tokens) && j < |tokens| && d < Fresh(tokens[j]) && k < |Compiled(tokens)|
    ensures Compiled(tokens)[k].Label? && Lower(Compiled(tokens)[k].name) == Gl(After(tokens, j).labels + d)
            <==> k == Start(tokens, j) + LabelPos(tokens[j], d)
  {
    hide Block, AnyHalt, After, Compiled, Unreserved, Fresh, StringBase;
    var c := After(tokens, j).labels + d;
    var lines := Compiled(tokens);
    BlockLines(tokens, j);
    FreshLabelLine(tokens[j], After(tokens, j).labels, |After(tokens, j).strings|, d);
    GeneratedKey(Gl(c), c);
    var here := Start(tokens, j) + LabelPos(tokens[j], d);
    assert lines[here] == lines[Start(tokens, j)..Start(tokens, j + 1)][LabelPos(tokens[j], d)];
    if lines[k].Label? && Lower(lines[k].name) == Gl(c) {
      var p := Locate(tokens, k);
      match p {
        case Prologue(i) =>
        case Trailer =>
        case StringText(i) =>
        case StringLabel(i) =>
          GeneratedKey(StrName(i), i);
          GlDistinct(c, i);
        case InBlock(i, t) =>
          GeneratedInBlock(tokens, j, d, i, t);
      }
    }
  }

  lemma LabelToken(tokens: seq<Token>, j: nat)
    requires j < |tokens| && tokens[j].Label?
    ensures Code(tokens, j) == [Line.Label(tokens[j].name)]
    ensures Unreserved(tokens) ==> UserName(tokens, tokens[j].name)
  {
    hide AnyHalt;
    assert NamesOf(tokens[j])[0] == tokens[j].name;
  }

  lemma GeneratedInBlock(tokens: seq<Token>, j: nat, d: nat, i: nat, t: nat)
    requires Unreserved(tokens) && j < |tokens| && d < Fresh(tokens[j])
    requires i < |tokens| && t < |Code(tokens, i)| && Code(tokens, i)[t].Label?
    requires Lower(Code(tokens, i)[t].name) == Gl(After(tokens, j).labels + d)
    ensures i == j && t == LabelPos(tokens[j], d)
  {
    hide Block, AnyHalt, Unreserved, After, Compiled;
    var c := After(tokens, j).labels + d;
    var e := After(tokens, i);
    BlockLines(tokens, j);
    BlockLabels(tokens[i], e.labels, |e.strings|, t);
    if tokens[i].Label? {
      LabelToken(tokens, i);
    } else {
      var f := if Code(tokens, i)[t].name == Gl(e.labels) then 0 else 1;
      GeneratedKey(Gl(e.labels + f), e.labels + f);
      GlDistinct(c, e.labels + f);
      GlDistinct(e.labels, e.labels + 1);
      if i < j {
        StartsOrdered(tokens, i, j);
      } else if j < i {
        StartsOrdered(tokens, j, i);
      }
    }
  }

  lemma GeneratedLine(tokens: seq<Token>, j: nat, d: nat)
    requires Unreserved(tokens) && j < |tokens| && d < Fresh(tokens[j])
    ensures LabelPos(tokens[j], d) < |Code(tokens, j)|
    ensures LastLabel(Compiled(tokens), Gl(After(tokens, j).labels + d)) == Some(Start(tokens, j) + LabelPos(tokens[j], d))
  {
    hide Block, AnyHalt, Unreserved, After, Compiled;
    var c := After(tokens, j).labels + d;
    var here := Start(tokens, j) + LabelPos(tokens[j], d);
    BlockLines(tokens, j);
    FreshLabelLine(tokens[j], After(tokens, j).labels, |After(tokens, j).strings|, d);
    GeneratedOnce(tokens, j, d, here);
    GeneratedOnce(tokens, j, d, LastLabel(Compiled(tokens), Gl(c)).value);
  }

  /** So a jump to a generated label lands inside the code of the token that emitted it. */
  lemma GeneratedTarget(tokens: seq<Token>, j: nat, d: nat)
    requires Unreserved(tokens) && j < |tokens| && d < Fresh(tokens[j])
    ensures var here := Start(tokens, j) + LabelPos(tokens[j], d);
            Start(tokens, j) <= here < Start(tokens, j + 1) <= |Compiled(tokens)| &&
            Target(Compiled(tokens), Gl(After(tokens, j).labels + d)) == Some(Wrap(Offset(Compiled(tokens), here)))
  {
    hide Block, AnyHalt, Unreserved, After, Compiled;
    BlockLines(tokens, j);
    GeneratedLine(tokens, j, d);
    GeneratedKey(Gl(After(tokens, j).labels + d), After(tokens, j).labels + d);
  }

  lemma LabelTokenLine(tokens: seq<Token>, j: nat)
    requires j < |tokens| && tokens[j].Label?
    ensures Start(tokens, j) < |Compiled(tokens)|
    ensures Compiled(tokens)[Start(tokens, j)].Label? && Compiled(tokens)[Start(tokens, j)].name == tokens[j].name
  {
    hide Block, AnyHalt, After, Compiled;
    BlockLines(tokens, j);
    LabelToken(tokens, j);
    assert Compiled(tokens)[Start(tokens, j)] == Code(tokens, j)[0];
  }

  /** A user name resolves to the code of its last definition, or to nothing. */
  lemma UserTarget(tokens: seq<Token>, name: string)
    requires UserName(tokens, name)
    ensures match SourceLabel(tokens, Lower(name))
            case Some(j) => LastLabel(Compiled(tokens), Lower(name)) == Some(Start(tokens, j))
            case None => LastLabel(Compiled(tokens), Lower(name)) == None
  {
    hide Block, AnyHalt, After, Compiled, Code, LastLabel, SourceLabel, Lower, UserName;
    var lines, key := Compiled(tokens), Lower(name);
    var last, src := LastLabel(lines, key), SourceLabel(tokens, key);
    if src.Some? {
      LabelTokenLine(tokens, src.value);
    }
    if last.Some? {
      var j := UserDefinition(tokens, name, last.value);
      if j < src.value {
        StartsOrdered(tokens, j, src.value);
        BlockLines(tokens, j);
      }
    }
  }

  lemma UserDefinition(tokens: seq<Token>, name: string, k: nat) returns (j: nat)
    requires UserName(tokens, name) && k < |Compiled(tokens)|
    requires Compiled(tokens)[k].Label? && Lower(Compiled(tokens)[k].name) == Lower(name)
    ensures j < |tokens| && tokens[j].Label? && k == Start(tokens, j) && Lower(tokens[j].name) == Lower(name)
  {
    hide Block, AnyHalt, After, LastLabel;
    j := 0;
    var p := Locate(tokens, k);
    match p {
      case Prologue(i) =>
      case Trailer =>
      case StringText(i) =>
      case StringLabel(i) =>
        GeneratedKey(StrName(i), i);
      case InBlock(i, t) =>
        j := i;
        var e := After(tokens, i);
        BlockLines(tokens, i);
        BlockLabels(tokens[i], e.labels, |e.strings|, t);
        if tokens[i].Label? {
          LabelToken(tokens, i);
        } else {
          var f := if Code(tokens, i)[t].name == Gl(e.labels) then 0 else 1;
          GeneratedKey(Gl(e.labels + f), e.labels + f);
        }
    }
  }

  lemma StringOnce(tokens: seq<Token>, i: nat, k: nat)
    requires Unreserved(tokens) && i < |StringsOf(tokens)| && k < |Compiled(tokens)|
    requires Compiled(tokens)[k].Label? && Lower(Compiled(tokens)[k].name) == StrName(i)
    ensures k == StringBase(tokens) + 2 * i
  {
    hide Block, AnyHalt, After, Compiled, Unreserved, Fresh, StringBase;
    var p := Locate(tokens, k);
    match p {
      case Prologue(m) =>
      case Trailer =>
      case StringText(m) =>
      case StringLabel(m) =>
        GeneratedKey(StrName(m), m);
        GlDistinct(m, i);
      case InBlock(m, t) =>
        var e := After(tokens, m);
        BlockLabels(tokens[m], e.labels, |e.strings|, t);
        if tokens[m].Label? {
          LabelToken(tokens, m);
        } else {
          var f := if Code(tokens, m)[t].name == Gl(e.labels) then 0 else 1;
          GeneratedKey(Gl(e.labels + f), e.labels + f);
          GlDistinct(e.labels + f, i);
        }
    }
  }

  /** The i-th string's name resolves to the offset of its characters. */
  lemma StringTarget(tokens: seq<Token>, i: nat)
    requires Unreserved(tokens) && i < |StringsOf(tokens)|
    ensures StringBase(tokens) + 2 * i + 1 < |Compiled(tokens)|
    ensures Compiled(tokens)[StringBase(tokens) + 2 * i + 1] == Str(StringsOf(tokens)[i])
    ensures LastLabel(Compiled(tokens), StrName(i)) == Some(StringBase(tokens) + 2 * i)
    ensures Target(Compiled(tokens), StrName(i)) == Some(Wrap(Offset(Compiled(tokens), StringBase(tokens) + 2 * i)))
  {
    hide Compiled, StringBase, StringsOf, Unreserved, StrName, ParseImm;
    StringSectionLines(tokens, i);
    GeneratedKey(StrName(i), i);
    StringOnce(tokens, i, LastLabel(Compiled(tokens), StrName(i)).value);
  }

  // ---- Which programs assemble ----

  predicate NameResolves(tokens: seq<Token>, name: string) {
    name != "" && (ParseImm(name).Some? || SourceLabel(tokens, Lower(name)).Some?)
  }

  predicate TokenAssembles(tokens: seq<Token>, t: Token) {
    match t
    case StoreReg(idx) => idx < NUM_REGS
    case LoadReg(idx) => idx < NUM_REGS
    case Jump(n) => NameResolves(tokens, n)
    case Jz(n) => NameResolves(tokens, n)
    case Jnz(n) => NameResolves(tokens, n)
    case StringLiteral(s) => StrOk(s)
    case _ => true
  }

  lemma NameTarget(tokens: seq<Token>, name: string)
    requires UserName(tokens, name)
    ensures Target(Compiled(tokens), name).Some? <==> NameResolves(tokens, name)
  {
    hide Compiled, After, UserName;
    UserTarget(tokens, name);
  }

  lemma UserNameOf(tokens: seq<Token>, j: nat)
    requires Unreserved(tokens) && j < |tokens|
    requires tokens[j].Label? || tokens[j].Jump? || tokens[j].Jz? || tokens[j].Jnz?
    ensures UserName(tokens, tokens[j].name)
  {
    hide UserName;
    assert NamesOf(tokens[j])[0] == tokens[j].name;
  }

  /** The i-th string comes from the string token met when `i` strings had been collected. */
  lemma {:induction false} StringOrigin(tokens: seq<Token>, k: nat, i: nat) returns (j: nat)
    requires k <= |tokens| && i < |After(tokens, k).strings|
    ensures j < k && |After(tokens, j).strings| == i && tokens[j] == StringLiteral(After(tokens, k).strings[i])
  {
    hide Block;
    if i < |After(tokens, k - 1).strings| {
      j := StringOrigin(tokens, k - 1, i);
    } else {
      j := k - 1;
    }
  }

  lemma StringOfToken(tokens: seq<Token>, j: nat)
    requires j < |tokens| && tokens[j].StringLiteral?
    ensures |After(tokens, j).strings| < |StringsOf(tokens)|
    ensures StringsOf(tokens)[|After(tokens, j).strings|] == tokens[j].text
  {
    hide Block;
    AfterGrows(tokens, j + 1, |tokens|);
  }

  ghost predicate CodeAssembles(tokens: seq<Token>, j: nat)
    requires j < |tokens|
  {
    forall t :: 0 <= t < |Code(tokens, j)| ==> LineOk(Compiled(tokens), Code(tokens, j)[t])
  }

  lemma JumpAssembles(tokens: seq<Token>, j: nat)
    requires Unreserved(tokens) && j < |tokens|
    requires tokens[j].Jump? || tokens[j].Jz? || tokens[j].Jnz?
    ensures CodeAssembles(tokens, j) <==> NameResolves(tokens, tokens[j].name)
  {
    hide After, Compiled, Unreserved, Target, NameResolves;
    var tok := tokens[j];
    UserNameOf(tokens, j);
    NameTarget(tokens, tok.name);
    var code := Code(tokens, j);
    assert tok.Jump? ==> code == [Ins(JmpL(tok.name))];
    assert tok.Jz? ==> code == [Do(POP(R27)), Ins(JzL(R27, tok.name))];
    assert tok.Jnz? ==> code == [Do(POP(R27)), Ins(JnzL(R27, tok.name))];
    assert CodeAssembles(tokens, j) ==> LineOk(Compiled(tokens), code[|code| - 1]);
  }

  lemma FreshAssembles(tokens: seq<Token>, j: nat)
    requires Unreserved(tokens) && j < |tokens| && Fresh(tokens[j]) > 0
    ensures CodeAssembles(tokens, j)
  {
    hide After, Compiled, Unreserved, Target;
    var e := After(tokens, j);
    GeneratedTarget(tokens, j, 0);
    if Fresh(tokens[j]) > 1 { GeneratedTarget(tokens, j, 1); }
    forall t | 0 <= t < |Code(tokens, j)| ensures LineOk(Compiled(tokens), Code(tokens, j)[t]) {
      FreshLine(tokens[j], e.labels, |e.strings|, t);
    }
  }

  /** A line in the code of a label-using token is complete, a label, or a jump to its own labels. */
  lemma FreshLine(tok: Token, c: nat, n: nat, t: nat)
    requires Fresh(tok) > 0 && t < |Block(tok, c, n)|
    ensures match Block(tok, c, n)[t]
            case Label(_) => true
            case Str(_) => false
            case Ins(JmpL(name)) => Fresh(tok) > 1 && name == Gl(c + 1)
            case Ins(JzL(r, name)) => r < NUM_REGS && name == Gl(c)
            case Ins(JnzL(r, name)) => r < NUM_REGS && name == Gl(c)
            case Ins(BltL(r, name)) => r < NUM_REGS && name == Gl(c)
            case Ins(LdiL(_, _)) => false
            case Ins(Plain(i)) => RegsOk(i) && !i.UNKNOWN?
  {
    hide Gl;
    var b := Block(tok, c, n);
    if tok.Cmp? {
      assert |b| == if tok.op == '=' then 8 else 12;
    } else if tok.Conditional? {
      assert |b| == 9;
    } else {
      assert tok.Loop? && |b| == 12;
    }
  }

  /** Within one block, the lines assemble exactly when the token's operands do. */
  lemma BlockAssembles(tokens: seq<Token>, j: nat)
    requires Unreserved(tokens) && j < |tokens|
    ensures tokens[j].StringLiteral? || TokenAssembles(tokens, tokens[j]) <==> CodeAssembles(tokens, j)
  {
    hide After, Compiled, Unreserved, Target, NameResolves;
    var tok := tokens[j];
    if tok.Jump? || tok.Jz? || tok.Jnz? {
      JumpAssembles(tokens, j);
    } else if Fresh(tok) > 0 {
      FreshAssembles(tokens, j);
    } else if tok.StringLiteral? {
      StringOfToken(tokens, j);
      StringTarget(tokens, |After(tokens, j).strings|);
    } else {
      var e := After(tokens, j);
      PlainAssembles(Compiled(tokens), tok, e.labels, |e.strings|);
      assert Code(tokens, j) == Block(tok, e.labels, |e.strings|);
    }
  }

  lemma PlainAssembles(lines: seq<Line>, tok: Token, c: nat, n: nat)
    requires Fresh(tok) == 0 && !tok.StringLiteral? && !tok.Jump? && !tok.Jz? && !tok.Jnz?
    ensures (forall t :: 0 <= t < |Block(tok, c, n)| ==> LineOk(lines, Block(tok, c, n)[t]))
            <==> ((tok.StoreReg? || tok.LoadReg?) ==> tok.idx < NUM_REGS)
  {
    hide Target;
    if tok.StoreReg? || tok.LoadReg? {
      assert Block(tok, c, n)[0] == Do(if tok.StoreReg? then POP(tok.idx) else PUSH(tok.idx));
    }
  }

  /** Label resolution is total: with no reserved user names, assembly succeeds exactly when each
      jump names a defined label or a number, each register exists and each string survives
      line splitting. */
  lemma AssemblesIff(tokens: seq<Token>)
    requires Valid(tokens) && Unreserved(tokens)
    ensures Assemble(Compiled(tokens)).Ok? <==> forall j :: 0 <= j < |tokens| ==> TokenAssembles(tokens, tokens[j])
  {
    hide After, Compiled, Unreserved, LineOk, TokenAssembles, Code;
    var lines := Compiled(tokens);
    if forall j :: 0 <= j < |tokens| ==> TokenAssembles(tokens, tokens[j]) {
      forall k | 0 <= k < |lines| ensures LineOk(lines, lines[k]) {
        LineAssembles(tokens, k);
      }
    }
    if AllOk(lines) {
      forall j | 0 <= j < |tokens| ensures TokenAssembles(tokens, tokens[j]) {
        TokenLines(tokens, j);
      }
    }
  }

  lemma LineAssembles(tokens: seq<Token>, k: nat)
    requires Unreserved(tokens) && k < |Compiled(tokens)|
    requires forall j :: 0 <= j < |tokens| ==> TokenAssembles(tokens, tokens[j])
    ensures LineOk(Compiled(tokens), Compiled(tokens)[k])
  {
    hide After, Compiled, Unreserved, Target, Code, StringBase;
    var p := Locate(tokens, k);
    match p {
      case Prologue(i) =>
      case Trailer =>
      case StringLabel(i) =>
      case StringText(i) =>
        var j := StringOrigin(tokens, |tokens|, i);
        assert TokenAssembles(tokens, tokens[j]);
      case InBlock(j, t) =>
        BlockAssembles(tokens, j);
    }
  }

  lemma TokenLines(tokens: seq<Token>, j: nat)
    requires Unreserved(tokens) && AllOk(Compiled(tokens)) && j < |tokens|
    ensures TokenAssembles(tokens, tokens[j])
  {
    hide After, Compiled, Unreserved, Target, Code, StringBase;
    var lines := Compiled(tokens);
    BlockLines(tokens, j);
    if tokens[j].StringLiteral? {
      StringOfToken(tokens, j);
      var i := |After(tokens, j).strings|;
      StringTarget(tokens, i);
      assert LineOk(lines, lines[StringBase(tokens) + 2 * i + 1]);
    } else {
      forall t | 0 <= t < |Code(tokens, j)| ensures LineOk(lines, Code(tokens, j)[t]) {
        assert lines[Start(tokens, j)..Start(tokens, j + 1)][t] == lines[Start(tokens, j) + t];
      }
      BlockAssembles(tokens, j);
    }
  }
}
