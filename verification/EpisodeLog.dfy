/** One run of a program, printed as a line of JSON text and read back by key search. */
module EpisodeLog {
  import opened Words
  import opened EpisodeText

  type u8 = x: int | 0 <= x < 0x100
  type u64 = x: int | 0 <= x < 0x1_0000_0000_0000_0000

  const TWO_64: nat := 0x1_0000_0000_0000_0000

  datatype Outcome = Success | BlackScreen | AssembleError | Timeout | Unknown

  /** A row of the opcode histogram; the share is in tenths of a percent. */
  datatype OpCount = OpCount(op: u8, mnemonic: string, count: u64, share: nat)

  datatype Screen = Screen(nonZero: u64, total: u64, drawn: nat)

  datatype Episode = Episode(
    timestamp: string,
    program: string,
    totalOps: u64,
    topOps: seq<OpCount>,
    screen: Screen,
    finalPc: u32,
    halted: bool,
    fix: Option<string>,
    outcome: Outcome)

  function OutcomeName(o: Outcome): string {
    match o
    case Success => "success"
    case BlackScreen => "black_screen"
    case AssembleError => "assemble_error"
    case Timeout => "timeout"
    case Unknown => "unknown"
  }

  function OutcomeOf(s: string): Outcome {
    if s == "success" then Success
    else if s == "black_screen" then BlackScreen
    else if s == "assemble_error" then AssembleError
    else if s == "timeout" then Timeout
    else Unknown
  }

  // ---- the printed text, each part followed by what comes after it ----

  /** `{:.1}` of a share given in tenths. */
  function Tenths(n: nat): string {
    Dec(n / 10) + "." + [DigitChar(n % 10)]
  }

  function Bool(b: bool): string {
    if b then "true" else "false"
  }

  function Member(k: string, u: string): string {
    "\"" + k + "\"" + (":" + u)
  }

  function Str(v: string, u: string): string {
    "\"" + Escape(v) + "\"" + u
  }

  /** A histogram row between its brackets; the mnemonic is not escaped. */
  function Body(o: OpCount): string {
    Dec(o.op) + ("," + ("\"" + o.mnemonic + "\"" + ("," + (Dec(o.count) + ("," + Tenths(o.share))))))
  }

  /** Rows `i..`, with a comma before every row but the first of all. */
  function Rows(ops: seq<OpCount>, i: nat, u: string): string
    requires i <= |ops|
    decreases |ops| - i
  {
    if i == |ops| then u
    else (if i > 0 then "," else "") + ("[" + (Body(ops[i]) + ("]" + Rows(ops, i + 1, u))))
  }

  function OutcomePart(ep: Episode): string {
    "," + Member("outcome", "\"" + OutcomeName(ep.outcome) + "\"" + "}")
  }

  function FixPart(ep: Episode): string {
    match ep.fix
    case Some(f) => "," + Member("fix", Str(f, OutcomePart(ep)))
    case None => OutcomePart(ep)
  }

  function TopPart(ep: Episode): string {
    "," + Member("top_ops", "[" + Rows(ep.topOps, 0, "]" + FixPart(ep)))
  }

  function PctPart(ep: Episode): string {
    "," + Member("pct", Tenths(ep.screen.drawn) + ("}" + TopPart(ep)))
  }

  function TotalPart(ep: Episode): string {
    "," + Member("total", Dec(ep.screen.total) + PctPart(ep))
  }

  function ScreenPart(ep: Episode): string {
    "," + Member("screen", "{" + Member("non_zero", Dec(ep.screen.nonZero) + TotalPart(ep)))
  }

  function HaltedPart(ep: Episode): string {
    "," + Member("halted", Bool(ep.halted) + ScreenPart(ep))
  }

  function PcPart(ep: Episode): string {
    "," + Member("pc", Dec(ep.finalPc) + HaltedPart(ep))
  }

  function OpsPart(ep: Episode): string {
    "," + Member("ops", Dec(ep.totalOps) + PcPart(ep))
  }

  function ProgPart(ep: Episode): string {
    "," + Member("prog", Str(ep.program, OpsPart(ep)))
  }

  function Json(ep: Episode): string {
    "{" + Member("ts", Str(ep.timestamp, ProgPart(ep)))
  }

  // ---- the printer ----

  method EscapeJson(s: string) returns (out: string)
    ensures out == Escape(s)
  {
    out := "";
    for i := 0 to |s|
      invariant out == Escape(s[..i])
    {
      var c := s[i];
      if c == '"' {
        out := out + "\\\"";
      } else if c == '\\' {
        out := out + "\\\\";
      } else if c == '\n' {
        out := out + "\\n";
      } else if c == '\r' {
        out := out + "\\r";
      } else if c == '\t' {
        out := out + "\\t";
      } else {
        out := out + [c];
      }
      EscapeSnoc(s[..i], c);
      assert s[..i] + [c] == s[..i + 1];
    }
    assert s[..|s|] == s;
  }

  /** What is printed before a member's value, for every member but the first. */
  function Label(k: string): string {
    ",\"" + k + "\":"
  }

  /** Printing one more member moves it from what is still to come. */
  lemma Printed(done: string, k: string, v: string, u: string)
    ensures (done + (Label(k) + v)) + u == done + ("," + Member(k, v + u))
  {
    var whole := Label(k) + v;
    assert ",\"" == "," + "\"" && "\":" == "\"" + ":";
    assert whole + u == "," + Member(k, v + u);
    assert (done + whole) + u == done + (whole + u);
  }

  lemma PrintedString(done: string, k: string, v: string, u: string)
    ensures (done + (Label(k) + "\"" + v + "\"")) + u == done + ("," + Member(k, "\"" + v + "\"" + u))
  {
    hide Label, Member;
    var q := "\"" + v + "\"";
    assert Label(k) + "\"" + v + "\"" == Label(k) + q;
    Printed(done, k, q, u);
  }

  lemma PrintedHead(ep: Episode, ts: string)
    requires ts == Escape(ep.timestamp)
    ensures ("{" + ("\"ts\":" + "\"" + ts + "\"")) + ProgPart(ep) == Json(ep)
  {
    hide Escape, ProgPart;
    assert "\"ts\":" == "\"ts\"" + ":";
  }

  lemma PrintedOps(ep: Episode, done: string)
    ensures (done + (Label("ops") + Dec(ep.totalOps))) + PcPart(ep) == done + OpsPart(ep)
    ensures (done + (Label("pc") + Dec(ep.finalPc))) + HaltedPart(ep) == done + PcPart(ep)
    ensures (done + (Label("halted") + Bool(ep.halted))) + ScreenPart(ep) == done + HaltedPart(ep)
  {
    Printed(done, "ops", Dec(ep.totalOps), PcPart(ep));
    Printed(done, "pc", Dec(ep.finalPc), HaltedPart(ep));
    Printed(done, "halted", Bool(ep.halted), ScreenPart(ep));
    hide Label, Dec, ScreenPart, Member;
  }

  lemma PrintedNonZero(done: string, nz: string, u: string)
    ensures (done + (Label("screen") + "{\"non_zero\":" + nz)) + u
         == done + ("," + Member("screen", "{" + Member("non_zero", nz + u)))
  {
    Printed(done, "screen", "{\"non_zero\":" + nz, u);
    hide Label;
    var m, x := "{\"non_zero\":", Label("screen");
    assert m == "{" + ("\"" + "non_zero" + "\"" + ":");
    assert m + nz + u == "{" + Member("non_zero", nz + u);
    assert x + m + nz == x + (m + nz);
  }

  lemma PrintedPct(done: string, pct: string, u: string)
    ensures (done + (Label("pct") + pct + "}")) + u == done + ("," + Member("pct", pct + ("}" + u)))
  {
    hide Label, Member;
    Printed(done, "pct", pct + "}", u);
    var x := Label("pct");
    assert x + pct + "}" == x + (pct + "}") && pct + "}" + u == pct + ("}" + u);
  }

  lemma PrintedScreen(ep: Episode, done: string)
    ensures (done + (Label("screen") + "{\"non_zero\":" + Dec(ep.screen.nonZero))) + TotalPart(ep) == done + ScreenPart(ep)
    ensures (done + (Label("total") + Dec(ep.screen.total))) + PctPart(ep) == done + TotalPart(ep)
    ensures (done + (Label("pct") + Tenths(ep.screen.drawn) + "}")) + TopPart(ep) == done + PctPart(ep)
  {
    hide Label, Member, Dec, Tenths, TopPart;
    PrintedNonZero(done, Dec(ep.screen.nonZero), TotalPart(ep));
    Printed(done, "total", Dec(ep.screen.total), PctPart(ep));
    PrintedPct(done, Tenths(ep.screen.drawn), TopPart(ep));
  }

  lemma PrintedTop(ep: Episode, done: string)
    ensures (done + (Label("top_ops") + "[")) + Rows(ep.topOps, 0, "]" + FixPart(ep)) == done + TopPart(ep)
    ensures done + Rows(ep.topOps, |ep.topOps|, "]" + FixPart(ep)) == (done + "]") + FixPart(ep)
  {
    Printed(done, "top_ops", "[", Rows(ep.topOps, 0, "]" + FixPart(ep)));
    assert Rows(ep.topOps, |ep.topOps|, "]" + FixPart(ep)) == "]" + FixPart(ep);
  }

  lemma PrintedRow(done: string, ops: seq<OpCount>, i: nat, u: string)
    requires i < |ops|
    ensures (done + ((if i > 0 then "," else "") + "[" + Body(ops[i]) + "]")) + Rows(ops, i + 1, u)
         == done + Rows(ops, i, u)
  {
    hide Body;
    var sep, b, rest := if i > 0 then "," else "", Body(ops[i]), Rows(ops, i + 1, u);
    assert (sep + "[" + b + "]") + rest == sep + ("[" + (b + ("]" + rest)));
    assert (done + (sep + "[" + b + "]")) + rest == done + ((sep + "[" + b + "]") + rest);
  }

  method EpisodeToJson(ep: Episode) returns (json: string)
    ensures json == Json(ep)
  {
    hide *;
    var text := EscapeJson(ep.timestamp);
    json := "{";
    json := json + ("\"ts\":" + "\"" + text + "\"");
    PrintedHead(ep, text);
    text := EscapeJson(ep.program);
    PrintedProg(ep, json);
    json := json + (Label("prog") + "\"" + text + "\"");
    PrintedOps(ep, json);
    json := json + (Label("ops") + Dec(ep.totalOps));
    PrintedOps(ep, json);
    json := json + (Label("pc") + Dec(ep.finalPc));
    PrintedOps(ep, json);
    json := json + (Label("halted") + Bool(ep.halted));
    PrintedScreen(ep, json);
    json := json + (Label("screen") + "{\"non_zero\":" + Dec(ep.screen.nonZero));
    PrintedScreen(ep, json);
    json := json + (Label("total") + Dec(ep.screen.total));
    PrintedScreen(ep, json);
    json := json + (Label("pct") + Tenths(ep.screen.drawn) + "}");
    PrintedTop(ep, json);
    json := json + (Label("top_ops") + "[");
    for i := 0 to |ep.topOps|
      invariant json + Rows(ep.topOps, i, "]" + FixPart(ep)) == Json(ep)
    {
      PrintedRow(json, ep.topOps, i, "]" + FixPart(ep));
      json := json + ((if i > 0 then "," else "") + "[" + Body(ep.topOps[i]) + "]");
    }
    PrintedTop(ep, json);
    json := json + "]";
    PrintedEnd(ep, json);
    if ep.fix.Some? {
      text := EscapeJson(ep.fix.value);
      json := json + (Label("fix") + "\"" + text + "\"");
      PrintedEnd(ep, json);
    }
    json := json + (Label("outcome") + "\"" + OutcomeName(ep.outcome) + "\"");
    json := json + "}";
  }

  lemma PrintedProg(ep: Episode, done: string)
    ensures (done + (Label("prog") + "\"" + Escape(ep.program) + "\"")) + OpsPart(ep) == done + ProgPart(ep)
  {
    hide Label, Member, Escape, OpsPart;
    PrintedString(done, "prog", Escape(ep.program), OpsPart(ep));
  }

  lemma PrintedEnd(ep: Episode, done: string)
    ensures ep.fix.Some? ==>
      (done + (Label("fix") + "\"" + Escape(ep.fix.value) + "\"")) + OutcomePart(ep) == done + FixPart(ep)
    ensures ep.fix.None? ==> FixPart(ep) == OutcomePart(ep)
    ensures (done + (Label("outcome") + "\"" + OutcomeName(ep.outcome) + "\"")) + "}" == done + OutcomePart(ep)
  {
    hide Label, Member, Escape, OutcomeName;
    PrintedString(done, "outcome", OutcomeName(ep.outcome), "}");
    if ep.fix.Some? {
      PrintedString(done, "fix", Escape(ep.fix.value), OutcomePart(ep));
    }
  }
}
