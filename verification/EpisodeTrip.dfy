/** When a printed episode reads back as itself: the exact condition, for every episode. */
module EpisodeTrip {
  import opened Words
  import opened EpisodeText
  import opened EpisodeLog
  import opened EpisodeParse
  import opened EpisodeSearch
  import opened EpisodeRows

  lemma KeyTexts()
    ensures Key("ts", "") == "\"ts\"" && Key("prog", "") == "\"prog\"" && Key("ops", "") == "\"ops\""
    ensures Key("pc", "") == "\"pc\"" && Key("halted", "") == "\"halted\"" && Key("fix", "") == "\"fix\""
    ensures Key("outcome", "") == "\"outcome\"" && Key("non_zero", "") == "\"non_zero\""
    ensures Key("total", "") == "\"total\"" && Key("pct", "") == "\"pct\""
  {
  }

  // ---- member by member ----

  lemma ReadTimestamp(ep: Episode)
    ensures StringVal(Json(ep), Key("ts", "")) == Some(ep.timestamp)
  {
    hide Find, After, Key, Field, Unescape, Escape, Member, ProgPart;
    var v := Str(ep.timestamp, ProgPart(ep));
    HitMember("ts", v);
    assert ":" + v == "" + (":" + v);
    FieldHere(Json(ep), Key("ts", ""), "", v);
    ReadString(ep.timestamp, ProgPart(ep));
  }

  lemma ReadString(v: string, u: string)
    ensures Str(v, u) != "" && Str(v, u)[0] == '"' && Unescape(Str(v, u)[1..]) == v
  {
    hide Unescape, Escape;
    UnescapeEscape(v, u);
    assert Str(v, u)[1..] == Escape(v) + ("\"" + u);
  }

  /** A timestamp that ends like the program's key leads the search to the same value. */
  lemma ReadProgram(ep: Episode)
    ensures StringVal(Json(ep), Key("prog", "")) == Some(ep.program)
  {
    hide Find, After, Key, Field, Unescape, Str, Member, ProgPart, OpsPart, Json, Tail, PcPart;
    SearchHead(ep, "prog", "");
    Heads(ep);
    var v := Str(ep.program, OpsPart(ep));
    HitMember("prog", v);
    ReadString(ep.program, OpsPart(ep));
    if Tail(ep.timestamp) == "prog" {
      FieldHere(Json(ep), Key("prog", ""), ",\"prog\"", v);
    } else {
      assert ":" + v == "" + (":" + v);
      FieldHere(Json(ep), Key("prog", ""), "", v);
    }
  }

  lemma PartHeads(ep: Episode)
    ensures PcPart(ep) != "" && PcPart(ep)[0] == ','
    ensures HaltedPart(ep) != "" && HaltedPart(ep)[0] == ','
    ensures TotalPart(ep) != "" && TotalPart(ep)[0] == ','
    ensures PctPart(ep) != "" && PctPart(ep)[0] == ','
  {
    hide Member, Dec, Tenths, ScreenPart, TopPart;
  }

  lemma ReadOps(ep: Episode)
    ensures U64Val(Json(ep), Key("ops", "")) == if Tail(ep.timestamp) == "ops" then None else Some(ep.totalOps)
  {
    hide Find, After, Key, Member, U64Val, Json, Tail, Dec, PcPart;
    HitMember("ops", Dec(ep.totalOps) + PcPart(ep));
    PartHeads(ep);
    ReadNumber(ep, "ops", ep.totalOps, PcPart(ep));
  }

  lemma ReadPc(ep: Episode)
    ensures U64Val(Json(ep), Key("pc", ""))
         == if Tail(ep.timestamp) == "pc" then None else if Tail(ep.program) == "pc" then Some(ep.totalOps)
            else Some(ep.finalPc)
  {
    hide Find, After, Key, Member, U64Val, Json, Tail, Dec, OpsPart, HaltedPart;
    SearchNumbers(ep, "pc", "");
    HitMember("pc", Dec(ep.finalPc) + HaltedPart(ep));
    PartHeads(ep);
    ReadNumber(ep, "pc", ep.finalPc, HaltedPart(ep));
  }

  lemma ReadNonZero(ep: Episode)
    ensures U64Val(Json(ep), Key("non_zero", ""))
         == if Tail(ep.timestamp) == "non_zero" then None
            else if Tail(ep.program) == "non_zero" then Some(ep.totalOps) else Some(ep.screen.nonZero)
  {
    hide Find, After, Key, Member, U64Val, Json, Tail, Dec, OpsPart, PcPart, HaltedPart, ScreenPart, TotalPart;
    SearchNumbers(ep, "non_zero", "");
    SearchScreen(ep, "non_zero", "");
    PartHeads(ep);
    ReadNumber(ep, "non_zero", ep.screen.nonZero, TotalPart(ep));
  }

  lemma ReadTotal(ep: Episode)
    ensures U64Val(Json(ep), Key("total", ""))
         == if Tail(ep.timestamp) == "total" then None
            else if Tail(ep.program) == "total" then Some(ep.totalOps) else Some(ep.screen.total)
  {
    hide Find, After, Key, Member, U64Val, Json, Tail, Dec, OpsPart, PcPart, HaltedPart, ScreenPart, PctPart;
    SearchNumbers(ep, "total", "");
    SearchScreen(ep, "total", "");
    HitMember("total", Dec(ep.screen.total) + PctPart(ep));
    PartHeads(ep);
    ReadNumber(ep, "total", ep.screen.total, PctPart(ep));
  }

  lemma ReadPct(ep: Episode)
    ensures OrZero(TenthsVal(Json(ep), Key("pct", "")))
         == if Tail(ep.timestamp) == "pct" then 0 else if Tail(ep.program) == "pct" then 10 * ep.totalOps
            else ep.screen.drawn
  {
    hide Find, After, Key, Member, TenthsVal, Json, Tail, Dec, Tenths;
    hide OpsPart, PcPart, HaltedPart, ScreenPart, TotalPart, TopPart;
    SearchNumbers(ep, "pct", "");
    SearchScreen(ep, "pct", "");
    HitMember("pct", Tenths(ep.screen.drawn) + ("}" + TopPart(ep)));
    ReadDrawn(ep);
  }

  lemma ReadHalted(ep: Episode)
    ensures BoolVal(Json(ep), Key("halted", ""))
         == (Tail(ep.timestamp) != "halted" && Tail(ep.program) != "halted" && ep.halted)
  {
    hide Find, After, Key, Field, Member, Json, Tail, Dec, Str, OpsPart, PcPart, ScreenPart;
    SearchNumbers(ep, "halted", "");
    var u := Bool(ep.halted) + ScreenPart(ep);
    HitMember("halted", u);
    assert ":" + u == "" + (":" + u);
    FieldOf(ep, "halted", "", u);
    Heads(ep);
    StartsWithDigit(ep.totalOps, PcPart(ep));
    assert ep.halted ==> "true" <= u;
    assert !ep.halted ==> u[0] == 'f';
  }

  /** Mnemonics that survive printing; if one of them is a later key's name, none has a colon. */
  predicate PlainOps(ops: seq<OpCount>) {
    CleanOps(ops) && (Mentions(ops, 0, "fix") || Mentions(ops, 0, "outcome") ==> NoColon(ops))
  }

  /** Where the search for one of the last two keys gets to: past the histogram, or into it. */
  lemma ReachEnd(ep: Episode, k: string) returns (before: string)
    requires PlainOps(ep.topOps) && (k == "fix" || k == "outcome")
    ensures ':' !in before
    ensures After(OpsPart(ep), Key(k, ""))
         == if Mentions(ep.topOps, 0, k) then Some(before + FixPart(ep)) else After(FixPart(ep), Key(k, ""))
  {
    hide Find, After, Key, OpsPart, PcPart, HaltedPart, ScreenPart, TotalPart, PctPart, TopPart, FixPart, Mentions;
    assert Name(k);
    SearchNumbers(ep, k, "");
    SearchScreen(ep, k, "");
    SearchEnd(ep, k);
    before := "";
    if Mentions(ep.topOps, 0, k) {
      before := SearchMentioned(ep, k);
    }
  }

  /** The text of the outcome member's value. */
  function Named(ep: Episode): string {
    "\"" + OutcomeName(ep.outcome) + "\"" + "}"
  }

  /** The value of the first member behind the histogram. */
  function NextValue(ep: Episode): string {
    match ep.fix
    case Some(f) => Str(f, OutcomePart(ep))
    case None => Named(ep)
  }

  lemma OutcomeText(ep: Episode)
    ensures OutcomePart(ep) == "," + Member("outcome", Named(ep))
    ensures OutcomePart(ep) == ",\"outcome\"" + (":" + Named(ep)) && OutcomePart(ep)[0] == ','
  {
    hide OutcomeName;
    var v := Named(ep);
    assert ",\"outcome\"" + (":" + v) == "," + ("\"" + "outcome" + "\"" + (":" + v));
  }

  lemma FixText(ep: Episode)
    ensures FixPart(ep) == (if ep.fix.Some? then ",\"fix\"" else ",\"outcome\"") + (":" + NextValue(ep))
  {
    hide Str, OutcomePart, Named;
    OutcomeText(ep);
    var v := NextValue(ep);
    assert ",\"fix\"" + (":" + v) == "," + ("\"" + "fix" + "\"" + (":" + v));
  }

  /** What is read there: the fix, or the outcome's name. */
  lemma ReadNext(ep: Episode)
    ensures NextValue(ep) != "" && NextValue(ep)[0] == '"'
    ensures Unescape(NextValue(ep)[1..]) == if ep.fix.Some? then ep.fix.value else OutcomeName(ep.outcome)
  {
    hide Unescape, Escape, OutcomeName, Str, OutcomePart;
    ReadName(ep.outcome);
    assert Named(ep)[1..] == OutcomeName(ep.outcome) + ("\"" + "}");
    if ep.fix.Some? {
      ReadString(ep.fix.value, OutcomePart(ep));
    }
  }

  lemma ReadName(o: Outcome)
    ensures Unescape(OutcomeName(o) + ("\"" + "}")) == OutcomeName(o)
  {
    hide Unescape, Escape, OutcomeName;
    var name := OutcomeName(o);
    NameOf(o);
    EscapeName(name, name);
    UnescapeEscape(name, "}");
  }

  lemma NameOf(o: Outcome)
    ensures Name(OutcomeName(o))
  {
  }

  /** A search that a mnemonic stops reads the first value behind the histogram. */
  lemma FieldMentioned(ep: Episode, k: string)
    requires PlainOps(ep.topOps) && (k == "fix" || k == "outcome") && Mentions(ep.topOps, 0, k)
    ensures Field(Json(ep), Key(k, "")) == Some(Seen(ep, k, NextValue(ep)))
  {
    hide Find, After, Key, Field, Json, OpsPart, NextValue, FixPart, Seen, PlainOps, Mentions;
    var before := ReachEnd(ep, k);
    FixText(ep);
    ReadNext(ep);
    var lead := if ep.fix.Some? then ",\"fix\"" else ",\"outcome\"";
    assert before + FixPart(ep) == (before + lead) + (":" + NextValue(ep));
    FieldOf(ep, k, before + lead, NextValue(ep));
  }

  lemma ReadFix(ep: Episode)
    requires PlainOps(ep.topOps)
    ensures StringVal(Json(ep), Key("fix", ""))
         == if Tail(ep.timestamp) == "fix" then Some(ep.program)
            else if Tail(ep.program) == "fix" then None
            else if Mentions(ep.topOps, 0, "fix") && ep.fix.None? then Some(OutcomeName(ep.outcome))
            else ep.fix
  {
    hide Find, After, Key, Field, Unescape, Member, Json, Tail, Dec, Str, OpsPart, PcPart, OutcomePart, ProgPart;
    hide Mentions, PlainOps, OutcomeName, NextValue;
    Heads(ep);
    ReadString(ep.program, OpsPart(ep));
    StartsWithDigit(ep.totalOps, PcPart(ep));
    ReadNext(ep);
    if Mentions(ep.topOps, 0, "fix") {
      FieldMentioned(ep, "fix");
    } else {
      var before := ReachEnd(ep, "fix");
      SearchEnd(ep, "fix") by { assert CleanOps(ep.topOps) by { ArePlain(ep.topOps); } }
      if ep.fix.Some? {
        var v := Str(ep.fix.value, OutcomePart(ep));
        HitMember("fix", v);
        ReadString(ep.fix.value, OutcomePart(ep));
        assert ":" + v == "" + (":" + v);
        FieldOf(ep, "fix", "", v);
      } else {
        FieldMissing(ep);
      }
    }
  }

  lemma ArePlain(ops: seq<OpCount>)
    requires PlainOps(ops)
    ensures CleanOps(ops)
  {
  }

  lemma FieldMissing(ep: Episode)
    requires After(OpsPart(ep), Key("fix", "")) == None
    ensures Field(Json(ep), Key("fix", ""))
         == if Tail(ep.timestamp) == "fix" then Some(Str(ep.program, OpsPart(ep)))
            else if Tail(ep.program) == "fix" then Some(Dec(ep.totalOps) + PcPart(ep)) else None
  {
    hide Find, After, Key, Field, Json, Tail, Dec, Str, OpsPart, PcPart, ProgPart;
    SearchHead(ep, "fix", "");
    Heads(ep);
    StartsWithDigit(ep.totalOps, PcPart(ep));
    if Tail(ep.timestamp) == "fix" {
      FieldHere(Json(ep), Key("fix", ""), ",\"prog\"", Str(ep.program, OpsPart(ep)));
    } else if Tail(ep.program) == "fix" {
      FieldHere(Json(ep), Key("fix", ""), ",\"ops\"", Dec(ep.totalOps) + PcPart(ep));
    } else {
      NoField(Json(ep), Key("fix", ""));
    }
  }

  lemma NoField(json: string, key: string)
    requires After(json, key) == None
    ensures Field(json, key) == None
  {
  }

  /** A fix that ends like the outcome's key is harmless: the next colon is still the right one. */
  lemma ReachOutcome(ep: Episode) returns (before: string)
    requires PlainOps(ep.topOps) && !Mentions(ep.topOps, 0, "outcome")
    ensures ':' !in before
    ensures After(OpsPart(ep), Key("outcome", "")) == Some(before + (":" + Named(ep)))
  {
    hide Find, After, Key, Member, Tail, Str, OpsPart, Named, Mentions, PlainOps;
    before := ReachEnd(ep, "outcome");
    OutcomeText(ep);
    HitMember("outcome", Named(ep));
    before := "";
    assert ":" + Named(ep) == "" + (":" + Named(ep));
    if ep.fix.Some? {
      SkipMember("fix", Str(ep.fix.value, OutcomePart(ep)), "outcome", "");
      SkipStr(ep.fix.value, OutcomePart(ep), "outcome", "");
      if Tail(ep.fix.value) == "outcome" {
        before := ",\"outcome\"";
      }
    }
  }

  lemma ReadOutcome(ep: Episode)
    requires PlainOps(ep.topOps)
    ensures StringVal(Json(ep), Key("outcome", ""))
         == if Tail(ep.timestamp) == "outcome" then Some(ep.program)
            else if Tail(ep.program) == "outcome" then None
            else if Mentions(ep.topOps, 0, "outcome") && ep.fix.Some? then ep.fix
            else Some(OutcomeName(ep.outcome))
  {
    hide Find, After, Key, Field, Unescape, Member, Json, Tail, Dec, Str, OpsPart, PcPart, ProgPart, OutcomeName;
    hide Mentions, PlainOps, NextValue;
    Heads(ep);
    ReadString(ep.program, OpsPart(ep));
    StartsWithDigit(ep.totalOps, PcPart(ep));
    ReadNext(ep);
    if Mentions(ep.topOps, 0, "outcome") {
      FieldMentioned(ep, "outcome");
    } else {
      var before := ReachOutcome(ep);
      FieldOf(ep, "outcome", before, Named(ep));
      ReadName(ep.outcome);
      assert Named(ep)[1..] == OutcomeName(ep.outcome) + ("\"" + "}");
    }
  }

  // ---- the theorem ----

  /** What the timestamp must not end like, unless the value read instead happens to be the same. */
  predicate TimestampSafe(ep: Episode) {
    var t := Tail(ep.timestamp);
    && t != "ops" && t != "pc" && t != "non_zero" && t != "total"
    && (t == "halted" ==> !ep.halted)
    && (t == "pct" ==> ep.screen.drawn == 0)
    && (t == "fix" ==> ep.fix == Some(ep.program))
    && (t == "outcome" ==> OutcomeOf(ep.program) == ep.outcome)
  }

  /** The same for the program's name; a name that ends like the timestamp is never looked at. */
  predicate ProgramSafe(ep: Episode) {
    var p := Tail(ep.program);
    p != Tail(ep.timestamp) ==>
      && (p == "pc" ==> Wrap(ep.totalOps) == ep.finalPc)
      && (p == "halted" ==> !ep.halted)
      && (p == "non_zero" ==> ep.totalOps == ep.screen.nonZero)
      && (p == "total" ==> ep.totalOps == ep.screen.total)
      && (p == "pct" ==> 10 * ep.totalOps == ep.screen.drawn)
      && (p == "fix" ==> ep.fix == None)
      && p != "outcome"
  }

  /** The same for the mnemonics, where neither timestamp nor program name ends like the key. */
  predicate MnemonicsSafe(ep: Episode) {
    var t, p := Tail(ep.timestamp), Tail(ep.program);
    && (Mentions(ep.topOps, 0, "fix") && t != "fix" && p != "fix" ==> ep.fix.Some?)
    && (Mentions(ep.topOps, 0, "outcome") && t != "outcome" && p != "outcome" && ep.fix.Some? ==>
          OutcomeOf(ep.fix.value) == ep.outcome)
  }

  lemma OutcomeBack(o: Outcome)
    ensures OutcomeOf(OutcomeName(o)) == o
  {
  }

  /** A line reads back as the episode it was printed from exactly when its strings are safe. */
  lemma RoundTripIff(ep: Episode)
    requires PlainOps(ep.topOps)
    ensures Parse(Json(ep)) == Some(ep) <==> TimestampSafe(ep) && ProgramSafe(ep) && MnemonicsSafe(ep)
  {
    hide PlainOps, Mentions, StringVal, U64Val, BoolVal, TenthsVal, TopOps, Json, Tail, Key, OutcomeOf, OutcomeName;
    KeyTexts();
    ReadTimestamp(ep);
    ReadProgram(ep);
    ReadOps(ep);
    ReadPc(ep);
    ReadHalted(ep);
    ReadNonZero(ep);
    ReadTotal(ep);
    ReadPct(ep);
    ReadFix(ep);
    ReadOutcome(ep);
    ArePlain(ep.topOps);
    ReadTopOps(ep);
    OutcomeBack(ep.outcome);
  }

  /** In terms of the text itself: the tail is a key when the value is the key, or ends in a quote and the key. */
  lemma {:induction false} TailIs(v: string, k: string)
    requires Name(k)
    ensures Tail(v) == k <==> v == k || (|v| > |k| && v[|v| - |k| - 1..] == "\"" + k)
  {
    var q := "\"" + k;
    assert '"' !in k;
    if '"' !in v {
      assert |v| > |k| ==> v[|v| - |k| - 1] != q[0];
    } else {
      TailIs(v[1..], k);
      assert v != k;
      if |v| > |k| + 1 {
        assert v[1..][|v| - 1 - |k| - 1..] == v[|v| - |k| - 1..];
        assert v[1..] == k ==> |v| == |k| + 1;
      } else if |v| == |k| + 1 {
        assert v == [v[0]] + v[1..];
      }
    }
  }

  const KEYS: set<string> :=
    {"ts", "prog", "ops", "pc", "halted", "screen", "non_zero", "total", "pct", "top_ops", "fix", "outcome"}

  /** The documented promise: strings that do not end like a key name round-trip. */
  lemma RoundTrip(ep: Episode)
    requires CleanOps(ep.topOps) && !Mentions(ep.topOps, 0, "fix") && !Mentions(ep.topOps, 0, "outcome")
    requires Tail(ep.timestamp) !in KEYS && Tail(ep.program) !in KEYS
    ensures Parse(Json(ep)) == Some(ep)
  {
    hide Parse, Json, Tail, Mentions;
    RoundTripIff(ep);
  }

  /** A program called "outcome" makes its own line unreadable. */
  lemma UnreadableLine(ep: Episode)
    requires PlainOps(ep.topOps) && ep.program == "outcome" && Tail(ep.timestamp) != "outcome"
    ensures Parse(Json(ep)) == None
  {
    hide StringVal, Json, Key, U64Val, BoolVal, TenthsVal, TopOps, PlainOps, Mentions;
    KeyTexts();
    ReadOutcome(ep);
    NoQuoteTail(ep.program);
  }

  lemma NoQuoteTail(v: string)
    requires '"' !in v
    ensures Tail(v) == v
  {
  }
}
