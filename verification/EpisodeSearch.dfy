/** Where each key search lands in a printed episode, and what is read there. */
module EpisodeSearch {
  import opened Words
  import opened EpisodeText
  import opened EpisodeLog
  import opened EpisodeParse

  // ---- one search over one printed member ----

  lemma SkipMember(name: string, u: string, k: string, suffix: string)
    requires Name(k) && '"' !in name && !(name == k && suffix <= ":" + u)
    ensures After("," + Member(name, u), Key(k, suffix)) == After(u, Key(k, suffix))
    ensures After("{" + Member(name, u), Key(k, suffix)) == After(u, Key(k, suffix))
  {
    hide Find, After;
    var pat := Key(k, suffix);
    AfterOver(",", Member(name, u), pat);
    AfterOver("{", Member(name, u), pat);
    SkipPiece(name, ":" + u, k, suffix);
    SkipQuote(":" + u, k, suffix);
    AfterOver(":", u, pat);
  }

  lemma HitMember(k: string, u: string)
    requires Name(k)
    ensures After("," + Member(k, u), Key(k, "")) == Some(":" + u)
    ensures After("{" + Member(k, u), Key(k, "")) == Some(":" + u)
  {
    hide Find, After;
    AfterOver(",", Member(k, u), Key(k, ""));
    AfterOver("{", Member(k, u), Key(k, ""));
    HitPiece(k, "", ":" + u);
    assert "" + (":" + u) == ":" + u;
  }

  /** A string member: the search may stop inside its value. */
  lemma SkipStr(v: string, u: string, k: string, suffix: string)
    requires Name(k) && u != "" && (u[0] == ',' || u[0] == '}')
    ensures After(Str(v, u), Key(k, suffix))
         == if Tail(v) == k && suffix <= u then Some(u[|suffix|..]) else After(u, Key(k, suffix))
  {
    hide Find, After, Key;
    SkipValue(v, u, k, suffix);
    SkipQuote(u, k, suffix);
  }

  lemma DecOver(n: nat, u: string, k: string, suffix: string)
    ensures After(Dec(n) + u, Key(k, suffix)) == After(u, Key(k, suffix))
    ensures After(Tenths(n) + u, Key(k, suffix)) == After(u, Key(k, suffix))
  {
    hide Find, After, Dec;
    assert AllDigits(Dec(n)) && AllDigits(Dec(n / 10));
    AfterOver(Dec(n), u, Key(k, suffix));
    AfterOver(Tenths(n), u, Key(k, suffix));
  }

  lemma PlainOver(c: char, u: string, k: string, suffix: string)
    requires c != '"'
    ensures After([c] + u, Key(k, suffix)) == After(u, Key(k, suffix))
  {
    hide Find, After;
    AfterOver([c], u, Key(k, suffix));
  }

  // ---- the searches over a whole line ----

  /** Mnemonics are printed unescaped. */
  predicate Clean(m: string) {
    forall c <- m :: c != '"' && c != ',' && c != '[' && c != ']'
  }

  predicate CleanOps(ops: seq<OpCount>) {
    forall o <- ops :: Clean(o.mnemonic)
  }

  /** A mnemonic from row `i` on is the key's name. */
  predicate Mentions(ops: seq<OpCount>, i: nat, k: string) {
    exists j :: i <= j < |ops| && ops[j].mnemonic == k
  }

  predicate NoColon(ops: seq<OpCount>) {
    forall o <- ops :: ':' !in o.mnemonic
  }

  lemma SkipBody(o: OpCount, u: string, k: string, suffix: string)
    requires Name(k) && Clean(o.mnemonic) && o.mnemonic != k
    ensures After(Body(o) + u, Key(k, suffix)) == After(u, Key(k, suffix))
  {
    hide Find, After, Key, Dec, Tenths;
    var x := "," + (Dec(o.count) + ("," + (Tenths(o.share) + u)));
    assert Body(o) + u == Dec(o.op) + ("," + ("\"" + o.mnemonic + "\"" + x));
    DecOver(o.op, "," + ("\"" + o.mnemonic + "\"" + x), k, suffix);
    PlainOver(',', "\"" + o.mnemonic + "\"" + x, k, suffix);
    SkipPiece(o.mnemonic, x, k, suffix);
    SkipQuote(x, k, suffix);
    PlainOver(',', Dec(o.count) + ("," + (Tenths(o.share) + u)), k, suffix);
    DecOver(o.count, "," + (Tenths(o.share) + u), k, suffix);
    PlainOver(',', Tenths(o.share) + u, k, suffix);
    DecOver(o.share, u, k, suffix);
  }

  lemma {:induction false} SkipRows(ops: seq<OpCount>, i: nat, u: string, k: string, suffix: string)
    requires i <= |ops| && CleanOps(ops) && Name(k) && !Mentions(ops, i, k)
    ensures After(Rows(ops, i, u), Key(k, suffix)) == After(u, Key(k, suffix))
    decreases |ops| - i
  {
    hide Find, After, Key, Body;
    if i < |ops| {
      var rest := Rows(ops, i + 1, u);
      var row := "[" + (Body(ops[i]) + ("]" + rest));
      assert ops[i] in ops && ops[i].mnemonic != k;
      PlainOver(',', row, k, suffix);
      assert "" + row == row;
      PlainOver('[', Body(ops[i]) + ("]" + rest), k, suffix);
      SkipBody(ops[i], "]" + rest, k, suffix);
      PlainOver(']', rest, k, suffix);
      SkipRows(ops, i + 1, u, k, suffix);
    }
  }

  lemma Heads(ep: Episode)
    ensures Json(ep) == "{" + Member("ts", Str(ep.timestamp, ProgPart(ep)))
    ensures ProgPart(ep) == "," + Member("prog", Str(ep.program, OpsPart(ep)))
    ensures ProgPart(ep) == ",\"prog\"" + (":" + Str(ep.program, OpsPart(ep)))
    ensures OpsPart(ep) == ",\"ops\"" + (":" + (Dec(ep.totalOps) + PcPart(ep)))
    ensures ProgPart(ep)[0] == ',' && OpsPart(ep)[0] == ',' && PcPart(ep) != "" && PcPart(ep)[0] == ','
    ensures Str(ep.program, OpsPart(ep)) != "" && Str(ep.program, OpsPart(ep))[0] == '"'
  {
    hide Escape, Dec, HaltedPart;
    var v, w := Str(ep.program, OpsPart(ep)), Dec(ep.totalOps) + PcPart(ep);
    assert ",\"prog\"" + (":" + v) == "," + ("\"" + "prog" + "\"" + (":" + v));
    assert ",\"ops\"" + (":" + w) == "," + ("\"" + "ops" + "\"" + (":" + w));
  }

  /** A mnemonic that is the key's name stops the search; no colon follows it among the rows. */
  lemma {:induction false} ReachRow(ops: seq<OpCount>, i: nat, u: string, k: string) returns (before: string)
    requires i < |ops| && CleanOps(ops) && NoColon(ops) && Name(k) && Mentions(ops, i, k)
    ensures ':' !in before && After(Rows(ops, i, u), Key(k, "")) == Some(before + u)
    decreases |ops| - i
  {
    hide Find, After, Key, Body, Rows;
    var o, rest := ops[i], Rows(ops, i + 1, u);
    RowsUnfold(ops, i, u);
    assert o in ops;
    var row := "[" + (Body(o) + ("]" + rest));
    PlainOver(',', row, k, "");
    assert "" + row == row;
    PlainOver('[', Body(o) + ("]" + rest), k, "");
    if o.mnemonic == k {
      HitBody(o, "]" + rest, k);
      NoColonRows(ops, i + 1);
      RowsSplit(ops, i + 1, u);
      var head, tail := AfterMnemonic(o), Rows(ops, i + 1, "");
      before := head + "]" + tail;
      assert head + ("]" + (tail + u)) == before + u;
    } else {
      SkipBody(o, "]" + rest, k, "");
      PlainOver(']', rest, k, "");
      before := ReachRow(ops, i + 1, u, k);
    }
  }

  /** The rest of a row behind its mnemonic. */
  function AfterMnemonic(o: OpCount): (s: string)
    ensures ':' !in s
  {
    assert AllDigits(Dec(o.count)) && AllDigits(Dec(o.share / 10));
    "," + (Dec(o.count) + ("," + Tenths(o.share)))
  }

  lemma HitBody(o: OpCount, u: string, k: string)
    requires Name(k) && o.mnemonic == k
    ensures After(Body(o) + u, Key(k, "")) == Some(AfterMnemonic(o) + u)
  {
    hide Find, After, Key, Dec, Tenths;
    var x := "," + (Dec(o.count) + ("," + (Tenths(o.share) + u)));
    assert Body(o) + u == Dec(o.op) + ("," + ("\"" + k + "\"" + x));
    DecOver(o.op, "," + ("\"" + k + "\"" + x), k, "");
    PlainOver(',', "\"" + k + "\"" + x, k, "");
    HitPiece(k, "", x);
    assert "" + x == x && x == AfterMnemonic(o) + u;
  }

  lemma RowsUnfold(ops: seq<OpCount>, i: nat, u: string)
    requires i < |ops|
    ensures Rows(ops, i, u) == (if i > 0 then "," else "") + ("[" + (Body(ops[i]) + ("]" + Rows(ops, i + 1, u))))
  {
  }

  lemma {:induction false} RowsSplit(ops: seq<OpCount>, i: nat, u: string)
    requires i <= |ops|
    ensures Rows(ops, i, u) == Rows(ops, i, "") + u
    decreases |ops| - i
  {
    hide Body, Rows;
    if i == |ops| {
      RowsStop(ops, u);
      RowsStop(ops, "");
      assert "" + u == u;
    } else {
      RowsSplit(ops, i + 1, u);
      RowsStep(ops, i, u);
      RowsStep(ops, i, "");
      Append((if i > 0 then "," else "") + "[" + Body(ops[i]) + "]", Rows(ops, i + 1, ""), u);
    }
  }

  lemma RowsStop(ops: seq<OpCount>, u: string)
    ensures Rows(ops, |ops|, u) == u
  {
  }

  lemma RowsStep(ops: seq<OpCount>, i: nat, u: string)
    requires i < |ops|
    ensures Rows(ops, i, u) == ((if i > 0 then "," else "") + "[" + Body(ops[i]) + "]") + Rows(ops, i + 1, u)
  {
    hide Body;
  }

  lemma Append(a: string, b: string, c: string)
    ensures a + (b + c) == (a + b) + c
  {
  }

  lemma {:induction false} NoColonRows(ops: seq<OpCount>, i: nat)
    requires i <= |ops| && NoColon(ops)
    ensures ':' !in Rows(ops, i, "")
    decreases |ops| - i
  {
    hide Body, Rows;
    if i == |ops| {
      RowsStop(ops, "");
    } else {
      NoColonRows(ops, i + 1);
      RowsStep(ops, i, "");
      assert ops[i] in ops;
      NoColonBody(ops[i]);
    }
  }

  lemma NoColonBody(o: OpCount)
    requires ':' !in o.mnemonic
    ensures ':' !in Body(o)
  {
    hide Dec;
    assert AllDigits(Dec(o.op)) && AllDigits(Dec(o.count)) && AllDigits(Dec(o.share / 10));
  }

  /** A search that does not want the first member: it may stop at the timestamp's or the program's end. */
  lemma SearchHead(ep: Episode, k: string, suffix: string)
    requires Name(k) && k != "ts" && (suffix == "" || suffix == ":[")
    ensures After(Json(ep), Key(k, suffix))
         == if Tail(ep.timestamp) == k && suffix == "" then Some(ProgPart(ep)) else After(ProgPart(ep), Key(k, suffix))
    ensures k != "prog" ==>
      After(ProgPart(ep), Key(k, suffix))
        == if Tail(ep.program) == k && suffix == "" then Some(OpsPart(ep)) else After(OpsPart(ep), Key(k, suffix))
  {
    hide Find, After, Key, Str, Tail, Member, ProgPart, OpsPart;
    Heads(ep);
    SkipMember("ts", Str(ep.timestamp, ProgPart(ep)), k, suffix);
    SkipStr(ep.timestamp, ProgPart(ep), k, suffix);
    if k != "prog" {
      SkipMember("prog", Str(ep.program, OpsPart(ep)), k, suffix);
      SkipStr(ep.program, OpsPart(ep), k, suffix);
    }
  }

  lemma SkipNumber(name: string, n: nat, u: string, k: string, suffix: string)
    requires Name(k) && '"' !in name && name != k
    ensures After("," + Member(name, Dec(n) + u), Key(k, suffix)) == After(u, Key(k, suffix))
  {
    hide Find, After, Key, Dec;
    SkipMember(name, Dec(n) + u, k, suffix);
    DecOver(n, u, k, suffix);
  }

  lemma SearchNumbers(ep: Episode, k: string, suffix: string)
    requires Name(k)
    ensures k != "ops" ==> After(OpsPart(ep), Key(k, suffix)) == After(PcPart(ep), Key(k, suffix))
    ensures k != "pc" ==> After(PcPart(ep), Key(k, suffix)) == After(HaltedPart(ep), Key(k, suffix))
    ensures k != "halted" ==> After(HaltedPart(ep), Key(k, suffix)) == After(ScreenPart(ep), Key(k, suffix))
  {
    hide Find, After, Key, Dec, Member, ScreenPart;
    if k != "ops" { SkipNumber("ops", ep.totalOps, PcPart(ep), k, suffix); }
    if k != "pc" { SkipNumber("pc", ep.finalPc, HaltedPart(ep), k, suffix); }
    if k != "halted" {
      SkipMember("halted", Bool(ep.halted) + ScreenPart(ep), k, suffix);
      BoolOver(ep.halted, ScreenPart(ep), k, suffix);
    }
  }

  lemma BoolOver(b: bool, u: string, k: string, suffix: string)
    ensures After(Bool(b) + u, Key(k, suffix)) == After(u, Key(k, suffix))
  {
    hide Find, After;
    AfterOver(Bool(b), u, Key(k, suffix));
  }

  lemma SearchScreen(ep: Episode, k: string, suffix: string)
    requires Name(k) && k != "screen"
    ensures k != "non_zero" ==> After(ScreenPart(ep), Key(k, suffix)) == After(TotalPart(ep), Key(k, suffix))
    ensures k == "non_zero" && suffix == "" ==>
      After(ScreenPart(ep), Key(k, suffix)) == Some(":" + (Dec(ep.screen.nonZero) + TotalPart(ep)))
    ensures k != "total" ==> After(TotalPart(ep), Key(k, suffix)) == After(PctPart(ep), Key(k, suffix))
    ensures k != "pct" ==> After(PctPart(ep), Key(k, suffix)) == After(TopPart(ep), Key(k, suffix))
  {
    hide Find, After, Key, Dec, Tenths, TopPart;
    var u := Dec(ep.screen.nonZero) + TotalPart(ep);
    SkipMember("screen", "{" + Member("non_zero", u), k, suffix);
    if k != "non_zero" {
      SkipMember("non_zero", u, k, suffix);
      DecOver(ep.screen.nonZero, TotalPart(ep), k, suffix);
    } else {
      HitMember("non_zero", u);
    }
    if k != "total" { SkipNumber("total", ep.screen.total, PctPart(ep), k, suffix); }
    if k != "pct" {
      SkipMember("pct", Tenths(ep.screen.drawn) + ("}" + TopPart(ep)), k, suffix);
      DecOver(ep.screen.drawn, "}" + TopPart(ep), k, suffix);
      PlainOver('}', TopPart(ep), k, suffix);
    }
  }

  lemma SearchEnd(ep: Episode, k: string)
    requires CleanOps(ep.topOps) && (k == "fix" || k == "outcome")
    ensures !Mentions(ep.topOps, 0, k) ==> After(TopPart(ep), Key(k, "")) == After(FixPart(ep), Key(k, ""))
    ensures k == "fix" ==> After(OutcomePart(ep), Key(k, "")) == None
  {
    hide Find, After, Key, Rows, FixPart, OutcomePart, Mentions, Member;
    var u := "]" + FixPart(ep);
    assert Name(k);
    SkipMember("top_ops", "[" + Rows(ep.topOps, 0, u), k, "");
    PlainOver('[', Rows(ep.topOps, 0, u), k, "");
    if !Mentions(ep.topOps, 0, k) {
      SkipRows(ep.topOps, 0, u, k, "");
      PlainOver(']', FixPart(ep), k, "");
    }
    if k == "fix" {
      NoFixLeft(ep);
    }
  }

  lemma NoFixLeft(ep: Episode)
    ensures After(OutcomePart(ep), Key("fix", "")) == None
  {
    hide Find, After, Key, OutcomeName, Member;
    var name := OutcomeName(ep.outcome);
    PlainName(ep.outcome);
    SkipMember("outcome", "\"" + name + "\"" + "}", "fix", "");
    SkipPiece(name, "}", "fix", "");
    SkipQuote("}", "fix", "");
    PlainOver('}', "", "fix", "");
    assert "}" + "" == "}";
    NothingLeft("fix");
  }

  lemma PlainName(o: Outcome)
    ensures '"' !in OutcomeName(o) && OutcomeName(o) != "fix"
  {
  }

  /** A histogram that mentions the key stops its search; the next colon is behind the first later member. */
  lemma SearchMentioned(ep: Episode, k: string) returns (before: string)
    requires CleanOps(ep.topOps) && NoColon(ep.topOps) && Name(k) && k != "top_ops" && Mentions(ep.topOps, 0, k)
    ensures ':' !in before && After(TopPart(ep), Key(k, "")) == Some(before + FixPart(ep))
  {
    hide Find, After, Key, Rows, FixPart;
    var u := "]" + FixPart(ep);
    SkipMember("top_ops", "[" + Rows(ep.topOps, 0, u), k, "");
    PlainOver('[', Rows(ep.topOps, 0, u), k, "");
    var head := ReachRow(ep.topOps, 0, u, k);
    before := head + "]";
    assert head + u == before + FixPart(ep);
  }

  lemma NothingLeft(k: string)
    ensures After("", Key(k, "")) == None
  {
  }

  // ---- what the reader makes of the text it reaches ----

  lemma TrimNothing(u: string)
    requires u == "" || !IsSpace(u[0])
    ensures TrimStart(u) == u
  {
  }

  /** The text read for key `k`, if `u` is what follows the real member's colon. */
  function Seen(ep: Episode, k: string, u: string): string {
    if Tail(ep.timestamp) == k then Str(ep.program, OpsPart(ep))
    else if Tail(ep.program) == k then Dec(ep.totalOps) + PcPart(ep)
    else u
  }

  lemma FieldHere(json: string, key: string, before: string, u: string)
    requires After(json, key) == Some(before + (":" + u)) && ':' !in before
    requires u != "" && !IsSpace(u[0])
    ensures Field(json, key) == Some(u)
  {
    hide Find, After;
    AfterOver(before, ":" + u, ":");
    AfterHere(":", u);
    assert After(":" + u, ":") == Some(u) by {
      hide *;
      AfterHere(":", u);
    }
    TrimNothing(u);
  }

  lemma StartsWithDigit(n: nat, u: string)
    ensures Dec(n) + u != "" && IsDigit((Dec(n) + u)[0]) && !IsSpace((Dec(n) + u)[0])
    ensures Tenths(n) + u != "" && !IsSpace((Tenths(n) + u)[0])
  {
    hide Dec;
    assert AllDigits(Dec(n)) && AllDigits(Dec(n / 10));
    assert (Dec(n) + u)[0] == Dec(n)[0] && (Tenths(n) + u)[0] == Dec(n / 10)[0];
  }

  /** A key that a value's tail imitates is read from the next member's value. */
  lemma FieldOf(ep: Episode, k: string, before: string, u: string)
    requires Name(k) && k != "ts" && k != "prog"
    requires After(OpsPart(ep), Key(k, "")) == Some(before + (":" + u)) && ':' !in before
    requires u != "" && !IsSpace(u[0])
    ensures Field(Json(ep), Key(k, "")) == Some(Seen(ep, k, u))
  {
    hide Find, After, Key, Field, Json, Dec, Str, Tail, Name, ProgPart, OpsPart, PcPart;
    SearchHead(ep, k, "");
    Heads(ep);
    var json, key := Json(ep), Key(k, "");
    if Tail(ep.timestamp) == k {
      FieldHere(json, key, ",\"prog\"", Str(ep.program, OpsPart(ep)));
    } else if Tail(ep.program) == k {
      StartsWithDigit(ep.totalOps, PcPart(ep));
      FieldHere(json, key, ",\"ops\"", Dec(ep.totalOps) + PcPart(ep));
    } else {
      FieldHere(json, key, before, u);
    }
  }

  lemma {:induction false} DigitPrefixOf(d: string, u: string)
    requires AllDigits(d) && (u == "" || !IsDigit(u[0]))
    ensures DigitPrefix(d + u) == d
  {
    if d == "" {
      assert d + u == u;
    } else {
      assert (d + u)[1..] == d[1..] + u && d == [d[0]] + d[1..];
      DigitPrefixOf(d[1..], u);
    }
  }

  lemma {:induction false} FloatPrefixOf(d: string, u: string)
    requires (forall c <- d :: FloatChar(c)) && (u == "" || !FloatChar(u[0]))
    ensures FloatPrefix(d + u) == d
  {
    if d == "" {
      assert d + u == u;
    } else {
      assert (d + u)[1..] == d[1..] + u && d == [d[0]] + d[1..];
      FloatPrefixOf(d[1..], u);
    }
  }

  lemma ParseTenthsOf(n: nat)
    ensures ParseTenths(Tenths(n)) == Some(n)
    ensures ParseTenths(Dec(n)) == Some(10 * n)
  {
    hide ParseTenths, Dec, DecVal, DigitVal, DigitChar;
    DecValDec(n);
    DecValDec(n / 10);
    DigitBack(n % 10);
    ParsePoint(Dec(n / 10), DigitChar(n % 10));
    assert ParseTenths(Dec(n)) == Some(10 * n) by { ParseWhole(Dec(n)); }
  }

  lemma ParsePoint(w: string, d: char)
    requires AllDigits(w) && w != "" && IsDigit(d)
    ensures ParseTenths(w + "." + [d]) == Some(10 * DecVal(w) + DigitVal(d))
  {
    hide DecVal, DigitVal;
    var s := w + "." + [d];
    assert s[|s| - 2] == '.' && s[|s| - 1] == d && s[..|s| - 2] == w;
    assert !IsDigit(s[|s| - 2]);
  }

  lemma ParseWhole(s: string)
    requires AllDigits(s) && s != ""
    ensures ParseTenths(s) == Some(10 * DecVal(s))
  {
  }

  lemma DigitBack(d: nat)
    requires d < 10
    ensures IsDigit(DigitChar(d)) && DigitVal(DigitChar(d)) == d
  {
  }

  lemma TenthsChars(n: nat)
    ensures forall c <- Tenths(n) :: FloatChar(c)
    ensures forall c <- Dec(n) :: FloatChar(c)
  {
    hide Dec;
    assert AllDigits(Dec(n)) && AllDigits(Dec(n / 10));
  }

  /** A numeric member reads as printed, unless a string before it ends like its name. */
  lemma ReadNumber(ep: Episode, k: string, n: u64, u: string)
    requires Name(k) && k != "ts" && k != "prog"
    requires After(OpsPart(ep), Key(k, "")) == Some(":" + (Dec(n) + u))
    requires u != "" && !IsDigit(u[0])
    ensures U64Val(Json(ep), Key(k, ""))
         == if Tail(ep.timestamp) == k then None else if Tail(ep.program) == k then Some(ep.totalOps) else Some(n)
  {
    hide Find, After, Key, Field, Json, Dec, Str, Tail, Name, OpsPart, PcPart;
    StartsWithDigit(n, u);
    assert ":" + (Dec(n) + u) == "" + (":" + (Dec(n) + u));
    FieldOf(ep, k, "", Dec(n) + u);
    DigitPrefixOf(Dec(n), u);
    ParseDec(n, TWO_64);
    Heads(ep);
    DigitPrefixOf(Dec(ep.totalOps), PcPart(ep));
    ParseDec(ep.totalOps, TWO_64);
    assert DigitPrefix(Str(ep.program, OpsPart(ep))) == "";
  }

  lemma ReadDrawn(ep: Episode)
    requires After(OpsPart(ep), Key("pct", "")) == Some(":" + (Tenths(ep.screen.drawn) + ("}" + TopPart(ep))))
    ensures OrZero(TenthsVal(Json(ep), Key("pct", "")))
         == if Tail(ep.timestamp) == "pct" then 0 else if Tail(ep.program) == "pct" then 10 * ep.totalOps
            else ep.screen.drawn
  {
    hide Find, After, Key, Field, Json, Dec, Tenths, Str, Tail, OpsPart, TopPart, PcPart, ParseTenths;
    var n, u := ep.screen.drawn, "}" + TopPart(ep);
    StartsWithDigit(n, u);
    assert ":" + (Tenths(n) + u) == "" + (":" + (Tenths(n) + u));
    FieldOf(ep, "pct", "", Tenths(n) + u);
    TenthsChars(n);
    TenthsChars(ep.totalOps);
    FloatPrefixOf(Tenths(n), u);
    ParseTenthsOf(n);
    Heads(ep);
    FloatPrefixOf(Dec(ep.totalOps), PcPart(ep));
    ParseTenthsOf(ep.totalOps);
    assert FloatPrefix(Str(ep.program, OpsPart(ep))) == "";
    assert ParseTenths("").None? by { NoTenths(); }
  }

  lemma NoTenths()
    ensures ParseTenths("") == None
  {
  }
}
