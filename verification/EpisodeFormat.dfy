/** The printed line in full, and the readers on text that this program did not print itself. */
module EpisodeFormat {
  import opened Words
  import opened Numerals
  import opened EpisodeText
  import opened EpisodeLog
  import opened EpisodeParse
  import E = EpisodeRows

  // ---- The printed line ----

  /** The rows of the histogram, separated by commas. */
  function RowTexts(ops: seq<OpCount>): string {
    if ops == [] then ""
    else
      var n := |ops| - 1;
      var o := ops[n];
      RowTexts(ops[..n]) + ((if n > 0 then "," else "") + "["
        + (Dec(o.op) + ("," + ("\"" + o.mnemonic + "\"" + ("," + (Dec(o.count) + ("," + Tenths(o.share)))))))
        + "]")
  }

  lemma NoRowTexts(ops: seq<OpCount>)
    ensures RowTexts(ops[..0]) == ""
  {
  }

  lemma RowTextsMore(ops: seq<OpCount>, i: nat)
    requires 0 < i <= |ops|
    ensures RowTexts(ops[..i]) == RowTexts(ops[..i - 1]) + ((if i - 1 > 0 then "," else "") + "[" + Body(ops[i - 1]) + "]")
  {
    assert ops[..i][..i - 1] == ops[..i - 1];
  }

  lemma {:induction false} RowsPrinted(done: string, ops: seq<OpCount>, i: nat, u: string)
    requires i <= |ops|
    ensures done + Rows(ops, 0, u) == (done + RowTexts(ops[..i])) + Rows(ops, i, u)
  {
    hide Rows, RowTexts, Body;
    if i == 0 {
      assert RowTexts(ops[..0]) == "" by { NoRowTexts(ops); }
      assert done + "" == done;
    } else {
      RowsPrinted(done, ops, i - 1, u);
      PrintedRow(done + RowTexts(ops[..i - 1]), ops, i - 1, u);
      var row := (if i - 1 > 0 then "," else "") + "[" + Body(ops[i - 1]) + "]";
      RowTextsMore(ops, i);
      assert (done + RowTexts(ops[..i - 1])) + row == done + (RowTexts(ops[..i - 1]) + row);
    }
  }

  /** The line up to the histogram's rows. */
  function Front(ep: Episode): string {
    "{" + ("\"ts\":" + "\"" + Escape(ep.timestamp) + "\"")
      + (",\"prog\":" + "\"" + Escape(ep.program) + "\"")
      + (",\"ops\":" + Dec(ep.totalOps))
      + (",\"pc\":" + Dec(ep.finalPc))
      + (",\"halted\":" + (if ep.halted then "true" else "false"))
      + (",\"screen\":" + "{\"non_zero\":" + Dec(ep.screen.nonZero))
      + (",\"total\":" + Dec(ep.screen.total))
      + (",\"pct\":" + Tenths(ep.screen.drawn) + "}")
      + (",\"top_ops\":" + "[")
  }

  /** The line from there on. */
  function Back(ep: Episode): string {
    (if ep.fix.Some? then ",\"fix\":" + "\"" + Escape(ep.fix.value) + "\"" else "")
      + (",\"outcome\":" + "\"" + OutcomeName(ep.outcome) + "\"") + "}"
  }

  lemma Labels()
    ensures Label("prog") == ",\"prog\":" && Label("ops") == ",\"ops\":" && Label("pc") == ",\"pc\":"
    ensures Label("halted") == ",\"halted\":" && Label("screen") == ",\"screen\":" && Label("total") == ",\"total\":"
    ensures Label("pct") == ",\"pct\":" && Label("top_ops") == ",\"top_ops\":" && Label("fix") == ",\"fix\":"
    ensures Label("outcome") == ",\"outcome\":"
  {
  }

  lemma FrontPrinted(ep: Episode)
    ensures Json(ep) == Front(ep) + Rows(ep.topOps, 0, "]" + FixPart(ep))
  {
    hide *;
    var json := "{" + ("\"ts\":" + "\"" + Escape(ep.timestamp) + "\"");
    PrintedHead(ep, Escape(ep.timestamp));
    PrintedProg(ep, json);
    json := json + (Label("prog") + "\"" + Escape(ep.program) + "\"");
    PrintedOps(ep, json);
    json := json + (Label("ops") + Dec(ep.totalOps));
    PrintedOps(ep, json);
    json := json + (Label("pc") + Dec(ep.finalPc));
    PrintedOps(ep, json);
    json := json + (Label("halted") + Bool(ep.halted));
    PrintedScreen(ep, json);
    json := json + (Label("screen") + "{\"non_zero\":" + Dec(ep.screen.nonZero));
    PrintedScreen(ep, json);
    json := json + (Label("total") + Dec(ep.screen.total));
    PrintedScreen(ep, json);
    json := json + (Label("pct") + Tenths(ep.screen.drawn) + "}");
    PrintedTop(ep, json);
    json := json + (Label("top_ops") + "[");
    FrontIs(ep);
  }

  lemma FrontIs(ep: Episode)
    ensures Front(ep)
         == "{" + ("\"ts\":" + "\"" + Escape(ep.timestamp) + "\"") + (Label("prog") + "\"" + Escape(ep.program) + "\"")
              + (Label("ops") + Dec(ep.totalOps)) + (Label("pc") + Dec(ep.finalPc)) + (Label("halted") + Bool(ep.halted))
              + (Label("screen") + "{\"non_zero\":" + Dec(ep.screen.nonZero)) + (Label("total") + Dec(ep.screen.total))
              + (Label("pct") + Tenths(ep.screen.drawn) + "}") + (Label("top_ops") + "[")
  {
    hide Label, Escape, Dec, Tenths;
    Labels();
  }

  lemma BackPrinted(ep: Episode, done: string)
    ensures (done + "]") + FixPart(ep) == done + ("]" + Back(ep))
  {
    hide Label, Escape, OutcomeName, Dec;
    Labels();
    var json := done + "]";
    PrintedEnd(ep, json);
    var e, last := Escape(if ep.fix.Some? then ep.fix.value else ""), Label("outcome") + "\"" + OutcomeName(ep.outcome) + "\"";
    var fix := if ep.fix.Some? then Label("fix") + "\"" + e + "\"" else "";
    PrintedEnd(ep, json + fix);
    assert Back(ep) == fix + last + "}";
    assert json + "" == json;
    assert (json + fix + last) + "}" == done + ("]" + (fix + last + "}"));
  }

  /** The printed line, character for character: keys, order, quoting and nesting are as documented. */
  lemma LineShape(ep: Episode)
    ensures Json(ep) == Front(ep) + RowTexts(ep.topOps) + ("]" + Back(ep))
  {
    hide Json, Front, Back, RowTexts, Rows;
    FrontPrinted(ep);
    var n := |ep.topOps|;
    RowsPrinted(Front(ep), ep.topOps, n, "]" + FixPart(ep));
    assert ep.topOps[..n] == ep.topOps;
    PrintedTop(ep, Front(ep) + RowTexts(ep.topOps));
    BackPrinted(ep, Front(ep) + RowTexts(ep.topOps));
  }

  // ---- Escapes ----

  /** Five characters are written with a backslash, all others as they are, one after the other. */
  lemma EscapeLaws(a: string, c: char, b: string)
    ensures Escape("") == "" && Escape(a + b) == Escape(a) + Escape(b)
    ensures Escape("\"") == "\\\"" && Escape("\\") == "\\\\"
    ensures Escape("\n") == "\\n" && Escape("\r") == "\\r" && Escape("\t") == "\\t"
    ensures c !in "\"\\\n\r\t" ==> Escape([c]) == [c]
  {
    hide Escape;
    EscapeJoin(a, b);
    EscapeOne('"');
    EscapeOne('\\');
    EscapeOne('\n');
    EscapeOne('\r');
    EscapeOne('\t');
    EscapeOne(c);
    assert Escape("") == "" by { EscapeEmpty(); }
  }

  lemma EscapeEmpty()
    ensures Escape("") == ""
  {
  }

  /** A string value is read up to its closing quote, or the end of the text; `\n`, `\r` and `\t` stand for
      their control characters, any other escaped character for itself, and a lone backslash at the end
      for nothing. */
  lemma UnescapeLaws(c: char, u: string)
    ensures Unescape("") == "" && Unescape("\"" + u) == "" && Unescape("\\") == ""
    ensures c != '"' && c != '\\' ==> Unescape([c] + u) == [c] + Unescape(u)
    ensures Unescape("\\n" + u) == "\n" + Unescape(u) && Unescape("\\r" + u) == "\r" + Unescape(u)
    ensures Unescape("\\t" + u) == "\t" + Unescape(u)
    ensures c !in "nrt" ==> Unescape("\\" + [c] + u) == [c] + Unescape(u)
  {
    hide Unescape;
    UnescapeEnds(u);
    if c != '"' && c != '\\' { UnescapePlain(c, u); }
    UnescapePair(c, u);
    UnescapePair('n', u);
    UnescapePair('r', u);
    UnescapePair('t', u);
    assert "\\" + ['n'] == "\\n" && "\\" + ['r'] == "\\r" && "\\" + ['t'] == "\\t";
  }

  lemma UnescapeEnds(u: string)
    ensures Unescape("") == "" && Unescape("\"" + u) == "" && Unescape("\\") == ""
  {
  }

  lemma UnescapePlain(c: char, u: string)
    requires c != '"' && c != '\\'
    ensures Unescape([c] + u) == [c] + Unescape(u)
  {
    assert ([c] + u)[1..] == u;
  }

  lemma UnescapePair(c: char, u: string)
    ensures Unescape("\\" + [c] + u) == [UnescapeChar(c)] + Unescape(u)
  {
    assert ("\\" + [c] + u)[2..] == u;
  }

  // ---- Fields ----

  /** A search yields the first place where the pattern stands, and fails only when it stands nowhere. */
  lemma {:induction false} FindExact(s: string, pat: string)
    ensures Find(s, pat).Some? ==> forall j :: 0 <= j < Find(s, pat).value ==> !(pat <= s[j..])
    ensures Find(s, pat).None? ==> forall j :: 0 <= j <= |s| ==> !(pat <= s[j..])
  {
    if !(pat <= s) && s != "" {
      FindExact(s[1..], pat);
      forall j | 0 < j <= |s| ensures s[j..] == s[1..][j - 1..] {
      }
      assert s[0..] == s;
    } else {
      assert s[0..] == s;
    }
  }

  predicate White(s: string) {
    forall c <- s :: c in " \t\n\r" || c == 11 as char || c == 12 as char
  }

  lemma {:induction false} Trimmed(w: string, v: string)
    requires White(w) && (v == "" || !White([v[0]]))
    ensures TrimStart(w + v) == v
  {
    if w == "" {
      assert w + v == v;
      assert v != "" ==> [v[0]][0] == v[0];
    } else {
      assert (w + v)[1..] == w[1..] + v && (w + v)[0] == w[0] && w[0] in w;
      assert IsSpace(w[0]);
      assert forall c <- w[1..] :: c in w;
      Trimmed(w[1..], v);
    }
  }

  lemma ColonAfter(b: string, v: string)
    requires ':' !in b
    ensures After(b + (":" + v), ":") == Some(v)
  {
    hide Find, After;
    AfterOver(b, ":" + v, ":");
    AfterHere(":", v);
  }

  /** A field is what follows the first colon behind the first occurrence of its key, white space skipped. */
  lemma FieldReads(a: string, key: string, b: string, w: string, v: string)
    requires Find(a + key + b + ":" + w + v, key) == Some(|a|)
    requires ':' !in b && White(w) && (v == "" || !White([v[0]]))
    ensures Field(a + key + b + ":" + w + v, key) == Some(v)
  {
    hide Find, TrimStart, White;
    var json := a + key + b + ":" + w + v;
    assert json[|a| + |key|..] == b + (":" + (w + v));
    ColonAfter(b, w + v);
    Trimmed(w, v);
  }

  lemma NoField(json: string, key: string)
    requires Find(json, key) == None
    ensures StringVal(json, key) == None && U64Val(json, key) == None && !BoolVal(json, key)
  {
  }

  lemma {:induction false} DigitsTaken(d: string, rest: string)
    requires AllDigits(d) && (rest == "" || !IsDigit(rest[0]))
    ensures DigitPrefix(d + rest) == d
  {
    if d == "" {
      assert d + rest == rest;
    } else {
      assert (d + rest)[1..] == d[1..] + rest;
      DigitsTaken(d[1..], rest);
    }
  }

  /** What the readers make of a field's text: a string needs its quote, a number is its leading decimal
      digits below 2^64, and a flag is set by the word `true`. */
  lemma ValuesRead(json: string, key: string, d: string, ds: seq<nat>, rest: string)
    requires Field(json, key).Some?
    ensures var t := Field(json, key).value;
            && (t == "\"" + rest ==> StringVal(json, key) == Some(Unescape(rest)))
            && ((t == "" || t[0] != '"') ==> StringVal(json, key) == None)
            && (t == d + rest && Numeral(10, d, ds) && (rest == "" || !IsDigit(rest[0])) ==>
                  U64Val(json, key) == if Positional(10, ds) < 0x1_0000_0000_0000_0000 then Some(Positional(10, ds)) else None)
            && ((t == "" || !IsDigit(t[0])) ==> U64Val(json, key) == None)
            && (BoolVal(json, key) <==> |t| >= 4 && t[..4] == "true")
  {
    hide Field, Unescape, Numeral, Positional, DecVal;
    var t := Field(json, key).value;
    assert ("\"" + rest)[1..] == rest;
    if t == d + rest && Numeral(10, d, ds) && (rest == "" || !IsDigit(rest[0])) {
      DecimalMeans(d, ds);
      NotEmpty(10, d, ds);
      DigitsTaken(d, rest);
    }
  }

  // ---- Outcomes ----

  /** Each outcome has its own word; every other text is the unknown outcome. */
  lemma OutcomeWords(s: string)
    ensures OutcomeOf(s) == Success <==> s == "success"
    ensures OutcomeOf(s) == BlackScreen <==> s == "black_screen"
    ensures OutcomeOf(s) == AssembleError <==> s == "assemble_error"
    ensures OutcomeOf(s) == Timeout <==> s == "timeout"
    ensures forall o: Outcome :: OutcomeOf(OutcomeName(o)) == o
    ensures OutcomeName(Unknown) == "unknown"
  {
  }

  /** A share of `q` percent and `r` tenths is printed with one decimal, and read back from it. */
  lemma TenthsPrinted(q: nat, r: nat)
    requires r < 10
    ensures Tenths(10 * q + r) == Dec(q) + "." + [DigitChar(r)]
    ensures ParseTenths(Dec(q) + "." + [DigitChar(r)]) == Some(10 * q + r)
    ensures ParseTenths(Dec(q)) == Some(10 * q)
  {
    hide Dec, DecVal;
    DecValDec(q);
    var s := Dec(q) + "." + [DigitChar(r)];
    var n := |s|;
    assert s[n - 2] == '.' && s[n - 1] == DigitChar(r) && s[..n - 2] == Dec(q);
    assert !IsDigit(s[n - 2]);
  }

  // ---- Histogram rows ----

  /** A count may carry one plus sign; otherwise only a decimal numeral below the bound is one. */
  lemma UnsignedExact(s: string, ds: seq<nat>, bound: nat)
    ensures Numeral(10, s, ds) ==>
              ParseUnsigned(s, bound) == ParseUnsigned("+" + s, bound)
                == if Positional(10, ds) < bound then Some(Positional(10, ds)) else None
    ensures s == "" || (exists i :: 0 <= i < |s| && !HasDigit(10, s[i])) ==> ParseUnsigned("+" + s, bound) == None
    ensures s == "" || (s[0] != '+' && exists i :: 0 <= i < |s| && !HasDigit(10, s[i])) ==> ParseUnsigned(s, bound) == None
  {
    hide Numeral, HasDigit, DecVal, Positional;
    assert ("+" + s)[1..] == s;
    if Numeral(10, s, ds) {
      DecimalMeans(s, ds);
      NotEmpty(10, s, ds);
      assert s[0] != '+' by { assert IsDigit(s[0]); }
    }
    if i :| 0 <= i < |s| && !HasDigit(10, s[i]) {
      DecimalDigit(s[i], 0);
    }
  }

  lemma FourParts(op: string, name: string, count: string, pct: string)
    requires ',' !in op && ',' !in name && ',' !in count && ',' !in pct
    ensures Split(op + ("," + (name + ("," + (count + ("," + pct))))), ",") == [op, name, count, pct]
  {
    hide Split;
    E.SplitAt(op, ",", name + ("," + (count + ("," + pct))));
    E.SplitAt(name, ",", count + ("," + pct));
    E.SplitAt(count, ",", pct);
    E.SplitLast(pct, ",");
  }

  lemma NothingTrimmed(s: string)
    requires s != "" && s[0] != '[' && s[|s| - 1] != ']'
    ensures TrimRight(TrimLeft(s, '['), ']') == s
  {
  }

  /** A row of four parts is read exactly when its opcode is a number below 256 and its count one below
      2^64; an unreadable share counts as zero. */
  lemma RowReads(op: string, name: string, count: string, pct: string)
    requires ',' !in op && ',' !in name && ',' !in count && ',' !in pct
    requires (op == "" || op[0] != '[') && (pct == "" || pct[|pct| - 1] != ']')
    ensures var row := ParseRow(op + ("," + (name + ("," + (count + ("," + pct))))));
            var (k, n) := (ParseUnsigned(op, 256), ParseUnsigned(count, 0x1_0000_0000_0000_0000));
            if k.Some? && n.Some? then
              row == Some(OpCount(k.value, TrimRight(TrimLeft(name, '"'), '"'), n.value,
                                  if ParseTenths(pct).Some? then ParseTenths(pct).value else 0))
            else row == None
  {
    hide Split, ParseUnsigned, ParseTenths, TrimLeft, TrimRight;
    var s := op + ("," + (name + ("," + (count + ("," + pct)))));
    assert s[0] != '[' && s[|s| - 1] != ']';
    NothingTrimmed(s);
    FourParts(op, name, count, pct);
  }

  /** Rows that cannot be read are skipped, the others keep their order. */
  lemma {:induction false} RowsSkip(a: seq<string>, e: string, b: seq<string>)
    requires ParseRow(e) == None
    ensures ParseRows(a + [e] + b) == ParseRows(a) + ParseRows(b)
    decreases |b|
  {
    hide ParseRow;
    if b == [] {
      assert (a + [e] + b)[..|a|] == a && a + [e] + b == a + [e];
    } else {
      var n := |b| - 1;
      RowsSkip(a, e, b[..n]);
      assert (a + [e] + b)[..|a| + 1 + n] == a + [e] + b[..n];
      var last := ParseRow(b[n]);
      if last.Some? {
        assert ParseRows(a) + (ParseRows(b[..n]) + [last.value]) == (ParseRows(a) + ParseRows(b[..n])) + [last.value];
      }
    }
  }
}
