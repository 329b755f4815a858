/** The opcode histogram survives printing, bracket matching, splitting and trimming. */
module EpisodeRows {
  import opened Words
  import opened EpisodeText
  import opened EpisodeLog
  import opened EpisodeParse
  import opened EpisodeSearch

  // ---- bracket matching ----

  predicate Flat(s: string) {
    forall c <- s :: c != '[' && c != ']'
  }

  lemma {:induction false} CloseOver(s: string, u: string, depth: int)
    requires Flat(s)
    ensures Close(s + u, depth) == Shift(|s|, Close(u, depth))
  {
    if s == "" {
      assert s + u == u;
    } else {
      assert (s + u)[1..] == s[1..] + u && (s + u)[0] == s[0] && s[0] in s;
      assert forall c <- s[1..] :: c in s;
      CloseOver(s[1..], u, depth);
    }
  }

  lemma CloseOpen(u: string, depth: int)
    ensures Close("[" + u, depth) == Shift(1, Close(u, depth + 1))
    ensures Close("]" + u, depth) == if depth == 1 then Some(0) else Shift(1, Close(u, depth - 1))
    ensures Close("," + u, depth) == Shift(1, Close(u, depth))
  {
    assert ("[" + u)[1..] == u && ("]" + u)[1..] == u && ("," + u)[1..] == u;
  }

  lemma BodyShape(o: OpCount)
    requires Clean(o.mnemonic)
    ensures Flat(Body(o)) && Body(o) != "" && IsDigit(Body(o)[0]) && IsDigit(Body(o)[|Body(o)| - 1])
  {
    hide Dec;
    var d, t, c := Dec(o.op), Tenths(o.share), Dec(o.count);
    assert AllDigits(d) && AllDigits(c) && AllDigits(Dec(o.share / 10));
    assert forall x <- d + c :: IsDigit(x);
    assert forall x <- t :: IsDigit(x) || x == '.';
    assert Body(o)[0] == d[0] && Body(o)[|Body(o)| - 1] == t[|t| - 1];
  }

  /** The array's closing bracket is the one after the last row. */
  lemma {:induction false} CloseRows(ops: seq<OpCount>, i: nat, u: string)
    requires i <= |ops| && CleanOps(ops)
    ensures Close(Rows(ops, i, "]" + u), 1) == Some(|Rows(ops, i, "")|)
    decreases |ops| - i
  {
    hide Close, Body;
    if i == |ops| {
      CloseOpen(u, 1);
    } else {
      var b, rest := Body(ops[i]), Rows(ops, i + 1, "]" + u);
      var row := "[" + (b + ("]" + rest));
      assert ops[i] in ops;
      BodyShape(ops[i]);
      CloseRows(ops, i + 1, u);
      CloseOpen(rest, 2);
      CloseOver(b, "]" + rest, 2);
      CloseOpen(b + ("]" + rest), 1);
      CloseOpen(row, 1);
      assert "" + row == row;
    }
  }

  // ---- splitting and trimming ----

  lemma SplitAt(a: string, sep: string, u: string)
    requires sep != "" && sep[0] !in a
    ensures Split(a + (sep + u), sep) == [a] + Split(u, sep)
  {
    hide Find;
    FindOver(a, sep + u, sep);
    AfterHere(sep, u);
    var s := a + (sep + u);
    assert s[..|a|] == a && s[|a| + |sep|..] == u;
  }

  lemma SplitLast(a: string, sep: string)
    requires sep != "" && sep[0] !in a
    ensures Split(a, sep) == [a]
  {
    FindOver(a, "", sep);
    assert a + "" == a;
  }

  lemma TrimRow(pre: string, b: string, post: string)
    requires (pre == "" || pre == "[") && (post == "" || post == "]")
    requires b != "" && IsDigit(b[0]) && IsDigit(b[|b| - 1])
    ensures TrimRight(TrimLeft(pre + b + post, '['), ']') == b
  {
    hide TrimLeft, TrimRight;
    LeftTrimmed(pre, b + post);
    assert pre + b + post == pre + (b + post);
    RightTrimmed(b, post);
  }

  lemma LeftTrimmed(pre: string, t: string)
    requires (pre == "" || pre == "[") && t != "" && t[0] != '['
    ensures TrimLeft(pre + t, '[') == t
  {
    if pre == "" {
      assert pre + t == t;
    } else {
      assert (pre + t)[1..] == t;
    }
  }

  lemma RightTrimmed(b: string, post: string)
    requires (post == "" || post == "]") && b != "" && b[|b| - 1] != ']'
    ensures TrimRight(b + post, ']') == b
  {
    if post == "" {
      assert b + post == b;
    } else {
      assert (b + post)[..|b + post| - 1] == b;
    }
  }

  lemma TrimQuotes(m: string)
    requires '"' !in m
    ensures TrimRight(TrimLeft("\"" + m + "\"", '"'), '"') == m
  {
    var s, t := "\"" + m + "\"", m + "\"";
    assert s[1..] == t && t[..|t| - 1] == m;
    assert m == "" ==> TrimLeft(t, '"') == "" by {
      assert m == "" ==> t[1..] == "";
    }
  }

  lemma SplitBody(o: OpCount)
    requires Clean(o.mnemonic)
    ensures Split(Body(o), ",") == [Dec(o.op), "\"" + o.mnemonic + "\"", Dec(o.count), Tenths(o.share)]
  {
    hide Split, Dec;
    var d, m, c, t := Dec(o.op), "\"" + o.mnemonic + "\"", Dec(o.count), Tenths(o.share);
    assert AllDigits(d) && AllDigits(c) && AllDigits(Dec(o.share / 10));
    assert ',' !in d && ',' !in m && ',' !in c && ',' !in t;
    SplitAt(d, ",", m + ("," + (c + ("," + t))));
    SplitAt(m, ",", c + ("," + t));
    SplitAt(c, ",", t);
    SplitLast(t, ",");
  }

  lemma ParseRowOf(pre: string, o: OpCount, post: string)
    requires Clean(o.mnemonic) && (pre == "" || pre == "[") && (post == "" || post == "]")
    ensures ParseRow(pre + Body(o) + post) == Some(o)
  {
    hide Split, Dec, Body, TrimLeft, TrimRight, ParseTenths, ParseBelow;
    BodyShape(o);
    TrimRow(pre, Body(o), post);
    SplitBody(o);
    assert IsDigit(Dec(o.op)[0]) && IsDigit(Dec(o.count)[0]);
    ParseDec(o.op, 0x100);
    ParseDec(o.count, TWO_64);
    TrimQuotes(o.mnemonic);
    ParseTenthsOf(o.share);
  }

  /** The rows from `i` on, without the bracket that opens row `i`. */
  function Opened(ops: seq<OpCount>, i: nat): string
    requires i < |ops|
  {
    Body(ops[i]) + ("]" + Rows(ops, i + 1, ""))
  }

  lemma {:induction false} SplitRows(ops: seq<OpCount>, i: nat, pre: string)
    requires i < |ops| && CleanOps(ops) && (pre == "" || pre == "[")
    ensures var es := Split(pre + Opened(ops, i), "],[");
            |es| == |ops| - i && forall j :: i <= j < |ops| ==> ParseRow(es[j - i]) == Some(ops[j])
    decreases |ops| - i
  {
    hide Split, Body, ParseRow;
    var b, sep := Body(ops[i]), "],[";
    assert ops[i] in ops;
    BodyShape(ops[i]);
    if i + 1 == |ops| {
      var e := pre + b + "]";
      assert pre + Opened(ops, i) == e by { assert "]" + "" == "]"; }
      ParseRowOf(pre, ops[i], "]");
      SplitAtEnd(pre + b);
    } else {
      SplitRows(ops, i + 1, "");
      var u := Opened(ops, i + 1);
      assert "]" + Rows(ops, i + 1, "") == sep + u by { assert "]" + ("," + ("[" + u)) == sep + u; }
      assert pre + Opened(ops, i) == (pre + b) + (sep + u) && "" + u == u;
      SplitAt(pre + b, sep, u);
      ParseRowOf(pre, ops[i], "");
      assert pre + b + "" == pre + b;
      var es, rest := Split(pre + Opened(ops, i), sep), Split("" + u, sep);
      assert es == [pre + b] + rest;
      forall j | i <= j < |ops| ensures ParseRow(es[j - i]) == Some(ops[j]) {
        if j > i { assert es[j - i] == rest[j - (i + 1)]; }
      }
    }
  }

  lemma SplitAtEnd(a: string)
    requires ']' !in a
    ensures Split(a + "]", "],[") == [a + "]"]
  {
    FindOver(a, "]", "],[");
    assert Find("]", "],[") == None by {
      assert "]"[1..] == "";
    }
  }

  lemma {:induction false} ParseRowsOf(es: seq<string>, ops: seq<OpCount>)
    requires |es| == |ops| && forall j :: 0 <= j < |ops| ==> ParseRow(es[j]) == Some(ops[j])
    ensures ParseRows(es) == ops
  {
    hide ParseRow;
    if es != [] {
      var n := |es| - 1;
      ParseRowsOf(es[..n], ops[..n]);
      assert ops == ops[..n] + [ops[n]];
    }
  }

  /** The histogram always reads back, whatever the strings before it hold. */
  lemma ReadTopOps(ep: Episode)
    requires CleanOps(ep.topOps)
    ensures TopOps(Json(ep)) == ep.topOps
  {
    hide Find, Close, Split, ParseRow, Json, Rows;
    var ops, u := ep.topOps, FixPart(ep);
    var rows := Rows(ops, 0, "");
    ReachTopOps(ep);
    var k := Find(Json(ep), TOP_OPS).value;
    var t := Json(ep)[k + |TOP_OPS| - 1..];
    assert t == "[" + Rows(ops, 0, "]" + u) by {
      assert t[0] == Json(ep)[k..][|TOP_OPS| - 1] == TOP_OPS[|TOP_OPS| - 1];
      assert t[1..] == Json(ep)[k + |TOP_OPS|..];
    }
    CloseRows(ops, 0, u);
    CloseOpen(Rows(ops, 0, "]" + u), 0);
    RowsSplit(ops, 0, "]" + u);
    var e := 1 + |rows|;
    assert Close(t, 0) == Some(e);
    assert t[1..e] == rows;
    if ops == [] {
      RowsNone();
    } else {
      FirstRow(ops);
      SplitRows(ops, 0, "[");
      ParseRowsOf(Split(rows, "],["), ops);
    }
  }

  lemma RowsNone()
    ensures Rows([], 0, "") == ""
  {
  }

  lemma FirstRow(ops: seq<OpCount>)
    requires ops != []
    ensures Rows(ops, 0, "") == "[" + Opened(ops, 0) && |Rows(ops, 0, "")| > 0
  {
    hide Body;
  }

  lemma ReachTopOps(ep: Episode)
    ensures After(Json(ep), TOP_OPS) == Some(Rows(ep.topOps, 0, "]" + FixPart(ep)))
  {
    hide Find, After, Json, Rows, ProgPart, OpsPart, PcPart, HaltedPart, ScreenPart, TotalPart, PctPart, FixPart;
    var k, suffix, rows := "top_ops", ":[", Rows(ep.topOps, 0, "]" + FixPart(ep));
    SearchHead(ep, k, suffix);
    SearchNumbers(ep, k, suffix);
    SearchScreen(ep, k, suffix);
    assert TOP_OPS == Key(k, suffix);
    assert TopPart(ep) == "," + ("\"" + k + "\"" + (suffix + rows)) by {
      assert ":" + ("[" + rows) == suffix + rows;
    }
    PlainOver(',', "\"" + k + "\"" + (suffix + rows), k, suffix);
    HitPiece(k, suffix, rows);
  }
}
