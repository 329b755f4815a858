/** Reading an episode back: each field is found by searching for its quoted name. */
module EpisodeParse {
  import opened Words
  import opened EpisodeText
  import opened EpisodeLog

  predicate IsSpace(c: char) {
    c == ' ' || '\t' <= c <= '\r'
  }

  function TrimStart(s: string): string {
    if s != "" && IsSpace(s[0]) then TrimStart(s[1..]) else s
  }

  /** The text after the first colon after the first occurrence of the quoted name. */
  function Field(json: string, key: string): Option<string> {
    match After(json, key)
    case None => None
    case Some(u) =>
      match After(u, ":")
      case None => None
      case Some(v) => Some(TrimStart(v))
  }

  function StringVal(json: string, key: string): Option<string> {
    match Field(json, key)
    case None => None
    case Some(t) => if t != "" && t[0] == '"' then Some(Unescape(t[1..])) else None
  }

  function DigitPrefix(s: string): (p: string)
    ensures AllDigits(p)
  {
    if s != "" && IsDigit(s[0]) then [s[0]] + DigitPrefix(s[1..]) else ""
  }

  function U64Val(json: string, key: string): Option<u64> {
    match Field(json, key)
    case None => None
    case Some(t) => ParseBelow(DigitPrefix(t), TWO_64)
  }

  predicate FloatChar(c: char) {
    IsDigit(c) || c == '.' || c == '-' || c == 'e' || c == 'E'
  }

  function FloatPrefix(s: string): string {
    if s != "" && FloatChar(s[0]) then [s[0]] + FloatPrefix(s[1..]) else ""
  }

  /** A decimal number with at most one fractional digit, in tenths. */
  function ParseTenths(s: string): Option<nat> {
    var n := |s|;
    if n > 0 && AllDigits(s) then Some(10 * DecVal(s))
    else if n > 2 && s[n - 2] == '.' && IsDigit(s[n - 1]) && AllDigits(s[..n - 2]) then
      Some(10 * DecVal(s[..n - 2]) + DigitVal(s[n - 1]))
    else None
  }

  function OrZero(r: Option<nat>): nat {
    if r.Some? then r.value else 0
  }

  function TenthsVal(json: string, key: string): Option<nat> {
    match Field(json, key)
    case None => None
    case Some(t) => ParseTenths(FloatPrefix(t))
  }

  predicate BoolVal(json: string, key: string) {
    match Field(json, key)
    case None => false
    case Some(t) => "true" <= t
  }

  // ---- the opcode histogram ----

  /** `str::split` on a non-empty separator. */
  function Split(s: string, sep: string): seq<string>
    requires sep != ""
    decreases |s|
  {
    match Find(s, sep)
    case None => [s]
    case Some(k) => [s[..k]] + Split(s[k + |sep|..], sep)
  }

  function TrimLeft(s: string, c: char): string {
    if s != "" && s[0] == c then TrimLeft(s[1..], c) else s
  }

  function TrimRight(s: string, c: char): string {
    if s != "" && s[|s| - 1] == c then TrimRight(s[..|s| - 1], c) else s
  }

  /** `str::parse` for an unsigned type: one leading plus sign is allowed. */
  function ParseUnsigned(s: string, bound: nat): Option<nat> {
    if s != "" && s[0] == '+' then ParseBelow(s[1..], bound) else ParseBelow(s, bound)
  }

  function ParseRow(entry: string): Option<OpCount> {
    var parts := Split(TrimRight(TrimLeft(entry, '['), ']'), ",");
    if |parts| < 4 then None
    else
      match ParseUnsigned(parts[0], 0x100)
      case None => None
      case Some(op) =>
        match ParseUnsigned(parts[2], TWO_64)
        case None => None
        case Some(count) =>
          Some(OpCount(op, TrimRight(TrimLeft(parts[1], '"'), '"'), count, OrZero(ParseTenths(parts[3]))))
  }

  /** The rows that can be read; the others are skipped. */
  function ParseRows(entries: seq<string>): seq<OpCount> {
    if entries == [] then []
    else
      var init := ParseRows(entries[..|entries| - 1]);
      match ParseRow(entries[|entries| - 1])
      case Some(o) => init + [o]
      case None => init
  }

  /** Where the bracket depth, `depth` at the start, first comes back to zero. */
  function Close(s: string, depth: int): (r: Option<nat>)
    ensures r.Some? ==> r.value < |s|
  {
    if s == "" then None
    else if s[0] == '[' then Shift(1, Close(s[1..], depth + 1))
    else if s[0] != ']' then Shift(1, Close(s[1..], depth))
    else if depth == 1 then Some(0)
    else Shift(1, Close(s[1..], depth - 1))
  }

  const TOP_OPS: string := "\"top_ops\":["

  function TopOps(json: string): seq<OpCount> {
    match Find(json, TOP_OPS)
    case None => []
    case Some(k) =>
      var t := json[k + |TOP_OPS| - 1..];
      match Close(t, 0)
      case None => []
      case Some(e) => if e <= 1 then [] else ParseRows(Split(t[1..e], "],["))
  }

  function Parse(line: string): Option<Episode> {
    var ts := StringVal(line, "\"ts\"");
    var prog := StringVal(line, "\"prog\"");
    var ops := U64Val(line, "\"ops\"");
    var pc := U64Val(line, "\"pc\"");
    var outcome := StringVal(line, "\"outcome\"");
    var nonZero := U64Val(line, "\"non_zero\"");
    var total := U64Val(line, "\"total\"");
    if ts.None? || prog.None? || ops.None? || pc.None? || outcome.None? || nonZero.None? || total.None? then None
    else Some(Episode(
      ts.value, prog.value, ops.value, TopOps(line),
      Screen(nonZero.value, total.value, OrZero(TenthsVal(line, "\"pct\""))),
      Wrap(pc.value), BoolVal(line, "\"halted\""), StringVal(line, "\"fix\""), OutcomeOf(outcome.value)))
  }

  // ---- the loops of the reader ----

  method ExtractJsonStringVal(json: string, key: string) returns (r: Option<string>)
    ensures r == StringVal(json, key)
  {
    hide Find, Unescape;
    var start := Find(json, key);
    if start.None? { return None; }
    var afterKey := json[start.value + |key|..];
    var colon := Find(afterKey, ":");
    if colon.None? { return None; }
    var trimmed := TrimStart(afterKey[colon.value + 1..]);
    if trimmed == "" || trimmed[0] != '"' { return None; }
    var text := ReadString(trimmed[1..]);
    return Some(text);
  }

  method ReadString(bytes: string) returns (result: string)
    ensures result == Unescape(bytes)
  {
    result := "";
    var i := 0;
    while i < |bytes|
      invariant 0 <= i <= |bytes|
      invariant result + Unescape(bytes[i..]) == Unescape(bytes)
    {
      UnescapeStep(bytes, i, result);
      if bytes[i] == '\\' {
        if i + 1 < |bytes| {
          result := result + [UnescapeChar(bytes[i + 1])];
          i := i + 2;
        } else {
          break;
        }
      } else if bytes[i] == '"' {
        break;
      } else {
        result := result + [bytes[i]];
        i := i + 1;
      }
    }
  }

  lemma UnescapeStep(bytes: string, i: nat, done: string)
    requires i < |bytes|
    ensures bytes[i] == '\\' && i + 1 < |bytes| ==>
      done + Unescape(bytes[i..]) == (done + [UnescapeChar(bytes[i + 1])]) + Unescape(bytes[i + 2..])
    ensures bytes[i] == '\\' && i + 1 == |bytes| ==> done + Unescape(bytes[i..]) == done
    ensures bytes[i] == '"' ==> done + Unescape(bytes[i..]) == done
    ensures bytes[i] != '"' && bytes[i] != '\\' ==>
      done + Unescape(bytes[i..]) == (done + [bytes[i]]) + Unescape(bytes[i + 1..])
  {
    var t := bytes[i..];
    assert t[1..] == bytes[i + 1..];
    assert |t| > 1 ==> t[2..] == bytes[i + 2..];
  }

  /** The scan for the bracket that closes the array `t` starts with; 0 if there is none. */
  method MatchingBracket(t: string) returns (end: nat)
    ensures end == match Close(t, 0) case Some(e) => e case None => 0
  {
    var depth: int, i := 0, 0;
    end := 0;
    assert t[0..] == t;
    while i < |t|
      invariant 0 <= i <= |t|
      invariant Close(t, 0) == Shift(i, Close(t[i..], depth))
    {
      assert t[i..][1..] == t[i + 1..];
      if t[i] == '[' {
        depth := depth + 1;
      } else if t[i] == ']' {
        depth := depth - 1;
        if depth == 0 {
          return i;
        }
      }
      i := i + 1;
    }
  }

  method ParseTopOpsArray(json: string) returns (result: seq<OpCount>)
    ensures result == TopOps(json)
  {
    hide Find, Close, Split, ParseRow;
    result := [];
    var start := Find(json, TOP_OPS);
    if start.None? { return; }
    var t := json[start.value + |TOP_OPS| - 1..];
    var end := MatchingBracket(t);
    if end <= 1 { return; }
    var entries := Split(t[1..end], "],[");
    for i := 0 to |entries|
      invariant result == ParseRows(entries[..i])
    {
      assert entries[..i + 1][..i] == entries[..i];
      var o := ParseRow(entries[i]);
      if o.Some? {
        result := result + [o.value];
      }
    }
    assert entries[..|entries|] == entries;
  }

  method JsonToEpisode(line: string) returns (r: Option<Episode>)
    ensures r == Parse(line)
  {
    hide StringVal, U64Val, TenthsVal, BoolVal, TopOps;
    var ts := ExtractJsonStringVal(line, "\"ts\"");
    if ts.None? { return None; }
    var prog := ExtractJsonStringVal(line, "\"prog\"");
    if prog.None? { return None; }
    var ops := U64Val(line, "\"ops\"");
    if ops.None? { return None; }
    var pc := U64Val(line, "\"pc\"");
    if pc.None? { return None; }
    var halted := BoolVal(line, "\"halted\"");
    var fix := ExtractJsonStringVal(line, "\"fix\"");
    var outcome := ExtractJsonStringVal(line, "\"outcome\"");
    if outcome.None? { return None; }
    var nonZero := U64Val(line, "\"non_zero\"");
    if nonZero.None? { return None; }
    var total := U64Val(line, "\"total\"");
    if total.None? { return None; }
    var pct := OrZero(TenthsVal(line, "\"pct\""));
    var topOps := ParseTopOpsArray(line);
    return Some(Episode(ts.value, prog.value, ops.value, topOps,
      Screen(nonZero.value, total.value, pct), Wrap(pc.value), halted, fix, OutcomeOf(outcome.value)));
  }
}
