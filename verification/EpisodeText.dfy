/** Substring search, and where a quoted key can be found in hand-written JSON text. */
module EpisodeText {
  import opened Words

  function Shift(n: nat, r: Option<nat>): Option<nat> {
    match r
    case Some(k) => Some(n + k)
    case None => None
  }

  /** `str::find`: the first occurrence. */
  function Find(s: string, pat: string): (r: Option<nat>)
    ensures r.Some? ==> r.value + |pat| <= |s| && pat <= s[r.value..]
  {
    if pat <= s then Some(0)
    else if s == "" then None
    else Shift(1, Find(s[1..], pat))
  }

  /** The text after the first occurrence. */
  function After(s: string, pat: string): Option<string> {
    match Find(s, pat)
    case Some(k) => Some(s[k + |pat|..])
    case None => None
  }

  /** A pattern cannot start inside text that lacks its first character. */
  lemma {:induction false} FindOver(a: string, u: string, pat: string)
    requires pat != "" && pat[0] !in a
    ensures Find(a + u, pat) == Shift(|a|, Find(u, pat))
  {
    hide Find;
    if a == "" {
      assert a + u == u;
    } else {
      FindStep(a[0], a[1..] + u, pat);
      assert a + u == [a[0]] + (a[1..] + u);
      FindOver(a[1..], u, pat);
    }
  }

  lemma FindStep(c: char, u: string, pat: string)
    requires pat != "" && pat[0] != c
    ensures Find([c] + u, pat) == Shift(1, Find(u, pat))
  {
    assert ([c] + u)[1..] == u && ([c] + u)[0] == c;
  }

  lemma AfterOver(a: string, u: string, pat: string)
    requires pat != "" && pat[0] !in a
    ensures After(a + u, pat) == After(u, pat)
  {
    hide Find;
    FindOver(a, u, pat);
    match Find(u, pat)
    case Some(k) => assert (a + u)[|a| + k + |pat|..] == u[k + |pat|..];
    case None =>
  }

  lemma AfterStep(c: char, u: string, pat: string)
    requires !(pat <= [c] + u)
    ensures After([c] + u, pat) == After(u, pat)
  {
    var t := [c] + u;
    assert t[1..] == u;
  }

  lemma AfterHere(pat: string, u: string)
    ensures Find(pat + u, pat) == Some(0) && After(pat + u, pat) == Some(u)
  {
    assert (pat + u)[|pat|..] == u;
  }

  /** The search pattern for a key: its name in quotes, then `suffix`. */
  function Key(k: string, suffix: string): string {
    "\"" + k + "\"" + suffix
  }

  /** Names that need no escaping and share no character with the punctuation between fields. */
  predicate Name(k: string) {
    k != "" && forall c <- k :: 'a' <= c <= 'z' || c == '_'
  }

  /** Whether the pattern stands right at an opening quote. */
  lemma KeyHere(b: string, u: string, k: string, suffix: string)
    requires '"' !in b && '"' !in k
    ensures Key(k, suffix) <= "\"" + b + "\"" + u <==> b == k && suffix <= u
  {
    var pat, t := Key(k, suffix), "\"" + b + "\"" + u;
    assert forall m :: 0 <= m < |k| ==> pat[1 + m] == k[m];
    assert forall m :: 0 <= m < |b| ==> t[1 + m] == b[m];
    assert pat[1 + |k|] == '"' && t[1 + |b|] == '"';
    if pat <= t {
      assert pat == t[..|pat|];
      assert |b| == |k|;
      assert b == pat[1..1 + |k|] == k;
      assert suffix == pat[2 + |k|..] && u == t[2 + |k|..];
    }
    if b == k && suffix <= u {
      assert t == "\"" + b + "\"" + (suffix + u[|suffix|..]);
      assert t == pat + u[|suffix|..];
    }
  }

  /** A quoted piece that is not the key is passed over, up to its closing quote. */
  lemma SkipPiece(b: string, u: string, k: string, suffix: string)
    requires '"' !in b && '"' !in k && !(b == k && suffix <= u)
    ensures After("\"" + b + "\"" + u, Key(k, suffix)) == After("\"" + u, Key(k, suffix))
  {
    hide Find, After;
    KeyHere(b, u, k, suffix);
    assert "\"" + b + "\"" + u == "\"" + (b + ("\"" + u));
    AfterStep('"', b + ("\"" + u), Key(k, suffix));
    AfterOver(b, "\"" + u, Key(k, suffix));
  }

  lemma HitPiece(k: string, suffix: string, u: string)
    ensures After("\"" + k + "\"" + (suffix + u), Key(k, suffix)) == Some(u)
  {
    AfterHere(Key(k, suffix), u);
    assert "\"" + k + "\"" + (suffix + u) == Key(k, suffix) + u;
  }

  /** No key starts at a closing quote that is followed by punctuation. */
  lemma SkipQuote(u: string, k: string, suffix: string)
    requires Name(k) && (u == "" || u[0] !in k)
    ensures After("\"" + u, Key(k, suffix)) == After(u, Key(k, suffix))
  {
    hide Find, After;
    var t, pat := "\"" + u, Key(k, suffix);
    assert pat[1] == k[0] && k[0] in k;
    assert |t| > 1 ==> t[1] == u[0];
    assert !(pat <= t);
    AfterStep('"', u, pat);
  }

  // ---- escaping ----

  function EscapeChar(c: char): string {
    if c == '"' then "\\\""
    else if c == '\\' then "\\\\"
    else if c == '\n' then "\\n"
    else if c == '\r' then "\\r"
    else if c == '\t' then "\\t"
    else [c]
  }

  function Escape(s: string): string {
    if s == "" then "" else Escape(s[..|s| - 1]) + EscapeChar(s[|s| - 1])
  }

  lemma EscapeSnoc(v: string, c: char)
    ensures Escape(v + [c]) == Escape(v) + EscapeChar(c)
  {
    assert (v + [c])[..|v + [c]| - 1] == v;
  }

  lemma Associate(a: string, b: string, c: string)
    ensures (a + b) + c == a + (b + c)
  {
  }

  lemma EscapeNone(a: string)
    ensures Escape(a) == Escape(a) + Escape("")
  {
  }

  lemma {:induction false} EscapeJoin(a: string, b: string)
    ensures Escape(a + b) == Escape(a) + Escape(b)
  {
    hide Escape, EscapeChar;
    if b == "" {
      assert a + b == a;
      EscapeNone(a);
    } else {
      var w, c := b[..|b| - 1], b[|b| - 1];
      assert b == w + [c] && a + b == a + w + [c];
      EscapeSnoc(a + w, c);
      EscapeSnoc(w, c);
      EscapeJoin(a, w);
      Associate(Escape(a), Escape(w), EscapeChar(c));
    }
  }

  lemma EscapeCons(c: char, w: string)
    ensures Escape([c] + w) == EscapeChar(c) + Escape(w)
  {
    hide Escape, EscapeChar;
    EscapeJoin([c], w);
    EscapeOne(c);
  }

  lemma EscapeOne(c: char)
    ensures Escape([c]) == EscapeChar(c)
  {
    EscapeSnoc("", c);
    assert "" + [c] == [c] && Escape("") + EscapeChar(c) == EscapeChar(c);
  }

  function UnescapeChar(c: char): char {
    if c == 'n' then '\n' else if c == 'r' then '\r' else if c == 't' then '\t' else c
  }

  /** What the extractor reads up to the closing quote, or to the end of the text. */
  function Unescape(s: string): string {
    if s == "" || s[0] == '"' then ""
    else if s[0] != '\\' then [s[0]] + Unescape(s[1..])
    else if |s| == 1 then ""
    else [UnescapeChar(s[1])] + Unescape(s[2..])
  }

  /** Reading back an escaped text stops at its own closing quote and gives the text. */
  lemma {:induction false} UnescapeEscape(v: string, u: string)
    ensures Unescape(Escape(v) + ("\"" + u)) == v
  {
    hide Escape, Unescape, EscapeChar;
    if v == "" {
      UnescapeEnd(u);
    } else {
      var c, w := v[0], v[1..];
      var rest := Escape(w) + ("\"" + u);
      assert v == [c] + w;
      EscapeCons(c, w);
      assert Escape(v) + ("\"" + u) == EscapeChar(c) + rest;
      UnescapeOne(c, rest);
      UnescapeEscape(w, u);
    }
  }

  lemma UnescapeEnd(u: string)
    ensures Unescape(Escape("") + ("\"" + u)) == ""
  {
    assert (Escape("") + ("\"" + u))[0] == '"';
  }

  lemma UnescapeOne(c: char, rest: string)
    ensures Unescape(EscapeChar(c) + rest) == [c] + Unescape(rest)
  {
    var e := EscapeChar(c);
    assert (e + rest)[|e|..] == rest;
    if |e| == 2 {
      assert e[0] == '\\' && UnescapeChar(e[1]) == c;
    }
  }

  // ---- a value that ends like a key ----

  /** The text after the last double quote; the whole text if there is none. */
  function Tail(v: string): string {
    if '"' !in v then v else Tail(v[1..])
  }

  lemma {:induction false} EscapeQuotes(v: string)
    requires '"' !in v
    ensures '"' !in Escape(v)
  {
    if v != "" {
      EscapeQuotes(v[..|v| - 1]);
      assert '"' !in EscapeChar(v[|v| - 1]);
    }
  }

  /** Text without special characters is its own escape, and nothing else escapes to it. */
  lemma {:induction false} EscapePlain(v: string)
    ensures '\\' !in Escape(v) || (forall c <- v :: EscapeChar(c) == [c]) ==> Escape(v) == v
  {
    if v != "" {
      var w, c := v[..|v| - 1], v[|v| - 1];
      assert v == w + [c];
      EscapePlain(w);
      assert EscapeChar(c) == [c] || EscapeChar(c)[0] == '\\';
    }
  }

  lemma EscapeName(v: string, k: string)
    requires Name(k)
    ensures Escape(v) == k <==> v == k
  {
    hide Escape, EscapeChar;
    EscapePlain(v);
    NamePlain(k);
    EscapePlain(k);
  }

  lemma NamePlain(k: string)
    requires Name(k)
    ensures '\\' !in k && forall c <- k :: EscapeChar(c) == [c]
  {
  }

  /**
   * Searching a key through an escaped value: the value stands for the key exactly when the text
   * after its last quote is the key's name.
   */
  lemma {:induction false} SkipValue(v: string, u: string, k: string, suffix: string)
    requires Name(k)
    ensures After("\"" + Escape(v) + "\"" + u, Key(k, suffix))
         == if Tail(v) == k && suffix <= u then Some(u[|suffix|..]) else After("\"" + u, Key(k, suffix))
    decreases |v|
  {
    hide Find, After, Key, Escape;
    match Find(v, "\"")
    case None =>
      NoQuoteFound(v);
      LastPiece(v, u, k, suffix);
    case Some(i) =>
      FirstQuote(v, i);
      var w, t := v[..i], v[i + 1..];
      assert v == w + ("\"" + t);
      InnerPiece(w, t, u, k, suffix);
      TailAfter(w, t);
      SkipValue(t, u, k, suffix);
  }

  lemma LastPiece(v: string, u: string, k: string, suffix: string)
    requires Name(k) && '"' !in v
    ensures After("\"" + Escape(v) + "\"" + u, Key(k, suffix))
         == if v == k && suffix <= u then Some(u[|suffix|..]) else After("\"" + u, Key(k, suffix))
  {
    hide Find, After, Key, Escape;
    EscapeQuotes(v);
    EscapeName(v, k);
    if v == k && suffix <= u {
      HitPiece(k, suffix, u[|suffix|..]);
      assert suffix + u[|suffix|..] == u;
    } else {
      SkipPiece(Escape(v), u, k, suffix);
    }
  }

  lemma EscapeInner(w: string, t: string)
    ensures Escape(w + ("\"" + t)) == Escape(w) + "\\" + "\"" + Escape(t)
  {
    hide Escape;
    EscapeJoin(w, "\"" + t);
    EscapeCons('"', t);
    var x, y := Escape(w), Escape(t);
    assert x + ("\\\"" + y) == x + "\\" + "\"" + y;
  }

  lemma Regroup(b: string, y: string, u: string)
    ensures "\"" + (b + "\"" + y) + "\"" + u == "\"" + b + "\"" + (y + "\"" + u)
    ensures "\"" + (y + "\"" + u) == "\"" + y + "\"" + u
  {
    calc {
      "\"" + (b + "\"" + y) + "\"" + u;
      ("\"" + b) + ("\"" + (y + ("\"" + u)));
    }
  }

  lemma InnerPiece(w: string, t: string, u: string, k: string, suffix: string)
    requires Name(k) && '"' !in w
    ensures After("\"" + Escape(w + ("\"" + t)) + "\"" + u, Key(k, suffix))
         == After("\"" + Escape(t) + "\"" + u, Key(k, suffix))
  {
    hide Find, After, Key, Escape;
    EscapeQuotes(w);
    EscapeInner(w, t);
    var b := Escape(w) + "\\";
    assert b[|Escape(w)|] == '\\' && b[|Escape(w)|] in b;
    SkipPiece(b, Escape(t) + "\"" + u, k, suffix);
    Regroup(b, Escape(t), u);
  }

  lemma {:induction false} NoQuoteFound(v: string)
    requires Find(v, "\"") == None
    ensures '"' !in v
  {
    if v != "" {
      NoQuoteFound(v[1..]);
      assert v[0] != '"' by {
        assert "\"" <= v <==> v[0] == '"';
      }
    }
  }

  lemma {:induction false} FirstQuote(v: string, i: nat)
    requires Find(v, "\"") == Some(i)
    ensures i < |v| && v[i] == '"' && '"' !in v[..i]
  {
    if i > 0 {
      FirstQuote(v[1..], i - 1);
      assert v[..i] == [v[0]] + v[1..][..i - 1];
      assert "\"" <= v <==> v[0] == '"';
    }
  }

  lemma {:induction false} TailAfter(w: string, t: string)
    ensures Tail(w + ("\"" + t)) == Tail(t)
  {
    var v := w + ("\"" + t);
    assert v[|w|] == '"';
    if w == "" {
      assert v[1..] == t;
    } else {
      assert v[1..] == w[1..] + ("\"" + t);
      TailAfter(w[1..], t);
    }
  }
}
