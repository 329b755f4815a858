/** What numerals mean, position by position, apart from how they are parsed. */
module Numerals {
  import opened Words
  import opened GlyphVm
  import opened Assembler

  function Power(b: nat, n: nat): nat {
    if n == 0 then 1 else b * Power(b, n - 1)
  }

  /** Each digit times the power of the base its place stands for. */
  function Positional(b: nat, ds: seq<nat>): nat {
    if ds == [] then 0 else ds[0] * Power(b, |ds| - 1) + Positional(b, ds[1..])
  }

  lemma NoPlaces(b: nat)
    ensures Positional(b, []) == 0
  {
  }

  lemma {:induction false} PositionalSnoc(b: nat, ds: seq<nat>, d: nat)
    ensures Positional(b, ds + [d]) == b * Positional(b, ds) + d
  {
    if ds == [] {
      assert [] + [d] == [d] && [d][1..] == [];
    } else {
      var p := Power(b, |ds| - 1);
      PositionalSnoc(b, ds[1..], d);
      assert (ds + [d])[1..] == ds[1..] + [d];
      assert ds[0] * (b * p) == b * (ds[0] * p);
      assert b * (ds[0] * p + Positional(b, ds[1..])) == b * (ds[0] * p) + b * Positional(b, ds[1..]);
    }
  }

  /** The character stands for digit `d`, in either letter case. */
  predicate Means(c: char, d: nat) {
    d < 16 && (c == "0123456789abcdef"[d] || c == "0123456789ABCDEF"[d])
  }

  /** The text is a numeral in base `b` with these digits. */
  predicate Numeral(b: nat, s: string, ds: seq<nat>) {
    |s| == |ds| > 0 && forall i :: 0 <= i < |s| ==> ds[i] < b && Means(s[i], ds[i])
  }

  predicate HasDigit(b: nat, c: char) {
    exists d :: 0 <= d < b && Means(c, d)
  }

  lemma DigitMeans(c: char, d: nat, b: nat)
    requires b <= 16
    ensures RadixDigit(c, b) == Some(d) <==> d < b && Means(c, d)
  {
  }

  lemma NoDigit(c: char, b: nat)
    requires b <= 16
    ensures RadixDigit(c, b).None? <==> !HasDigit(b, c)
  {
    hide Means, RadixDigit;
    if HasDigit(b, c) {
      var d :| 0 <= d < b && Means(c, d);
      DigitMeans(c, d, b);
    }
    if RadixDigit(c, b).Some? {
      DigitMeans(c, RadixDigit(c, b).value, b);
    }
  }

  // ---- The parsers of the assembler and of the scanner ----

  lemma {:induction false} RadixMeans(b: nat, s: string, ds: seq<nat>)
    requires b <= 16 && ((s == "" && ds == []) || Numeral(b, s, ds))
    ensures RadixVal(s, b) == Some(Positional(b, ds))
  {
    hide Means, RadixDigit;
    if s != "" {
      var k := |s| - 1;
      assert Means(s[k], ds[k]) && ds[k] < b;
      DigitMeans(s[k], ds[k], b);
      RadixMeans(b, s[..k], ds[..k]);
      PositionalSnoc(b, ds[..k], ds[k]);
      assert ds == ds[..k] + [ds[k]];
    }
  }

  /** One character that is no digit of the base spoils the text. */
  lemma {:induction false} RadixSpoiled(b: nat, s: string, i: nat)
    requires b <= 16 && i < |s| && !HasDigit(b, s[i])
    ensures RadixVal(s, b) == None
  {
    hide HasDigit, RadixDigit;
    var k := |s| - 1;
    if i == k {
      NoDigit(s[k], b);
    } else {
      RadixSpoiled(b, s[..k], i);
    }
  }

  /** The digits of a text made of digits. */
  lemma {:induction false} DigitsOf(b: nat, s: string) returns (ds: seq<nat>)
    requires s != "" && forall c <- s :: HasDigit(b, c)
    ensures Numeral(b, s, ds)
  {
    hide Means;
    assert HasDigit(b, s[0]);
    var d :| 0 <= d < b && Means(s[0], d);
    if |s| == 1 {
      ds := [d];
    } else {
      var rest := DigitsOf(b, s[1..]);
      ds := [d] + rest;
      forall i | 0 <= i < |s| ensures ds[i] < b && Means(s[i], ds[i]) {
        if i > 0 { assert s[i] == s[1..][i - 1]; }
      }
    }
  }

  function Small(v: nat): Option<u32> {
    if v < 0x1_0000_0000 then Some(v) else None
  }

  /** A number in base `b` is read exactly when it is a numeral of that base below 2^32. */
  lemma RadixExact(b: nat, s: string, ds: seq<nat>)
    requires b <= 16
    ensures Numeral(b, s, ds) ==> ParseRadix(s, b) == Small(Positional(b, ds))
    ensures (s == "" || exists i :: 0 <= i < |s| && !HasDigit(b, s[i])) ==> ParseRadix(s, b) == None
  {
    hide Numeral, HasDigit, RadixVal, Positional;
    if Numeral(b, s, ds) {
      RadixMeans(b, s, ds);
      NotEmpty(b, s, ds);
    }
    if i :| 0 <= i < |s| && !HasDigit(b, s[i]) {
      RadixSpoiled(b, s, i);
    }
  }

  lemma NotEmpty(b: nat, s: string, ds: seq<nat>)
    requires Numeral(b, s, ds)
    ensures s != ""
  {
  }

  lemma DecimalDigit(c: char, d: nat)
    ensures Means(c, d) && d < 10 <==> IsDigit(c) && DigitVal(c) == d
    ensures HasDigit(10, c) <==> IsDigit(c)
  {
    if IsDigit(c) {
      assert Means(c, DigitVal(c));
    }
  }

  lemma {:induction false} DecimalMeans(s: string, ds: seq<nat>)
    requires (s == "" && ds == []) || Numeral(10, s, ds)
    ensures AllDigits(s) && DecVal(s) == Positional(10, ds)
  {
    hide Means, Positional, DecVal, IsDigit, DigitVal;
    if s == "" {
      assert DecVal("") == 0 by { NoDigits(); }
      assert Positional(10, []) == 0 by { NoPlaces(10); }
    } else {
      var k := |s| - 1;
      DecimalMeans(s[..k], ds[..k]);
      DecimalDigit(s[k], ds[k]);
      PositionalSnoc(10, ds[..k], ds[k]);
      DecSnoc(s[..k], s[k]);
      assert s == s[..k] + [s[k]] && ds == ds[..k] + [ds[k]];
    }
  }

  lemma NoDigits()
    ensures DecVal("") == 0
  {
  }

  lemma DecSnoc(s: string, c: char)
    requires AllDigits(s) && IsDigit(c)
    ensures AllDigits(s + [c]) && DecVal(s + [c]) == 10 * DecVal(s) + DigitVal(c)
  {
    assert (s + [c])[..|s|] == s;
  }

  lemma DecimalExact(s: string, ds: seq<nat>)
    ensures Numeral(10, s, ds) ==> ParseBelow(s, TWO_32) == Small(Positional(10, ds))
    ensures (s == "" || exists i :: 0 <= i < |s| && !HasDigit(10, s[i])) ==> ParseBelow(s, TWO_32) == None
  {
    hide Numeral, HasDigit, DecVal, Positional;
    if Numeral(10, s, ds) {
      DecimalMeans(s, ds);
      NotEmpty(10, s, ds);
    }
    if i :| 0 <= i < |s| && !HasDigit(10, s[i]) {
      DecimalDigit(s[i], 0);
    }
  }

  /** An operand: hexadecimal after `0x`, binary after `0b`, decimal otherwise, in either letter case; a
      text that is no such numeral below 2^32 is no number. */
  lemma ImmExact(s: string, ds: seq<nat>)
    ensures Numeral(16, s, ds) ==> ParseImm("0x" + s) == ParseImm("0X" + s) == Small(Positional(16, ds))
    ensures Numeral(2, s, ds) ==> ParseImm("0b" + s) == ParseImm("0B" + s) == Small(Positional(2, ds))
    ensures Numeral(10, s, ds) ==> ParseImm(s) == Small(Positional(10, ds))
    ensures (s == "" || exists i :: 0 <= i < |s| && !HasDigit(16, s[i])) ==> ParseImm("0x" + s) == ParseImm("0X" + s) == None
    ensures (s == "" || exists i :: 0 <= i < |s| && !HasDigit(2, s[i])) ==> ParseImm("0b" + s) == ParseImm("0B" + s) == None
  {
    hide Numeral, HasDigit, Positional, ParseRadix, ParseBelow;
    RadixExact(16, s, ds);
    RadixExact(2, s, ds);
    DecimalExact(s, ds);
    assert ("0x" + s)[2..] == ("0X" + s)[2..] == ("0b" + s)[2..] == ("0B" + s)[2..] == s;
    if Numeral(10, s, ds) { PlainDecimal(s, ds); }
  }

  /** A decimal numeral has none of the prefixes. */
  lemma PlainDecimal(s: string, ds: seq<nat>)
    requires Numeral(10, s, ds)
    ensures |s| >= 2 ==> s[1] !in "xXbB"
  {
    if |s| >= 2 {
      assert Means(s[1], ds[1]);
      DecimalDigit(s[1], ds[1]);
    }
  }

  // ---- Rendering ----

  lemma {:induction false} DecLeads(n: nat)
    requires n > 0
    ensures Dec(n)[0] != '0'
  {
    if n >= 10 { DecLeads(n / 10); }
  }

  /** The rendering of a counter is its decimal numeral without leading zeros. */
  lemma DecMeans(n: nat) returns (ds: seq<nat>)
    ensures Numeral(10, Dec(n), ds) && Positional(10, ds) == n
    ensures n > 0 ==> Dec(n)[0] != '0'
  {
    hide Numeral, Positional, HasDigit;
    DecValDec(n);
    forall c <- Dec(n) ensures HasDigit(10, c) { DecimalDigit(c, 0); }
    ds := DigitsOf(10, Dec(n));
    DecimalMeans(Dec(n), ds);
    if n > 0 { DecLeads(n); }
  }

  /** Hexadecimal digits of `n`, most significant first. */
  function HexDigits(n: nat): (ds: seq<nat>)
    ensures |ds| > 0 && forall d <- ds :: d < 16
  {
    if n < 16 then [n] else HexDigits(n / 16) + [n % 16]
  }

  lemma {:induction false} HexValue(n: nat)
    ensures Positional(16, HexDigits(n)) == n
  {
    if n < 16 {
      assert [n][1..] == [];
    } else {
      HexValue(n / 16);
      PositionalSnoc(16, HexDigits(n / 16), n % 16);
    }
  }

  function HexChar(d: nat, upper: bool): (c: char)
    requires d < 16
    ensures Means(c, d)
  {
    if upper then "0123456789ABCDEF"[d] else "0123456789abcdef"[d]
  }

  /** The number in hexadecimal, its letters in the asked case. */
  function Hex(n: nat, upper: bool): (s: string)
    ensures Numeral(16, s, HexDigits(n))
  {
    var ds := HexDigits(n);
    assert forall i :: 0 <= i < |ds| ==> ds[i] in ds;
    seq(|ds|, i requires 0 <= i < |ds| => HexChar(ds[i], upper))
  }
}
