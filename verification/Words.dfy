/** 32-bit machine words and their decimal spelling, shared by every component. */
module Words {
  const TWO_32: int := 0x1_0000_0000

  /** An unsigned 32-bit word; arithmetic on it wraps where the source says `wrapping_*`. */
  type u32 = x: int | 0 <= x < 0x1_0000_0000

  datatype Option<+T> = None | Some(value: T)

  datatype Result<+T> = Ok(value: T) | Err(message: string)

  function Wrap(x: int): u32 {
    x % TWO_32
  }

  /** The word read as a two's-complement number (the VM's `as i32`). */
  function Signed(x: u32): int {
    if x < 0x8000_0000 then x else x - TWO_32
  }

  /** Both readings of a word name the same residue modulo 2^32, each in its own range. */
  lemma WrapSigned(x: int, w: u32)
    ensures Wrap(x) == w <==> exists k: int :: x == w + k * 0x1_0000_0000
    ensures -0x8000_0000 <= Signed(w) < 0x8000_0000 && Wrap(Signed(w)) == w
  {
    if Wrap(x) == w {
      assert x == w + (x / TWO_32) * 0x1_0000_0000;
    }
    if k: int :| x == w + k * 0x1_0000_0000 {
      assert x == w + k * TWO_32;
    }
  }

  predicate IsDigit(c: char) {
    '0' <= c <= '9'
  }

  predicate AllDigits(s: string) {
    forall i :: 0 <= i < |s| ==> IsDigit(s[i])
  }

  function DigitChar(d: nat): char
    requires d < 10
  {
    '0' + d as char
  }

  function DigitVal(c: char): nat
    requires IsDigit(c)
  {
    (c - '0') as nat
  }

  /** Rust's `{}` rendering of an unsigned number: no sign, no leading zeros. */
  function Dec(n: nat): (s: string)
    ensures |s| > 0 && AllDigits(s)
  {
    if n < 10 then [DigitChar(n)] else Dec(n / 10) + [DigitChar(n % 10)]
  }

  function DecVal(s: string): nat
    requires AllDigits(s)
  {
    if s == [] then 0 else 10 * DecVal(s[..|s| - 1]) + DigitVal(s[|s| - 1])
  }

  lemma {:induction false} DecValDec(n: nat)
    ensures DecVal(Dec(n)) == n
  {
    if n >= 10 {
      DecValDec(n / 10);
      assert Dec(n)[..|Dec(n)| - 1] == Dec(n / 10);
    }
  }

  lemma {:induction false} DecInjective(m: nat, n: nat)
    requires Dec(m) == Dec(n)
    ensures m == n
  {
    DecValDec(m);
    DecValDec(n);
  }

  /** Rust's `str::parse` for an unsigned type whose values lie below `bound`. */
  function ParseBelow(s: string, bound: nat): (r: Option<nat>)
    ensures r.Some? ==> r.value < bound
  {
    if s != [] && AllDigits(s) && DecVal(s) < bound then Some(DecVal(s)) else None
  }

  lemma {:induction false} ParseDec(n: nat, bound: nat)
    requires n < bound
    ensures ParseBelow(Dec(n), bound) == Some(n)
  {
    DecValDec(n);
  }
}
