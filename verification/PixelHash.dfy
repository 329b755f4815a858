/** The name hash by its laws: where it starts, what each further byte does to it, and which names it
    tells apart. */
module PixelHash {
  import opened Words
  import opened PixelFs

  lemma {:induction false} FnvSnoc(h: bv32, name: seq<byte>, b: byte)
    ensures FnvFrom(h, name + [b]) == FnvStep(FnvFrom(h, name), b)
    decreases |name|
  {
    hide FnvStep;
    if name == [] {
      assert [] + [b] == [b] && [b][1..] == [];
    } else {
      assert (name + [b])[1..] == name[1..] + [b];
      FnvSnoc(FnvStep(h, name[0]), name[1..], b);
    }
  }

  lemma BackAndForth(h: bv32)
    ensures (h as int) as bv32 == h
  {
  }

  lemma OneUp(x: bv32)
    requires x < 0xff
    ensures (x + 1) as int == x as int + 1
  {
  }

  /** Every byte is some word. */
  lemma {:induction false} WordOf(b: nat) returns (x: bv32)
    requires b < 256
    ensures x as int == b && x <= 0xff
  {
    if b == 0 {
      x := 0;
    } else {
      var y := WordOf(b - 1);
      assert y != 0xff;
      OneUp(y);
      x := y + 1;
    }
  }

  lemma ByteBack(b: byte)
    ensures (b as bv32) as int == b
  {
    var x := WordOf(b);
    BackAndForth(x);
  }

  function Times(h: bv32): bv32 {
    h * 16777619
  }

  function Mix(h: bv32, x: bv32): bv32 {
    Times(h ^ x)
  }

  /** One more byte is xored in and the result multiplied by the prime, in 32 bits. */
  function Next(w: u32, b: byte): u32 {
    Mix(w as bv32, b as bv32) as int
  }

  lemma MixStep(h: bv32, b: byte)
    ensures Mix(h, b as bv32) == FnvStep(h, b)
  {
  }

  lemma NextStep(h: bv32, b: byte)
    ensures Next(h as int, b) == FnvStep(h, b) as int
  {
    MixStep(h, b);
    BackAndForth(h);
    hide Mix, FnvStep;
  }

  /** The empty name has the offset basis, and each further byte does one step. */
  lemma HashLaws(name: seq<byte>, b: byte)
    ensures Fnv1a([]) == 2166136261
    ensures Fnv1a(name + [b]) == Next(Fnv1a(name), b)
  {
    FnvSnoc(0x811c9dc5, name, b);
    NextStep(FnvFrom(0x811c9dc5, name), b);
    OffsetBasis();
    hide Next, FnvStep, FnvFrom;
  }

  lemma OffsetBasis()
    ensures Fnv1a([]) == 2166136261
  {
  }

  lemma HashOfAb()
    ensures Fnv1a([97, 98]) == 0x4d2505ca
  {
    hide FnvStep;
    assert [97, 98][1..] == [98] && [98][1..] == [];
    assert FnvStep(0x811c9dc5, 97) == 0xe40c292c by { StepOfA(); }
    assert FnvStep(0xe40c292c, 98) == 0x4d2505ca by { StepOfAb(); }
  }

  lemma StepOfA()
    ensures FnvStep(0x811c9dc5, 97) == 0xe40c292c
  {
  }

  lemma StepOfAb()
    ensures FnvStep(0xe40c292c, 98) == 0x4d2505ca
  {
  }

  // ---- Telling names apart ----

  function Back(h: bv32): bv32 {
    h * 0x359c449b
  }

  /** The prime has an inverse. */
  lemma PrimeBack(h: bv32)
    ensures Back(h * 16777619) == h
  {
  }

  lemma TimesIs(h: bv32)
    ensures Times(h) == h * 16777619
  {
  }

  /** So multiplying by it loses nothing. */
  lemma TimesApart(h: bv32, g: bv32)
    requires h != g
    ensures Times(h) != Times(g)
  {
    hide *;
    PrimeBack(h);
    PrimeBack(g);
    TimesIs(h);
    TimesIs(g);
  }

  lemma XorApart(h: bv32, x: bv32, y: bv32)
    ensures x != y ==> h ^ x != h ^ y
    ensures x != y ==> x ^ h != y ^ h
  {
  }

  lemma MixApart(h: bv32, x: bv32, g: bv32, y: bv32)
    requires (h == g && x != y) || (h != g && x == y)
    ensures Mix(h, x) != Mix(g, y)
  {
    hide Times;
    if h == g { XorApart(h, x, y); } else { XorApart(x, h, g); }
    TimesApart(h ^ x, g ^ y);
  }

  /** Another byte or another word gives another word. */
  lemma NextApart(h: bv32, a: byte, g: bv32, b: byte)
    requires (h == g && a != b) || (h != g && a == b)
    ensures FnvStep(h, a) != FnvStep(g, b)
  {
    hide Mix, FnvStep;
    ByteBack(a);
    ByteBack(b);
    MixApart(h, a as bv32, g, b as bv32);
    MixStep(h, a);
    MixStep(g, b);
  }

  lemma {:induction false} ApartStays(h: bv32, g: bv32, rest: seq<byte>)
    requires h != g
    ensures FnvFrom(h, rest) != FnvFrom(g, rest)
    decreases |rest|
  {
    hide FnvStep;
    if rest != [] {
      NextApart(h, rest[0], g, rest[0]);
      ApartStays(FnvStep(h, rest[0]), FnvStep(g, rest[0]), rest[1..]);
    }
  }

  lemma {:induction false} FnvConcat(h: bv32, a: seq<byte>, b: seq<byte>)
    ensures FnvFrom(h, a + b) == FnvFrom(FnvFrom(h, a), b)
    decreases |a|
  {
    hide FnvStep;
    if a == [] {
      assert a + b == b;
    } else {
      assert (a + b)[1..] == a[1..] + b;
      FnvConcat(FnvStep(h, a[0]), a[1..], b);
    }
  }

  /** Names that differ in one byte only have different hashes. */
  lemma OneByteApart(front: seq<byte>, a: byte, b: byte, rest: seq<byte>)
    requires a != b
    ensures Fnv1a(front + [a] + rest) != Fnv1a(front + [b] + rest)
  {
    hide FnvStep, FnvFrom;
    var h: bv32 := FnvFrom(0x811c9dc5, front);
    FnvConcat(0x811c9dc5, front + [a], rest);
    FnvConcat(0x811c9dc5, front + [b], rest);
    FnvSnoc(0x811c9dc5, front, a);
    FnvSnoc(0x811c9dc5, front, b);
    NextApart(h, a, h, b);
    ApartStays(FnvStep(h, a), FnvStep(h, b), rest);
    BackAndForth(FnvFrom(FnvStep(h, a), rest));
    BackAndForth(FnvFrom(FnvStep(h, b), rest));
  }
}
