/** Directory listings: sorted names and their encoding in a buffer of words. */
module InodeDir {
  import opened Words
  import opened InodeFs

  // ---- Bytewise order of names ----

  predicate Less(a: string, b: string) {
    b != "" && (a == "" || a[0] < b[0] || (a[0] == b[0] && Less(a[1..], b[1..])))
  }

  lemma {:induction false} LessTotal(a: string, b: string)
    ensures a == b || Less(a, b) || Less(b, a)
    ensures !(Less(a, b) && Less(b, a)) && !(Less(a, b) && a == b)
  {
    if a != "" && b != "" {
      LessTotal(a[1..], b[1..]);
      assert a == [a[0]] + a[1..] && b == [b[0]] + b[1..];
    }
  }

  lemma {:induction false} LessTransitive(a: string, b: string, c: string)
    requires Less(a, b) && Less(b, c)
    ensures Less(a, c)
  {
    if a != "" && a[0] == b[0] == c[0] {
      LessTransitive(a[1..], b[1..], c[1..]);
    }
  }

  /** The first byte where they differ decides, and a prefix comes first. */
  lemma {:induction false} LessMeans(a: string, b: string)
    ensures Less(a, b) <==> exists k :: 0 <= k <= |a| && k < |b| && a[..k] == b[..k] && (k == |a| || a[k] < b[k])
  {
    if Less(a, b) {
      var k := FirstDifference(a, b);
      assert k <= |a| && k < |b|;
    } else {
      forall k | 0 <= k <= |a| && k < |b| && a[..k] == b[..k] ensures k < |a| && !(a[k] < b[k]) {
        NotLess(a, b, k);
      }
    }
  }

  lemma {:induction false} FirstDifference(a: string, b: string) returns (k: nat)
    requires Less(a, b)
    ensures k <= |a| && k < |b| && a[..k] == b[..k] && (k == |a| || a[k] < b[k])
  {
    if a == "" || a[0] < b[0] {
      k := 0;
    } else {
      var j := FirstDifference(a[1..], b[1..]);
      k := j + 1;
      assert a[..k] == [a[0]] + a[1..][..j] && b[..k] == [b[0]] + b[1..][..j];
    }
  }

  lemma {:induction false} NotLess(a: string, b: string, k: nat)
    requires !Less(a, b) && k <= |a| && k < |b| && a[..k] == b[..k]
    ensures k < |a| && !(a[k] < b[k])
  {
    if k > 0 {
      assert a[..k][0] == b[..k][0];
      assert a[1..][..k - 1] == a[..k][1..] && b[1..][..k - 1] == b[..k][1..];
      NotLess(a[1..], b[1..], k - 1);
    }
  }

  predicate IsLeast(m: string, s: set<string>) {
    m in s && forall x <- s :: x == m || Less(m, x)
  }

  lemma {:induction false} LeastExists(s: set<string>) returns (m: string)
    requires s != {}
    ensures IsLeast(m, s)
    decreases |s|
  {
    var x :| x in s;
    m := x;
    if s - {x} != {} {
      var y := LeastExists(s - {x});
      LessTotal(x, y);
      m := if Less(x, y) then x else y;
      forall z <- s ensures z == m || Less(m, z) {
        if z != x && z != y && m == x {
          LessTransitive(x, y, z);
        }
      }
    }
  }

  lemma HasLeast(s: set<string>)
    requires s != {}
    ensures exists m :: IsLeast(m, s)
    ensures forall m, n :: IsLeast(m, s) && IsLeast(n, s) ==> m == n
  {
    var m := LeastExists(s);
    forall m, n | IsLeast(m, s) && IsLeast(n, s) ensures m == n {
      LessTotal(m, n);
    }
  }

  function Least(s: set<string>): (m: string)
    requires s != {}
    ensures IsLeast(m, s)
  {
    HasLeast(s);
    var m :| IsLeast(m, s);
    m
  }

  /** The names in strictly increasing order. */
  function Sorted(s: set<string>): (r: seq<string>)
    ensures |r| == |s|
  {
    if s == {} then [] else [Least(s)] + Sorted(s - {Least(s)})
  }

  lemma {:induction false} SortedMembers(s: set<string>, x: string)
    ensures x in Sorted(s) <==> x in s
  {
    if s != {} {
      SortedMembers(s - {Least(s)}, x);
    }
  }

  /** Each name of the set once, smallest first. */
  lemma {:induction false} SortedIsSorted(s: set<string>)
    ensures forall i, j :: 0 <= i < j < |Sorted(s)| ==> Less(Sorted(s)[i], Sorted(s)[j])
  {
    hide Less;
    if s != {} {
      var m, rest := Least(s), Sorted(s - {Least(s)});
      SortedIsSorted(s - {m});
      assert Sorted(s) == [m] + rest;
      forall j | 0 <= j < |rest| ensures Less(m, rest[j]) {
        SortedMembers(s - {m}, rest[j]);
      }
    }
  }

  // ---- Encoding ----

  function Bytes(name: string): seq<u32> {
    seq(|name|, i requires 0 <= i < |name| => name[i] as int)
  }

  /** Length, characters, terminator. */
  function EncodeName(name: string): seq<u32>
    requires |name| < TWO_32
  {
    [|name|] + Bytes(name) + [0]
  }

  predicate Encodable(names: seq<string>) {
    forall n <- names :: |n| < TWO_32
  }

  function EncodeNames(names: seq<string>): seq<u32>
    requires Encodable(names)
  {
    if names == [] then [] else EncodeNames(names[..|names| - 1]) + EncodeName(names[|names| - 1])
  }

  function AllBytes(names: seq<string>): seq<seq<u32>> {
    if names == [] then [] else [Bytes(names[0])] + AllBytes(names[1..])
  }

  /** The words are the name's characters, in order. */
  ghost predicate Spells(words: seq<u32>, name: string) {
    |words| == |name| && forall k :: 0 <= k < |name| ==> words[k] == name[k] as int
  }

  lemma {:induction false} AllSpelled(names: seq<string>)
    ensures |AllBytes(names)| == |names| && forall i :: 0 <= i < |names| ==> Spells(AllBytes(names)[i], names[i])
  {
    if names != [] {
      AllSpelled(names[1..]);
      assert Spells(Bytes(names[0]), names[0]);
    }
  }

  /** Reads `n` entries back, each closed by a zero word. */
  function DecodeNames(words: seq<u32>, n: nat): Option<seq<seq<u32>>>
    decreases n
  {
    if n == 0 then Some([])
    else if words == [] || 1 + words[0] + 1 > |words| || words[words[0] + 1] != 0 then None
    else
      match DecodeNames(words[words[0] + 2..], n - 1)
      case None => None
      case Some(rest) => Some([words[1..words[0] + 1]] + rest)
  }

  lemma {:induction false} EncodeFront(name: string, names: seq<string>)
    requires |name| < TWO_32 && Encodable(names)
    ensures Encodable([name] + names)
    ensures EncodeNames([name] + names) == EncodeName(name) + EncodeNames(names)
    decreases |names|
  {
    hide EncodeNames, EncodeName;
    if names == [] {
      EncodeSnoc([], name);
      EncodeNone();
      assert [] + [name] == [name] + names;
      assert EncodeName(name) + [] == EncodeName(name) && [] + EncodeName(name) == EncodeName(name);
    } else {
      var front, last := names[..|names| - 1], names[|names| - 1];
      EncodeFront(name, front);
      EncodeSnoc([name] + front, last);
      EncodeSnoc(front, last);
      assert names == front + [last] && [name] + names == [name] + front + [last];
      var x, y, z := EncodeName(name), EncodeNames(front), EncodeName(last);
      assert (x + y) + z == x + (y + z);
    }
  }

  lemma EncodeNone()
    ensures EncodeNames([]) == []
  {
  }

  lemma EncodeSnoc(names: seq<string>, name: string)
    requires |name| < TWO_32 && Encodable(names)
    ensures Encodable(names + [name]) && EncodeNames(names + [name]) == EncodeNames(names) + EncodeName(name)
  {
    assert (names + [name])[..|names|] == names;
  }

  /** One encoded entry is read back whatever follows it. */
  lemma DecodeFirst(name: string, rest: seq<u32>, n: nat)
    requires |name| < TWO_32 && n > 0
    ensures DecodeNames(EncodeName(name) + rest, n)
         == match DecodeNames(rest, n - 1) case None => None case Some(names) => Some([Bytes(name)] + names)
  {
    hide Bytes;
    BytesLength(name);
    var ws := EncodeName(name) + rest;
    assert ws[0] == |name| && ws[1..|name| + 1] == Bytes(name) && ws[|name| + 1] == 0 && ws[|name| + 2..] == rest;
  }

  /** Decoding a listing gives back exactly the names that were encoded, character by character. */
  lemma DecodeEncode(names: seq<string>, tail: seq<u32>)
    requires Encodable(names)
    ensures DecodeNames(EncodeNames(names) + tail, |names|) == Some(AllBytes(names))
    ensures |AllBytes(names)| == |names| && forall i :: 0 <= i < |names| ==> Spells(AllBytes(names)[i], names[i])
  {
    hide *;
    DecodeAll(names, tail);
    AllSpelled(names);
  }

  lemma {:induction false} DecodeAll(names: seq<string>, tail: seq<u32>)
    requires Encodable(names)
    ensures DecodeNames(EncodeNames(names) + tail, |names|) == Some(AllBytes(names))
    decreases |names|
  {
    hide Bytes, EncodeNames, EncodeName;
    if names != [] {
      var n, rest := names[0], names[1..];
      assert names == [n] + rest;
      EncodeFront(n, rest);
      DecodeFirst(n, EncodeNames(rest) + tail, |names|);
      assert EncodeName(n) + EncodeNames(rest) + tail == EncodeName(n) + (EncodeNames(rest) + tail);
      DecodeAll(rest, tail);
    }
  }

  lemma BytesLength(name: string)
    ensures |Bytes(name)| == |name|
  {
  }

  /** Different names have different words. */
  lemma BytesInjective(a: string, b: string)
    requires Bytes(a) == Bytes(b)
    ensures a == b
  {
    assert forall i :: 0 <= i < |a| ==> Bytes(a)[i] == a[i] as int;
    assert forall i :: 0 <= i < |b| ==> Bytes(b)[i] == b[i] as int;
  }

  function NamesIn(fs: Fs, i: nat): seq<string> {
    if i in fs.inodes && fs.inodes[i].itype == Directory then Sorted(UserNames(fs.inodes[i].children)) else []
  }
}
