/** UTF-8 encoding of names, and the byte-wise order the integrity code sorts names by. */
module Utf8 {
  import opened Sorting

  type byte = x: int | 0 <= x < 256

  function EncodeChar(c: char): (r: seq<byte>)
    ensures 1 <= |r| <= 4
  {
    var n := c as int;
    if n < 0x80 then [n]
    else if n < 0x800 then [0xC0 + n / 64, 0x80 + n % 64]
    else if n < 0x1_0000 then [0xE0 + n / 4096, 0x80 + n / 64 % 64, 0x80 + n % 64]
    else [0xF0 + n / 262144, 0x80 + n / 4096 % 64, 0x80 + n / 64 % 64, 0x80 + n % 64]
  }

  function Encode(s: string): seq<byte> {
    if s == "" then [] else EncodeChar(s[0]) + Encode(s[1..])
  }

  predicate IsTail(b: byte) { 0x80 <= b < 0xC0 }

  /** Six bits at a time. */
  lemma SixBits(n: nat)
    ensures n == 0x40 * (n / 64) + n % 64
    ensures n / 64 == 0x40 * (n / 4096) + n / 64 % 64
    ensures n / 4096 == 0x40 * (n / 262144) + n / 4096 % 64
  {
    assert n / 4096 == n / 64 / 64 && n / 262144 == n / 4096 / 64;
  }

  /** One to four bytes after section 3 of RFC 3629: a lead byte of the shortest form, then six bits a byte. */
  lemma EncodeCharIs(c: char)
    ensures
      var n: int, e: seq<int> := c as int, EncodeChar(c);
      if n < 0x80 then e == [n]
      else if n < 0x800 then |e| == 2 && 0xC0 <= e[0] < 0xE0 && IsTail(e[1]) && n == 0x40 * (e[0] - 0xC0) + (e[1] - 0x80)
      else if n < 0x1_0000 then
        |e| == 3 && 0xE0 <= e[0] < 0xF0 && IsTail(e[1]) && IsTail(e[2])
        && n == 0x1000 * (e[0] - 0xE0) + 0x40 * (e[1] - 0x80) + (e[2] - 0x80)
      else
        |e| == 4 && 0xF0 <= e[0] < 0xF8 && IsTail(e[1]) && IsTail(e[2]) && IsTail(e[3])
        && n == 0x4_0000 * (e[0] - 0xF0) + 0x1000 * (e[1] - 0x80) + 0x40 * (e[2] - 0x80) + (e[3] - 0x80)
  {
    SixBits(c as int);
  }

  /** The lead byte alone tells how long the encoding is. */
  lemma LeadByte(c: char)
    ensures var b := EncodeChar(c)[0];
            |EncodeChar(c)| == if b < 0x80 then 1 else if b < 0xE0 then 2 else if b < 0xF0 then 3 else 4
  {}

  lemma EncodeCharInjective(c: char, d: char)
    requires EncodeChar(c) == EncodeChar(d)
    ensures c == d
  {
    EncodeCharIs(c);
    EncodeCharIs(d);
    hide EncodeChar;
    var e, f: seq<int> := EncodeChar(c), EncodeChar(d);
    assert forall i | 0 <= i < |e| :: e[i] == f[i];
  }

  lemma EncodeCharPrefixFree(c: char, d: char, x: seq<byte>, y: seq<byte>)
    requires EncodeChar(c) + x == EncodeChar(d) + y
    ensures c == d && x == y
  {
    var e, f := EncodeChar(c), EncodeChar(d);
    LeadByte(c);
    LeadByte(d);
    assert (e + x)[0] == e[0] && (f + y)[0] == f[0];
    assert (e + x)[..|e|] == e && (f + y)[..|f|] == f;
    assert (e + x)[|e|..] == x && (f + y)[|f|..] == y;
    EncodeCharInjective(c, d);
  }

  lemma {:induction false} EncodeInjective(a: string, b: string)
    requires Encode(a) == Encode(b)
    ensures a == b
  {
    if a != "" && b != "" {
      EncodeCharPrefixFree(a[0], b[0], Encode(a[1..]), Encode(b[1..]));
      EncodeInjective(a[1..], b[1..]);
      assert a == [a[0]] + a[1..] && b == [b[0]] + b[1..];
    }
  }

  /** NUL is the only character whose encoding holds a zero byte. */
  lemma {:induction false} EncodeNulFree(s: string)
    requires '\0' !in s
    ensures 0 !in Encode(s)
  {
    if s != "" {
      assert s[0] in s && s[0] as int != 0;
      assert 0 !in EncodeChar(s[0]);
      EncodeNulFree(s[1..]);
    }
  }

  /** Lexicographic order on bytes or other code units, as `Buffer.compare` decides it. */
  predicate UnitsLe(a: seq<int>, b: seq<int>) {
    a == [] || (b != [] && (a[0] < b[0] || (a[0] == b[0] && UnitsLe(a[1..], b[1..]))))
  }

  lemma UnitsLeTotal(a: seq<int>, b: seq<int>)
    ensures UnitsLe(a, b) || UnitsLe(b, a)
  {}

  lemma {:induction false} UnitsLeTransitive(a: seq<int>, b: seq<int>, c: seq<int>)
    requires UnitsLe(a, b) && UnitsLe(b, c)
    ensures UnitsLe(a, c)
  {
    if a != [] && a[0] == b[0] == c[0] { UnitsLeTransitive(a[1..], b[1..], c[1..]); }
  }

  lemma {:induction false} UnitsLeAntisymmetric(a: seq<int>, b: seq<int>)
    requires UnitsLe(a, b) && UnitsLe(b, a)
    ensures a == b
  {
    if a != [] { UnitsLeAntisymmetric(a[1..], b[1..]); assert a == [a[0]] + a[1..] && b == [b[0]] + b[1..]; }
  }

  /** `compareNameBytes(a, b) <= 0`. */
  predicate NameLe(a: string, b: string) { UnitsLe(Encode(a), Encode(b)) }

  lemma NameLeTotalOrder()
    ensures TotalPreorder(NameLe)
    ensures forall a, b :: NameLe(a, b) && NameLe(b, a) ==> a == b
  {
    forall a, b ensures NameLe(a, b) || NameLe(b, a) { UnitsLeTotal(Encode(a), Encode(b)); }
    forall a, b, c | NameLe(a, b) && NameLe(b, c) ensures NameLe(a, c) {
      UnitsLeTransitive(Encode(a), Encode(b), Encode(c));
    }
    forall a, b | NameLe(a, b) && NameLe(b, a) ensures a == b {
      UnitsLeAntisymmetric(Encode(a), Encode(b));
      EncodeInjective(a, b);
    }
  }

  /** The names of a set in byte order: what `[...names].sort(byNameCmp)` yields. */
  ghost function SortedNames(s: set<string>): (r: seq<string>)
    ensures |r| == |s|
    ensures forall x :: x in r <==> x in s
    ensures Distinct(r)
  {
    var l := Listing(s);
    SortPreservesDistinct(NameLe, l);
    SameElements(Sort(NameLe, l), l);
    Sort(NameLe, l)
  }

  lemma SortedNamesUnique(s: set<string>, l: seq<string>)
    requires Distinct(l) && forall x :: x in l <==> x in s
    ensures Sort(NameLe, l) == SortedNames(s)
  {
    NameLeTotalOrder();
    DistinctSameMultiset(l, Listing(s));
    SortPermutationInvariant(NameLe, l, Listing(s));
  }
}
