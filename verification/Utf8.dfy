/** UTF-8 after RFC 3629: the grammar of section 4, the encoding of section 3, and the
    validator of the content inspector. Bit masks and shifts are written as division and
    remainder by powers of two. */
module Utf8 {

  type Byte = x: int | 0 <= x < 0x100

  /** A Unicode scalar value. */
  type Scalar = v: int | 0 <= v < 0xD800 || 0xE000 <= v < 0x11_0000

  predicate Tail(b: Byte) { 0x80 <= b <= 0xBF }

  /** The second byte that the grammar allows after a lead byte of three or four. */
  predicate Second(lead: Byte, b: Byte) {
    match lead
    case 0xE0 => 0xA0 <= b <= 0xBF
    case 0xED => 0x80 <= b <= 0x9F
    case 0xF0 => 0x90 <= b <= 0xBF
    case 0xF4 => 0x80 <= b <= 0x8F
    case _ => Tail(b)
  }

  /** Length of the character at the front by the grammar of section 4, or 0 when none is. */
  function CharLength(s: seq<Byte>): (n: nat)
    ensures n <= |s| && n <= 4
    ensures s != [] && s[0] < 0x80 <==> n == 1
  {
    if s == [] then 0
    else if s[0] < 0x80 then 1
    else if 0xC2 <= s[0] <= 0xDF && |s| >= 2 && Tail(s[1]) then 2
    else if 0xE0 <= s[0] <= 0xEF && |s| >= 3 && Second(s[0], s[1]) && Tail(s[2]) then 3
    else if 0xF0 <= s[0] <= 0xF4 && |s| >= 4 && Second(s[0], s[1]) && Tail(s[2]) && Tail(s[3]) then 4
    else 0
  }

  predicate WellFormed(s: seq<Byte>)
    decreases |s|
  {
    s == [] || (CharLength(s) > 0 && WellFormed(s[CharLength(s)..]))
  }

  /** Section 3: the bytes of one character. */
  function Encode(v: Scalar): (r: seq<Byte>)
    ensures 1 <= |r| <= 4
  {
    if v < 0x80 then [v]
    else if v < 0x800 then [0xC0 + v / 0x40, 0x80 + v % 0x40]
    else if v < 0x1_0000 then [0xE0 + v / 0x1000, 0x80 + v / 0x40 % 0x40, 0x80 + v % 0x40]
    else [0xF0 + v / 0x4_0000, 0x80 + v / 0x1000 % 0x40, 0x80 + v / 0x40 % 0x40, 0x80 + v % 0x40]
  }

  /** The six payload bits of a continuation byte. */
  function Low6(b: Byte): nat { b % 0x40 }

  /** The number of continuation bytes a lead byte announces, or 0. */
  function Extra(c: Byte): nat {
    if c / 0x20 == 6 then 1 else if c / 0x10 == 14 then 2 else if c / 8 == 30 then 3 else 0
  }

  /** The payload bits of a lead byte. */
  function LeadBits(c: Byte): nat {
    if c < 0x80 then c else if Extra(c) == 1 then c % 0x20 else if Extra(c) == 2 then c % 0x10 else c % 0x08
  }

  /** Section 3 backwards: the number in the payload bits of the first `n` bytes. */
  function Payload(s: seq<Byte>, n: nat): nat
    requires 1 <= n <= |s|
  {
    if n == 1 then LeadBits(s[0]) else Payload(s, n - 1) * 0x40 + Low6(s[n - 1])
  }

  /** Base-64 digits are read off by division. */
  lemma {:induction false} Digits(a: nat, b: nat, c: nat, d: nat)
    requires b < 0x40 && c < 0x40 && d < 0x40
    ensures (a * 0x40 + b) / 0x40 == a && (a * 0x40 + b) % 0x40 == b
    ensures var v := (a * 0x40 + b) * 0x40 + c; v / 0x1000 == a && v / 0x40 % 0x40 == b && v % 0x40 == c
    ensures var v := ((a * 0x40 + b) * 0x40 + c) * 0x40 + d;
      v / 0x4_0000 == a && v / 0x1000 % 0x40 == b && v / 0x40 % 0x40 == c && v % 0x40 == d
  {
    var two := a * 0x40 + b;
    var three := two * 0x40 + c;
    LastDigit(a, b);
    LastDigit(two, c);
    LastDigit(three, d);
    PlaceValues(three);
    PlaceValues(three * 0x40 + d);
  }

  lemma {:induction false} LastDigit(high: nat, low: nat)
    requires low < 0x40
    ensures (high * 0x40 + low) / 0x40 == high && (high * 0x40 + low) % 0x40 == low
  {
  }

  lemma {:induction false} PlaceValues(v: nat)
    ensures v / 0x1000 == v / 0x40 / 0x40 && v / 0x4_0000 == v / 0x1000 / 0x40
  {
  }

  lemma {:induction false} PayloadUnfolds(s: seq<Byte>)
    ensures |s| >= 1 ==> Payload(s, 1) == LeadBits(s[0])
    ensures |s| >= 2 ==> Payload(s, 2) == LeadBits(s[0]) * 0x40 + Low6(s[1])
    ensures |s| >= 3 ==> Payload(s, 3) == (LeadBits(s[0]) * 0x40 + Low6(s[1])) * 0x40 + Low6(s[2])
    ensures |s| >= 4 ==> Payload(s, 4) == ((LeadBits(s[0]) * 0x40 + Low6(s[1])) * 0x40 + Low6(s[2])) * 0x40 + Low6(s[3])
  {
  }

  predicate IsScalar(v: int) { 0 <= v < 0xD800 || 0xE000 <= v < 0x11_0000 }

  lemma {:induction false} PayloadIsScalar(s: seq<Byte>)
    requires CharLength(s) > 0
    ensures IsScalar(Payload(s, CharLength(s))) && Encode(Payload(s, CharLength(s))) == s[..CharLength(s)]
  {
    PayloadUnfolds(s);
    match CharLength(s) {
      case 1 =>
      case 2 => Decoded2(s);
      case 3 => Decoded3(s);
      case _ => Decoded4(s);
    }
  }

  lemma {:induction false} Decoded2(s: seq<Byte>)
    requires CharLength(s) == 2
    ensures var v := LeadBits(s[0]) * 0x40 + Low6(s[1]); 0x80 <= v < 0x800 && Encode(v) == s[..2]
  {
    Digits(LeadBits(s[0]), Low6(s[1]), 0, 0);
  }

  lemma {:induction false} Decoded3(s: seq<Byte>)
    requires CharLength(s) == 3
    ensures var v := (LeadBits(s[0]) * 0x40 + Low6(s[1])) * 0x40 + Low6(s[2]);
      0x800 <= v < 0x1_0000 && IsScalar(v) && Encode(v) == s[..3]
  {
    Digits(LeadBits(s[0]), Low6(s[1]), Low6(s[2]), 0);
  }

  lemma {:induction false} Decoded4(s: seq<Byte>)
    requires CharLength(s) == 4
    ensures var v := ((LeadBits(s[0]) * 0x40 + Low6(s[1])) * 0x40 + Low6(s[2])) * 0x40 + Low6(s[3]);
      0x1_0000 <= v < 0x11_0000 && Encode(v) == s[..4]
  {
    var a, b, c, d := LeadBits(s[0]), Low6(s[1]), Low6(s[2]), Low6(s[3]);
    Bits4(s);
    Digits(a, b, c, d);
    Encode4(a, b, c, d, ((a * 0x40 + b) * 0x40 + c) * 0x40 + d, s);
  }

  lemma {:induction false} Bits4(s: seq<Byte>)
    requires CharLength(s) == 4
    ensures var a, b := LeadBits(s[0]), Low6(s[1]);
      && s[0] == 0xF0 + a && s[1] == 0x80 + b && s[2] == 0x80 + Low6(s[2]) && s[3] == 0x80 + Low6(s[3])
      && a <= 4 && (a == 0 ==> b >= 0x10) && (a == 4 ==> b < 0x10)
  {
  }

  lemma {:induction false} Encode4(a: nat, b: nat, c: nat, d: nat, v: int, s: seq<Byte>)
    requires v == ((a * 0x40 + b) * 0x40 + c) * 0x40 + d && b < 0x40 && c < 0x40 && d < 0x40
    requires a <= 4 && (a == 0 ==> b >= 0x10) && (a == 4 ==> b < 0x10)
    requires v / 0x4_0000 == a && v / 0x1000 % 0x40 == b && v / 0x40 % 0x40 == c && v % 0x40 == d
    requires |s| >= 4 && s[0] == 0xF0 + a && s[1] == 0x80 + b && s[2] == 0x80 + c && s[3] == 0x80 + d
    ensures 0x1_0000 <= v < 0x11_0000 && Encode(v) == s[..4]
  {
  }

  lemma {:induction false} EncodeIsChar(v: Scalar, rest: seq<Byte>)
    ensures CharLength(Encode(v) + rest) == |Encode(v)|
    ensures Payload(Encode(v) + rest, |Encode(v)|) == v
  {
    var s := Encode(v) + rest;
    PayloadUnfolds(s);
    if 0x1_0000 <= v {
      assert s[0] == Encode(v)[0] && s[1] == Encode(v)[1] && s[2] == Encode(v)[2] && s[3] == Encode(v)[3];
      Encoded4(v, s);
    } else if 0x800 <= v {
      Encoded3(v, s);
    }
  }

  lemma {:induction false} Encoded3(v: Scalar, s: seq<Byte>)
    requires 0x800 <= v < 0x1_0000 && |s| >= 3 && s[..3] == Encode(v)
    ensures CharLength(s) == 3 && (LeadBits(s[0]) * 0x40 + Low6(s[1])) * 0x40 + Low6(s[2]) == v
  {
    var a, b, c := v / 0x1000, v / 0x40 % 0x40, v % 0x40;
    assert s[0] == s[..3][0] == 0xE0 + a && s[1] == s[..3][1] == 0x80 + b && s[2] == s[..3][2] == 0x80 + c;
    ThreeDigits(v, a, b, c);
    Char3(a, b, c, s);
  }

  /** Three digits of base 64: what their number being a scalar of three bytes says about them. */
  lemma {:induction false} ThreeDigits(v: Scalar, a: int, b: int, c: int)
    requires 0x800 <= v < 0x1_0000 && a == v / 0x1000 && b == v / 0x40 % 0x40 && c == v % 0x40
    ensures v == (a * 0x40 + b) * 0x40 + c && 0 <= a < 16 && 0 <= b < 0x40 && 0 <= c < 0x40
    ensures (a == 0 ==> b >= 0x20) && (a == 13 ==> b < 0x20)
  {
    assert v / 0x40 / 0x40 == v / 0x1000;
  }

  lemma {:induction false} Char3(a: int, b: int, c: int, s: seq<Byte>)
    requires 0 <= a < 16 && 0 <= b < 0x40 && 0 <= c < 0x40 && (a == 0 ==> b >= 0x20) && (a == 13 ==> b < 0x20)
    requires |s| >= 3 && s[0] == 0xE0 + a && s[1] == 0x80 + b && s[2] == 0x80 + c
    ensures CharLength(s) == 3 && LeadBits(s[0]) == a && Low6(s[1]) == b && Low6(s[2]) == c
  {
  }

  lemma {:induction false} Encoded4(v: Scalar, s: seq<Byte>)
    requires 0x1_0000 <= v && |s| >= 4
    requires s[0] == 0xF0 + v / 0x4_0000 && s[1] == 0x80 + v / 0x1000 % 0x40
    requires s[2] == 0x80 + v / 0x40 % 0x40 && s[3] == 0x80 + v % 0x40
    ensures CharLength(s) == 4 && ((LeadBits(s[0]) * 0x40 + Low6(s[1])) * 0x40 + Low6(s[2])) * 0x40 + Low6(s[3]) == v
  {
    var a, b, c, d := v / 0x4_0000, v / 0x1000 % 0x40, v / 0x40 % 0x40, v % 0x40;
    FourDigits(v);
    DigitRanges(v, a, b, c, d);
    Char4(a, b, c, d, s);
  }

  lemma {:induction false} DigitRanges(v: int, a: int, b: int, c: int, d: int)
    requires v == ((a * 0x40 + b) * 0x40 + c) * 0x40 + d && 0 <= b < 0x40 && 0 <= c < 0x40 && 0 <= d < 0x40
    requires 0x1_0000 <= v < 0x11_0000
    ensures 0 <= a <= 4 && (a == 0 ==> b >= 0x10) && (a == 4 ==> b < 0x10)
  {
  }

  lemma {:induction false} Char4(a: int, b: int, c: int, d: int, s: seq<Byte>)
    requires 0 <= a <= 4 && 0 <= b < 0x40 && 0 <= c < 0x40 && 0 <= d < 0x40
    requires (a == 0 ==> b >= 0x10) && (a == 4 ==> b < 0x10)
    requires |s| >= 4 && s[0] == 0xF0 + a && s[1] == 0x80 + b && s[2] == 0x80 + c && s[3] == 0x80 + d
    ensures CharLength(s) == 4 && LeadBits(s[0]) == a && Low6(s[1]) == b && Low6(s[2]) == c && Low6(s[3]) == d
  {
  }

  lemma {:induction false} FourDigits(v: nat)
    ensures ((v / 0x4_0000 * 0x40 + v / 0x1000 % 0x40) * 0x40 + v / 0x40 % 0x40) * 0x40 + v % 0x40 == v
  {
    assert v / 0x40 / 0x40 == v / 0x1000 && v / 0x1000 / 0x40 == v / 0x4_0000;
  }

  function EncodeAll(vs: seq<Scalar>): seq<Byte> {
    if vs == [] then [] else EncodeAll(vs[..|vs| - 1]) + Encode(vs[|vs| - 1])
  }

  /** The characters of a well-formed string. */
  function Decode(s: seq<Byte>): seq<Scalar>
    requires WellFormed(s)
    decreases |s|
  {
    if s == [] then []
    else
      var n := CharLength(s);
      PayloadIsScalar(s);
      [Payload(s, n)] + Decode(s[n..])
  }

  /** Element by element, whatever becomes of an element. */
  function Glued<T>(f: T -> seq<Byte>, s: seq<T>): seq<Byte> {
    if s == [] then [] else Glued(f, s[..|s| - 1]) + f(s[|s| - 1])
  }

  lemma {:induction false} GluedUnchanged(f: Byte -> seq<Byte>, s: seq<Byte>)
    requires forall i :: 0 <= i < |s| ==> f(s[i]) == [s[i]]
    ensures Glued(f, s) == s
  {
    if s != [] {
      GluedUnchanged(f, s[..|s| - 1]);
    }
  }

  lemma {:induction false} GluedSplit<T>(f: T -> seq<Byte>, a: seq<T>, b: seq<T>)
    ensures Glued(f, a + b) == Glued(f, a) + Glued(f, b)
    decreases |b|
  {
    if b == [] {
      assert a + b == a;
    } else {
      var n := |b| - 1;
      assert (a + b)[..|a + b| - 1] == a + b[..n];
      GluedSplit(f, a, b[..n]);
    }
  }

  lemma {:induction false} EncodeAllGlues(vs: seq<Scalar>)
    ensures EncodeAll(vs) == Glued(Encode, vs)
    decreases |vs|
  {
    if vs != [] {
      EncodeAllGlues(vs[..|vs| - 1]);
    }
  }

  lemma {:induction false} EncodeAllSplit(us: seq<Scalar>, vs: seq<Scalar>)
    ensures EncodeAll(us + vs) == EncodeAll(us) + EncodeAll(vs)
  {
    GluedSplit(Encode, us, vs);
    EncodeAllGlues(us);
    EncodeAllGlues(vs);
    EncodeAllGlues(us + vs);
  }

  lemma {:induction false} EncodeOne(v: Scalar)
    ensures EncodeAll([v]) == Encode(v)
  {
    assert [v][..0] == [];
  }

  lemma {:induction false} EncodeAllCons(v: Scalar, vs: seq<Scalar>)
    ensures EncodeAll([v] + vs) == Encode(v) + EncodeAll(vs)
  {
    EncodeAllSplit([v], vs);
    EncodeOne(v);
  }

  /** Encoding any scalar values gives a well-formed string, and decoding gives them back. */
  lemma {:induction false} DecodeEncode(vs: seq<Scalar>)
    ensures WellFormed(EncodeAll(vs)) && Decode(EncodeAll(vs)) == vs
    decreases |vs|
  {
    if vs != [] {
      var rest := EncodeAll(vs[1..]);
      assert vs == [vs[0]] + vs[1..];
      EncodeAllCons(vs[0], vs[1..]);
      EncodeIsChar(vs[0], rest);
      assert EncodeAll(vs)[|Encode(vs[0])|..] == rest;
      DecodeEncode(vs[1..]);
    }
  }

  /** The first character of a well-formed string, and the rest. */
  lemma {:induction false} FirstChar(s: seq<Byte>) returns (v: Scalar)
    requires WellFormed(s) && s != []
    ensures var n := CharLength(s);
      n > 0 && WellFormed(s[n..]) && Decode(s) == [v] + Decode(s[n..]) && Encode(v) == s[..n]
  {
    PayloadIsScalar(s);
    v := Payload(s, CharLength(s));
  }

  /** Every well-formed string is the encoding of its characters. */
  lemma {:induction false} EncodeDecode(s: seq<Byte>)
    requires WellFormed(s)
    ensures EncodeAll(Decode(s)) == s
    decreases |s|
  {
    if s != [] {
      var v := FirstChar(s);
      var n := CharLength(s);
      EncodeDecode(s[n..]);
      EncodeFront(v, Decode(s[n..]), s, n);
    }
  }

  lemma {:induction false} EncodeFront(v: Scalar, vs: seq<Scalar>, s: seq<Byte>, n: nat)
    requires n <= |s| && Encode(v) == s[..n] && EncodeAll(vs) == s[n..]
    ensures EncodeAll([v] + vs) == s
  {
    EncodeAllCons(v, vs);
  }

  // ---- The validator ----

  /** Overlong forms, surrogates and numbers above U+10FFFF. */
  predicate Rejected(extra: nat, cp: nat) {
    || (extra == 1 && cp < 0x80) || (extra == 2 && cp < 0x800) || (extra == 3 && cp < 0x1_0000)
    || cp > 0x10_FFFF || 0xD800 <= cp <= 0xDFFF
  }

  ghost predicate TestAccepts(s: seq<Byte>, extra: nat) {
    && 0 < extra < |s| && (forall j :: 1 <= j <= extra ==> Tail(s[j]))
    && !Rejected(extra, Payload(s, extra + 1))
  }

  /** The numeric test agrees with the grammar on one multi-byte character. */
  lemma {:induction false} CharTest(s: seq<Byte>, extra: nat)
    requires s != [] && s[0] >= 0x80 && extra == Extra(s[0])
    ensures CharLength(s) == if TestAccepts(s, extra) then extra + 1 else 0
  {
    PayloadUnfolds(s);
    if extra == 3 {
      CharTest4(s);
    }
  }

  lemma {:induction false} CharTest4(s: seq<Byte>)
    requires s != [] && Extra(s[0]) == 3
    ensures CharLength(s) == if TestAccepts(s, 3) then 4 else 0
  {
    PayloadUnfolds(s);
  }

  /** The bytes before `i` are whole characters: all depends on the rest. */
  ghost predicate RestDecides(data: seq<Byte>, i: nat) {
    i <= |data| && forall x :: x == data[i..] ==> (WellFormed(data) <==> WellFormed(x))
  }

  lemma {:induction false} RestStart(data: seq<Byte>)
    ensures RestDecides(data, 0)
  {
    assert data[0..] == data;
  }

  lemma {:induction false} RestOn(data: seq<Byte>, i: nat, n: nat)
    requires i < |data| && RestDecides(data, i) && n == CharLength(data[i..])
    ensures n > 0 ==> RestDecides(data, i + n)
    ensures n == 0 ==> !WellFormed(data)
  {
    var rest := data[i..];
    assert WellFormed(data) <==> WellFormed(rest);
    assert n > 0 ==> rest[n..] == data[i + n..];
  }

  lemma {:induction false} RestEnd(data: seq<Byte>)
    requires RestDecides(data, |data|)
    ensures WellFormed(data)
  {
    assert data[|data|..] == [] && WellFormed([]);
  }

  /** Accepts exactly the well-formed byte strings. */
  method IsValidUtf8(data: seq<Byte>) returns (valid: bool)
    ensures valid <==> WellFormed(data)
  {
    var i := 0;
    RestStart(data);
    while i < |data|
      invariant 0 <= i <= |data| && RestDecides(data, i)
      decreases |data| - i
    {
      if data[i] < 0x80 {
        RestOn(data, i, 1);
        i := i + 1;
        continue;
      }
      var n := MultiByteChar(data, i);
      RestOn(data, i, n);
      if n == 0 {
        return false;
      }
      i := i + n;
    }
    RestEnd(data);
    return true;
  }

  /** The length of the multi-byte character at `i`, or 0: gather the code point, then reject
      overlong forms, surrogates and numbers that are too large. */
  method MultiByteChar(data: seq<Byte>, i: nat) returns (n: nat)
    requires i < |data| && data[i] >= 0x80
    ensures n == CharLength(data[i..])
  {
    ghost var rest := data[i..];
    var extra := Extra(data[i]);
    CharTest(rest, extra);
    if extra == 0 {
      return 0;
    }
    var cp := LeadBits(data[i]);
    var j := 1;
    while j <= extra
      invariant 1 <= j <= extra + 1 && i + j <= |data|
      invariant forall k :: 1 <= k < j ==> Tail(rest[k])
      invariant cp == Payload(rest, j)
    {
      if i + j >= |data| {
        return 0;
      }
      var cc := data[i + j];
      if cc / 0x40 != 2 {
        assert !Tail(rest[j]);
        return 0;
      }
      cp := cp * 0x40 + Low6(cc);
      j := j + 1;
    }
    return if Rejected(extra, cp) then 0 else extra + 1;
  }
}
