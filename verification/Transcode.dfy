/** UTF-16 and Latin-1 text turned into UTF-8 under a byte cap. */
module Transcode {
  import opened Utf8

  type Unit = x: int | 0 <= x < 0x1_0000

  predicate High(u: Unit) { 0xD800 <= u <= 0xDBFF }
  predicate Low(u: Unit) { 0xDC00 <= u <= 0xDFFF }

  function Pair(h: Unit, l: Unit): Scalar
    requires High(h) && Low(l)
  {
    0x1_0000 + (h - 0xD800) * 0x400 + (l - 0xDC00)
  }

  // ---- UTF-16 after RFC 2781 ----

  /** Section 2.1: the code units of one character. */
  function Encode16(v: Scalar): seq<Unit> {
    if v < 0x1_0000 then [v] else [0xD800 + (v - 0x1_0000) / 0x400, 0xDC00 + (v - 0x1_0000) % 0x400]
  }

  function EncodeAll16(vs: seq<Scalar>): seq<Unit> {
    if vs == [] then [] else Encode16(vs[0]) + EncodeAll16(vs[1..])
  }

  /** Every surrogate stands in a pair. */
  predicate WellFormed16(us: seq<Unit>)
    decreases |us|
  {
    if us == [] then true
    else if High(us[0]) then |us| > 1 && Low(us[1]) && WellFormed16(us[2..])
    else !Low(us[0]) && WellFormed16(us[1..])
  }

  /** The characters the converter sees: each lone surrogate becomes U+FFFD. */
  function Scalars(us: seq<Unit>): seq<Scalar>
    decreases |us|
  {
    if us == [] then []
    else if High(us[0]) && |us| > 1 && Low(us[1]) then [Pair(us[0], us[1])] + Scalars(us[2..])
    else if High(us[0]) || Low(us[0]) then [0xFFFD] + Scalars(us[1..])
    else [us[0]] + Scalars(us[1..])
  }

  /** Well-formed UTF-16 is the encoding of the characters seen. */
  lemma {:induction false} ScalarsEncode(us: seq<Unit>)
    requires WellFormed16(us)
    ensures EncodeAll16(Scalars(us)) == us
    decreases |us|
  {
    if us != [] {
      var n := if High(us[0]) then 2 else 1;
      ScalarsEncode(us[n..]);
      var v := Scalars(us)[0];
      assert Scalars(us)[1..] == Scalars(us[n..]);
      assert Encode16(v) == us[..n];
      assert us == us[..n] + us[n..];
    }
  }

  /** And the characters of an encoding are those encoded. */
  lemma {:induction false} EncodeScalars(vs: seq<Scalar>)
    ensures WellFormed16(EncodeAll16(vs)) && Scalars(EncodeAll16(vs)) == vs
    decreases |vs|
  {
    if vs != [] {
      var us, n := EncodeAll16(vs), |Encode16(vs[0])|;
      EncodeScalars(vs[1..]);
      assert us[n..] == EncodeAll16(vs[1..]);
      if n == 2 {
        assert Pair(us[0], us[1]) == vs[0];
      }
    }
  }

  /** A surrogate that is not part of a pair. */
  predicate Lone(us: seq<Unit>, i: nat)
    requires i < |us|
  {
    || (High(us[i]) && !(i + 1 < |us| && Low(us[i + 1])))
    || (Low(us[i]) && !(i > 0 && High(us[i - 1])))
  }

  /** The text with each lone surrogate replaced by U+FFFD. */
  function Repaired(us: seq<Unit>): (r: seq<Unit>)
    ensures |r| == |us|
  {
    seq(|us|, i requires 0 <= i < |us| => if Lone(us, i) then 0xFFFD else us[i])
  }

  lemma {:induction false} RepairedTail(us: seq<Unit>, n: nat)
    requires us != [] && n == if High(us[0]) && |us| > 1 && Low(us[1]) then 2 else 1
    ensures Repaired(us)[n..] == Repaired(us[n..])
  {
    forall i | 0 <= i < |us| - n
      ensures Lone(us, n + i) == Lone(us[n..], i)
    {
      assert us[n..][i] == us[n + i];
    }
  }

  /** Read as characters and written again, any text is itself with each lone surrogate replaced. */
  lemma {:induction false} ScalarsRepair(us: seq<Unit>)
    ensures EncodeAll16(Scalars(us)) == Repaired(us)
    ensures WellFormed16(us) ==> Repaired(us) == us
    decreases |us|
  {
    if us != [] {
      var n := if High(us[0]) && |us| > 1 && Low(us[1]) then 2 else 1;
      ScalarsRepair(us[n..]);
      RepairedTail(us, n);
      assert Scalars(us)[1..] == Scalars(us[n..]);
      assert Encode16(Scalars(us)[0]) == Repaired(us)[..n];
      assert Repaired(us) == Repaired(us)[..n] + Repaired(us)[n..];
    }
    if WellFormed16(us) {
      ScalarsEncode(us);
    }
  }

  // ---- The bounded converter ----

  /** The leading characters appended before the output has reached the cap. */
  function Kept(vs: seq<Scalar>, cap: nat, size: nat): seq<Scalar>
    decreases |vs|
  {
    if vs == [] || size >= cap then [] else [vs[0]] + Kept(vs[1..], cap, size + |Encode(vs[0])|)
  }

  lemma {:induction false} KeptBounds(vs: seq<Scalar>, cap: nat, size: nat)
    ensures Kept(vs, cap, size) <= vs
    ensures |EncodeAll(Kept(vs, cap, size))| + size <= cap + 3 || Kept(vs, cap, size) == []
    ensures Kept(vs, cap, size) != vs ==> |EncodeAll(Kept(vs, cap, size))| + size >= cap
    decreases |vs|
  {
    if vs != [] && size < cap {
      KeptBounds(vs[1..], cap, size + |Encode(vs[0])|);
      EncodeAllCons(vs[0], Kept(vs[1..], cap, size + |Encode(vs[0])|));
    }
  }

  function Read16(data: seq<Byte>, off: nat, littleEndian: bool): Unit
    requires off + 1 < |data|
  {
    var a: int, b: int := data[off], data[off + 1];
    if littleEndian then a + b * 0x100 else a * 0x100 + b
  }

  /** The code units of a byte string; an odd last byte is ignored. */
  function Units(data: seq<Byte>, littleEndian: bool): (us: seq<Unit>)
    ensures |us| == |data| / 2
  {
    seq(|data| / 2, i requires 0 <= i < |data| / 2 => Read16(data, 2 * i, littleEndian))
  }

  /** Section 3.1: the bytes of a unit in either order. */
  function UnitBytes(u: Unit, littleEndian: bool): seq<Byte> {
    if littleEndian then [u % 0x100, u / 0x100] else [u / 0x100, u % 0x100]
  }

  function Bytes16(us: seq<Unit>, littleEndian: bool): (data: seq<Byte>)
    ensures |data| == 2 * |us|
  {
    if us == [] then [] else Bytes16(us[..|us| - 1], littleEndian) + UnitBytes(us[|us| - 1], littleEndian)
  }

  lemma {:induction false} BytesAt(us: seq<Unit>, littleEndian: bool, i: nat)
    requires i < |us|
    ensures Bytes16(us, littleEndian)[2 * i..2 * i + 2] == UnitBytes(us[i], littleEndian)
    decreases |us|
  {
    var n := |us| - 1;
    if i < n {
      BytesAt(us[..n], littleEndian, i);
      var front := Bytes16(us[..n], littleEndian);
      assert (front + UnitBytes(us[n], littleEndian))[2 * i..2 * i + 2] == front[2 * i..2 * i + 2];
    }
  }

  lemma {:induction false} ReadBytes(u: Unit, pair: seq<Byte>, littleEndian: bool)
    requires pair == UnitBytes(u, littleEndian)
    ensures Read16(pair, 0, littleEndian) == u
  {
  }

  /** Units written as bytes in one order are read back in that order. */
  lemma {:induction false} UnitsOfBytes(us: seq<Unit>, littleEndian: bool)
    ensures Units(Bytes16(us, littleEndian), littleEndian) == us
  {
    var data := Bytes16(us, littleEndian);
    forall i | 0 <= i < |us|
      ensures Units(data, littleEndian)[i] == us[i]
    {
      BytesAt(us, littleEndian, i);
      ReadBytes(us[i], data[2 * i..2 * i + 2], littleEndian);
      assert data[2 * i] == data[2 * i..2 * i + 2][0] && data[2 * i + 1] == data[2 * i..2 * i + 2][1];
    }
  }

  /** The next character from unit `k` on is `v`, of `width` units. */
  ghost predicate NextIs(us: seq<Unit>, k: nat, v: Scalar, width: nat) {
    && k + width <= |us|
    && forall x, y :: x == us[k..] && y == us[k + width..] ==> Scalars(x) == [v] + Scalars(y)
  }

  /** The next character, at unit `k`, and how many units it takes. */
  method NextScalar(data: seq<Byte>, k: nat, littleEndian: bool) returns (v: Scalar, width: nat)
    requires 2 * k + 1 < |data|
    ensures 1 <= width <= 2 && 2 * (k + width) <= |data|
    ensures NextIs(Units(data, littleEndian), k, v, width)
  {
    ghost var rest := Units(data, littleEndian)[k..];
    var u := Read16(data, 2 * k, littleEndian);
    assert rest[0] == u;
    v, width := 0xFFFD, 1;
    if High(u) {
      if 2 * k + 3 < |data| {
        var lo := Read16(data, 2 * k + 2, littleEndian);
        assert rest[1] == Read16(data, 2 * (k + 1), littleEndian);
        if Low(lo) {
          v, width := Pair(u, lo), 2;
        }
      }
    } else if !Low(u) {
      v := u;
    }
    assert rest[width..] == Units(data, littleEndian)[k + width..];
  }

  /** The output is well-formed UTF-8 of at most cap + 3 bytes that never splits a character: it
      encodes a prefix of the characters, all of them unless it is cut, and it is cut only once it
      has reached the cap. */
  method Utf16ToUtf8(data: seq<Byte>, littleEndian: bool, cap: nat) returns (out: seq<Byte>, truncated: bool)
    ensures var vs := Scalars(Units(data, littleEndian));
      && out == EncodeAll(Kept(vs, cap, 0)) && (truncated <==> Kept(vs, cap, 0) != vs)
    ensures WellFormed(out) && |out| <= cap + 3
    ensures truncated ==> |out| >= cap
    ensures !truncated ==> EncodeAll16(Decode(out)) == Repaired(Units(data, littleEndian))
  {
    ScalarsRepair(Units(data, littleEndian));
    out, truncated := AppendScalars(data, littleEndian, cap);
    ghost var vs := Scalars(Units(data, littleEndian));
    KeptBounds(vs, cap, 0);
    DecodeEncode(Kept(vs, cap, 0));
  }

  /** So much is out and so much is left, in a conversion that ends with the kept characters. */
  ghost predicate Progress(vs: seq<Scalar>, out: seq<Byte>, pending: seq<Scalar>, cap: nat) {
    exists done :: out == EncodeAll(done) && vs == done + pending
      && Kept(vs, cap, 0) == done + Kept(pending, cap, |out|)
  }

  lemma {:induction false} ProgressStep(vs: seq<Scalar>, out: seq<Byte>, v: Scalar, rest: seq<Scalar>, cap: nat)
    requires Progress(vs, out, [v] + rest, cap) && |out| < cap
    ensures Progress(vs, out + Encode(v), rest, cap)
  {
    var done :| out == EncodeAll(done) && vs == done + ([v] + rest)
      && Kept(vs, cap, 0) == done + Kept([v] + rest, cap, |out|);
    Advance(done, v, rest, cap);
    EncodeAllSnoc(done, v);
    Regroup(done, v, rest);
  }

  lemma {:induction false} Advance(done: seq<Scalar>, v: Scalar, rest: seq<Scalar>, cap: nat)
    requires |EncodeAll(done)| < cap
    ensures done + Kept([v] + rest, cap, |EncodeAll(done)|)
      == (done + [v]) + Kept(rest, cap, |EncodeAll(done) + Encode(v)|)
  {
  }

  lemma {:induction false} Regroup(a: seq<Scalar>, v: Scalar, b: seq<Scalar>)
    ensures a + ([v] + b) == (a + [v]) + b
  {
  }

  lemma {:induction false} ProgressEnd(vs: seq<Scalar>, out: seq<Byte>, pending: seq<Scalar>, cap: nat)
    requires Progress(vs, out, pending, cap) && (pending == [] || |out| >= cap)
    ensures out == EncodeAll(Kept(vs, cap, 0)) && (Kept(vs, cap, 0) != vs <==> pending != [])
  {
    var done :| out == EncodeAll(done) && vs == done + pending && Kept(vs, cap, 0) == done + Kept(pending, cap, |out|);
    assert Kept(pending, cap, |out|) == [];
    assert Kept(vs, cap, 0) == done;
  }

  /** The conversion loop. */
  method AppendScalars(data: seq<Byte>, littleEndian: bool, cap: nat) returns (out: seq<Byte>, truncated: bool)
    ensures var vs := Scalars(Units(data, littleEndian));
      && out == EncodeAll(Kept(vs, cap, 0)) && (truncated <==> Kept(vs, cap, 0) != vs)
  {
    ghost var us := Units(data, littleEndian);
    out := [];
    var k := 0;
    Start(us, cap);
    while 2 * k + 1 < |data|
      invariant 2 * k <= |data|
      invariant At(us, k, out, cap)
    {
      var v, width := NextScalar(data, k, littleEndian);
      if |out| >= cap {
        Finish(us, k, out, cap);
        return out, true;
      }
      StepOn(us, k, v, width, out, cap);
      out := out + Encode(v);
      k := k + width;
    }
    Finish(us, k, out, cap);
    return out, false;
  }

  /** The characters of the first `k` units are done. */
  ghost predicate At(us: seq<Unit>, k: nat, out: seq<Byte>, cap: nat) {
    k <= |us| && forall x :: x == us[k..] ==> Progress(Scalars(us), out, Scalars(x), cap)
  }

  lemma {:induction false} StepOn(us: seq<Unit>, k: nat, v: Scalar, width: nat, out: seq<Byte>, cap: nat)
    requires At(us, k, out, cap) && NextIs(us, k, v, width) && |out| < cap
    ensures At(us, k + width, out + Encode(v), cap)
  {
    var x, y := us[k..], us[k + width..];
    assert Scalars(x) == [v] + Scalars(y) && Progress(Scalars(us), out, Scalars(x), cap);
    ProgressStep(Scalars(us), out, v, Scalars(y), cap);
  }

  lemma {:induction false} Start(us: seq<Unit>, cap: nat)
    ensures At(us, 0, [], cap)
  {
    var vs := Scalars(us);
    assert us[0..] == us && EncodeAll([]) == [] && vs == [] + vs;
    assert Kept(vs, cap, 0) == [] + Kept(vs, cap, 0);
  }

  lemma {:induction false} Finish(us: seq<Unit>, k: nat, out: seq<Byte>, cap: nat)
    requires At(us, k, out, cap) && (k == |us| || |out| >= cap)
    ensures var vs := Scalars(us);
      && out == EncodeAll(Kept(vs, cap, 0)) && (Kept(vs, cap, 0) != vs <==> k < |us|)
  {
    assert us[k..] == [] <==> k == |us|;
    ProgressEnd(Scalars(us), out, Scalars(us[k..]), cap);
  }

  lemma {:induction false} EncodeAllSnoc(vs: seq<Scalar>, v: Scalar)
    ensures EncodeAll(vs + [v]) == EncodeAll(vs) + Encode(v)
  {
  }

  /** Any text encoded as UTF-16 in either byte order and short enough for the cap comes out as
      its UTF-8 encoding. */
  method ConvertText(vs: seq<Scalar>, data: seq<Byte>, littleEndian: bool, cap: nat)
    returns (out: seq<Byte>, truncated: bool)
    requires data == Bytes16(EncodeAll16(vs), littleEndian) && |EncodeAll(vs)| <= cap
    ensures out == EncodeAll(vs) && !truncated
  {
    EncodeScalars(vs);
    UnitsOfBytes(EncodeAll16(vs), littleEndian);
    out, truncated := Utf16ToUtf8(data, littleEndian, cap);
    KeptAll(vs, cap);
  }

  lemma {:induction false} KeptAll(vs: seq<Scalar>, cap: nat)
    requires |EncodeAll(vs)| <= cap
    ensures Kept(vs, cap, 0) == vs
  {
    var kept := Kept(vs, cap, 0);
    KeptBounds(vs, cap, 0);
    EncodeLonger(kept, vs[|kept|..]);
    assert kept + vs[|kept|..] == vs;
  }

  lemma {:induction false} EncodeLonger(us: seq<Scalar>, vs: seq<Scalar>)
    ensures vs == [] || |EncodeAll(us + vs)| > |EncodeAll(us)|
  {
    EncodeAllSplit(us, vs);
    assert vs != [] ==> |Encode(vs[|vs| - 1])| > 0;
  }

  // ---- Latin-1 ----

  /** A Latin-1 byte is its own code point. */
  function Latin1(data: seq<Byte>): (vs: seq<Scalar>)
    ensures |vs| == |data| && forall i :: 0 <= i < |data| ==> vs[i] == data[i]
  {
    seq(|data|, i requires 0 <= i < |data| => data[i] as Scalar)
  }

  /** The output is well-formed UTF-8 and decodes to a prefix of the input bytes, the whole of it
      unless truncation is reported. The size is tested after a character is appended, so the
      bound cap + 1 fails exactly for a cap of zero and a first byte above 0x7F. */
  method Latin1ToUtf8(data: seq<Byte>, cap: nat) returns (out: seq<Byte>, truncated: bool, ghost kept: nat)
    ensures kept <= |data| && out == EncodeAll(Latin1(data)[..kept])
    ensures WellFormed(out) && Decode(out) == Latin1(data)[..kept]
    ensures !truncated ==> kept == |data|
    ensures truncated <==> data != [] && |out| >= cap
    ensures |out| <= cap + 1 <==> !(cap == 0 && data != [] && data[0] >= 0x80)
  {
    ghost var vs := Latin1(data);
    out, truncated := [], false;
    var i := 0;
    while i < |data| && !truncated
      invariant i <= |data|
      invariant out == EncodeAll(vs[..i])
      invariant truncated <==> i > 0 && |out| >= cap
      invariant cap > 0 ==> |out| <= cap + 1
      invariant cap == 0 ==> i <= 1
      invariant i == 1 ==> |out| == if data[0] < 0x80 then 1 else 2
      decreases |data| - i
    {
      assert vs[..i + 1][..i] == vs[..i];
      out := out + Encode(data[i]);
      i := i + 1;
      if |out| >= cap {
        truncated := true;
      }
    }
    kept := i;
    DecodeEncode(vs[..i]);
  }
}
