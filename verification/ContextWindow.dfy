/** The window of runes around a match, in Go's view of a string: bytes that form no character
    count as one rune each and read as U+FFFD. */
module ContextWindow {
  import opened Utf8

  const DEFAULT_SIZE := 250
  const MAX_SIZE := 500

  type GoInt = x: int | -0x8000_0000_0000_0000 <= x < 0x8000_0000_0000_0000

  function Width(s: seq<Byte>): (n: nat)
    requires s != []
    ensures 1 <= n <= |s| && n <= 4
  {
    if CharLength(s) > 0 then CharLength(s) else 1
  }

  function Runes(s: seq<Byte>): seq<Scalar>
    decreases |s|
  {
    if s == [] then []
    else if CharLength(s) > 0 then
      PayloadIsScalar(s);
      [Payload(s, CharLength(s))] + Runes(s[CharLength(s)..])
    else [0xFFFD] + Runes(s[1..])
  }

  function RuneCount(s: seq<Byte>): nat
    decreases |s|
  {
    if s == [] then 0 else 1 + RuneCount(s[Width(s)..])
  }

  /** The text with each byte that begins no character replaced by the bytes of U+FFFD. */
  function Repaired(s: seq<Byte>): seq<Byte>
    decreases |s|
  {
    if s == [] then []
    else if CharLength(s) > 0 then s[..CharLength(s)] + Repaired(s[CharLength(s)..])
    else [0xEF, 0xBF, 0xBD] + Repaired(s[1..])
  }

  lemma {:induction false} FirstRune(s: seq<Byte>) returns (v: Scalar)
    requires s != []
    ensures Runes(s) == [v] + Runes(s[Width(s)..])
    ensures Encode(v) == if CharLength(s) > 0 then s[..CharLength(s)] else [0xEF, 0xBF, 0xBD]
  {
    if CharLength(s) > 0 {
      PayloadIsScalar(s);
      v := Payload(s, CharLength(s));
    } else {
      v := 0xFFFD;
      assert 0xFFFD / 0x1000 == 0xF && 0xFFFD / 0x40 % 0x40 == 0x3F && 0xFFFD % 0x40 == 0x3D;
    }
  }

  /** The runes of any bytes encode the repaired text. */
  lemma {:induction false} RunesRepair(s: seq<Byte>)
    ensures EncodeAll(Runes(s)) == Repaired(s)
    decreases |s|
  {
    if s != [] {
      var rest := s[Width(s)..];
      var v := FirstRune(s);
      RunesRepair(rest);
      EncodeAllCons(v, Runes(rest));
      RepairedOne(s, Encode(v), EncodeAll(Runes(rest)));
    }
  }

  lemma {:induction false} RepairedOne(s: seq<Byte>, first: seq<Byte>, rest: seq<Byte>)
    requires s != [] && rest == Repaired(s[Width(s)..])
    requires first == if CharLength(s) > 0 then s[..CharLength(s)] else [0xEF, 0xBF, 0xBD]
    ensures first + rest == Repaired(s)
  {
  }

  datatype Extract = Window(text: seq<Byte>) | SliceOutOfRange

  function EffectiveSize(contextSize: GoInt): nat {
    if contextSize <= 0 then DEFAULT_SIZE else contextSize
  }

  /** The end of the match, cut at the end of the text; the 64-bit sum may wrap. */
  function MatchEnd(text: seq<Byte>, offset: GoInt, length: GoInt): int {
    var sum := offset + length;
    var end := if sum >= 0x8000_0000_0000_0000 then sum - 0x1_0000_0000_0000_0000 else sum;
    if end > |text| then |text| else end
  }

  function ExtractMatchLocalContext(text: seq<Byte>, offset: GoInt, length: GoInt, contextSize: GoInt): Extract {
    if contextSize > MAX_SIZE || offset < 0 || offset > |text| || length < 0 then Window([])
    else
      var end := MatchEnd(text, offset, length);
      if end < offset then Window([])
      else
        Slice(Runes(text), RuneCount(text[..offset]), RuneCount(text[..end]), EffectiveSize(contextSize))
  }

  /** The runes around positions `start` to `stop`, `size` more in all. */
  function Slice(runes: seq<Scalar>, start: nat, stop: nat, size: nat): Extract {
    var before := size / 2;
    var winStart := if start - before < 0 then 0 else start - before;
    var winEnd := if stop + (size - before) > |runes| then |runes| else stop + (size - before);
    if winStart <= winEnd then Window(EncodeAll(runes[winStart..winEnd])) else SliceOutOfRange
  }

  // ---- The slice bounds ----

  /** Whether a character stands at the front depends on its own bytes alone. */
  lemma {:induction false} CharLengthPrefix(s: seq<Byte>, o: nat)
    requires o <= |s|
    ensures CharLength(s[..o]) == if CharLength(s) <= o then CharLength(s) else 0
  {
  }

  lemma {:induction false} RunesCounted(s: seq<Byte>)
    ensures |Runes(s)| == RuneCount(s) <= |s|
    decreases |s|
  {
    if s != [] {
      RunesCounted(s[Width(s)..]);
    }
  }

  lemma {:induction false} WidthOfPrefix(s: seq<Byte>, o: nat)
    requires s != [] && Width(s) <= o <= |s|
    ensures Width(s[..o]) == Width(s)
  {
  }

  /** Cutting a string inside a character splits it into at most three runes. */
  lemma {:induction false} CutAddsAtMostTwo(s: seq<Byte>, o: nat)
    requires o <= |s|
    ensures RuneCount(s[..o]) <= RuneCount(s) + 2
    decreases |s|
  {
    if o > 0 {
      var w := Width(s);
      if o < w {
        RunesCounted(s[..o]);
      } else {
        WidthOfPrefix(s, o);
        CutAddsAtMostTwo(s[w..], o - w);
        assert s[..o][w..] == s[w..][..o - w];
      }
    }
  }

  /** With the default size or a size of four or more, no text, offset and length make the slice
      bounds cross, not even an offset inside a character of a malformed text. */
  lemma {:induction false} NeverOutOfRange(text: seq<Byte>, offset: GoInt, length: GoInt, contextSize: GoInt)
    requires contextSize <= 0 || contextSize >= 4
    ensures ExtractMatchLocalContext(text, offset, length, contextSize).Window?
  {
    var end := MatchEnd(text, offset, length);
    if 0 <= offset <= |text| && offset <= end {
      CutAddsAtMostTwo(text, offset);
      CutAddsAtMostTwo(text[..end], offset);
      assert text[..end][..offset] == text[..offset];
      RunesCounted(text);
    }
  }

  /** For each smaller size, a match starting inside a four-byte character makes them cross, so
      the sizes of the lemma above are exactly the safe ones. */
  lemma {:induction false} SmallSizesFail(contextSize: GoInt)
    requires 1 <= contextSize <= 3
    ensures ExtractMatchLocalContext([0xF0, 0x9F, 0x98, 0x80], 3, 1, contextSize).SliceOutOfRange?
  {
    var s: seq<Byte> := [0xF0, 0x9F, 0x98, 0x80];
    assert CharLength(s) == 4 && s[4..] == [];
    RunesCounted(s);
    assert s[..4] == s;
    var cut := s[..3];
    assert CharLength(cut) == 0 && CharLength(cut[1..]) == 0 && CharLength(cut[1..][1..]) == 0;
    assert RuneCount(cut[1..][1..]) == 1;
    assert RuneCount(cut) == 3;
  }

  // ---- The window of a valid text ----

  lemma {:induction false} RunesDecode(s: seq<Byte>)
    requires WellFormed(s)
    ensures Runes(s) == Decode(s)
    decreases |s|
  {
    if s != [] {
      RunesDecode(s[CharLength(s)..]);
    }
  }

  lemma {:induction false} PayloadOfPrefix(s: seq<Byte>, o: nat, n: nat)
    requires 1 <= n <= o <= |s|
    ensures Payload(s[..o], n) == Payload(s, n)
    decreases n
  {
    if n > 1 {
      PayloadOfPrefix(s, o, n - 1);
    }
  }

  /** A well-formed prefix of a well-formed text is a whole number of characters. */
  lemma {:induction false} DecodeSplit(text: seq<Byte>, o: nat)
    requires WellFormed(text) && o <= |text| && WellFormed(text[..o])
    ensures Decode(text[..o]) <= Decode(text) && RuneCount(text[..o]) == |Decode(text[..o])|
    decreases |text|
  {
    RunesCounted(text[..o]);
    RunesDecode(text[..o]);
    if o > 0 {
      CharLengthPrefix(text, o);
      var n := CharLength(text);
      assert text[..o][n..] == text[n..][..o - n];
      DecodeSplit(text[n..], o - n);
      PayloadOfPrefix(text, o, n);
      PayloadIsScalar(text);
      var v: Scalar := Payload(text, n);
      assert Decode(text) == [v] + Decode(text[n..]);
      assert Decode(text[..o]) == [v] + Decode(text[n..][..o - n]);
    }
  }

  /** A boundary of the text is a boundary between its runes. */
  lemma {:induction false} BoundaryAt(text: seq<Byte>, o: nat)
    requires WellFormed(text) && o <= |text| && WellFormed(text[..o])
    ensures var k := RuneCount(text[..o]);
      k <= |Decode(text)| && EncodeAll(Decode(text)[..k]) == text[..o]
  {
    DecodeSplit(text, o);
    EncodeDecode(text[..o]);
    assert Decode(text)[..|Decode(text[..o])|] == Decode(text[..o]);
  }

  function Least(a: int, b: int): int {
    if a < b then a else b
  }

  /** A valid text of this many runes. */
  ghost predicate ValidText(text: seq<Byte>, n: nat) {
    forall x :: x == text ==> WellFormed(x) && RuneCount(x) == n
  }

  /** A match from byte `from` to byte `to` of a valid text of `n` runes, on character boundaries:
      `start` runes are before it and `stop` before its end. */
  ghost predicate ValidMatch(text: seq<Byte>, from: nat, to: nat, start: nat, stop: nat, n: nat) {
    && from <= to <= |text| && ValidText(text, n)
    && ValidText(text[..from], start) && ValidText(text[..to], stop)
  }

  /** These are the runes of the text, so many of them before each end of the match. */
  ghost predicate RunesAre(text: seq<Byte>, vs: seq<Scalar>, from: nat, to: nat, start: nat, stop: nat) {
    && from <= to <= |text| && start <= |vs| && stop <= |vs|
    && (forall x :: x == text ==> Runes(x) == vs)
    && (forall x :: x == text[..from] ==> RuneCount(x) == start)
    && (forall x :: x == text[..to] ==> RuneCount(x) == stop)
    && (forall x :: x == vs ==> EncodeAll(x) == text)
    && (forall x :: x == vs[..start] ==> |EncodeAll(x)| == from)
    && (forall x :: x == vs[..stop] ==> |EncodeAll(x)| == to)
  }

  lemma {:induction false} MatchRunes(text: seq<Byte>, from: nat, to: nat, start: nat, stop: nat, n: nat)
    returns (vs: seq<Scalar>)
    requires ValidMatch(text, from, to, start, stop, n)
    ensures RunesAre(text, vs, from, to, start, stop) && |vs| == n
  {
    vs := TextRunes(text, n);
    RuneBoundary(text, vs, from, start);
    RuneBoundary(text, vs, to, stop);
  }

  /** The runes of a valid text encode it. */
  lemma {:induction false} TextRunes(text: seq<Byte>, n: nat) returns (vs: seq<Scalar>)
    requires ValidText(text, n)
    ensures (forall x :: x == text ==> Runes(x) == vs) && (forall x :: x == vs ==> EncodeAll(x) == text) && |vs| == n
  {
    assert WellFormed(text) && RuneCount(text) == n;
    vs := Runes(text);
    RunesDecode(text);
    RunesCounted(text);
    EncodeDecode(text);
  }

  lemma {:induction false} RuneBoundary(text: seq<Byte>, vs: seq<Scalar>, o: nat, k: nat)
    requires o <= |text| && ValidText(text[..o], k)
    requires (forall x :: x == text ==> Runes(x) == vs) && (forall x :: x == vs ==> EncodeAll(x) == text)
    ensures k <= |vs| && (forall x :: x == text[..o] ==> RuneCount(x) == k)
    ensures forall x :: x == vs[..k] ==> |EncodeAll(x)| == o
  {
    var front := text[..o];
    assert WellFormed(front) && RuneCount(front) == k && Runes(text) == vs && EncodeAll(vs) == text;
    DecodeEncode(vs);
    BoundaryAt(text, o);
  }

  /** For a valid text and a match on character boundaries, any accepted size gives a valid
      substring that contains the match and half that many runes before it and the other half after
      it, or all there are. */
  lemma {:induction false} WindowContainsMatch(text: seq<Byte>, offset: GoInt, length: GoInt, contextSize: GoInt,
                                               start: nat, stop: nat, n: nat) returns (r: seq<Byte>)
    requires contextSize <= 500 && 0 <= offset && 0 <= length && offset + length < 0x8000_0000_0000_0000
    requires ValidMatch(text, offset, offset + length, start, stop, n)
    ensures ExtractMatchLocalContext(text, offset, length, contextSize) == Window(r)
    ensures Around(text, r, offset, offset + length)
    ensures var size := if contextSize <= 0 then 250 else contextSize;
      RuneCount(r) == stop - start + Least(start, size / 2) + Least(n - stop, size - size / 2)
  {
    var vs := MatchRunes(text, offset, offset + length, start, stop, n);
    r := MatchWindow(text, vs, offset, offset + length, start, stop, EffectiveSize(contextSize));
    ExtractIsSlice(text, offset, length, contextSize, vs, start, stop);
  }

  lemma {:induction false} MatchWindow(text: seq<Byte>, vs: seq<Scalar>, from: nat, to: nat, start: nat, stop: nat,
                                       size: nat)
    returns (r: seq<Byte>)
    requires RunesAre(text, vs, from, to, start, stop)
    ensures Slice(vs, start, stop, size) == Window(r) && Around(text, r, from, to)
    ensures RuneCount(r) == stop - start + Least(start, size / 2) + Least(|vs| - stop, size - size / 2)
  {
    assert EncodeAll(vs) == text && |EncodeAll(vs[..start])| == from && |EncodeAll(vs[..stop])| == to;
    SliceAround(text, vs, start, stop, size);
    r := Slice(vs, start, stop, size).text;
  }

  /** How far the runes on one side fall short of those asked for. */
  function Missing(have: int, want: int): nat {
    if have < want then want - have else 0
  }

  /** Arguments that are answered with an empty text. */
  predicate Rejected(text: seq<Byte>, offset: GoInt, length: GoInt, contextSize: GoInt) {
    contextSize > 500 || offset < 0 || offset > |text| || length < 0 || MatchEnd(text, offset, length) < offset
  }

  /** What a text of `n` runes lacks around the runes from `start` to `stop`. */
  function Lack(start: int, stop: int, n: int, size: nat): nat {
    Missing(start, size / 2) + Missing(n - stop, size - size / 2)
  }

  lemma {:induction false} SliceExact(vs: seq<Scalar>, start: nat, stop: nat, size: nat)
    ensures var r, runes := Slice(vs, start, stop, size), stop - start + size - Lack(start, stop, |vs|, size);
      && (r.Window? <==> runes >= 0)
      && (r.Window? ==> WellFormed(r.text) && RuneCount(r.text) == runes)
  {
    var i := if start - size / 2 < 0 then 0 else start - size / 2;
    var j := if stop + (size - size / 2) > |vs| then |vs| else stop + (size - size / 2);
    if i <= j {
      CountEncoded(vs[i..j]);
    }
  }

  /** On any bytes, offset, length and size: what comes back is valid UTF-8, and its length in runes
      is that of the match and the size asked for, less what the text lacks around the match. The
      slice bounds cross if and only if that is negative. */
  lemma {:induction false} ExtractExact(text: seq<Byte>, offset: GoInt, length: GoInt, contextSize: GoInt)
    requires !Rejected(text, offset, length, contextSize)
    ensures var r := ExtractMatchLocalContext(text, offset, length, contextSize);
      var size := if contextSize <= 0 then 250 else contextSize;
      var start, stop := RuneCount(text[..offset]), RuneCount(text[..MatchEnd(text, offset, length)]);
      var runes := stop - start + size - Lack(start, stop, RuneCount(text), size);
      && (r.Window? <==> runes >= 0)
      && (r.Window? ==> WellFormed(r.text) && RuneCount(r.text) == runes)
  {
    RunesCounted(text);
    SliceExact(Runes(text), RuneCount(text[..offset]), RuneCount(text[..MatchEnd(text, offset, length)]),
               EffectiveSize(contextSize));
  }

  /** On any arguments a window of at most the size asked for comes back if and only if they are
      rejected, or the match is no longer than what the text lacks around it and not so much shorter
      that the slice bounds cross. */
  lemma {:induction false} DocumentedBoundIff(text: seq<Byte>, offset: GoInt, length: GoInt, contextSize: GoInt)
    ensures var r := ExtractMatchLocalContext(text, offset, length, contextSize);
      var size := if contextSize <= 0 then 250 else contextSize;
      r.Window? && RuneCount(r.text) <= size <==>
        || Rejected(text, offset, length, contextSize)
        || var start, stop := RuneCount(text[..offset]), RuneCount(text[..MatchEnd(text, offset, length)]);
           var lack := Lack(start, stop, RuneCount(text), size);
           lack - size <= stop - start <= lack
  {
    if !Rejected(text, offset, length, contextSize) {
      ExtractExact(text, offset, length, contextSize);
    }
  }

  /** A text on which it spans more: one rune asked for around the first of two, and two returned. */
  lemma {:induction false} DocumentedBoundFails() returns (r: seq<Byte>)
    ensures ExtractMatchLocalContext([0x61, 0x62], 0, 1, 1) == Window(r) && RuneCount(r) == 2
  {
    var s: seq<Byte> := [0x61, 0x62];
    TwoLetters(s);
    r := WindowContainsMatch(s, 0, 1, 1, 0, 1, 2);
  }

  lemma {:induction false} TwoLetters(s: seq<Byte>)
    requires |s| == 2 && s[0] < 0x80 && s[1] < 0x80
    ensures ValidMatch(s, 0, 1, 0, 1, 2)
  {
    LetterAhead([], 0, s[1]);
    LetterAhead([s[1]], 1, s[0]);
    LetterAhead([], 0, s[0]);
    assert s[..0] == [] && s[..1] == [s[0]] + [] && [s[1]] + [] == [s[1]] && s == [s[0]] + [s[1]];
  }

  lemma {:induction false} LetterAhead(s: seq<Byte>, n: nat, c: Byte)
    requires c < 0x80 && ((s == [] && n == 0) || ValidText(s, n))
    ensures ValidText(s, n) && ValidText([c] + s, n + 1)
  {
    assert s == [] ==> WellFormed(s) && RuneCount(s) == 0;
    assert WellFormed(s) && RuneCount(s) == n;
    var t := [c] + s;
    assert CharLength(t) == 1 && t[1..] == s;
    assert WellFormed(t) && RuneCount(t) == n + 1;
  }

  lemma {:induction false} ExtractIsSlice(text: seq<Byte>, offset: GoInt, length: GoInt, contextSize: GoInt,
                                          vs: seq<Scalar>, start: nat, stop: nat)
    requires contextSize <= MAX_SIZE && 0 <= offset && 0 <= length && offset + length <= |text|
    requires offset + length < 0x8000_0000_0000_0000 && RunesAre(text, vs, offset, offset + length, start, stop)
    ensures ExtractMatchLocalContext(text, offset, length, contextSize)
      == Slice(vs, start, stop, EffectiveSize(contextSize))
  {
    assert Runes(text) == vs && RuneCount(text[..offset]) == start && RuneCount(text[..offset + length]) == stop;
  }

  /** A well-formed substring that spans the bytes from `from` to `to`. */
  ghost predicate Around(text: seq<Byte>, r: seq<Byte>, from: nat, to: nat) {
    WellFormed(r) && exists a, b :: 0 <= a <= from && to <= b <= |text| && a <= b && r == text[a..b]
  }

  lemma {:induction false} SliceAround(text: seq<Byte>, vs: seq<Scalar>, start: nat, stop: nat, size: nat)
    requires text == EncodeAll(vs) && start <= |vs| && stop <= |vs|
    requires |EncodeAll(vs[..start])| <= |EncodeAll(vs[..stop])|
    ensures var r := Slice(vs, start, stop, size);
      && r.Window? && Around(text, r.text, |EncodeAll(vs[..start])|, |EncodeAll(vs[..stop])|)
      && RuneCount(r.text) == stop - start + Least(start, size / 2) + Least(|vs| - stop, size - size / 2)
  {
    if start > stop {
      EncodePrefixShorter(vs, stop, start);
    }
    var i, j := WindowBounds(vs, start, stop, size);
    WindowAround(text, vs, i, start, stop, j);
  }

  /** The bounds of the slice as they come out of the clamping. */
  lemma {:induction false} WindowBounds(vs: seq<Scalar>, start: nat, stop: nat, size: nat) returns (i: nat, j: nat)
    requires start <= stop <= |vs|
    ensures i <= start && stop <= j <= |vs| && Slice(vs, start, stop, size) == Window(EncodeAll(vs[i..j]))
    ensures j - i == stop - start + Least(start, size / 2) + Least(|vs| - stop, size - size / 2)
  {
    i := if start - size / 2 < 0 then 0 else start - size / 2;
    j := if stop + (size - size / 2) > |vs| then |vs| else stop + (size - size / 2);
  }

  lemma {:induction false} WindowAround(text: seq<Byte>, vs: seq<Scalar>, i: nat, start: nat, stop: nat, j: nat)
    requires text == EncodeAll(vs) && i <= start <= stop <= j <= |vs|
    ensures Around(text, EncodeAll(vs[i..j]), |EncodeAll(vs[..start])|, |EncodeAll(vs[..stop])|)
    ensures RuneCount(EncodeAll(vs[i..j])) == j - i
  {
    WindowBytes(text, vs, i, j);
    EncodePrefixShorter(vs, i, start);
    EncodePrefixShorter(vs, stop, j);
    var a, b := |EncodeAll(vs[..i])|, |EncodeAll(vs[..j])|;
    assert EncodeAll(vs[i..j]) == text[a..b];
  }

  lemma {:induction false} EncodePrefixShorter(vs: seq<Scalar>, i: nat, j: nat)
    requires i <= j <= |vs|
    ensures |EncodeAll(vs[..i])| <= |EncodeAll(vs[..j])| && (i < j ==> |EncodeAll(vs[..i])| < |EncodeAll(vs[..j])|)
    decreases j - i
  {
    if i < j {
      EncodePrefixShorter(vs, i, j - 1);
      assert vs[..j][..j - 1] == vs[..j - 1];
    }
  }

  /** The runes between two positions are the bytes between their encodings. */
  lemma {:induction false} WindowBytes(text: seq<Byte>, vs: seq<Scalar>, i: nat, j: nat)
    requires text == EncodeAll(vs) && i <= j <= |vs|
    ensures var a, b := |EncodeAll(vs[..i])|, |EncodeAll(vs[..j])|;
      a <= b <= |text| && EncodeAll(vs[i..j]) == text[a..b]
    ensures WellFormed(EncodeAll(vs[i..j])) && RuneCount(EncodeAll(vs[i..j])) == j - i
  {
    CutAt(vs[..j], i);
    assert vs[..j][..i] == vs[..i] && vs[..j][i..] == vs[i..j];
    CutAt(vs, j);
    Middle(EncodeAll(vs[..i]), EncodeAll(vs[i..j]), EncodeAll(vs[j..]));
    CountEncoded(vs[i..j]);
  }

  lemma {:induction false} CutAt(vs: seq<Scalar>, i: nat)
    requires i <= |vs|
    ensures EncodeAll(vs) == EncodeAll(vs[..i]) + EncodeAll(vs[i..])
  {
    EncodeAllSplit(vs[..i], vs[i..]);
    assert vs[..i] + vs[i..] == vs;
  }

  lemma {:induction false} Middle(a: seq<Byte>, b: seq<Byte>, c: seq<Byte>)
    ensures ((a + b) + c)[|a|..|a + b|] == b
  {
  }

  lemma {:induction false} CountEncoded(vs: seq<Scalar>)
    ensures WellFormed(EncodeAll(vs)) && RuneCount(EncodeAll(vs)) == |vs|
  {
    DecodeEncode(vs);
    RunesDecode(EncodeAll(vs));
    RunesCounted(EncodeAll(vs));
  }
}
