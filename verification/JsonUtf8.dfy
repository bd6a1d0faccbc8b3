/** When printed JSON is UTF-8, as section 8.1 of RFC 8259 demands: exactly when its strings are. */
module JsonUtf8 {
  import opened Utf8
  import opened Json

  ghost predicate Ascii7(t: seq<Byte>) {
    forall i :: 0 <= i < |t| ==> t[i] < 0x80
  }

  /** No character reaches across an ASCII byte. */
  lemma {:induction false} CharBeforeAscii(a: seq<Byte>, c: Byte, b: seq<Byte>)
    requires a != [] && c < 0x80
    ensures CharLength(a + [c] + b) == CharLength(a)
  {
  }

  lemma {:induction false} AsciiSplits(a: seq<Byte>, c: Byte, b: seq<Byte>)
    requires c < 0x80
    ensures WellFormed(a + [c] + b) <==> WellFormed(a) && WellFormed(b)
    decreases |a|
  {
    var s := a + [c] + b;
    if a == [] {
      assert s[0] == c && s[1..] == b;
    } else {
      CharBeforeAscii(a, c, b);
      var n := CharLength(a);
      if n > 0 {
        assert s[n..] == a[n..] + [c] + b;
        AsciiSplits(a[n..], c, b);
      }
    }
  }

  lemma {:induction false} AsciiAhead(t: seq<Byte>, b: seq<Byte>)
    requires Ascii7(t)
    ensures WellFormed(t + b) <==> WellFormed(b)
    decreases |t|
  {
    if t == [] {
      assert t + b == b;
    } else {
      assert t + b == [] + [t[0]] + (t[1..] + b);
      AsciiSplits([], t[0], t[1..] + b);
      AsciiAhead(t[1..], b);
    }
  }

  lemma {:induction false} AsciiWellFormed(t: seq<Byte>)
    requires Ascii7(t)
    ensures WellFormed(t)
  {
    AsciiAhead(t, []);
    assert t + [] == t;
  }

  // ---- Escaping ----

  lemma {:induction false} EscapeSplit(a: seq<Byte>, b: seq<Byte>)
    ensures Escape(a + b) == Escape(a) + Escape(b)
  {
    GluedSplit(EscapeByte, a, b);
    EscapeGlues(a);
    EscapeGlues(b);
    EscapeGlues(a + b);
  }

  ghost predicate HighBytes(t: seq<Byte>) {
    forall i :: 0 <= i < |t| ==> t[i] >= 0x80
  }

  /** Length of the bytes before the first ASCII byte. */
  function HighLength(s: seq<Byte>): (n: nat)
    ensures n <= |s| && HighBytes(s[..n]) && (n < |s| ==> s[n] < 0x80)
  {
    if s == [] || s[0] < 0x80 then 0
    else
      var n := 1 + HighLength(s[1..]);
      assert forall i :: 1 <= i < n ==> s[..n][i] == s[1..][..n - 1][i - 1];
      n
  }

  lemma {:induction false} EscapeHigh(t: seq<Byte>)
    requires HighBytes(t)
    ensures Escape(t) == t
  {
    EscapePlain(t);
  }

  lemma {:induction false} EscapeAscii(c: Byte)
    requires c < 0x80
    ensures Ascii7(EscapeByte(c)) && Escape([c]) == EscapeByte(c)
  {
    EscapeCons([c]);
    assert Escape([]) == [];
  }

  /** Around an ASCII byte both texts split, and an ASCII text splits like one byte. */
  lemma {:induction false} AsciiTextSplits(a: seq<Byte>, t: seq<Byte>, b: seq<Byte>)
    requires t != [] && Ascii7(t)
    ensures WellFormed(a + (t + b)) <==> WellFormed(a) && WellFormed(b)
  {
    var rest := t[1..];
    assert a + (t + b) == a + [t[0]] + (rest + b);
    AsciiSplits(a, t[0], rest + b);
    AsciiAhead(rest, b);
  }

  lemma {:induction false} EscapeAround(high: seq<Byte>, c: Byte, rest: seq<Byte>)
    requires HighBytes(high) && c < 0x80
    ensures Ascii7(EscapeByte(c)) && Escape(high + ([c] + rest)) == high + (EscapeByte(c) + Escape(rest))
  {
    EscapeHigh(high);
    EscapeSplit(high, [c] + rest);
    EscapeSplit([c], rest);
    EscapeAscii(c);
  }

  /** An ASCII byte splits a text and its escaped form alike. */
  lemma {:induction false} Utf8Around(high: seq<Byte>, c: Byte, rest: seq<Byte>)
    requires HighBytes(high) && c < 0x80
    ensures WellFormed(high + ([c] + rest)) <==> WellFormed(high) && WellFormed(rest)
    ensures WellFormed(Escape(high + ([c] + rest))) <==> WellFormed(high) && WellFormed(Escape(rest))
  {
    EscapeAround(high, c, rest);
    AsciiTextSplits(high, [c], rest);
    AsciiTextSplits(high, EscapeByte(c), Escape(rest));
  }

  /** Escaping neither makes nor breaks UTF-8. */
  lemma {:induction false} EscapeKeepsUtf8(s: seq<Byte>)
    ensures WellFormed(Escape(s)) <==> WellFormed(s)
    decreases |s|
  {
    var n := HighLength(s);
    var high := s[..n];
    EscapeHigh(high);
    if n == |s| {
      assert high == s;
    } else {
      var rest := s[n + 1..];
      assert s == high + ([s[n]] + rest);
      Utf8Around(high, s[n], rest);
      EscapeKeepsUtf8(rest);
    }
  }

  // ---- Values ----

  /** Every string in it, names included, is UTF-8. */
  ghost predicate Utf8In(v: Value)
    decreases v, 1
  {
    match v
    case Str(s) => WellFormed(s)
    case Arr(items) => Utf8Items(items)
    case Obj(members) => Utf8Members(members)
    case _ => true
  }

  ghost predicate Utf8Items(items: seq<Value>)
    decreases items, 0
  {
    items == [] || (Utf8In(items[0]) && Utf8Items(items[1..]))
  }

  ghost predicate Utf8Members(members: seq<Member>)
    decreases members, 0
  {
    members == [] || (WellFormed(members[0].name) && Utf8In(members[0].value) && Utf8Members(members[1..]))
  }

  lemma {:induction false} Wrapped(open: Byte, s: seq<Byte>, close: Byte)
    requires open < 0x80 && close < 0x80
    ensures WellFormed([open] + s + [close]) <==> WellFormed(s)
  {
    AsciiSplits([open] + s, close, []);
    assert [open] + s + [close] + [] == [open] + s + [close];
    AsciiAhead([open], s);
  }

  lemma {:induction false} QuotedUtf8(s: seq<Byte>)
    ensures WellFormed(Quoted(s)) <==> WellFormed(s)
  {
    Wrapped(QUOTE, Escape(s), QUOTE);
    EscapeKeepsUtf8(s);
  }

  /** Printed JSON is UTF-8 if and only if every string in it is. */
  lemma {:induction false} PrintUtf8Iff(v: Value)
    requires StreamedIn(v)
    ensures WellFormed(Print(v)) <==> Utf8In(v)
    decreases v, 1
  {
    match v {
      case Str(s) => QuotedUtf8(s);
      case Num(t) => AsciiWellFormed(t);
      case Bool(_) => AsciiWellFormed(Print(v));
      case Null => AsciiWellFormed(NULL);
      case Arr(items) =>
        Wrapped(0x5B, PrintItems(items), 0x5D);
        ItemsUtf8Iff(items);
      case Obj(members) =>
        Wrapped(0x7B, PrintMembers(members), 0x7D);
        MembersUtf8Iff(members);
    }
  }

  lemma {:induction false} ItemsUtf8Iff(items: seq<Value>)
    requires StreamedItems(items)
    ensures WellFormed(PrintItems(items)) <==> Utf8Items(items)
    decreases items, 0
  {
    if items != [] {
      PrintUtf8Iff(items[0]);
      ItemsUtf8Iff(items[1..]);
      var first, more := Print(items[0]), PrintItems(items[1..]);
      if |items| == 1 {
        assert PrintItems(items) == first + [] == first && items[1..] == [];
      } else {
        AsciiTextSplits(first, [COMMA], more);
      }
    }
  }

  lemma {:induction false} MemberUtf8Iff(m: Member)
    requires StreamedIn(m.value)
    ensures WellFormed(PrintMember(m)) <==> WellFormed(m.name) && Utf8In(m.value)
    decreases m, 2
  {
    AsciiSplits(Quoted(m.name), COLON, Print(m.value));
    QuotedUtf8(m.name);
    PrintUtf8Iff(m.value);
  }

  lemma {:induction false} MembersUtf8Iff(members: seq<Member>)
    requires StreamedMembers(members)
    ensures WellFormed(PrintMembers(members)) <==> Utf8Members(members)
    decreases members, 0
  {
    if members != [] {
      MemberUtf8Iff(members[0]);
      MembersUtf8Iff(members[1..]);
      if |members| == 1 {
        SingleMember(members);
        assert members[1..] == [];
      } else {
        AsciiTextSplits(PrintMember(members[0]), [COMMA], PrintMembers(members[1..]));
      }
    }
  }
}
