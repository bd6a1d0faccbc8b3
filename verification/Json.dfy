/** Compact JSON text over bytes: printing, with the sender's string escaping, and parsing by
    RFC 8259. No white space is printed, so none is parsed. */
module Json {
  import opened PolicyTypes
  import opened Utf8
  import opened Transcode

  const QUOTE: Byte := 0x22
  const BACKSLASH: Byte := 0x5C
  const COMMA: Byte := 0x2C
  const COLON: Byte := 0x3A

  // ---- Escaping ----

  function HexDigit(n: nat): Byte
    requires n < 16
  {
    if n < 10 then 0x30 + n else 0x61 + n - 10
  }

  function EscapeByte(c: Byte): (r: seq<Byte>)
    ensures r != []
  {
    if c == QUOTE then [BACKSLASH, QUOTE]
    else if c == BACKSLASH then [BACKSLASH, BACKSLASH]
    else if c == 0x08 then [BACKSLASH, 0x62]
    else if c == 0x0C then [BACKSLASH, 0x66]
    else if c == 0x0A then [BACKSLASH, 0x6E]
    else if c == 0x0D then [BACKSLASH, 0x72]
    else if c == 0x09 then [BACKSLASH, 0x74]
    else if c < 0x20 then [BACKSLASH, 0x75, 0x30, 0x30, HexDigit(c / 16), HexDigit(c % 16)]
    else [c]
  }

  function Escape(s: seq<Byte>): seq<Byte> {
    if s == [] then [] else Escape(s[..|s| - 1]) + EscapeByte(s[|s| - 1])
  }

  method JsonEscape(s: seq<Byte>) returns (out: seq<Byte>)
    ensures out == Escape(s)
  {
    out := [];
    for i := 0 to |s|
      invariant out == Escape(s[..i])
    {
      assert s[..i + 1][..i] == s[..i];
      out := out + EscapeByte(s[i]);
    }
    assert s[..|s|] == s;
  }

  lemma {:induction false} EscapeCons(s: seq<Byte>)
    requires s != []
    ensures Escape(s) == EscapeByte(s[0]) + Escape(s[1..])
    decreases |s|
  {
    var n := |s| - 1;
    if n > 0 {
      EscapeCons(s[..n]);
      assert s[..n][1..] == s[1..][..n - 1];
    }
  }

  // ---- Strings after section 7 ----

  function HexValue(b: Byte): Option<nat> {
    if 0x30 <= b <= 0x39 then Some(b - 0x30)
    else if 0x61 <= b <= 0x66 then Some(b - 0x61 + 10)
    else if 0x41 <= b <= 0x46 then Some(b - 0x41 + 10)
    else None
  }

  /** The value of four hexadecimal digits. */
  function Hex4(s: seq<Byte>): (r: Option<Unit>)
    ensures r.Some? ==> |s| >= 4
  {
    if |s| < 4 || HexValue(s[0]).None? || HexValue(s[1]).None? || HexValue(s[2]).None? || HexValue(s[3]).None? then None
    else Some(HexValue(s[0]).value * 0x1000 + HexValue(s[1]).value * 0x100
              + HexValue(s[2]).value * 0x10 + HexValue(s[3]).value)
  }

  /** What one escape sequence, from its backslash on, stands for, and its length. */
  function Unescape(s: seq<Byte>): (r: Option<(seq<Byte>, nat)>)
    requires s != [] && s[0] == BACKSLASH
    ensures r.Some? ==> 2 <= r.value.1 <= |s|
  {
    if |s| < 2 then None
    else match s[1]
      case 0x22 => Some(([QUOTE], 2))
      case 0x5C => Some(([BACKSLASH], 2))
      case 0x2F => Some(([0x2F], 2))
      case 0x62 => Some(([0x08], 2))
      case 0x66 => Some(([0x0C], 2))
      case 0x6E => Some(([0x0A], 2))
      case 0x72 => Some(([0x0D], 2))
      case 0x74 => Some(([0x09], 2))
      case 0x75 =>
        var u := Hex4(s[2..]);
        if u.None? || Low(u.value) then None
        else if !High(u.value) then Some((Encode(u.value), 6))
        else if |s| < 12 || s[6] != BACKSLASH || s[7] != 0x75 then None
        else
          var l := Hex4(s[8..]);
          if l.Some? && Low(l.value) then Some((Encode(Pair(u.value, l.value)), 12)) else None
      case _ => None
  }

  /** The string up to its closing quote, and what follows the quote. */
  function ParseString(s: seq<Byte>): (r: Option<(seq<Byte>, seq<Byte>)>)
    ensures r.Some? ==> |r.value.1| < |s|
    decreases |s|
  {
    if s == [] || s[0] < 0x20 then None
    else if s[0] == QUOTE then Some(([], s[1..]))
    else if s[0] == BACKSLASH then
      var u := Unescape(s);
      if u.None? then None else Prepend(u.value.0, ParseString(s[u.value.1..]))
    else Prepend([s[0]], ParseString(s[1..]))
  }

  function Prepend(front: seq<Byte>, r: Option<(seq<Byte>, seq<Byte>)>): Option<(seq<Byte>, seq<Byte>)> {
    if r.None? then None else Some((front + r.value.0, r.value.1))
  }

  lemma {:induction false} ParseEscapedByte(c: Byte, rest: seq<Byte>)
    ensures ParseString(EscapeByte(c) + rest) == Prepend([c], ParseString(rest))
  {
  }

  lemma {:induction false} EscapedTail(s: seq<Byte>, rest: seq<Byte>)
    requires s != []
    ensures Escape(s) + [QUOTE] + rest == EscapeByte(s[0]) + (Escape(s[1..]) + [QUOTE] + rest)
  {
    EscapeCons(s);
  }

  /** Any byte string comes back from its escaped form, which ends at its own closing quote
      whatever follows. */
  lemma {:induction false} ParseEscaped(s: seq<Byte>, rest: seq<Byte>)
    ensures ParseString(Escape(s) + [QUOTE] + rest) == Some((s, rest))
    decreases |s|
  {
    if s == [] {
      assert Escape(s) + [QUOTE] + rest == [QUOTE] + rest;
    } else {
      ParseEscaped(s[1..], rest);
      EscapedTail(s, rest);
      ParsePrepended(s[0], s[1..], Escape(s[1..]) + [QUOTE] + rest, rest);
      assert s == [s[0]] + s[1..];
    }
  }

  lemma {:induction false} ParsePrepended(c: Byte, read: seq<Byte>, text: seq<Byte>, rest: seq<Byte>)
    requires ParseString(text) == Some((read, rest))
    ensures ParseString(EscapeByte(c) + text) == Some(([c] + read, rest))
  {
    ParseEscapedByte(c, text);
  }

  /** No control byte is left, and a quote only after a backslash. */
  lemma {:induction false} EscapedIsClean(s: seq<Byte>, i: nat)
    requires i < |Escape(s)|
    ensures Escape(s)[i] >= 0x20
    ensures Escape(s)[i] == QUOTE ==> i > 0 && Escape(s)[i - 1] == BACKSLASH
    decreases |s|
  {
    var n := |s| - 1;
    var before := Escape(s[..n]);
    if i < |before| {
      EscapedIsClean(s[..n], i);
    } else {
      assert Escape(s)[i] == EscapeByte(s[n])[i - |before|];
    }
  }

  ghost predicate Plain(s: seq<Byte>) {
    forall i :: 0 <= i < |s| ==> s[i] >= 0x20 && s[i] != QUOTE && s[i] != BACKSLASH
  }

  lemma {:induction false} EscapePlain(s: seq<Byte>)
    requires Plain(s)
    ensures Escape(s) == s
  {
    forall i | 0 <= i < |s|
      ensures EscapeByte(s[i]) == [s[i]]
    {
      PlainByte(s[i]);
    }
    EscapeGlues(s);
    GluedUnchanged(EscapeByte, s);
  }

  lemma {:induction false} EscapeGlues(s: seq<Byte>)
    ensures Escape(s) == Glued(EscapeByte, s)
  {
    if s != [] {
      EscapeGlues(s[..|s| - 1]);
    }
  }

  lemma {:induction false} PlainByte(b: Byte)
    requires b >= 0x20 && b != QUOTE && b != BACKSLASH
    ensures EscapeByte(b) == [b]
  {
  }

  // ---- Numbers after section 6 ----

  predicate Digit(b: Byte) { 0x30 <= b <= 0x39 }

  function DigitsLength(s: seq<Byte>): (n: nat)
    ensures n <= |s| && (forall i :: 0 <= i < n ==> Digit(s[i])) && (n < |s| ==> !Digit(s[n]))
  {
    if s == [] || !Digit(s[0]) then 0 else 1 + DigitsLength(s[1..])
  }

  /** An optional minus, an integer without leading zeros, then fraction and exponent. */
  predicate Number(t: seq<Byte>) {
    if t != [] && t[0] == 0x2D then Unsigned(t[1..]) else Unsigned(t)
  }

  predicate Unsigned(t: seq<Byte>) {
    var n := DigitsLength(t);
    n > 0 && (t[0] == 0x30 ==> n == 1) && Fraction(t[n..])
  }

  predicate Fraction(t: seq<Byte>) {
    if t != [] && t[0] == 0x2E then DigitsLength(t[1..]) > 0 && Exponent(t[1 + DigitsLength(t[1..])..]) else Exponent(t)
  }

  predicate Exponent(t: seq<Byte>) {
    t == [] || ((t[0] == 0x65 || t[0] == 0x45) && Power(t[1..]))
  }

  predicate Power(t: seq<Byte>) {
    var digits := if t != [] && (t[0] == 0x2B || t[0] == 0x2D) then t[1..] else t;
    digits != [] && DigitsLength(digits) == |digits|
  }

  /** Bytes of numbers and of the three literal names. */
  predicate TokenByte(b: Byte) {
    Digit(b) || 0x41 <= b <= 0x5A || 0x61 <= b <= 0x7A || b == 0x2B || b == 0x2D || b == 0x2E
  }

  ghost predicate TokenBytes(t: seq<Byte>) {
    forall i :: 0 <= i < |t| ==> TokenByte(t[i])
  }

  lemma {:induction false} FractionBytes(t: seq<Byte>)
    requires Fraction(t)
    ensures TokenBytes(t)
  {
  }

  lemma {:induction false} UnsignedBytes(t: seq<Byte>)
    requires Unsigned(t)
    ensures TokenBytes(t) && Digit(t[0])
  {
    var n := DigitsLength(t);
    FractionBytes(t[n..]);
    TokensJoin(t[..n], t[n..]);
    assert t == t[..n] + t[n..];
  }

  lemma {:induction false} TokensJoin(a: seq<Byte>, b: seq<Byte>)
    requires TokenBytes(a) && TokenBytes(b)
    ensures TokenBytes(a + b)
  {
  }

  /** A number is made of token bytes and is none of the literal names. */
  lemma {:induction false} NumberBytes(t: seq<Byte>)
    requires Number(t)
    ensures t != [] && TokenBytes(t) && (t[0] == 0x2D || Digit(t[0]))
  {
    if t[0] == 0x2D {
      UnsignedBytes(t[1..]);
      TokensJoin([t[0]], t[1..]);
      assert t == [t[0]] + t[1..];
    } else {
      UnsignedBytes(t);
    }
  }

  // ---- Values ----

  /** A number is kept as it is written. */
  datatype Value =
    | Str(s: seq<Byte>)
    | Num(token: seq<Byte>)
    | Bool(b: bool)
    | Null
    | Arr(items: seq<Value>)
    | Obj(members: seq<Member>)
  datatype Member = Member(name: seq<Byte>, value: Value)

  const TRUE: seq<Byte> := [0x74, 0x72, 0x75, 0x65]
  const FALSE: seq<Byte> := [0x66, 0x61, 0x6C, 0x73, 0x65]
  const NULL: seq<Byte> := [0x6E, 0x75, 0x6C, 0x6C]

  /** Every number in it is one by the grammar. */
  predicate Proper(v: Value)
    decreases v, 1
  {
    match v
    case Num(t) => Number(t)
    case Arr(items) => ProperItems(items)
    case Obj(members) => ProperMembers(members)
    case _ => true
  }

  predicate ProperItems(items: seq<Value>)
    decreases items, 0
  {
    items == [] || (Proper(items[0]) && ProperItems(items[1..]))
  }

  predicate ProperMembers(members: seq<Member>)
    decreases members, 0
  {
    members == [] || (Proper(members[0].value) && ProperMembers(members[1..]))
  }

  function Quoted(s: seq<Byte>): seq<Byte> {
    [QUOTE] + Escape(s) + [QUOTE]
  }

  function Print(v: Value): seq<Byte>
    decreases v, 1
  {
    match v
    case Str(s) => Quoted(s)
    case Num(t) => t
    case Bool(b) => if b then TRUE else FALSE
    case Null => NULL
    case Arr(items) => [0x5B] + PrintItems(items) + [0x5D]
    case Obj(members) => [0x7B] + PrintMembers(members) + [0x7D]
  }

  function PrintItems(items: seq<Value>): seq<Byte>
    decreases items, 0
  {
    if items == [] then []
    else Print(items[0]) + (if |items| == 1 then [] else [COMMA] + PrintItems(items[1..]))
  }

  function PrintMember(m: Member): seq<Byte>
    decreases m, 2
  {
    Quoted(m.name) + [COLON] + Print(m.value)
  }

  function PrintMembers(members: seq<Member>): seq<Byte>
    decreases members, 0
  {
    if members == [] then []
    else PrintMember(members[0]) + (if |members| == 1 then [] else [COMMA] + PrintMembers(members[1..]))
  }

  lemma {:induction false} TwoItems(a: Value, b: Value)
    ensures PrintItems([a, b]) == Print(a) + ([0x2C] + Print(b))
  {
    assert [a, b][1..] == [b] && PrintItems([b]) == Print(b) + [];
  }

  lemma {:induction false} TwoMembers(a: Member, b: Member)
    ensures PrintMembers([a, b]) == PrintMember(a) + ([0x2C] + PrintMember(b))
  {
    assert [a, b][1..] == [b] && PrintMembers([b]) == PrintMember(b) + [];
  }

  lemma {:induction false} OneLetter(letter: Byte, v: Value)
    requires 0x61 <= letter <= 0x7A
    ensures PrintMember(Member([letter], v)) == [0x22, letter, 0x22, 0x3A] + Print(v)
  {
    EscapePlain([letter]);
  }

  /** The text of one value byte by byte: {"a":true,"b":[null,false]}. */
  lemma {:induction false} SampleText()
    ensures Print(Obj([Member([0x61], Bool(true)), Member([0x62], Arr([Null, Bool(false)]))]))
      == [0x7B, 0x22, 0x61, 0x22, 0x3A, 0x74, 0x72, 0x75, 0x65, 0x2C, 0x22, 0x62, 0x22, 0x3A,
          0x5B, 0x6E, 0x75, 0x6C, 0x6C, 0x2C, 0x66, 0x61, 0x6C, 0x73, 0x65, 0x5D, 0x7D]
  {
    var list := Arr([Null, Bool(false)]);
    TwoItems(Null, Bool(false));
    assert Print(list) == [0x5B, 0x6E, 0x75, 0x6C, 0x6C, 0x2C, 0x66, 0x61, 0x6C, 0x73, 0x65, 0x5D];
    SampleMembers(list, Print(list));
  }

  lemma {:induction false} SampleMembers(list: Value, text: seq<Byte>)
    requires Print(list) == text
    ensures Print(Obj([Member([0x61], Bool(true)), Member([0x62], list)]))
      == [0x7B, 0x22, 0x61, 0x22, 0x3A, 0x74, 0x72, 0x75, 0x65, 0x2C, 0x22, 0x62, 0x22, 0x3A] + text + [0x7D]
  {
    var a, b := Member([0x61], Bool(true)), Member([0x62], list);
    OneLetter(0x61, Bool(true));
    OneLetter(0x62, list);
    TwoMembers(a, b);
    assert PrintMember(a) == [0x22, 0x61, 0x22, 0x3A, 0x74, 0x72, 0x75, 0x65];
    SampleJoins(PrintMember(a), PrintMember(b), text);
  }

  lemma {:induction false} SampleJoins(a: seq<Byte>, b: seq<Byte>, text: seq<Byte>)
    requires a == [0x22, 0x61, 0x22, 0x3A, 0x74, 0x72, 0x75, 0x65] && b == [0x22, 0x62, 0x22, 0x3A] + text
    ensures [0x7B] + (a + ([0x2C] + b)) + [0x7D]
      == [0x7B, 0x22, 0x61, 0x22, 0x3A, 0x74, 0x72, 0x75, 0x65, 0x2C, 0x22, 0x62, 0x22, 0x3A] + text + [0x7D]
  {
  }

  // ---- Parsing ----

  type Parsed<T> = Option<(T, seq<Byte>)>

  function TokenLength(s: seq<Byte>): (n: nat)
    ensures n <= |s| && (s != [] && TokenByte(s[0]) ==> n > 0)
  {
    if s == [] || !TokenByte(s[0]) then 0 else 1 + TokenLength(s[1..])
  }

  /** What a token stands for: a literal name or a number. */
  function Meaning(t: seq<Byte>): Option<Value> {
    if t == TRUE then Some(Bool(true))
    else if t == FALSE then Some(Bool(false))
    else if t == NULL then Some(Null)
    else if Number(t) then Some(Num(t))
    else None
  }

  function ParseToken(s: seq<Byte>): (r: Parsed<Value>)
    requires s != [] && TokenByte(s[0])
    ensures r.Some? ==> |r.value.1| < |s|
  {
    var n := TokenLength(s);
    if Meaning(s[..n]).None? then None else Some((Meaning(s[..n]).value, s[n..]))
  }

  function ParseValue(s: seq<Byte>): (r: Parsed<Value>)
    ensures r.Some? ==> |r.value.1| < |s|
    decreases |s|, 1
  {
    if s == [] then None
    else if s[0] == QUOTE then
      var p := ParseString(s[1..]);
      if p.None? then None else Some((Str(p.value.0), p.value.1))
    else if s[0] == 0x5B then
      if |s| > 1 && s[1] == 0x5D then Some((Arr([]), s[2..]))
      else
        var p := ParseItems(s[1..]);
        if p.None? then None else Some((Arr(p.value.0), p.value.1))
    else if s[0] == 0x7B then
      if |s| > 1 && s[1] == 0x7D then Some((Obj([]), s[2..]))
      else
        var p := ParseMembers(s[1..]);
        if p.None? then None else Some((Obj(p.value.0), p.value.1))
    else if TokenByte(s[0]) then ParseToken(s)
    else None
  }

  /** Items up to the closing bracket. */
  function ParseItems(s: seq<Byte>): (r: Parsed<seq<Value>>)
    ensures r.Some? ==> |r.value.1| < |s|
    decreases |s|, 2
  {
    var p := ParseValue(s);
    if p.None? || p.value.1 == [] then None
    else
      var (v, rest) := p.value;
      if rest[0] == 0x5D then Some(([v], rest[1..]))
      else if rest[0] != COMMA then None
      else
        var q := ParseItems(rest[1..]);
        if q.None? then None else Some(([v] + q.value.0, q.value.1))
  }

  function ParseMember(s: seq<Byte>): (r: Parsed<Member>)
    ensures r.Some? ==> |r.value.1| < |s|
    decreases |s|, 2
  {
    if s == [] || s[0] != QUOTE then None
    else
      var p := ParseString(s[1..]);
      if p.None? || p.value.1 == [] || p.value.1[0] != COLON then None
      else
        var q := ParseValue(p.value.1[1..]);
        if q.None? then None else Some((Member(p.value.0, q.value.0), q.value.1))
  }

  /** Members up to the closing brace. */
  function ParseMembers(s: seq<Byte>): (r: Parsed<seq<Member>>)
    ensures r.Some? ==> |r.value.1| < |s|
    decreases |s|, 3
  {
    var p := ParseMember(s);
    if p.None? || p.value.1 == [] then None
    else
      var (m, rest) := p.value;
      if rest[0] == 0x7D then Some(([m], rest[1..]))
      else if rest[0] != COMMA then None
      else
        var q := ParseMembers(rest[1..]);
        if q.None? then None else Some(([m] + q.value.0, q.value.1))
  }

  // ---- Printing and parsing back ----

  /** What may follow a value: the end, a comma or a closing bracket or brace. */
  predicate Follows(rest: seq<Byte>) {
    rest == [] || rest[0] == COMMA || rest[0] == 0x5D || rest[0] == 0x7D
  }

  lemma {:induction false} TokenEnds(t: seq<Byte>, rest: seq<Byte>)
    requires TokenBytes(t) && Follows(rest)
    ensures TokenLength(t + rest) == |t|
    decreases |t|
  {
    if t == [] {
      assert t + rest == rest;
    } else {
      assert (t + rest)[1..] == t[1..] + rest;
      TokenEnds(t[1..], rest);
    }
  }

  lemma {:induction false} FirstByte(v: Value)
    requires Proper(v)
    ensures Print(v) != [] && Print(v)[0] != 0x5D
  {
  }

  lemma {:induction false} ParseQuoted(x: seq<Byte>, rest: seq<Byte>)
    ensures var s := Quoted(x) + rest;
      s != [] && s[0] == QUOTE && ParseString(s[1..]) == Some((x, rest))
  {
    ParseEscaped(x, rest);
    QuotedText(x, rest);
  }

  lemma {:induction false} QuotedText(x: seq<Byte>, rest: seq<Byte>)
    ensures var s := Quoted(x) + rest; s != [] && s[0] == QUOTE && s[1..] == Escape(x) + [QUOTE] + rest
  {
  }

  lemma {:induction false} ItemsEnd(s: seq<Byte>, v: Value, rest: seq<Byte>)
    requires ParseValue(s) == Some((v, [0x5D] + rest))
    ensures ParseItems(s) == Some(([v], rest))
  {
  }

  lemma {:induction false} ItemsGoOn(s: seq<Byte>, v: Value, more: seq<Byte>, vs: seq<Value>, rest: seq<Byte>)
    requires ParseValue(s) == Some((v, [COMMA] + more)) && ParseItems(more) == Some((vs, rest))
    ensures ParseItems(s) == Some(([v] + vs, rest))
  {
  }

  lemma {:induction false} MembersEnd(s: seq<Byte>, m: Member, rest: seq<Byte>)
    requires ParseMember(s) == Some((m, [0x7D] + rest))
    ensures ParseMembers(s) == Some(([m], rest))
  {
  }

  lemma {:induction false} MembersGoOn(s: seq<Byte>, m: Member, more: seq<Byte>, ms: seq<Member>, rest: seq<Byte>)
    requires ParseMember(s) == Some((m, [COMMA] + more)) && ParseMembers(more) == Some((ms, rest))
    ensures ParseMembers(s) == Some(([m] + ms, rest))
  {
  }

  /** Every value, printed and followed by anything that may follow, parses back to itself. */
  lemma {:induction false} ParsePrint(v: Value, rest: seq<Byte>)
    requires Proper(v) && Follows(rest)
    ensures ParseValue(Print(v) + rest) == Some((v, rest))
    decreases v, 1
  {
    match v {
      case Str(x) => ParseQuoted(x, rest);
      case Num(t) =>
        NumberBytes(t);
        TokenReads(t, rest);
      case Bool(_) => TokenReads(Print(v), rest);
      case Null => TokenReads(NULL, rest);
      case Arr(items) => ParsePrintArray(items, rest);
      case Obj(members) => ParsePrintObject(members, rest);
    }
  }

  /** A whole token is read for what it stands for, or not at all. */
  lemma {:induction false} TokenReads(t: seq<Byte>, rest: seq<Byte>)
    requires t != [] && TokenBytes(t) && Follows(rest)
    ensures ParseValue(t + rest) == if Meaning(t).Some? then Some((Meaning(t).value, rest)) else None
  {
    var s := t + rest;
    TokenEnds(t, rest);
    assert s[..|t|] == t && s[|t|..] == rest && s[0] == t[0];
  }

  lemma {:induction false} ParsePrintArray(items: seq<Value>, rest: seq<Byte>)
    requires ProperItems(items) && Follows(rest)
    ensures ParseValue(Print(Arr(items)) + rest) == Some((Arr(items), rest))
    decreases items, 1
  {
    var s := Print(Arr(items)) + rest;
    if items == [] {
      assert s == [0x5B, 0x5D] + rest;
    } else {
      ParsePrintItems(items, rest);
      var inner := PrintItems(items) + ([0x5D] + rest);
      Glue([0x5B], PrintItems(items), [0x5D], rest);
      FirstByte(items[0]);
      assert inner[0] == Print(items[0])[0];
      ArrayFrom(inner, items, rest);
    }
  }

  lemma {:induction false} ArrayFrom(inner: seq<Byte>, items: seq<Value>, rest: seq<Byte>)
    requires inner != [] && inner[0] != 0x5D && ParseItems(inner) == Some((items, rest))
    ensures ParseValue([0x5B] + inner) == Some((Arr(items), rest))
  {
  }

  lemma {:induction false} ObjectFrom(inner: seq<Byte>, members: seq<Member>, rest: seq<Byte>)
    requires inner != [] && inner[0] != 0x7D && ParseMembers(inner) == Some((members, rest))
    ensures ParseValue([0x7B] + inner) == Some((Obj(members), rest))
  {
  }

  lemma {:induction false} ParsePrintObject(members: seq<Member>, rest: seq<Byte>)
    requires ProperMembers(members) && Follows(rest)
    ensures ParseValue(Print(Obj(members)) + rest) == Some((Obj(members), rest))
    decreases members, 1
  {
    var s := Print(Obj(members)) + rest;
    if members == [] {
      assert s == [0x7B, 0x7D] + rest;
    } else {
      ParsePrintMembers(members, rest);
      var inner := PrintMembers(members);
      assert s == [0x7B] + (inner + ([0x7D] + rest));
      assert inner[0] == QUOTE;
      ObjectFrom(inner + ([0x7D] + rest), members, rest);
    }
  }

  lemma {:induction false} ParsePrintItems(items: seq<Value>, rest: seq<Byte>)
    requires items != [] && ProperItems(items)
    ensures ParseItems(PrintItems(items) + ([0x5D] + rest)) == Some((items, rest))
    decreases items, 0
  {
    var v, close := items[0], [0x5D] + rest;
    var s := PrintItems(items) + close;
    if |items| == 1 {
      assert s == Print(v) + close;
      ParsePrint(v, close);
      ItemsEnd(s, v, rest);
      assert items == [v];
    } else {
      var more := PrintItems(items[1..]) + close;
      ItemsApart(items, close);
      ParsePrint(v, [COMMA] + more);
      ParsePrintItems(items[1..], rest);
      ItemsGoOn(s, v, more, items[1..], rest);
      assert items == [v] + items[1..];
    }
  }

  lemma {:induction false} Glue(a: seq<Byte>, b: seq<Byte>, c: seq<Byte>, d: seq<Byte>)
    ensures (a + b + c) + d == a + (b + (c + d))
  {
  }

  lemma {:induction false} ReadMember(name: seq<Byte>, v: Value, s: seq<Byte>, rest: seq<Byte>)
    requires ParseValue(s) == Some((v, rest))
    ensures ParseMember(Quoted(name) + ([COLON] + s)) == Some((Member(name, v), rest))
  {
    ParseQuoted(name, [COLON] + s);
    assert ([COLON] + s)[1..] == s;
  }

  lemma {:induction false} ParsePrintMember(m: Member, rest: seq<Byte>)
    requires Proper(m.value) && Follows(rest)
    ensures ParseMember(PrintMember(m) + rest) == Some((m, rest))
    decreases m, 2
  {
    Glue(Quoted(m.name), [COLON], Print(m.value), rest);
    ParsePrint(m.value, rest);
    ReadMember(m.name, m.value, Print(m.value) + rest, rest);
  }

  lemma {:induction false} ItemsApart(items: seq<Value>, close: seq<Byte>)
    requires |items| > 1
    ensures PrintItems(items) + close == Print(items[0]) + ([COMMA] + (PrintItems(items[1..]) + close))
  {
  }

  lemma {:induction false} MembersApart(members: seq<Member>, close: seq<Byte>)
    requires |members| > 1
    ensures PrintMembers(members) + close == PrintMember(members[0]) + ([COMMA] + (PrintMembers(members[1..]) + close))
  {
  }

  lemma {:induction false} SingleMember(members: seq<Member>)
    requires |members| == 1
    ensures PrintMembers(members) == PrintMember(members[0])
  {
  }

  lemma {:induction false} ParsePrintMembers(members: seq<Member>, rest: seq<Byte>)
    requires members != [] && ProperMembers(members)
    ensures ParseMembers(PrintMembers(members) + ([0x7D] + rest)) == Some((members, rest))
    decreases members, 0
  {
    var m, close := members[0], [0x7D] + rest;
    var s := PrintMembers(members) + close;
    if |members| == 1 {
      SingleMember(members);
      ParsePrintMember(m, close);
      MembersEnd(s, m, rest);
      assert members == [m];
    } else {
      var more := PrintMembers(members[1..]) + close;
      MembersApart(members, close);
      ParsePrintMember(m, [COMMA] + more);
      ParsePrintMembers(members[1..], rest);
      MembersGoOn(s, m, more, members[1..], rest);
      assert members == [m] + members[1..];
    }
  }

  // ---- What does not parse ----

  /** What a stream writes for a number, finite or not: `1.5e+20`, `inf`, `-nan(ind)`. */
  ghost predicate Streamed(t: seq<Byte>) {
    && t != [] && t != TRUE && t != FALSE && t != NULL
    && forall i :: 0 <= i < |t| ==> TokenByte(t[i]) || Parenthesis(t[i])
  }

  predicate Parenthesis(b: Byte) { b == 0x28 || b == 0x29 }

  ghost predicate StreamedIn(v: Value)
    decreases v, 1
  {
    match v
    case Num(t) => Streamed(t)
    case Arr(items) => StreamedItems(items)
    case Obj(members) => StreamedMembers(members)
    case _ => true
  }

  ghost predicate StreamedItems(items: seq<Value>)
    decreases items, 0
  {
    items == [] || (StreamedIn(items[0]) && StreamedItems(items[1..]))
  }

  ghost predicate StreamedMembers(members: seq<Member>)
    decreases members, 0
  {
    members == [] || (StreamedIn(members[0].value) && StreamedMembers(members[1..]))
  }

  /** Nothing is read, or the parser stops in front of a parenthesis. */
  ghost predicate Stuck(s: seq<Byte>) {
    var r := ParseValue(s);
    r.None? || (r.value.1 != [] && Parenthesis(r.value.1[0]))
  }

  lemma {:induction false} TokenStops(t: seq<Byte>, rest: seq<Byte>)
    requires !TokenBytes(t)
    ensures TokenLength(t) < |t| && !TokenByte(t[TokenLength(t)]) && TokenLength(t + rest) == TokenLength(t)
    decreases |t|
  {
    if TokenByte(t[0]) {
      assert !TokenBytes(t[1..]) by {
        var i :| 0 <= i < |t| && !TokenByte(t[i]);
        assert t[1..][i - 1] == t[i];
      }
      TokenStops(t[1..], rest);
      assert (t + rest)[1..] == t[1..] + rest;
    }
  }

  lemma {:induction false} BadNumberStuck(t: seq<Byte>, rest: seq<Byte>)
    requires Streamed(t) && !Number(t) && Follows(rest)
    ensures Stuck(t + rest)
  {
    if TokenBytes(t) {
      TokenReads(t, rest);
    } else {
      BrokenTokenStuck(t, rest);
    }
  }

  lemma {:induction false} BrokenTokenStuck(t: seq<Byte>, rest: seq<Byte>)
    requires Streamed(t) && !TokenBytes(t) && Follows(rest)
    ensures Stuck(t + rest)
  {
    var s, n := t + rest, TokenLength(t);
    TokenStops(t, rest);
    assert s[0] == t[0] && s[n..] != [] && s[n..][0] == t[n];
  }

  lemma {:induction false} StuckItems(s: seq<Byte>)
    requires Stuck(s)
    ensures ParseItems(s).None?
  {
  }

  lemma {:induction false} StuckMember(name: seq<Byte>, s: seq<Byte>)
    requires Stuck(s)
    ensures ParseMembers(Quoted(name) + ([COLON] + s)).None?
  {
    ParseQuoted(name, [COLON] + s);
    assert ([COLON] + s)[1..] == s;
  }

  /** A value with a number that is none does not parse. */
  lemma {:induction false} ImproperStuck(v: Value, rest: seq<Byte>)
    requires StreamedIn(v) && !Proper(v) && Follows(rest)
    ensures Stuck(Print(v) + rest)
    decreases v, 1
  {
    match v {
      case Num(t) => BadNumberStuck(t, rest);
      case Arr(items) =>
        ImproperItems(items, rest);
        FailedArray(items, rest);
      case Obj(members) =>
        ImproperMembers(members, rest);
        FailedObject(members, rest);
    }
  }

  lemma {:induction false} FailedArray(items: seq<Value>, rest: seq<Byte>)
    requires items != [] && StreamedItems(items) && ParseItems(PrintItems(items) + ([0x5D] + rest)).None?
    ensures Stuck(Print(Arr(items)) + rest)
  {
    var s, inner := Print(Arr(items)) + rest, PrintItems(items) + ([0x5D] + rest);
    assert s == [0x5B] + inner && s[1..] == inner;
    StreamedFirst(items[0]);
    assert inner[0] == Print(items[0])[0];
  }

  lemma {:induction false} FailedObject(members: seq<Member>, rest: seq<Byte>)
    requires members != [] && ParseMembers(PrintMembers(members) + ([0x7D] + rest)).None?
    ensures Stuck(Print(Obj(members)) + rest)
  {
    var s, inner := Print(Obj(members)) + rest, PrintMembers(members) + ([0x7D] + rest);
    assert s == [0x7B] + inner && s[1..] == inner;
    assert inner[0] == QUOTE;
  }

  lemma {:induction false} StreamedFirst(v: Value)
    requires StreamedIn(v)
    ensures Print(v) != [] && Print(v)[0] != 0x5D
  {
  }

  lemma {:induction false} ItemsFailOn(s: seq<Byte>, v: Value, more: seq<Byte>)
    requires ParseValue(s) == Some((v, [COMMA] + more)) && ParseItems(more).None?
    ensures ParseItems(s).None?
  {
  }

  lemma {:induction false} MembersFailOn(s: seq<Byte>, m: Member, more: seq<Byte>)
    requires ParseMember(s) == Some((m, [COMMA] + more)) && ParseMembers(more).None?
    ensures ParseMembers(s).None?
  {
  }

  lemma {:induction false} ImproperItems(items: seq<Value>, rest: seq<Byte>)
    requires StreamedItems(items) && !ProperItems(items)
    ensures items != [] && ParseItems(PrintItems(items) + ([0x5D] + rest)).None?
    decreases items, 0
  {
    var v, close := items[0], [0x5D] + rest;
    var s := PrintItems(items) + close;
    if |items| == 1 {
      assert s == Print(v) + close;
      ImproperStuck(v, close);
      StuckItems(s);
    } else {
      var more := PrintItems(items[1..]) + close;
      ItemsApart(items, close);
      if Proper(v) {
        ParsePrint(v, [COMMA] + more);
        ImproperItems(items[1..], rest);
        ItemsFailOn(s, v, more);
      } else {
        ImproperStuck(v, [COMMA] + more);
        StuckItems(s);
      }
    }
  }

  lemma {:induction false} ImproperMember(m: Member, rest: seq<Byte>)
    requires StreamedIn(m.value) && !Proper(m.value) && Follows(rest)
    ensures ParseMembers(PrintMember(m) + rest).None?
    decreases m, 2
  {
    Glue(Quoted(m.name), [COLON], Print(m.value), rest);
    ImproperStuck(m.value, rest);
    StuckMember(m.name, Print(m.value) + rest);
  }

  lemma {:induction false} ImproperMembers(members: seq<Member>, rest: seq<Byte>)
    requires StreamedMembers(members) && !ProperMembers(members)
    ensures members != [] && ParseMembers(PrintMembers(members) + ([0x7D] + rest)).None?
    decreases members, 0
  {
    var m, close := members[0], [0x7D] + rest;
    if |members| == 1 {
      SingleMember(members);
      ImproperMember(m, close);
    } else {
      var more := PrintMembers(members[1..]) + close;
      MembersApart(members, close);
      if Proper(m.value) {
        ParsePrintMember(m, [COMMA] + more);
        ImproperMembers(members[1..], rest);
        MembersFailOn(PrintMembers(members) + close, m, more);
      } else {
        ImproperMember(m, [COMMA] + more);
      }
    }
  }

  ghost predicate Parses(s: seq<Byte>) {
    ParseValue(s).Some? && ParseValue(s).value.1 == []
  }

  /** A printed value is JSON text if and only if its numbers are numbers, and then it is read back. */
  lemma {:induction false} ParsesIff(v: Value)
    requires StreamedIn(v)
    ensures Parses(Print(v)) <==> Proper(v)
    ensures Proper(v) ==> ParseValue(Print(v)) == Some((v, []))
  {
    assert Print(v) + [] == Print(v);
    if Proper(v) {
      ParsePrint(v, []);
    } else {
      ImproperStuck(v, []);
    }
  }
}
