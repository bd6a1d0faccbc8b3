/** Writing JSON piece by piece into a growing text, as the telemetry sender does. */
module JsonWriter {
  import opened Utf8
  import opened Json
  import opened JsonUtf8

  type Bytes = seq<Byte>

  ghost predicate LabelBytes(s: Bytes) {
    Plain(s) && Ascii7(s)
  }

  /** Printable ASCII that needs no escaping: field names and time stamps. */
  type Label = s: Bytes | LabelBytes(s) witness []

  // ---- Lists ----

  function Strings(ks: seq<Bytes>): (vs: seq<Value>)
    ensures |vs| == |ks| && forall i :: 0 <= i < |ks| ==> vs[i] == Str(ks[i])
  {
    seq(|ks|, i requires 0 <= i < |ks| => Str(ks[i]))
  }

  /** Texts with commas between them. */
  function Join(texts: seq<Bytes>): Bytes {
    if texts == [] then []
    else if |texts| == 1 then texts[0]
    else Join(texts[..|texts| - 1]) + [COMMA] + texts[|texts| - 1]
  }

  /** What a writer's loop does with its `first` flag. */
  function Append(out: Bytes, first: bool, text: Bytes): Bytes {
    (if first then out else out + [COMMA]) + text
  }

  lemma {:induction false} JoinSnoc(texts: seq<Bytes>, t: Bytes)
    ensures Join(texts + [t]) == Append(Join(texts), texts == [], t)
  {
  }

  lemma {:induction false} JoinCons(t: Bytes, texts: seq<Bytes>)
    requires texts != []
    ensures Join([t] + texts) == t + ([COMMA] + Join(texts))
    decreases |texts|
  {
    var all, n := [t] + texts, |texts| - 1;
    assert all[..|all| - 1] == [t] + texts[..n];
    if n > 0 {
      JoinCons(t, texts[..n]);
      var inner := Join(texts[..n]);
      assert t + ([COMMA] + inner) + [COMMA] + texts[n] == t + ([COMMA] + (inner + [COMMA] + texts[n]));
    } else {
      assert [t] + texts[..n] == [t] && texts == [texts[0]];
    }
  }

  lemma {:induction false} PrintItemsJoins(vs: seq<Value>, texts: seq<Bytes>)
    requires |vs| == |texts| && forall i :: 0 <= i < |vs| ==> texts[i] == Print(vs[i])
    ensures PrintItems(vs) == Join(texts)
    decreases |vs|
  {
    if |vs| > 1 {
      PrintItemsJoins(vs[1..], texts[1..]);
      JoinCons(texts[0], texts[1..]);
      assert texts == [texts[0]] + texts[1..];
    } else if |vs| == 1 {
      assert PrintItems(vs) == Print(vs[0]) + [];
    }
  }

  method WriteString(s: Bytes) returns (out: Bytes)
    ensures out == Print(Str(s))
  {
    var escaped := JsonEscape(s);
    out := [QUOTE] + escaped + [QUOTE];
  }

  /** The first `i` values have been written, with commas between them. */
  ghost predicate Written(vs: seq<Value>, i: nat, texts: seq<Bytes>, out: Bytes) {
    |texts| == i <= |vs| && out == Join(texts) && forall j :: 0 <= j < i ==> texts[j] == Print(vs[j])
  }

  lemma {:induction false} WrittenOne(vs: seq<Value>, i: nat, texts: seq<Bytes>, out: Bytes, text: Bytes)
    requires i < |vs| && Written(vs, i, texts, out) && text == Print(vs[i])
    ensures Written(vs, i + 1, texts + [text], Append(out, i == 0, text))
  {
    JoinSnoc(texts, text);
  }

  /** A list of strings with commas between them. */
  method WriteStrings(ks: seq<Bytes>) returns (out: Bytes)
    ensures out == PrintItems(Strings(ks))
  {
    ghost var texts, vs := [], Strings(ks);
    out := [];
    for i := 0 to |ks|
      invariant Written(vs, i, texts, out)
    {
      var text := WriteString(ks[i]);
      WrittenOne(vs, i, texts, out, text);
      texts := texts + [text];
      out := Append(out, i == 0, text);
    }
    PrintItemsJoins(vs, texts);
  }

  // ---- Fields ----

  /** Fields so far, each with its comma. */
  function Terminated(ms: seq<Member>): Bytes {
    if ms == [] then [] else Terminated(ms[..|ms| - 1]) + (PrintMember(ms[|ms| - 1]) + [COMMA])
  }

  lemma {:induction false} TerminatedOne(ms: seq<Member>, m: Member)
    ensures Terminated(ms + [m]) == Terminated(ms) + (PrintMember(m) + [COMMA])
  {
  }

  lemma {:induction false} TerminatedCons(m: Member, ms: seq<Member>)
    ensures Terminated([m] + ms) == (PrintMember(m) + [COMMA]) + Terminated(ms)
    decreases |ms|
  {
    if ms == [] {
      TerminatedOne([], m);
      assert [] + [m] == [m] && [m] + ms == [m];
    } else {
      var n := |ms| - 1;
      TerminatedCons(m, ms[..n]);
      assert ([m] + ms)[..n + 1] == [m] + ms[..n];
      Associates(PrintMember(m) + [COMMA], Terminated(ms[..n]), PrintMember(ms[n]) + [COMMA]);
    }
  }

  /** All fields but the last with their commas, then the last, are the fields of the object. */
  lemma {:induction false} TerminatedPrints(ms: seq<Member>, m: Member)
    ensures PrintMembers(ms + [m]) == Terminated(ms) + PrintMember(m)
    decreases |ms|
  {
    if ms == [] {
      SingleMember(ms + [m]);
    } else {
      var first, rest := ms[0], ms[1..];
      TerminatedPrints(rest, m);
      PrintsOneMore(first, rest, m);
      assert ms == [first] + rest && ms + [m] == [first] + (rest + [m]);
    }
  }

  lemma {:induction false} PrintsOneMore(first: Member, rest: seq<Member>, m: Member)
    requires PrintMembers(rest + [m]) == Terminated(rest) + PrintMember(m)
    ensures PrintMembers([first] + (rest + [m])) == Terminated([first] + rest) + PrintMember(m)
  {
    TerminatedCons(first, rest);
    PrintMembersCons(first, rest + [m]);
    FieldApart(PrintMember(first), Terminated(rest), PrintMember(m));
  }

  lemma {:induction false} PrintMembersCons(m: Member, ms: seq<Member>)
    requires ms != []
    ensures PrintMembers([m] + ms) == PrintMember(m) + ([COMMA] + PrintMembers(ms))
  {
    assert ([m] + ms)[1..] == ms;
  }

  lemma {:induction false} Associates(a: Bytes, b: Bytes, c: Bytes)
    ensures (a + b) + c == a + (b + c)
  {
  }

  lemma {:induction false} FieldApart(a: Bytes, b: Bytes, c: Bytes)
    ensures a + ([COMMA] + (b + c)) == (a + [COMMA]) + b + c
  {
  }

  function Key(name: Label): Bytes {
    [QUOTE] + name + [QUOTE] + [COLON]
  }

  lemma {:induction false} KeyOpens(name: Label, value: Value)
    ensures PrintMember(Member(name, value)) == Key(name) + Print(value)
  {
    EscapePlain(name);
  }

  /** The first `k` fields of an object have been written. */
  ghost predicate FieldsUpTo(ms: seq<Member>, k: nat, out: Bytes) {
    k <= |ms| && forall x :: x == ms[..k] ==> out == Terminated(x)
  }

  lemma {:induction false} NoFields(ms: seq<Member>)
    ensures FieldsUpTo(ms, 0, [])
  {
    assert ms[..0] == [] && Terminated([]) == [];
  }

  /** And the last one closes the list. */
  lemma {:induction false} AllFields(ms: seq<Member>, out: Bytes)
    requires ms != [] && FieldsUpTo(ms, |ms| - 1, out)
    ensures PrintMembers(ms) == out + PrintMember(ms[|ms| - 1])
  {
    var front, last := ms[..|ms| - 1], ms[|ms| - 1];
    assert out == Terminated(front) && front + [last] == ms;
    TerminatedPrints(front, last);
  }

  /** Write the `k`-th field of an object, an escaped string. */
  method TextField(out: Bytes, name: Label, value: Bytes, ghost ms: seq<Member>, ghost k: nat) returns (r: Bytes)
    requires k < |ms| && ms[k] == Member(name, Str(value)) && FieldsUpTo(ms, k, out)
    ensures FieldsUpTo(ms, k + 1, r)
  {
    var text := WriteString(value);
    r := TokenField(out, name, text, ms, k);
  }

  /** Write a field with text that is not escaped. */
  method LabelField(out: Bytes, name: Label, value: Label, ghost ms: seq<Member>, ghost k: nat) returns (r: Bytes)
    requires k < |ms| && ms[k] == Member(name, Str(value)) && FieldsUpTo(ms, k, out)
    ensures FieldsUpTo(ms, k + 1, r)
  {
    EscapePlain(value);
    r := TokenField(out, name, [QUOTE] + value + [QUOTE], ms, k);
  }

  /** Write a field with a value as it stands. */
  method TokenField(out: Bytes, name: Label, token: Bytes, ghost ms: seq<Member>, ghost k: nat) returns (r: Bytes)
    requires k < |ms| && ms[k].name == name && token == Print(ms[k].value) && FieldsUpTo(ms, k, out)
    ensures FieldsUpTo(ms, k + 1, r)
  {
    r := out + (Key(name) + token + [COMMA]);
    KeyOpens(name, ms[k].value);
    OneField(ms, k, out);
  }

  lemma {:induction false} OneField(ms: seq<Member>, k: nat, out: Bytes)
    requires k < |ms| && FieldsUpTo(ms, k, out)
    ensures FieldsUpTo(ms, k + 1, out + (PrintMember(ms[k]) + [COMMA]))
  {
    var front := ms[..k];
    assert out == Terminated(front) && front + [ms[k]] == ms[..k + 1];
    TerminatedOne(front, ms[k]);
  }
}
