/** Bounded extraction of UTF-16 text from clipboard memory. */
module ClipText {
  import opened PolicyTypes
  import opened Transcode

  /** Length of the text before the first null, or of everything when there is none. */
  function TextLength(memory: seq<Unit>): (n: nat)
    ensures n <= |memory| && (n < |memory| ==> memory[n] == 0)
    ensures forall i :: 0 <= i < n ==> memory[i] != 0
  {
    if memory == [] || memory[0] == 0 then 0 else 1 + TextLength(memory[1..])
  }

  /** Cutting a well-formed text anywhere but after a high surrogate leaves it well formed. */
  lemma {:induction false} CutWellFormed(us: seq<Unit>, k: nat)
    requires WellFormed16(us) && k <= |us| && (k > 0 ==> !High(us[k - 1]))
    ensures WellFormed16(us[..k])
    decreases |us|
  {
    if k > 0 {
      var n := if High(us[0]) then 2 else 1;
      CutWellFormed(us[n..], k - n);
      assert us[..k][n..] == us[n..][..k - n];
    }
  }

  lemma {:induction false} HighNeverDoubles(us: seq<Unit>, i: nat)
    requires WellFormed16(us) && i + 1 < |us| && High(us[i + 1])
    ensures !High(us[i])
    decreases |us|
  {
    if i > 0 {
      var n := if High(us[0]) then 2 else 1;
      if i >= n {
        HighNeverDoubles(us[n..], i - n);
      }
    }
  }

  /** `memory` is the allocation, of `sizeBytes` bytes; `None` is a null pointer. Every read is
      inside the allocation. A cap of `maxBytes` counts bytes, two to a unit. */
  method ClipUtf16ToWstring(memory: Option<seq<Unit>>, sizeBytes: nat, maxBytes: nat)
    returns (text: seq<Unit>, truncated: bool, missingNull: bool)
    requires memory.Some? ==> |memory.value| == sizeBytes / 2
    ensures !(truncated && missingNull) && 2 * |text| <= maxBytes
    ensures memory.None? || sizeBytes < 2 ==> text == [] && !truncated && !missingNull
    ensures memory.Some? && sizeBytes >= 2 ==>
      var us, length := memory.value, TextLength(memory.value);
      && (truncated <==> maxBytes / 2 <= length && maxBytes / 2 < |us|)
      && (missingNull <==> !truncated && length == |us|)
      && (!truncated && !missingNull ==> text == us[..length] && length < |us|)
      && (truncated ==> text <= us[..length])
      && (truncated ==>
            |text| == if maxBytes >= 2 && High(us[maxBytes / 2 - 1]) then maxBytes / 2 - 1 else maxBytes / 2)
      && (missingNull ==> text == [])
      && (WellFormed16(us[..length]) ==> WellFormed16(text))
  {
    text, truncated, missingNull := [], false, false;
    if memory.None? || sizeBytes < 2 {
      return;
    }
    var p := memory.value;
    var maxUnits := maxBytes / 2;
    var units := sizeBytes / 2;
    var n := if maxUnits < units then maxUnits else units;
    var i := 0;
    while i < n
      invariant i <= n && i <= TextLength(p)
    {
      if p[i] == 0 {
        return p[..i], false, false;
      }
      i := i + 1;
    }
    if n < units {
      truncated := true;
      var copy := n;
      if copy > 0 && High(p[copy - 1]) {
        copy := copy - 1;
      }
      CutText(p, n, copy);
      return p[..copy], true, false;
    }
    return [], false, true;
  }

  lemma {:induction false} CutText(p: seq<Unit>, n: nat, copy: nat)
    requires n <= TextLength(p) && copy == (if n > 0 && High(p[n - 1]) then n - 1 else n)
    ensures WellFormed16(p[..TextLength(p)]) ==> WellFormed16(p[..copy])
  {
    var us := p[..TextLength(p)];
    if WellFormed16(us) {
      if copy < n && copy > 0 {
        HighNeverDoubles(us, copy - 1);
      }
      CutWellFormed(us, copy);
      assert us[..copy] == p[..copy];
    }
  }
}
