/** Values shared by the minifilter modules: file identities, policy entries, their flags
    and the bucket hash. 32- and 64-bit fields keep their width in the types. */
module PolicyTypes {

  type U32 = x: int | 0 <= x < 0x1_0000_0000
  type U64 = x: int | 0 <= x < 0x1_0000_0000_0000_0000

  datatype Option<+T> = None | Some(value: T)

  /** A volume serial number and an NTFS file reference number. */
  datatype FileId = FileId(volume: U32, file: U64)

  datatype Policy = Policy(
    id: FileId,
    classification: U32,
    allowedActions: U32,
    blockedActions: U32,
    flags: U32,
    expiration: nat,
    lastAccess: nat,
    ruleId: U32)

  /** Does a word have this one bit? The source writes it as a mask test. */
  predicate HasBit(word: U32, bit: U32)
    requires bit > 0
  {
    word / bit % 2 == 1
  }

  const FLAG_VALID: U32 := 0x1
  const FLAG_PERMANENT: U32 := 0x2
  const FLAG_PINNED: U32 := 0x4

  const CLASS_RESTRICTED: U32 := 0x8
  const CLASS_TOP_SECRET: U32 := 0x10
  const CLASS_PII: U32 := 0x100
  const CLASS_PCI: U32 := 0x200
  const CLASS_PHI: U32 := 0x400
  const ACTION_BLOCK: U32 := 0x1

  predicate Permanent(p: Policy) { HasBit(p.flags, FLAG_PERMANENT) }
  predicate Pinned(p: Policy) { HasBit(p.flags, FLAG_PINNED) }

  predicate ProtectedClass(c: U32) {
    || HasBit(c, CLASS_RESTRICTED) || HasBit(c, CLASS_TOP_SECRET)
    || HasBit(c, CLASS_PII) || HasBit(c, CLASS_PCI) || HasBit(c, CLASS_PHI)
  }

  // ---- What the masks mean ----

  /** The binary digit of a word at a position, counted from zero. */
  predicate Bit(word: nat, k: nat) {
    if k == 0 then word % 2 == 1 else Bit(word / 2, k - 1)
  }

  function PowerOfTwo(k: nat): (p: nat)
    ensures p > 0
  {
    if k == 0 then 1 else 2 * PowerOfTwo(k - 1)
  }

  lemma {:induction false} HalfFirst(word: nat, p: nat)
    requires p > 0
    ensures word / 2 / p == word / (2 * p)
  {
    var q, r := word / 2 / p, word / 2 % p;
    assert word / 2 == q * p + r;
    assert word == (2 * p) * q + (2 * r + word % 2);
    Quotient(word, 2 * p, q, 2 * r + word % 2);
  }

  lemma {:induction false} Quotient(word: nat, p: nat, q: nat, r: nat)
    requires p > 0 && word == p * q + r && r < p
    ensures word / p == q
  {
    ProductGrows(p, q, word / p);
    ProductGrows(p, word / p, q);
  }

  lemma {:induction false} ProductGrows(p: nat, a: nat, b: nat)
    ensures a < b ==> p * a + p <= p * b
  {
    if a < b {
      Distribute(p, a, b - a - 1);
    }
  }

  lemma {:induction false} Distribute(p: nat, a: nat, c: nat)
    ensures p * (a + 1 + c) == p * a + p + p * c
  {
  }

  lemma {:induction false} BitAt(word: nat, k: nat)
    ensures Bit(word, k) <==> word / PowerOfTwo(k) % 2 == 1
    decreases k
  {
    if k > 0 {
      BitAt(word / 2, k - 1);
      HalfFirst(word, PowerOfTwo(k - 1));
    }
  }

  /** A mask test of one bit reads that bit. */
  lemma {:induction false} MaskReadsBit(word: U32, k: nat, mask: U32)
    requires mask == PowerOfTwo(k)
    ensures HasBit(word, mask) <==> Bit(word, k)
  {
    BitAt(word, k);
  }

  lemma {:induction false} Powers()
    ensures PowerOfTwo(0) == 1 && PowerOfTwo(1) == 2 && PowerOfTwo(2) == 4 && PowerOfTwo(3) == 8
    ensures PowerOfTwo(4) == 16 && PowerOfTwo(8) == 256 && PowerOfTwo(9) == 512 && PowerOfTwo(10) == 1024
  {
    assert PowerOfTwo(4) == 16;
    assert PowerOfTwo(6) == 64;
    assert PowerOfTwo(8) == 256;
  }

  /** Restricted, top secret, PII, PCI or PHI. */
  ghost predicate ProtectedBits(c: nat) {
    Bit(c, 3) || Bit(c, 4) || Bit(c, 8) || Bit(c, 9) || Bit(c, 10)
  }

  /** The flags of an entry, the classes of a file and the blocking action by their bits. */
  lemma {:induction false} FlagBits(w: U32)
    ensures HasBit(w, FLAG_VALID) == HasBit(w, ACTION_BLOCK) == Bit(w, 0)
    ensures HasBit(w, FLAG_PERMANENT) == Bit(w, 1) && HasBit(w, FLAG_PINNED) == Bit(w, 2)
  {
    Powers();
    MaskReadsBit(w, 0, FLAG_VALID);
    MaskReadsBit(w, 1, FLAG_PERMANENT);
    MaskReadsBit(w, 2, FLAG_PINNED);
  }

  lemma {:induction false} ClassBits(c: U32)
    ensures HasBit(c, CLASS_RESTRICTED) == Bit(c, 3) && HasBit(c, CLASS_TOP_SECRET) == Bit(c, 4)
    ensures ProtectedClass(c) == ProtectedBits(c)
  {
    Powers();
    MaskReadsBit(c, 3, CLASS_RESTRICTED);
    MaskReadsBit(c, 4, CLASS_TOP_SECRET);
    MaskReadsBit(c, 8, CLASS_PII);
    MaskReadsBit(c, 9, CLASS_PCI);
    MaskReadsBit(c, 10, CLASS_PHI);
  }

  /** The flags with the VALID bit set. */
  function WithValid(flags: U32): (r: U32)
    ensures HasBit(r, FLAG_VALID)
    ensures HasBit(r, FLAG_PERMANENT) == HasBit(flags, FLAG_PERMANENT)
    ensures HasBit(r, FLAG_PINNED) == HasBit(flags, FLAG_PINNED)
  {
    if HasBit(flags, FLAG_VALID) then flags
    else
      LowBitSet(flags / 2);
      flags + 1
  }

  lemma {:induction false} LowBitSet(half: nat)
    ensures (2 * half + 1) / 2 == half && (2 * half + 1) / 4 == half / 2 == 2 * half / 4
  {
  }

  /** An entry is alive up to and including its expiration time. */
  predicate Expired(p: Policy, now: nat) { !Permanent(p) && now > p.expiration }

  const TICKS_PER_SECOND := 10_000_000

  /** The unsigned 64-bit sum that the cache stores as expiration time. */
  function ExpiryFrom(now: nat, ttlSec: nat): nat {
    (now + ttlSec * TICKS_PER_SECOND) % 0x1_0000_0000_0000_0000
  }

  const BUCKETS := 4096

  /** Exclusive or of two unsigned integers, bit by bit. */
  function Xor(a: nat, b: nat): nat {
    if a == 0 && b == 0 then 0 else 2 * Xor(a / 2, b / 2) + (a % 2 + b % 2) % 2
  }

  /** One FNV-1a round on 32-bit words. */
  function FnvRound(hash: nat, word: nat): nat {
    Xor(hash, word) * 16777619 % 0x1_0000_0000
  }

  function HashFileId(f: FileId): (bucket: nat)
    ensures bucket < BUCKETS
  {
    var h := FnvRound(2166136261, f.volume);
    var h := FnvRound(h, f.file % 0x1_0000_0000);
    var h := FnvRound(h, f.file / 0x1_0000_0000);
    h % BUCKETS
  }
}
