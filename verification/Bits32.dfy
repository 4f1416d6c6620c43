/** Bit positions in 32-bit words, counted from 1 at the most significant bit, as
    `bi_ffs` counts them.  The lemmas that speak of single words are bit-vector facts;
    everything else is derived from them without looking at bits again. */
module Bits32 {

  /** The first `d` bits of `x`. */
  function Prefix(x: bv32, d: bv32): bv32
    requires d <= 32
  {
    x >> (32 - d)
  }

  predicate Bit(x: bv32, t: bv32)
    requires 1 <= t <= 32
  {
    (x >> (32 - t)) & 1 == 1
  }

  /** `r` is the position of the first 1 in `u`. */
  predicate Leads(u: bv32, r: bv32) {
    1 <= r <= 32 && Prefix(u, r) == 1
  }

  /** The 16-entry table of `bi_ffs`. */
  function BVals(k: bv32): bv32 {
    if k == 0 then 0 else if k == 1 then 4 else if k <= 3 then 3 else if k <= 7 then 2 else 1
  }

  // The three halving branches of `bi_ffs`, innermost first.
  function FfsByte(v: bv32): bv32 {
    if v & 0xF0 == 0 then 4 + BVals(v & 0xf) else BVals((v >> 4) & 0xf)
  }

  function FfsHalf(v: bv32): bv32 {
    if v & 0xFF00 == 0 then 8 + FfsByte(v) else FfsByte(v >> 8)
  }

  function BiFfs(value: bv32): bv32 {
    if value & 0xFFFF0000 == 0 then
      if value == 0 then 0 else 16 + FfsHalf(value)
    else
      FfsHalf(value >> 16)
  }

  /** The first bit in which two words differ; 0 when they are equal. */
  function FirstDiff(x: bv32, y: bv32): bv32 {
    BiFfs(x ^ y)
  }

  // ---- Single words ----

  function Half(p: bv32): bv32 { p >> 1 }
  predicate Odd(p: bv32) { p & 1 == 1 }

  lemma PrefixHalf(x: bv32, t: bv32)
    requires 1 <= t <= 32
    ensures Prefix(x, t - 1) == Half(Prefix(x, t))
    ensures Bit(x, t) == Odd(Prefix(x, t))
  {
  }

  lemma HalfAndOdd(p: bv32, q: bv32)
    ensures p == q <==> Half(p) == Half(q) && Odd(p) == Odd(q)
    ensures Half(0) == 0 && Half(1) == 0 && Odd(1) && !Odd(0)
  {
  }

  lemma PrefixEnds(x: bv32)
    ensures Prefix(x, 0) == 0 && Prefix(x, 32) == x
  {
  }

  lemma BitXor(x: bv32, y: bv32, t: bv32)
    requires 1 <= t <= 32
    ensures Bit(x ^ y, t) == (Bit(x, t) != Bit(y, t))
  {
  }

  lemma XorFacts(x: bv32, y: bv32)
    ensures x ^ y == y ^ x
    ensures x ^ y == 0 <==> x == y
  {
  }

  lemma LeadsShifted8(v: bv32, r: bv32)
    requires Leads(v >> 8, r) && r > 8
    ensures Leads(v, r - 8)
  {
  }

  lemma LeadsShifted16(v: bv32, r: bv32)
    requires Leads(v >> 16, r) && r > 16
    ensures Leads(v, r - 16)
  {
  }

  lemma FfsByteLeads(v: bv32)
    requires 0 < v < 256
    ensures Leads(v, 24 + FfsByte(v)) && 1 <= FfsByte(v) <= 8
  {
  }

  lemma ByteCases(v: bv32)
    requires 0 < v < 0x1_0000
    ensures v & 0xFF00 == 0 ==> v < 256
    ensures v & 0xFF00 != 0 ==> 0 < v >> 8 < 256
  {
  }

  lemma HalfCases(v: bv32)
    requires v != 0
    ensures v & 0xFFFF0000 == 0 ==> v < 0x1_0000
    ensures v & 0xFFFF0000 != 0 ==> 0 < v >> 16 < 0x1_0000
  {
  }

  lemma FfsHalfLeads(v: bv32)
    requires 0 < v < 0x1_0000
    ensures Leads(v, 16 + FfsHalf(v)) && 1 <= FfsHalf(v) <= 16
  {
    hide FfsByte, Leads;
    ByteCases(v);
    if v & 0xFF00 == 0 {
      FfsByteLeads(v);
    } else {
      FfsByteLeads(v >> 8);
      LeadsShifted8(v, 24 + FfsByte(v >> 8));
    }
  }

  /** `bi_ffs` finds the first 1. */
  lemma BiFfsLeads(value: bv32)
    requires value != 0
    ensures Leads(value, BiFfs(value))
  {
    hide FfsHalf, Leads;
    HalfCases(value);
    if value & 0xFFFF0000 == 0 {
      FfsHalfLeads(value);
    } else {
      FfsHalfLeads(value >> 16);
      LeadsShifted16(value, 16 + FfsHalf(value >> 16));
    }
  }

  lemma BiFfsZero()
    ensures BiFfs(0) == 0
  {
  }

  // ---- Two words ----

  lemma PrefixStep(x: bv32, y: bv32, t: bv32)
    requires 1 <= t <= 32
    ensures Prefix(x, t) == Prefix(y, t) <==> Prefix(x, t - 1) == Prefix(y, t - 1) && Bit(x, t) == Bit(y, t)
  {
    hide Prefix, Bit, Half, Odd;
    PrefixHalf(x, t);
    PrefixHalf(y, t);
    HalfAndOdd(Prefix(x, t), Prefix(y, t));
  }

  lemma {:induction false} PrefixMonotone(x: bv32, y: bv32, d: bv32, e: bv32)
    requires d <= e <= 32 && Prefix(x, e) == Prefix(y, e)
    ensures Prefix(x, d) == Prefix(y, d)
    decreases e
  {
    hide Prefix, Bit;
    if d < e {
      PrefixStep(x, y, e);
      PrefixMonotone(x, y, d, e - 1);
    }
  }

  /** The difference of two words has a zero prefix exactly as far as they agree. */
  lemma {:induction false} PrefixXor(x: bv32, y: bv32, d: bv32)
    requires d <= 32
    ensures Prefix(x ^ y, d) == 0 <==> Prefix(x, d) == Prefix(y, d)
    decreases d
  {
    hide Prefix, Bit, Half, Odd;
    if d == 0 {
      PrefixEnds(x);
      PrefixEnds(y);
      PrefixEnds(x ^ y);
    } else {
      PrefixXor(x, y, d - 1);
      PrefixStep(x, y, d);
      BitXor(x, y, d);
      PrefixHalf(x ^ y, d);
      HalfAndOdd(Prefix(x ^ y, d), 0);
    }
  }

  lemma {:induction false} LeadsPrefix(u: bv32, r: bv32, d: bv32)
    requires Leads(u, r) && d <= 32
    ensures Prefix(u, d) == 0 <==> d < r
  {
    hide Prefix, Half, Odd, Bit;
    PrefixEnds(u);
    PrefixEnds(0);
    PrefixHalf(u, r);
    HalfAndOdd(0, 1);
    ZeroPrefix(r - 1);
    if d < r {
      PrefixMonotone(u, 0, d, r - 1);
      ZeroPrefix(d);
    } else if Prefix(u, d) == 0 {
      ZeroPrefix(d);
      PrefixMonotone(u, 0, r, d);
      ZeroPrefix(r);
    }
  }

  lemma ZeroPrefix(d: bv32)
    requires d <= 32
    ensures Prefix(0, d) == 0
  {
  }

  lemma FirstDiffFacts(x: bv32, y: bv32)
    ensures FirstDiff(x, y) == FirstDiff(y, x)
    ensures x == y <==> FirstDiff(x, y) == 0
    ensures x != y ==> 1 <= FirstDiff(x, y) <= 32
  {
    hide BiFfs, Prefix;
    XorFacts(x, y);
    BiFfsZero();
    if x != y {
      BiFfsLeads(x ^ y);
    }
  }

  lemma FirstDiffSymmetric(x: bv32, y: bv32)
    ensures FirstDiff(x, y) == FirstDiff(y, x)
    ensures FirstDiff(x, x) == 0
  {
    hide FirstDiff;
    FirstDiffFacts(x, y);
    FirstDiffFacts(x, x);
  }

  /** Two words agree on their first `d` bits exactly when they first differ later. */
  lemma PrefixVsFirstDiff(x: bv32, y: bv32, d: bv32)
    requires x != y && d <= 32
    ensures Prefix(x, d) == Prefix(y, d) <==> d < FirstDiff(x, y)
  {
    hide BiFfs, Leads, Prefix;
    XorFacts(x, y);
    BiFfsLeads(x ^ y);
    LeadsPrefix(x ^ y, FirstDiff(x, y), d);
    PrefixXor(x, y, d);
  }

  /** Bits up to the first difference agree, and that bit does not. */
  lemma BitVsFirstDiff(x: bv32, y: bv32, t: bv32)
    requires x != y && 1 <= t <= FirstDiff(x, y) <= 32
    ensures Bit(x, t) == Bit(y, t) <==> t < FirstDiff(x, y)
  {
    hide FirstDiff, Prefix, Bit;
    PrefixVsFirstDiff(x, y, t);
    PrefixVsFirstDiff(x, y, t - 1);
    PrefixStep(x, y, t);
  }

  /** First-difference positions form an ultrametric. */
  lemma Ultrametric(x: bv32, y: bv32, z: bv32)
    requires x != y && y != z && x != z
    ensures FirstDiff(x, y) < FirstDiff(y, z) ==> FirstDiff(x, z) == FirstDiff(x, y)
    ensures FirstDiff(x, y) > FirstDiff(y, z) ==> FirstDiff(x, z) == FirstDiff(y, z)
    ensures FirstDiff(x, y) == FirstDiff(y, z) ==> FirstDiff(x, z) > FirstDiff(x, y)
  {
    hide FirstDiff, Prefix, Bit;
    FirstDiffFacts(x, y);
    FirstDiffFacts(y, z);
    FirstDiffFacts(x, z);
    var r, s, t := FirstDiff(x, y), FirstDiff(y, z), FirstDiff(x, z);
    if r < s {
      FirstAt(x, y, z, r);
    } else if s < r {
      FirstAt(z, y, x, s);
    } else {
      PrefixVsFirstDiff(x, z, r);
      PrefixVsFirstDiff(x, y, r - 1);
      PrefixVsFirstDiff(y, z, r - 1);
      BitVsFirstDiff(x, y, r);
      BitVsFirstDiff(y, z, r);
      PrefixStep(x, z, r);
    }
  }

  /** If `y` follows `z` beyond the point `r` where it leaves `x`, then `z` leaves `x` there too. */
  lemma FirstAt(x: bv32, y: bv32, z: bv32, r: bv32)
    requires x != y && y != z && x != z
    requires 1 <= r <= 32 && FirstDiff(x, y) == r && r < FirstDiff(y, z)
    ensures FirstDiff(x, z) == r
  {
    hide FirstDiff, Prefix;
    PrefixVsFirstDiff(x, y, r);
    PrefixVsFirstDiff(y, z, r);
    PrefixVsFirstDiff(x, z, r);
    PrefixVsFirstDiff(x, y, r - 1);
    PrefixVsFirstDiff(y, z, r - 1);
    PrefixVsFirstDiff(x, z, r - 1);
  }

  // ---- Host and network order ----

  function Ntohl(x: bv32): bv32 {
    (x << 24) | ((x & 0xFF00) << 8) | ((x >> 8) & 0xFF00) | (x >> 24)
  }

  lemma NtohlInvolution(x: bv32)
    ensures Ntohl(Ntohl(x)) == x
  {
  }
}
