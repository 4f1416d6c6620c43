/** `AnonymizeIPAddr_PrefixMD5`: every bit is flipped or kept according to a keyed hash of
    the bits before it.  The hash is an arbitrary function of the padded prefix. */
module PrefixMd5 {
  import opened Bits32

  type Word = bv32

  /** LSB(HMAC-MD5(len, prefix)). */
  type Hash = (bv32, bv32) -> bool

  /** The first `i` bits of `x` with a 1 after them and zeros up to the full width. */
  function Padded(x: Word, i: bv32): bv32
    requires i < 32
  {
    (x & !(0xFFFF_FFFF >> i)) | (1 << (31 - i))
  }

  /** Flips bit `i`, counted from 0, if the hash says so. */
  function Flip(o: Word, b: bool, i: bv32): Word
    requires i < 32
  {
    o ^ ((if b then 1 else 0) << (31 - i))
  }

  function HashBit(h: Hash, x: Word, i: bv32): bool
    requires i < 32
  {
    h(i + 1, Padded(x, i))
  }

  /** The loop's `output` after `i` rounds. */
  function Rounds(h: Hash, x: Word, i: bv32): Word
    requires i <= 32
    decreases i
  {
    if i == 0 then x else Flip(Rounds(h, x, i - 1), HashBit(h, x, i - 1), i - 1)
  }

  method Anonymize(h: Hash, input: Word) returns (output: Word)
    ensures output == Ntohl(Rounds(h, Ntohl(input), 32))
  {
    var x := Ntohl(input);
    output := x;
    var i: bv32 := 0;
    while i < 32
      invariant i <= 32 && output == Rounds(h, x, i)
      decreases 32 - i
    {
      output := Flip(output, HashBit(h, x, i), i);
      i := i + 1;
    }
    output := Ntohl(output);
  }

  // ---- Bit-vector facts ----

  lemma PaddedDependsOnPrefix(x: Word, y: Word, i: bv32)
    requires i < 32 && Prefix(x, i) == Prefix(y, i)
    ensures Padded(x, i) == Padded(y, i)
  {
    hide Prefix;
    Masked(x, i);
    Masked(y, i);
  }

  /** Clearing the other bits leaves the prefix, moved back to its place. */
  lemma Masked(x: Word, i: bv32)
    requires i < 32
    ensures x & !(0xFFFF_FFFF >> i) == Prefix(x, i) << (32 - i)
  {
  }

  lemma FlipBit(o: Word, b: bool, i: bv32, t: bv32)
    requires i < 32 && 1 <= t <= 32
    ensures Bit(Flip(o, b, i), t) == (Bit(o, t) != (b && t == i + 1))
  {
    hide Bit, Flip;
    if b { Flipped(o, i, t); } else { NotFlipped(o, i); }
  }

  lemma Flipped(o: Word, i: bv32, t: bv32)
    requires i < 32 && 1 <= t <= 32
    ensures Bit(Flip(o, true, i), t) == (Bit(o, t) != (t == i + 1))
  {
  }

  lemma NotFlipped(o: Word, i: bv32)
    requires i < 32
    ensures Flip(o, false, i) == o
  {
  }

  /** What `x` becomes when the difference between `w` and `y` is applied to it. */
  function Carry(x: Word, w: Word, y: Word): Word {
    x ^ (w ^ y)
  }

  lemma CarryFacts(x: Word, w: Word, y: Word, b: bool, i: bv32)
    requires i < 32
    ensures Flip(Carry(x, w, y), b, i) == Carry(x, Flip(w, b, i), y)
    ensures Carry(x, y, y) == x && Carry(x, x, y) == y
  {
  }

  // ---- What one anonymization does to each bit ----

  /** Output bit `t` is input bit `t`, flipped by the hash of the bits before it. */
  lemma {:induction false} RoundsBit(h: Hash, x: Word, i: bv32, t: bv32)
    requires i <= 32 && 1 <= t <= 32
    ensures Bit(Rounds(h, x, i), t) == (Bit(x, t) != (t <= i && HashBit(h, x, t - 1)))
    decreases i
  {
    hide Bit, HashBit, Flip;
    if i > 0 {
      RoundsBit(h, x, i - 1, t);
      FlipBit(Rounds(h, x, i - 1), HashBit(h, x, i - 1), i - 1, t);
    }
  }

  lemma HashBitDependsOnPrefix(h: Hash, x: Word, y: Word, i: bv32)
    requires i < 32 && Prefix(x, i) == Prefix(y, i)
    ensures HashBit(h, x, i) == HashBit(h, y, i)
  {
    hide Padded, Prefix;
    PaddedDependsOnPrefix(x, y, i);
  }

  /** Bits before which two inputs agree come out alike exactly if they went in alike. */
  lemma SamePrefixSameFlip(h: Hash, x: Word, y: Word, t: bv32)
    requires 1 <= t <= 32 && Prefix(x, t - 1) == Prefix(y, t - 1)
    ensures Bit(Rounds(h, x, 32), t) == Bit(Rounds(h, y, 32), t) <==> Bit(x, t) == Bit(y, t)
  {
    hide Bit, HashBit, Rounds, Prefix;
    RoundsBit(h, x, 32, t);
    RoundsBit(h, y, 32, t);
    HashBitDependsOnPrefix(h, x, y, t - 1);
  }

  lemma {:induction false} SamePrefix(h: Hash, x: Word, y: Word, d: bv32)
    requires d <= 32
    ensures Prefix(x, d) == Prefix(y, d) <==> Prefix(Rounds(h, x, 32), d) == Prefix(Rounds(h, y, 32), d)
    decreases d
  {
    hide Bit, Rounds, Prefix;
    if d == 0 {
      PrefixEnds(x);
      PrefixEnds(y);
      PrefixEnds(Rounds(h, x, 32));
      PrefixEnds(Rounds(h, y, 32));
    } else {
      SamePrefix(h, x, y, d - 1);
      PrefixStep(x, y, d);
      PrefixStep(Rounds(h, x, 32), Rounds(h, y, 32), d);
      if Prefix(x, d - 1) == Prefix(y, d - 1) {
        SamePrefixSameFlip(h, x, y, d);
      }
    }
  }

  /** For every hash and every two addresses, the outputs share exactly as many leading
      bits as the inputs. */
  lemma PreservesFirstDiff(h: Hash, x: Word, y: Word)
    ensures FirstDiff(Rounds(h, x, 32), Rounds(h, y, 32)) == FirstDiff(x, y)
  {
    hide Rounds, FirstDiff, Prefix;
    var ox, oy := Rounds(h, x, 32), Rounds(h, y, 32);
    SamePrefix(h, x, y, 32);
    PrefixEnds(x);
    PrefixEnds(y);
    PrefixEnds(ox);
    PrefixEnds(oy);
    FirstDiffFacts(x, y);
    FirstDiffFacts(ox, oy);
    if x != y {
      var t := FirstDiff(x, y);
      SamePrefix(h, x, y, t);
      SamePrefix(h, x, y, t - 1);
      PrefixVsFirstDiff(x, y, t);
      PrefixVsFirstDiff(x, y, t - 1);
      PrefixVsFirstDiff(ox, oy, t);
      PrefixVsFirstDiff(ox, oy, t - 1);
    }
  }

  // ---- It is a bijection ----

  /** Undoes the flips from the first bit on: the bits recovered so far are the prefix the
      next flip was computed from. */
  function Unrounds(h: Hash, y: Word, i: bv32): Word
    requires i <= 32
    decreases i
  {
    if i == 0 then y
    else
      var x := Unrounds(h, y, i - 1);
      Flip(x, HashBit(h, x, i - 1), i - 1)
  }

  lemma {:induction false} FlipKeepsPrefix(x: Word, b: bool, k: bv32, i: bv32)
    requires i <= k < 32
    ensures Prefix(Flip(x, b, k), i) == Prefix(x, i)
    decreases i
  {
    hide Prefix, Flip, Bit;
    if i == 0 {
      PrefixEnds(x);
      PrefixEnds(Flip(x, b, k));
    } else {
      FlipKeepsPrefix(x, b, k, i - 1);
      FlipBit(x, b, k, i);
      PrefixStep(x, Flip(x, b, k), i);
    }
  }

  lemma {:induction false} RecoveredBitsStay(h: Hash, y: Word, i: bv32, j: bv32)
    requires i <= j <= 32
    ensures Prefix(Unrounds(h, y, i), i) == Prefix(Unrounds(h, y, j), i)
    decreases j
  {
    hide Prefix, Flip, HashBit;
    if i < j {
      var x := Unrounds(h, y, j - 1);
      RecoveredBitsStay(h, y, i, j - 1);
      FlipKeepsPrefix(x, HashBit(h, x, j - 1), j - 1, i);
    }
  }

  lemma {:induction false} RoundsOfUnrounds(h: Hash, y: Word, x: Word, i: bv32)
    requires i <= 32 && x == Unrounds(h, y, 32)
    ensures Rounds(h, x, i) == Carry(x, Unrounds(h, y, i), y)
    decreases i
  {
    hide Flip, HashBit, Prefix, Carry;
    if i == 0 {
      CarryFacts(x, x, y, true, 0);
    } else {
      var w := Unrounds(h, y, i - 1);
      RoundsOfUnrounds(h, y, x, i - 1);
      RecoveredBitsStay(h, y, i - 1, 32);
      HashBitDependsOnPrefix(h, x, w, i - 1);
      CarryFacts(x, w, y, HashBit(h, w, i - 1), i - 1);
    }
  }

  /** Every address is the output of exactly one address. */
  lemma Bijection(h: Hash, x: Word, y: Word)
    ensures Rounds(h, Unrounds(h, y, 32), 32) == y
    ensures Unrounds(h, Rounds(h, x, 32), 32) == x
  {
    hide Rounds, Unrounds, FirstDiff, Carry;
    UndoneByRounds(h, y);
    var o := Rounds(h, x, 32);
    UndoneByRounds(h, o);
    PreservesFirstDiff(h, x, Unrounds(h, o, 32));
    FirstDiffFacts(o, o);
    FirstDiffFacts(x, Unrounds(h, o, 32));
  }

  lemma UndoneByRounds(h: Hash, y: Word)
    ensures Rounds(h, Unrounds(h, y, 32), 32) == y
  {
    hide Rounds, Unrounds, Carry;
    var x := Unrounds(h, y, 32);
    RoundsOfUnrounds(h, y, x, 32);
    CarryFacts(x, x, y, true, 0);
  }
}
