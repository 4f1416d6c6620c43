/** Networks whose first bits are to be kept: which outputs the random words leave possible, and
    when all of them agree with the rest of a table. */
module KeptNets {
  import opened Bits32
  import opened PrefixTable

  /** The first `bits` bits of `w`, the rest from the random word. */
  function KeepWord(w: bv32, bits: bv32, random: bv32): bv32
    requires bits < 32
  {
    (w & !(0xFFFF_FFFF >> bits)) | (random & (0xFFFF_FFFF >> bits))
  }

  lemma KeepWordPrefix(w: bv32, bits: bv32, random: bv32)
    requires bits < 32
    ensures Prefix(KeepWord(w, bits, random), bits) == Prefix(w, bits)
  {
  }

  /** Behind the bits that are kept every bit can come out either way. */
  lemma FreeBit(w: bv32, bits: bv32, t: bv32)
    requires bits < t <= 32
    ensures Bit(KeepWord(w, bits, 0xFFFF_FFFF), t) && !Bit(KeepWord(w, bits, 0), t)
  {
  }

  /** So no single output is the only one possible. */
  lemma AnotherOutput(w: bv32, bits: bv32, made: bv32)
    requires bits < 32
    ensures KeepWord(w, bits, 0) != made || KeepWord(w, bits, 0xFFFF_FFFF) != made
  {
    hide KeepWord, Bit;
    FreeBit(w, bits, 32);
  }

  /** Just the bits that are kept come out right whatever the random word. */
  lemma PrefixKeptExactly(w: bv32, bits: bv32, d: bv32)
    requires bits < 32 && d <= 32
    ensures d <= bits <==> forall random :: Prefix(KeepWord(w, bits, random), d) == Prefix(w, d)
  {
    hide KeepWord, Prefix, Bit;
    if d <= bits {
      forall random ensures Prefix(KeepWord(w, bits, random), d) == Prefix(w, d) {
        KeepWordPrefix(w, bits, random);
        PrefixMonotone(KeepWord(w, bits, random), w, d, bits);
      }
    } else {
      var random: bv32 := if Bit(w, d) then 0 else 0xFFFF_FFFF;
      FreeBit(w, bits, d);
      PrefixStep(KeepWord(w, bits, random), w, d);
    }
  }

  // ---- Two addresses ----

  /** The bits that are kept settle where `a` leaves `y`, and `oy` has not changed those of `y`. */
  ghost predicate Settled(a: bv32, y: bv32, oy: bv32, bits: bv32)
    requires bits < 32
  {
    FirstDiff(a, y) <= bits && Prefix(oy, FirstDiff(a, y)) == Prefix(y, FirstDiff(a, y))
  }

  lemma SettledKeeps(a: bv32, y: bv32, oy: bv32, bits: bv32, random: bv32)
    requires bits < 32 && a != y && Settled(a, y, oy, bits)
    ensures FirstDiff(KeepWord(a, bits, random), oy) == FirstDiff(a, y)
  {
    hide FirstDiff, Prefix, KeepWord;
    var d, o := FirstDiff(a, y), KeepWord(a, bits, random);
    FirstDiffFacts(a, y);
    KeepWordPrefix(a, bits, random);
    PrefixMonotone(o, a, d, bits);
    PrefixMonotone(o, a, d - 1, bits);
    PrefixMonotone(oy, y, d - 1, d);
    PrefixVsFirstDiff(a, y, d);
    PrefixVsFirstDiff(a, y, d - 1);
    LeaveAt(o, oy, d);
  }

  lemma LeaveAt(x: bv32, y: bv32, d: bv32)
    requires 1 <= d <= 32 && Prefix(x, d) != Prefix(y, d) && Prefix(x, d - 1) == Prefix(y, d - 1)
    ensures FirstDiff(x, y) == d
  {
    hide FirstDiff, Prefix;
    FirstDiffFacts(x, y);
    PrefixVsFirstDiff(x, y, d);
    PrefixVsFirstDiff(x, y, d - 1);
  }

  /** The word behind the kept bits that spoils the difference at `d`. */
  function Spoiler(oy: bv32, d: bv32): bv32
    requires 1 <= d <= 32
  {
    if Bit(oy, d) then 0xFFFF_FFFF else 0
  }

  lemma TooFewBits(a: bv32, y: bv32, oy: bv32, bits: bv32)
    requires bits < FirstDiff(a, y) <= 32
    ensures FirstDiff(KeepWord(a, bits, Spoiler(oy, FirstDiff(a, y))), oy) != FirstDiff(a, y)
  {
    hide FirstDiff, Prefix, Bit, KeepWord;
    var d := FirstDiff(a, y);
    var o := KeepWord(a, bits, Spoiler(oy, d));
    FreeBit(a, bits, d);
    FirstDiffFacts(o, oy);
    if o != oy && FirstDiff(o, oy) == d { BitVsFirstDiff(o, oy, d); }
  }

  lemma NotSettled(a: bv32, y: bv32, oy: bv32, bits: bv32, random: bv32)
    requires bits < 32 && a != y && FirstDiff(a, y) <= bits
    requires FirstDiff(KeepWord(a, bits, random), oy) == FirstDiff(a, y)
    ensures Settled(a, y, oy, bits)
  {
    hide FirstDiff, Prefix, Bit, KeepWord;
    var d, o := FirstDiff(a, y), KeepWord(a, bits, random);
    FirstDiffFacts(a, y);
    FirstDiffFacts(o, oy);
    KeepWordPrefix(a, bits, random);
    PrefixMonotone(o, a, d, bits);
    PrefixMonotone(o, a, d - 1, bits);
    PrefixVsFirstDiff(a, y, d - 1);
    PrefixVsFirstDiff(o, oy, d - 1);
    BitVsFirstDiff(a, y, d);
    BitVsFirstDiff(o, oy, d);
    PrefixStep(o, a, d);
    PrefixStep(oy, y, d);
  }

  /** Whatever the random word, the output leaves `oy` where `a` leaves `y`, if and only if that is
      settled. */
  lemma SettledExactly(a: bv32, y: bv32, oy: bv32, bits: bv32)
    requires bits < 32 && a != y
    ensures Settled(a, y, oy, bits) <==>
      forall random :: FirstDiff(KeepWord(a, bits, random), oy) == FirstDiff(a, y)
  {
    hide FirstDiff, Prefix, Bit, KeepWord, Settled, Spoiler;
    FirstDiffFacts(a, y);
    if Settled(a, y, oy, bits) {
      forall random ensures FirstDiff(KeepWord(a, bits, random), oy) == FirstDiff(a, y) {
        SettledKeeps(a, y, oy, bits, random);
      }
    } else if FirstDiff(a, y) <= bits {
      if FirstDiff(KeepWord(a, bits, 0), oy) == FirstDiff(a, y) { NotSettled(a, y, oy, bits, 0); }
    } else {
      TooFewBits(a, y, oy, bits);
    }
  }

  /** The output of a network that was kept itself settles it if and only if enough bits were. */
  lemma BothSettled(a: bv32, y: bv32, bitsY: bv32, bits: bv32)
    requires bitsY < 32 && bits < 32
    ensures FirstDiff(a, y) <= bitsY && FirstDiff(a, y) <= bits <==>
      forall random :: Settled(a, y, KeepWord(y, bitsY, random), bits)
  {
    hide FirstDiff, Prefix, KeepWord;
    FirstDiffFacts(a, y);
    PrefixKeptExactly(y, bitsY, FirstDiff(a, y));
    if FirstDiff(a, y) <= bits {
      forall random
        ensures Settled(a, y, KeepWord(y, bitsY, random), bits) <==>
          Prefix(KeepWord(y, bitsY, random), FirstDiff(a, y)) == Prefix(y, FirstDiff(a, y))
      {
      }
    } else {
      assert !Settled(a, y, KeepWord(y, bitsY, 0), bits);
    }
  }

  // ---- A table ----

  ghost predicate AllSettled(table: map<Addr, Addr>, a: Addr, bits: bv32)
    requires bits < 32
  {
    forall y :: y in table ==> Settled(a.w, y.w, table[y].w, bits)
  }

  lemma AllSettledExactly(table: map<Addr, Addr>, a: Addr, bits: bv32)
    requires bits < 32 && a !in table
    ensures AllSettled(table, a, bits) <==> forall random :: Agrees(table, a, KeepWord(a.w, bits, random))
  {
    hide FirstDiff, KeepWord, Settled;
    forall y | y in table
      ensures Settled(a.w, y.w, table[y].w, bits) <==>
        forall random :: FirstDiff(KeepWord(a.w, bits, random), table[y].w) == FirstDiff(a.w, y.w)
    {
      SettledExactly(a.w, y.w, table[y].w, bits);
    }
  }

  /** Writing over an answer keeps the promise if and only if the new one agrees with all others. */
  lemma RewriteExactly(table: map<Addr, Addr>, a: Addr, made: Addr, out: Addr)
    requires Preserving(table[a := made])
    ensures Preserving(table[a := out]) <==> Agrees(table - {a}, a, out.w)
  {
    hide FirstDiff, Preserving, Agrees;
    var rest := table - {a};
    assert table[a := out] == rest[a := out];
    if Agrees(rest, a, out.w) {
      RestPreserves(table, a, made);
      AgreesPreserves(rest, a, out.w);
    }
    if Preserving(rest[a := out]) {
      PreservingAgrees(rest, a, out);
    }
  }

  lemma PreservingAgrees(rest: map<Addr, Addr>, a: Addr, out: Addr)
    requires a !in rest && Preserving(rest[a := out])
    ensures Agrees(rest, a, out.w)
  {
    hide FirstDiff;
    var t := rest[a := out];
    forall y | y in rest
      ensures FirstDiff(out.w, rest[y].w) == FirstDiff(a.w, y.w)
    {
      assert a in t && y in t && t[y] == rest[y] && t[a] == out;
    }
  }

  lemma RestPreserves(table: map<Addr, Addr>, a: Addr, made: Addr)
    requires Preserving(table[a := made])
    ensures Preserving(table - {a})
  {
    hide FirstDiff;
    var t := table[a := made];
    assert forall x :: x in table - {a} ==> x in t && t[x] == (table - {a})[x];
  }
}
