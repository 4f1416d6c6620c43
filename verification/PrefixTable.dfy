/** What a prefix-preserving anonymizer promises, apart from how it stores its answers:
    a table of input and output addresses in which any two outputs first differ in the
    bit in which their inputs first differ. */
module PrefixTable {
  import opened Bits32

  /** An IPv4 address in host order. */
  datatype Addr = Addr(w: bv32)

  ghost predicate Preserving(table: map<Addr, Addr>) {
    forall x, y :: x in table && y in table ==> FirstDiff(table[x].w, table[y].w) == FirstDiff(x.w, y.w)
  }

  /** Bits before `swivel` are those of `base`, bit `swivel` is flipped, the rest comes
      from the random word. */
  function MakeOutput(base: bv32, swivel: bv32, random: bv32): bv32
    requires 1 <= swivel <= 32
  {
    if swivel == 32 then base ^ 1 else KnownPart(base, swivel) | ((random & 0x7FFF_FFFF) >> swivel)
  }

  function KnownPart(base: bv32, swivel: bv32): bv32
    requires 1 <= swivel < 32
  {
    ((base >> (32 - swivel)) ^ 1) << (32 - swivel)
  }

  lemma KnownPartPrefix(base: bv32, s: bv32, random: bv32)
    requires 1 <= s < 32
    ensures Prefix(KnownPart(base, s) | ((random & 0x7FFF_FFFF) >> s), s) == Prefix(base, s) ^ 1
  {
  }

  lemma MakeOutputPrefix(base: bv32, swivel: bv32, random: bv32)
    requires 1 <= swivel <= 32
    ensures Prefix(MakeOutput(base, swivel, random), swivel) == Prefix(base, swivel) ^ 1
  {
    hide Prefix, KnownPart;
    if swivel == 32 {
      PrefixEnds(base);
      PrefixEnds(base ^ 1);
    } else {
      KnownPartPrefix(base, swivel, random);
    }
  }

  lemma FlipLast(p: bv32)
    ensures Half(p ^ 1) == Half(p) && Odd(p ^ 1) != Odd(p)
  {
  }

  /** Whatever the random word, the new output leaves the old one exactly at `swivel`. */
  lemma MakeOutputDiffers(base: bv32, swivel: bv32, random: bv32)
    requires 1 <= swivel <= 32
    ensures FirstDiff(base, MakeOutput(base, swivel, random)) == swivel
  {
    hide MakeOutput, Prefix, Bit, Half, Odd, FirstDiff;
    var out := MakeOutput(base, swivel, random);
    MakeOutputPrefix(base, swivel, random);
    FlipLast(Prefix(base, swivel));
    PrefixHalf(base, swivel);
    PrefixHalf(out, swivel);
    assert base != out && Prefix(base, swivel - 1) == Prefix(out, swivel - 1);
    PrefixStep(base, out, swivel);
    FirstDiffFacts(base, out);
    PrefixVsFirstDiff(base, out, swivel);
    PrefixVsFirstDiff(base, out, swivel - 1);
  }

  /** `z` is a nearest neighbour of `a` in the table: nothing shares more leading bits. */
  ghost predicate Nearest(table: map<Addr, Addr>, a: Addr, z: Addr) {
    && z in table && a !in table
    && forall y :: y in table ==> FirstDiff(a.w, y.w) <= FirstDiff(a.w, z.w)
  }

  /** The heart of it: `a` is at least as near to `z` as to `y`, the new output `o` leaves
      that of `z` where `a` leaves `z`, so `o` leaves that of `y` where `a` leaves `y`. */
  lemma ThreeWords(a: bv32, z: bv32, y: bv32, o: bv32, oz: bv32, oy: bv32)
    requires a != z && a != y
    requires FirstDiff(oz, o) == FirstDiff(a, z)
    requires FirstDiff(oz, oy) == FirstDiff(z, y)
    requires FirstDiff(a, y) <= FirstDiff(a, z)
    ensures FirstDiff(o, oy) == FirstDiff(a, y)
  {
    hide FirstDiff;
    FirstDiffFacts(a, z);
    FirstDiffFacts(a, y);
    FirstDiffFacts(z, y);
    FirstDiffFacts(oz, o);
    FirstDiffFacts(oz, oy);
    FirstDiffFacts(o, oy);
    if y != z {
      Ultrametric(a, z, y);
      Ultrametric(z, a, y);
      assert o != oy;
      Ultrametric(o, oz, oy);
    }
  }

  ghost predicate Agrees(table: map<Addr, Addr>, a: Addr, o: bv32) {
    forall y :: y in table ==> FirstDiff(o, table[y].w) == FirstDiff(a.w, y.w)
  }

  lemma NewAgrees(table: map<Addr, Addr>, a: Addr, z: Addr, random: bv32)
    requires Preserving(table) && Nearest(table, a, z)
    ensures 1 <= FirstDiff(a.w, z.w) <= 32
    ensures Agrees(table, a, MakeOutput(table[z].w, FirstDiff(a.w, z.w), random))
  {
    assert z in table && a != z;
    hide FirstDiff, MakeOutput, Preserving, Nearest;
    FirstDiffFacts(a.w, z.w);
    var o := MakeOutput(table[z].w, FirstDiff(a.w, z.w), random);
    MakeOutputDiffers(table[z].w, FirstDiff(a.w, z.w), random);
    forall y | y in table
      ensures FirstDiff(o, table[y].w) == FirstDiff(a.w, y.w)
    {
      NewAgreesAt(table, a, z, o, y);
    }
  }

  lemma NewAgreesAt(table: map<Addr, Addr>, a: Addr, z: Addr, o: bv32, y: Addr)
    requires Preserving(table) && Nearest(table, a, z) && y in table
    requires FirstDiff(table[z].w, o) == FirstDiff(a.w, z.w)
    ensures FirstDiff(o, table[y].w) == FirstDiff(a.w, y.w)
  {
    hide FirstDiff;
    ThreeWords(a.w, z.w, y.w, o, table[z].w, table[y].w);
  }

  lemma AgreesPreserves(table: map<Addr, Addr>, a: Addr, o: bv32)
    requires Preserving(table) && Agrees(table, a, o) && a !in table
    ensures Preserving(table[a := Addr(o)])
  {
    hide FirstDiff, Agrees, Preserving;
    var table' := table[a := Addr(o)];
    hide PairKept;
    forall x, y | x in table' && y in table'
      ensures PairKept(table', x, y)
    {
      AgreesPair(table, a, o, x, y);
    }
    PreservingIs(table');
  }

  ghost predicate PairKept(table: map<Addr, Addr>, x: Addr, y: Addr)
    requires x in table && y in table
  {
    FirstDiff(table[x].w, table[y].w) == FirstDiff(x.w, y.w)
  }

  lemma PreservingIs(table: map<Addr, Addr>)
    requires forall x, y :: x in table && y in table ==> PairKept(table, x, y)
    ensures Preserving(table)
  {
    hide FirstDiff;
  }

  lemma AgreesPair(table: map<Addr, Addr>, a: Addr, o: bv32, x: Addr, y: Addr)
    requires Preserving(table) && Agrees(table, a, o) && x in table[a := Addr(o)] && y in table[a := Addr(o)]
    ensures PairKept(table[a := Addr(o)], x, y)
  {
    hide FirstDiff, Agrees;
    var table' := table[a := Addr(o)];
    assert x != a ==> table'[x] == table[x];
    assert y != a ==> table'[y] == table[y];
    if x == a {
      AgreesAt(table, a, o, y);
    } else if y == a {
      AgreesAt(table, a, o, x);
      FirstDiffSymmetric(x.w, a.w);
      FirstDiffSymmetric(table'[x].w, o);
    }
  }

  lemma AgreesAt(table: map<Addr, Addr>, a: Addr, o: bv32, y: Addr)
    requires Agrees(table, a, o) && y in table[a := Addr(o)]
    ensures FirstDiff(o, table[a := Addr(o)][y].w) == FirstDiff(a.w, y.w)
  {
    hide FirstDiff;
    FirstDiffSymmetric(a.w, a.w);
    FirstDiffSymmetric(o, o);
  }

  /** Adding an address whose output was made from that of a nearest neighbour keeps the
      promise towards every other entry, whatever the random word. */
  lemma ExtendPreserves(table: map<Addr, Addr>, a: Addr, z: Addr, random: bv32)
    requires Preserving(table) && Nearest(table, a, z)
    ensures 1 <= FirstDiff(a.w, z.w) <= 32
    ensures Preserving(table[a := Addr(MakeOutput(table[z].w, FirstDiff(a.w, z.w), random))])
  {
    hide FirstDiff, MakeOutput, Preserving;
    NewAgrees(table, a, z, random);
    AgreesPreserves(table, a, MakeOutput(table[z].w, FirstDiff(a.w, z.w), random));
  }

  /** The promise makes the mapping injective. */
  lemma PreservingInjective(table: map<Addr, Addr>, x: Addr, y: Addr)
    requires Preserving(table) && x in table && y in table && table[x] == table[y]
    ensures x == y
  {
    hide FirstDiff;
    FirstDiffFacts(x.w, y.w);
    FirstDiffFacts(table[x].w, table[y].w);
  }

  /** If one address keeps its first `k` bits, so does every address sharing them. */
  lemma NetKeepsPrefix(table: map<Addr, Addr>, net: Addr, a: Addr, k: bv32)
    requires Preserving(table) && net in table && a in table && k <= 32
    requires Prefix(table[net].w, k) == Prefix(net.w, k) && Prefix(a.w, k) == Prefix(net.w, k)
    ensures Prefix(table[a].w, k) == Prefix(a.w, k)
  {
    hide FirstDiff, Prefix;
    if a != net {
      FirstDiffFacts(a.w, net.w);
      FirstDiffFacts(table[a].w, table[net].w);
      PrefixVsFirstDiff(a.w, net.w, k);
      PrefixVsFirstDiff(table[a].w, table[net].w, k);
    }
  }
}
