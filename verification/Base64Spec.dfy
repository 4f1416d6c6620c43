/** Base64 (RFC 4648, section 4) as a function, and decoding as a machine that takes one
    character at a time and never waits for room. */
module Base64Spec {
  import opened Bytes

  const PAD: byte := 61

  /** 64 different ASCII characters, none of them the padding. */
  ghost predicate IsAlphabet(a: seq<byte>) {
    && |a| == 64
    && (forall i :: 0 <= i < 64 ==> a[i] < 128 && a[i] != PAD)
    && (forall i, j :: 0 <= i < j < 64 ==> a[i] != a[j])
  }

  // ---- Groups of three bytes, four sextets ----

  function Bits(a: byte, b: byte, c: byte): nat {
    a * 65536 + b * 256 + c
  }

  /** `bits >> 6 * k & 0x3f`. */
  function Sextet(bits: nat, k: nat): (x: nat)
    ensures x < 64
  {
    if k == 0 then bits % 64 else Sextet(bits / 64, k - 1)
  }

  function Unite(g: seq<nat>): nat
    requires |g| == 4
  {
    ((g[0] % 64 * 64 + g[1] % 64) * 64 + g[2] % 64) * 64 + g[3] % 64
  }

  function Octets(bits: nat): (s: seq<byte>)
    ensures |s| == 3
  {
    [bits / 256 / 256 % 256, bits / 256 % 256, bits % 256]
  }

  lemma Low6(q: nat, r: nat)
    requires r < 64
    ensures (q * 64 + r) / 64 == q && (q * 64 + r) % 64 == r
  {
  }

  lemma Low8(q: nat, r: nat)
    requires r < 256
    ensures (q * 256 + r) / 256 == q && (q * 256 + r) % 256 == r
  {
  }

  /** Where the bits of three bytes go. */
  lemma Sextets(a: byte, b: byte, c: byte)
    ensures var bits := Bits(a, b, c);
      && Sextet(bits, 3) == a / 4 && Sextet(bits, 2) == a % 4 * 16 + b / 16
      && Sextet(bits, 1) == b % 16 * 4 + c / 64 && Sextet(bits, 0) == c % 64
      && bits == ((Sextet(bits, 3) * 64 + Sextet(bits, 2)) * 64 + Sextet(bits, 1)) * 64 + Sextet(bits, 0)
  {
    SextetsOf(a / 4, a % 4, b / 16, b % 16, c / 64, c % 64);
  }

  lemma SextetsOf(a1: nat, a0: nat, b1: nat, b0: nat, c1: nat, c0: nat)
    requires a1 < 64 && a0 < 4 && b1 < 16 && b0 < 16 && c1 < 4 && c0 < 64
    ensures var bits := Bits(4 * a1 + a0, 16 * b1 + b0, 64 * c1 + c0);
      && Sextet(bits, 3) == a1 && Sextet(bits, 2) == a0 * 16 + b1 && Sextet(bits, 1) == b0 * 4 + c1
      && Sextet(bits, 0) == c0
      && bits == ((a1 * 64 + (a0 * 16 + b1)) * 64 + (b0 * 4 + c1)) * 64 + c0
  {
    hide Bits, Sextet;
    var s1, s2 := b0 * 4 + c1, a0 * 16 + b1;
    BitsOf(a1, a0, b1, b0, c1, c0);
    InSixes(a1, s2, s1, c0);
    FourSextets(((a1 * 64 + s2) * 64 + s1) * 64 + c0);
  }

  lemma BitsOf(a1: nat, a0: nat, b1: nat, b0: nat, c1: nat, c0: nat)
    requires a1 < 64 && a0 < 4 && b1 < 16 && b0 < 16 && c1 < 4 && c0 < 64
    ensures Bits(4 * a1 + a0, 16 * b1 + b0, 64 * c1 + c0) ==
      ((a1 * 64 + (a0 * 16 + b1)) * 64 + (b0 * 4 + c1)) * 64 + c0
  {
  }

  lemma InSixes(w: nat, x: nat, y: nat, z: nat)
    requires w < 64 && x < 64 && y < 64 && z < 64
    ensures var bits := ((w * 64 + x) * 64 + y) * 64 + z;
      bits % 64 == z && bits / 64 % 64 == y && bits / 64 / 64 % 64 == x && bits / 64 / 64 / 64 % 64 == w
  {
    Low6((w * 64 + x) * 64 + y, z);
    Low6(w * 64 + x, y);
    Low6(w, x);
  }

  lemma FourSextets(bits: nat)
    ensures Sextet(bits, 0) == bits % 64 && Sextet(bits, 1) == bits / 64 % 64
    ensures Sextet(bits, 2) == bits / 64 / 64 % 64 && Sextet(bits, 3) == bits / 64 / 64 / 64 % 64
  {
    assert Sextet(bits, 1) == Sextet(bits / 64, 0);
    assert Sextet(bits, 2) == Sextet(bits / 64, 1) == Sextet(bits / 64 / 64, 0);
    assert Sextet(bits, 3) == Sextet(bits / 64, 2) == Sextet(bits / 64 / 64, 1) == Sextet(bits / 64 / 64 / 64, 0);
  }

  lemma UniteSextets(a: byte, b: byte, c: byte)
    ensures var bits := Bits(a, b, c);
      && Unite([Sextet(bits, 3), Sextet(bits, 2), Sextet(bits, 1), Sextet(bits, 0)]) == bits
      && Octets(bits) == [a, b, c]
      && (c == 0 ==> Sextet(bits, 0) == 0)
      && (b == 0 && c == 0 ==> Sextet(bits, 1) == 0)
  {
    Sextets(a, b, c);
    OctetsOf(a, b, c);
    hide Sextet, Octets, Unite, Bits;
    var bits := Bits(a, b, c);
    UniteSmall(Sextet(bits, 3), Sextet(bits, 2), Sextet(bits, 1), Sextet(bits, 0));
  }

  lemma OctetsOf(a: byte, b: byte, c: byte)
    ensures Octets(Bits(a, b, c)) == [a, b, c]
  {
    Low8(a * 256 + b, c);
    Low8(a, b);
    assert Bits(a, b, c) == (a * 256 + b) * 256 + c;
  }

  lemma UniteSmall(w: nat, x: nat, y: nat, z: nat)
    requires w < 64 && x < 64 && y < 64 && z < 64
    ensures Unite([w, x, y, z]) == ((w * 64 + x) * 64 + y) * 64 + z
  {
  }

  /** How many groups there are, counting a last incomplete one. */
  function Groups(n: nat): nat {
    if n == 0 then 0 else if n <= 3 then 1 else 1 + Groups(n - 3)
  }

  lemma {:induction false} GroupsIs(n: nat)
    ensures Groups(n) == (n + 2) / 3
  {
    if n > 3 { GroupsIs(n - 3); }
  }

  /** The last group is incomplete. */
  predicate Ragged(n: nat) {
    if n <= 3 then n == 1 || n == 2 else Ragged(n - 3)
  }

  /** One group, with padding for the bytes that are missing. */
  function EncodeGroup(alphabet: seq<byte>, x: seq<byte>): (s: seq<byte>)
    requires |alphabet| == 64 && 1 <= |x| <= 3
    ensures |s| == 4
  {
    var bits := Bits(x[0], if |x| > 1 then x[1] else 0, if |x| > 2 then x[2] else 0);
    [alphabet[Sextet(bits, 3)], alphabet[Sextet(bits, 2)],
     if |x| == 1 then PAD else alphabet[Sextet(bits, 1)], if |x| <= 2 then PAD else alphabet[Sextet(bits, 0)]]
  }

  function Pads(n: nat): (s: seq<byte>)
    ensures |s| == n
  {
    seq(n, _ => PAD)
  }

  function First(x: seq<byte>): seq<byte> {
    if |x| <= 3 then x else x[..3]
  }

  function Rest(x: seq<byte>): seq<byte> {
    if |x| <= 3 then [] else x[3..]
  }

  function Encode(alphabet: seq<byte>, x: seq<byte>): (s: seq<byte>)
    requires |alphabet| == 64
    ensures |s| == Groups(|x|) * 4
    decreases |x|
  {
    hide EncodeGroup;
    if x == [] then [] else EncodeGroup(alphabet, First(x)) + Encode(alphabet, Rest(x))
  }

  // ---- Decoding ----

  datatype Decoder = Decoder(group: seq<nat>, padding: nat, after: bool, errored: nat)

  const FRESH := Decoder([], 0, false, 0)

  predicate Proper(d: Decoder) {
    |d.group| <= 4
  }

  ghost predicate IsTable(t: seq<int>, alphabet: seq<byte>) {
    && |t| == 256 && |alphabet| == 64
    && (forall i :: 0 <= i < 64 ==> t[alphabet[i]] == i)
    && t[PAD] == 0
    && (forall c: byte :: c !in alphabet && c != PAD ==> t[c] == -1)
  }

  /** A decoder and what it has put out. */
  datatype Out = Out(d: Decoder, bytes: seq<byte>)

  /** What a complete group is worth: nothing after padding, fewer bytes with padding. */
  function Worth(d: Decoder): (s: seq<byte>)
    requires Proper(d)
  {
    if |d.group| < 4 || d.after || d.padding > 3 then [] else Octets(Unite(d.group))[..3 - d.padding]
  }

  function Flushed(d: Decoder): (e: Decoder)
    requires Proper(d)
    ensures Proper(e) && |e.group| < 4
  {
    if |d.group| < 4 then d
    else if d.after then d.(group := [], errored := d.errored + 1)
    else d.(group := [], padding := 0, after := d.padding > 0)
  }

  function Push(t: seq<int>, d: Decoder, c: byte): (e: Decoder)
    requires |t| == 256 && |d.group| < 4
    ensures Proper(e)
  {
    var p := if c == PAD then d.padding + 1 else d.padding;
    if t[c] >= 0 then d.(padding := p, group := d.group + [t[c]]) else d.(padding := p, errored := d.errored + 1)
  }

  function Feed(t: seq<int>, d: Decoder, s: seq<byte>): (o: Out)
    requires |t| == 256 && |d.group| < 4
    ensures |o.d.group| < 4
    decreases |s|
  {
    if s == [] then Out(d, [])
    else
      var e := Push(t, d, s[0]);
      var o := Feed(t, Flushed(e), s[1..]);
      Out(o.d, Worth(e) + o.bytes)
  }

  lemma {:induction false} FeedConcat(t: seq<int>, d: Decoder, a: seq<byte>, b: seq<byte>)
    requires |t| == 256 && |d.group| < 4
    ensures var o := Feed(t, d, a);
      Feed(t, d, a + b) == Out(Feed(t, o.d, b).d, o.bytes + Feed(t, o.d, b).bytes)
    decreases |a|
  {
    hide Push, Worth, Flushed;
    if a == [] {
      assert a + b == b;
    } else {
      var e := Push(t, d, a[0]);
      FeedConcat(t, Flushed(e), a[1..], b);
      assert (a + b)[1..] == a[1..] + b;
    }
  }

  lemma PushGroup(t: seq<int>, alphabet: seq<byte>, x: seq<byte>)
    requires IsTable(t, alphabet) && IsAlphabet(alphabet) && 1 <= |x| <= 3
    ensures var s := EncodeGroup(alphabet, x);
      var d1 := Push(t, FRESH, s[0]);
      && |d1.group| == 1
      && var d2 := Push(t, d1, s[1]);
      && |d2.group| == 2
      && var d3 := Push(t, d2, s[2]);
      && |d3.group| == 3
      && var d4 := Push(t, d3, s[3]);
      && |d4.group| == 4 && Worth(d4) == x && Flushed(d4) == FRESH.(after := |x| < 3)
  {
    var s := EncodeGroup(alphabet, x);
    var b, c := if |x| > 1 then x[1] else 0, if |x| > 2 then x[2] else 0;
    var bits := Bits(x[0], b, c);
    UniteSextets(x[0], b, c);
    hide Unite, Octets, Sextet, Bits;
    var d4 := Push(t, Push(t, Push(t, Push(t, FRESH, s[0]), s[1]), s[2]), s[3]);
    assert d4.group == [Sextet(bits, 3), Sextet(bits, 2), Sextet(bits, 1), Sextet(bits, 0)];
  }

  /** An encoded group puts out the bytes it was made from. */
  lemma FeedGroup(t: seq<int>, alphabet: seq<byte>, x: seq<byte>)
    requires IsTable(t, alphabet) && IsAlphabet(alphabet) && 1 <= |x| <= 3
    ensures Feed(t, FRESH, EncodeGroup(alphabet, x)) == Out(FRESH.(after := |x| < 3), x)
  {
    var s := EncodeGroup(alphabet, x);
    PushGroup(t, alphabet, x);
    hide EncodeGroup, Push, Unite, Octets, IsTable, IsAlphabet;
    var d1 := Push(t, FRESH, s[0]);
    var d2 := Push(t, d1, s[1]);
    var d3 := Push(t, d2, s[2]);
    var d4 := Push(t, d3, s[3]);
    assert s[1..][0] == s[1] && s[1..][1..] == s[2..] && s[2..][0] == s[2] && s[2..][1..] == s[3..];
    assert s[3..][0] == s[3] && s[3..][1..] == [];
    assert Feed(t, Flushed(d4), []) == Out(Flushed(d4), []);
    assert Feed(t, d3, s[3..]) == Out(Flushed(d4), Worth(d4) + []);
    assert Feed(t, d2, s[2..]) == Out(Flushed(d4), [] + (Worth(d4) + []));
    assert Feed(t, d1, s[1..]) == Out(Flushed(d4), [] + ([] + (Worth(d4) + [])));
  }

  /** Decoding undoes encoding. */
  lemma {:induction false} FeedEncoded(t: seq<int>, alphabet: seq<byte>, x: seq<byte>)
    requires IsTable(t, alphabet) && IsAlphabet(alphabet)
    ensures Feed(t, FRESH, Encode(alphabet, x)) == Out(FRESH.(after := Ragged(|x|)), x)
    decreases |x|
  {
    if x == [] {
    } else if |x| <= 3 {
      FeedGroup(t, alphabet, x);
      assert Encode(alphabet, x) == EncodeGroup(alphabet, x);
    } else {
      hide EncodeGroup, IsTable, IsAlphabet, Feed;
      FeedGroup(t, alphabet, x[..3]);
      FeedConcat(t, FRESH, EncodeGroup(alphabet, x[..3]), Encode(alphabet, x[3..]));
      FeedEncoded(t, alphabet, x[3..]);
      assert x == x[..3] + x[3..];
    }
  }
}
