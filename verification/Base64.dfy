/** `Base64Converter`, whose decoder can be stopped anywhere, and the client's own encoder. */
module Base64 {
  import opened Bytes
  import opened Base64Spec

  // ---- Encoding ----

  /** What is left to encode from position `i` on; `i` may have run past the end. */
  function From(data: seq<byte>, i: nat): seq<byte> {
    if i < |data| then data[i..] else []
  }

  /** The group that begins at position `i`. */
  function GroupAt(alphabet: seq<byte>, data: seq<byte>, i: nat): (s: seq<byte>)
    requires |alphabet| == 64 && i < |data|
    ensures |s| == 4
  {
    EncodeGroup(alphabet, First(From(data, i)))
  }

  lemma EncodeStep(alphabet: seq<byte>, data: seq<byte>, i: nat)
    requires |alphabet| == 64 && i < |data|
    ensures Encode(alphabet, From(data, i)) == GroupAt(alphabet, data, i) + Encode(alphabet, From(data, i + 3))
    ensures Groups(|From(data, i)|) == 1 + Groups(|From(data, i + 3)|)
  {
    hide EncodeGroup;
    assert Rest(From(data, i)) == From(data, i + 3);
  }

  function ByteAt(data: seq<byte>, i: nat): byte {
    if i < |data| then data[i] else 0
  }

  method NextGroup(alphabet: seq<byte>, data: seq<byte>, i0: nat) returns (group: seq<byte>)
    requires |alphabet| == 64 && i0 < |data|
    ensures group == GroupAt(alphabet, data, i0)
  {
    hide Sextet, Bits;
    var bits := Bits(data[i0], ByteAt(data, i0 + 1), ByteAt(data, i0 + 2));
    var i := i0 + 3;
    group := [alphabet[Sextet(bits, 3)], alphabet[Sextet(bits, 2)],
      if i == |data| + 2 then PAD else alphabet[Sextet(bits, 1)],
      if i >= |data| + 1 then PAD else alphabet[Sextet(bits, 0)]];
  }

  /** `Encode`, into a buffer of the caller's, whose length is a multiple of 4, or a new one. */
  method EncodeInto(alphabet: seq<byte>, data: seq<byte>, room: Option<nat>) returns (buf: seq<byte>)
    requires |alphabet| == 64 && (room.Some? ==> room.value % 4 == 0)
    ensures buf <= Encode(alphabet, data)
    ensures |buf| == if room.Some? && room.value < Groups(|data|) * 4 then room.value else Groups(|data|) * 4
  {
    var blen := if room.Some? then room.value else (|data| + 2) / 3 * 4;
    GroupsIs(|data|);
    ghost var total := InFours(blen);
    buf := EncodeGroups(alphabet, data, blen, total);
  }

  method EncodeGroups(alphabet: seq<byte>, data: seq<byte>, blen: nat, ghost total: nat) returns (buf: seq<byte>)
    requires |alphabet| == 64 && blen == 4 * total
    ensures buf <= Encode(alphabet, data) && |buf| == if total < Groups(|data|) then blen else Groups(|data|) * 4
  {
    buf := [];
    var i := 0;
    ghost var k := 0;
    assert From(data, 0) == data && buf + Encode(alphabet, data) == Encode(alphabet, data);
    hide GroupAt, Encode, From, Groups;
    while i < |data| && |buf| < blen
      invariant |buf| == 4 * k && k <= total && k + Groups(|From(data, i)|) == Groups(|data|)
      invariant buf + Encode(alphabet, From(data, i)) == Encode(alphabet, data)
      decreases |data| - i
    {
      EncodeStep(alphabet, data, i);
      var group := NextGroup(alphabet, data, i);
      AppendAssoc(buf, group, Encode(alphabet, From(data, i + 3)));
      buf := buf + group;
      i := i + 3;
      k := k + 1;
    }
    if i >= |data| {
      NothingLeft(alphabet, data, i);
    } else {
      EncodeStep(alphabet, data, i);
    }
    EncodePrefix(buf, Encode(alphabet, From(data, i)), Encode(alphabet, data));
  }

  lemma InFours(n: nat) returns (k: nat)
    requires n % 4 == 0
    ensures n == 4 * k
  {
    k := n / 4;
  }

  lemma EncodePrefix(a: seq<byte>, b: seq<byte>, c: seq<byte>)
    requires a + b == c
    ensures a <= c
  {
  }

  /** Upper-case letters, lower-case letters, digits, plus sign and slash. */
  function DefaultCharacter(i: nat): byte
    requires i < 64
  {
    if i < 26 then i + 65
    else if i < 52 then i - 26 + 97
    else if i < 62 then i - 52 + 48
    else if i == 62 then 43 else 47
  }

  const DEFAULT_ALPHABET: seq<byte> := seq(64, i requires 0 <= i < 64 => DefaultCharacter(i))

  lemma DefaultIsAlphabet()
    ensures IsAlphabet(DEFAULT_ALPHABET)
  {
    forall i, j | 0 <= i < j < 64
      ensures DEFAULT_ALPHABET[i] != DEFAULT_ALPHABET[j]
    {
      assert DefaultCharacter(i) != DefaultCharacter(j);
    }
  }

  /** The four characters of a group before any padding is put in. */
  function RawGroup(alphabet: seq<byte>, data: seq<byte>, i: nat): (s: seq<byte>)
    requires |alphabet| == 64
    ensures |s| == 4
  {
    var bits := Bits(ByteAt(data, i), ByteAt(data, i + 1), ByteAt(data, i + 2));
    [alphabet[Sextet(bits, 3)], alphabet[Sextet(bits, 2)], alphabet[Sextet(bits, 1)], alphabet[Sextet(bits, 0)]]
  }

  lemma RawGroupIs(alphabet: seq<byte>, data: seq<byte>, i: nat)
    requires |alphabet| == 64 && i < |data|
    ensures var g, r := GroupAt(alphabet, data, i), RawGroup(alphabet, data, i);
      g == if |data| - i == 1 then r[..2] + [PAD, PAD] else if |data| - i == 2 then r[..3] + [PAD] else r
  {
    hide Sextet, Bits;
  }

  /** Overwrites the last characters with padding, one after the other. */
  method PadEnd(buf0: seq<byte>, remainder: nat) returns (buf: seq<byte>)
    requires 1 <= remainder <= 2 && |buf0| >= 4
    ensures buf == buf0[..|buf0| - (3 - remainder)] + Pads(3 - remainder)
  {
    buf := buf0;
    var j := remainder;
    var n := |buf0|;
    while j < 3
      invariant remainder <= j <= 3 && |buf| == n
      invariant forall i :: 0 <= i < n ==> buf[i] == if n - 3 + remainder <= i < n - 3 + j then PAD else buf0[i]
    {
      buf := buf[|buf| - (3 - j) := PAD];
      j := j + 1;
    }
  }

  /** The client's encoder, which overwrites the end with padding afterwards, gives the same. */
  method EncodeClient(data: seq<byte>) returns (buf: seq<byte>)
    ensures buf == Encode(DEFAULT_ALPHABET, data)
  {
    var alphabet := DEFAULT_ALPHABET;
    var remainder := |data| % 3;
    var last: nat;
    ghost var done;
    buf, last, done := EncodeRaw(alphabet, data, |data| / 3, remainder);
    if remainder > 0 {
      hide GroupAt, Encode, RawGroup;
      RawGroupIs(alphabet, data, last);
      PaddedEnd(done, RawGroup(alphabet, data, last), remainder);
      buf := PadEnd(buf, remainder);
    }
  }

  lemma RawStep(alphabet: seq<byte>, data: seq<byte>, i: nat, buf: seq<byte>)
    requires |alphabet| == 64 && i < |data| && buf + Encode(alphabet, From(data, i)) == Encode(alphabet, data)
    ensures i + 3 <= |data| ==>
      buf + RawGroup(alphabet, data, i) + Encode(alphabet, From(data, i + 3)) == Encode(alphabet, data)
    ensures i + 3 > |data| ==> Encode(alphabet, data) == buf + GroupAt(alphabet, data, i)
  {
    hide GroupAt, Encode, RawGroup, From;
    EncodeStep(alphabet, data, i);
    RawGroupIs(alphabet, data, i);
    var rest, g := Encode(alphabet, From(data, i + 3)), GroupAt(alphabet, data, i);
    assert buf + (g + rest) == (buf + g) + rest;
    if i + 3 > |data| {
      NothingLeft(alphabet, data, i + 3);
      assert (buf + g) + [] == buf + g;
    }
  }

  lemma Thirds(k: nat, q: nat, r: nat)
    requires r < 3
    ensures 3 * k == 3 * q + r ==> r == 0
    ensures 3 * k - 3 < 3 * q + r < 3 * k ==> k == q + 1
  {
  }

  /** All groups without padding; `q` of them are complete. */
  method EncodeRaw(alphabet: seq<byte>, data: seq<byte>, ghost q: nat, ghost r: nat)
    returns (buf: seq<byte>, last: nat, ghost done: seq<byte>)
    requires |alphabet| == 64 && |data| == 3 * q + r && r < 3
    ensures r == 0 ==> buf == Encode(alphabet, data)
    ensures r > 0 ==> last == |data| - r && buf == done + RawGroup(alphabet, data, last)
    ensures r > 0 ==> Encode(alphabet, data) == done + GroupAt(alphabet, data, last)
  {
    buf, last, done := [], 0, [];
    var i := 0;
    ghost var k := 0;
    assert From(data, 0) == data && buf + Encode(alphabet, data) == Encode(alphabet, data);
    hide GroupAt, Encode, RawGroup, From, Sextet, Bits, ByteAt;
    while i < |data|
      invariant i == 3 * k && (i <= |data| || i == last + 3) && (i > |data| ==> last < |data|)
      invariant i <= |data| ==> buf + Encode(alphabet, From(data, i)) == Encode(alphabet, data)
      invariant i > |data| ==>
        buf == done + RawGroup(alphabet, data, last) && Encode(alphabet, data) == done + GroupAt(alphabet, data, last)
      decreases |data| - i
    {
      RawStep(alphabet, data, i, buf);
      done, last := buf, i;
      buf := buf + RawGroup(alphabet, data, i);
      i := i + 3;
      k := k + 1;
    }
    Thirds(k, q, r);
    if i == |data| {
      NothingLeft(alphabet, data, i);
      assert buf + [] == buf;
    }
  }

  lemma PaddedEnd(done: seq<byte>, raw: seq<byte>, remainder: nat)
    requires |raw| == 4 && 1 <= remainder <= 2
    ensures var buf := done + raw;
      buf[..|buf| - (3 - remainder)] + Pads(3 - remainder) ==
        done + if remainder == 1 then raw[..2] + [PAD, PAD] else raw[..3] + [PAD]
  {
    assert Pads(1) == [PAD] && Pads(2) == [PAD, PAD];
  }

  lemma NothingLeft(alphabet: seq<byte>, data: seq<byte>, i: nat)
    requires |alphabet| == 64 && i >= |data|
    ensures Encode(alphabet, From(data, i)) == [] && Groups(|From(data, i)|) == 0
  {
  }
}
