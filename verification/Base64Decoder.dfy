/** `Base64Converter::Decode` and `Done`: decoding in pieces, into buffers of any size. */
module Base64Decoder {
  import opened Bytes
  import opened Base64Spec

  // ---- The table ----

  /** The table with the entries of `done` filled in. */
  ghost predicate Filled(t: seq<int>, alphabet: seq<byte>, done: set<nat>) {
    && |t| == 256 && |alphabet| == 64
    && (forall j :: j in done ==> j < 64 && t[alphabet[j]] == j)
    && (forall c: byte :: (forall j :: j in done ==> j < 64 && alphabet[j] != c) ==> t[c] == -1)
  }

  method Enter(t: array<int>, alphabet: seq<byte>, j: nat, ghost done: set<nat>)
    requires t.Length == 256 && IsAlphabet(alphabet) && j < 64 && j !in done && Filled(t[..], alphabet, done)
    modifies t
    ensures Filled(t[..], alphabet, done + {j})
  {
    t[alphabet[j]] := j;
  }

  lemma TableDone(t: seq<int>, alphabet: seq<byte>, done: set<nat>)
    requires IsAlphabet(alphabet) && Filled(t, alphabet, done) && forall j: nat :: j < 64 ==> j in done
    ensures IsTable(t[PAD := 0], alphabet)
  {
    var u := t[PAD := 0];
    forall c: byte | c !in alphabet && c != PAD
      ensures u[c] == -1
    {
    }
  }

  ghost function Below(n: nat): (s: set<nat>)
    ensures forall j: nat :: j in s <==> j < n
  {
    if n == 0 then {} else Below(n - 1) + {n - 1}
  }

  /** `InitBase64Table`. */
  method InitTable(alphabet: seq<byte>) returns (t: array<int>)
    requires IsAlphabet(alphabet)
    ensures fresh(t) && IsTable(t[..], alphabet)
  {
    t := new int[256](_ => -1);
    Unfilled(t[..], alphabet);
    hide IsAlphabet, Filled, IsTable, Below;
    EnterLetters(t, alphabet);
    EnterDigits(t, alphabet);
    EnterLast(t, alphabet);
    ghost var s := t[..];
    t[PAD] := 0;
    assert t[..] == s[PAD := 0];
  }

  method EnterLast(t: array<int>, alphabet: seq<byte>)
    requires t.Length == 256 && IsAlphabet(alphabet) && Filled(t[..], alphabet, Below(62))
    modifies t
    ensures IsTable(t[..][PAD := 0], alphabet)
  {
    hide IsAlphabet, Filled, IsTable, Below;
    Enter(t, alphabet, 62, Below(62));
    Enter(t, alphabet, 63, Below(62) + {62});
    TableDone(t[..], alphabet, Below(62) + {62} + {63});
  }

  /** Two halves of 26 characters at a time. */
  method EnterLetters(t: array<int>, alphabet: seq<byte>)
    requires t.Length == 256 && IsAlphabet(alphabet) && Filled(t[..], alphabet, {})
    modifies t
    ensures Filled(t[..], alphabet, Below(52))
  {
    hide IsAlphabet, Filled, Below;
    ghost var done: set<nat> := {};
    for i := 0 to 26
      invariant Filled(t[..], alphabet, done) && forall j: nat :: j in done <==> j < i || 26 <= j < 26 + i
    {
      Enter(t, alphabet, i, done);
      done := done + {i};
      Enter(t, alphabet, 26 + i, done);
      done := done + {26 + i};
    }
    assert done == Below(52);
  }

  method EnterDigits(t: array<int>, alphabet: seq<byte>)
    requires t.Length == 256 && IsAlphabet(alphabet) && Filled(t[..], alphabet, Below(52))
    modifies t
    ensures Filled(t[..], alphabet, Below(62))
  {
    hide IsAlphabet, Filled, Below;
    for i := 0 to 10
      invariant Filled(t[..], alphabet, Below(52 + i))
    {
      Enter(t, alphabet, 52 + i, Below(52 + i));
      assert Below(52 + i) + {52 + i} == Below(52 + i + 1);
    }
  }

  lemma Unfilled(t: seq<int>, alphabet: seq<byte>)
    requires |t| == 256 && IsAlphabet(alphabet) && forall c :: 0 <= c < 256 ==> t[c] == -1
    ensures Filled(t, alphabet, {})
  {
  }

  // ---- Decoding in pieces ----

  /** What has been put out and what the current group is worth is what the characters so far
      are worth. */
  ghost predicate InStep(t: seq<int>, d: Decoder, consumed: seq<byte>, said: seq<byte>) {
    |t| == 256 && Proper(d) && Feed(t, FRESH, consumed) == Out(Flushed(d), said + Worth(d))
  }

  lemma InStepFlush(t: seq<int>, d: Decoder, consumed: seq<byte>, said: seq<byte>)
    requires InStep(t, d, consumed, said) && |d.group| == 4
    ensures InStep(t, Flushed(d), consumed, said + Worth(d))
  {
    assert Worth(Flushed(d)) == [] && Flushed(Flushed(d)) == Flushed(d);
    hide Worth, Flushed, Feed;
    assert said + Worth(d) + [] == said + Worth(d);
  }

  lemma InStepPush(t: seq<int>, d: Decoder, consumed: seq<byte>, said: seq<byte>, c: byte)
    requires InStep(t, d, consumed, said) && |d.group| < 4
    ensures InStep(t, Push(t, d, c), consumed + [c], said)
  {
    assert Worth(d) == [] && Flushed(d) == d;
    var e := Push(t, d, c);
    assert Feed(t, d, [c]) == Out(Flushed(e), Worth(e)) by { FeedOne(t, d, c); }
    hide Worth, Flushed, Feed, Push;
    FeedConcat(t, FRESH, consumed, [c]);
    assert said + [] == said;
  }

  lemma FeedOne(t: seq<int>, d: Decoder, c: byte)
    requires |t| == 256 && |d.group| < 4
    ensures Feed(t, d, [c]) == Out(Flushed(Push(t, d, c)), Worth(Push(t, d, c)))
  {
    hide Worth, Flushed, Push;
    var e := Push(t, d, c);
    assert [c][1..] == [];
    assert Feed(t, Flushed(e), []) == Out(Flushed(e), []);
    assert Worth(e) + [] == Worth(e);
  }

  class Converter {
    const alphabet: seq<byte>
    const table: seq<int>
    var group: seq<nat>
    var padding: nat
    var after: bool
    var errored: nat

    function State(): Decoder
      reads this
    {
      Decoder(group, padding, after, errored)
    }

    ghost predicate Valid()
      reads this
    {
      IsAlphabet(alphabet) && IsTable(table, alphabet) && |group| <= 4
    }

    constructor (alphabet: seq<byte>)
      requires IsAlphabet(alphabet)
      ensures Valid() && this.alphabet == alphabet && State() == FRESH && InStep(table, State(), [], [])
    {
      this.alphabet := alphabet;
      var t := InitTable(alphabet);
      this.table := t[..];
      group, padding, after, errored := [], 0, false, 0;
    }

    /** Puts out a complete group if there is room for it. */
    method FlushGroup(out0: seq<byte>, room: nat) returns (out: seq<byte>, fits: bool)
      requires Valid() && |group| == 4 && |out0| <= room
      modifies this
      ensures Valid() && |out| <= room
      ensures fits == (|out0| + |Worth(old(State()))| <= room)
      ensures fits ==> State() == Flushed(old(State())) && out == out0 + Worth(old(State()))
      ensures !fits ==> State() == old(State()) && out == out0
    {
      hide IsAlphabet, IsTable, Octets, Unite;
      out, fits := out0, true;
      if after {
        errored := errored + 1;
        group := [];
        return;
      }
      var octets := 3 - padding;
      if |out| + octets > room {
        fits := false;
        return;
      }
      if octets > 0 {
        out := out + Octets(Unite(group))[..octets];
      }
      after := padding > 0;
      group, padding := [], 0;
    }

    method Take(c: byte)
      requires Valid() && |group| < 4
      modifies this
      ensures Valid() && State() == Push(table, old(State()), c)
    {
      if c == PAD {
        padding := padding + 1;
      }
      var k := table[c];
      if k >= 0 {
        group := group + [k];
      } else {
        errored := errored + 1;
      }
    }

    /** `Decode`: takes characters until they are used up or there is no room for a group. */
    method Decode(data: seq<byte>, room: nat, ghost consumed: seq<byte>, ghost said: seq<byte>)
      returns (n: nat, out: seq<byte>)
      requires Valid() && InStep(table, State(), consumed, said)
      modifies this
      ensures Valid() && n <= |data| && |out| <= room && InStep(table, State(), consumed + data[..n], said + out)
      ensures |group| < 4 ==> n == |data|
      ensures |group| == 4 ==> |out| + |Worth(State())| > room
      ensures 4 * room >= 3 * (|data| + |old(group)|) ==> n == |data| && |group| < 4
      ensures |group| <= |old(group)| + n
      ensures room >= 3 && n == 0 ==> data == [] && |group| < 4
    {
      hide IsAlphabet, IsTable, InStep, Worth;
      n, out := 0, [];
      ghost var groups := 0;
      assert consumed + data[..0] == consumed && said + [] == said;
      while true
        invariant Valid() && n <= |data| && |out| <= room && |out| <= 3 * groups
        invariant 4 * groups + |group| <= |old(group)| + n && (n == 0 ==> out == [])
        invariant InStep(table, State(), consumed + data[..n], said + out)
        decreases |data| - n
      {
        var fits;
        groups := if |group| == 4 then groups + 1 else groups;
        out, fits := FlushIfFull(out, room, consumed + data[..n], said);
        if !fits || n >= |data| {
          return;
        }
        TakeNext(data[n], consumed + data[..n], said + out);
        assert consumed + data[..n] + [data[n]] == consumed + data[..n + 1];
        n := n + 1;
      }
    }

    /** A complete group is put out, if there is one and it fits. */
    method FlushIfFull(out0: seq<byte>, room: nat, ghost consumed: seq<byte>, ghost said: seq<byte>)
      returns (out: seq<byte>, fits: bool)
      requires Valid() && |out0| <= room && InStep(table, State(), consumed, said + out0)
      modifies this
      ensures Valid() && |out| <= room && InStep(table, State(), consumed, said + out)
      ensures if fits then |group| == (if |old(group)| == 4 then 0 else |old(group)|) && |out| <= |out0| + 3
        else |group| == 4 && State() == old(State()) && out == out0
      ensures !fits ==> |out| + |Worth(State())| > room && |out| + 3 > room
      ensures |old(group)| < 4 ==> out == out0
    {
      hide IsAlphabet, IsTable, InStep, Worth, Flushed;
      out, fits := out0, true;
      if |group| == 4 {
        ghost var d := State();
        WorthBound(d);
        InStepFlush(table, d, consumed, said + out);
        assert said + out + Worth(d) == said + (out + Worth(d));
        out, fits := FlushGroup(out, room);
      }
    }

    method TakeNext(c: byte, ghost consumed: seq<byte>, ghost said: seq<byte>)
      requires Valid() && |group| < 4 && InStep(table, State(), consumed, said)
      modifies this
      ensures Valid() && InStep(table, State(), consumed + [c], said) && |group| <= |old(group)| + 1
    {
      hide IsAlphabet, InStep, Push;
      InStepPush(table, State(), consumed, said, c);
      PushAdds(table, State(), c);
      Take(c);
    }

    /** The next piece of a text, of a given length, into a buffer of a given size. */
    method DecodeNext(s: seq<byte>, pos: nat, len: nat, room: nat, out: seq<byte>) returns (pos': nat, out': seq<byte>)
      requires Valid() && pos <= |s| && InStep(table, State(), s[..pos], out)
      modifies this
      ensures Valid() && pos <= pos' <= |s| && InStep(table, State(), s[..pos'], out')
      ensures room >= 3 && len > 0 && pos' == pos ==> pos == |s| && |group| < 4
    {
      hide InStep, IsAlphabet, IsTable, Worth;
      var piece := s[pos..if pos + len < |s| then pos + len else |s|];
      var n, o := Decode(piece, room, s[..pos], out);
      assert s[..pos] + piece[..n] == s[..pos + n];
      pos', out' := pos + n, out + o;
    }

    /** Pieces of a fixed length into buffers of at least three bytes until all is taken and put out. */
    method DecodeRest(s: seq<byte>, pos0: nat, len: nat, room: nat, out0: seq<byte>) returns (out: seq<byte>)
      requires Valid() && pos0 <= |s| && InStep(table, State(), s[..pos0], out0) && len > 0 && room >= 3
      modifies this
      ensures Valid() && |group| < 4 && InStep(table, State(), s, out)
    {
      hide InStep, IsAlphabet, IsTable, Worth;
      var pos := pos0;
      out := out0;
      while pos < |s| || |group| == 4
        invariant Valid() && pos <= |s| && InStep(table, State(), s[..pos], out)
        decreases |s| - pos, if |group| == 4 then 1 else 0
      {
        pos, out := DecodeNext(s, pos, len, room, out);
      }
      assert s[..pos] == s;
    }

    /** `Done`: an incomplete group is filled up with padding, and put out if there is room. */
    method Done(room: nat, ghost consumed: seq<byte>, ghost said: seq<byte>) returns (incomplete: bool, out: seq<byte>)
      requires Valid() && InStep(table, State(), consumed, said)
      modifies this
      ensures Valid() && incomplete == (old(group) != [])
      ensures !incomplete ==> out == [] && State() == old(State())
      ensures incomplete ==> InStep(table, State(), consumed + Pads(4 - |old(group)|), said + out)
      ensures |group| == 4 ==> |out| + |Worth(State())| > room
      ensures incomplete && room >= 3 ==> |group| < 4
    {
      hide InStep, Worth, IsAlphabet, IsTable;
      incomplete, out := group != [], [];
      if incomplete {
        var pads := Pads(4 - |group|);
        var n;
        n, out := Decode(pads, room, consumed, said);
        assert pads[..|pads|] == pads;
      }
    }
  }

  // ---- What it amounts to ----

  /** Once all of an encoding has been taken and put out, it is what was encoded. */
  lemma Recovered(t: seq<int>, alphabet: seq<byte>, x: seq<byte>, d: Decoder, said: seq<byte>)
    requires |alphabet| == 64 && IsTable(t, alphabet) && IsAlphabet(alphabet)
    requires InStep(t, d, Encode(alphabet, x), said) && |d.group| < 4
    ensures said == x && d.group == []
  {
    FeedEncoded(t, alphabet, x);
    hide Feed, Encode;
    assert said + Worth(d) == said;
  }

  /** A text in any pieces into buffers of any size, and then what is left into buffers of at least
      three bytes: all of it is taken and put out. */
  method DecodeText(alphabet: seq<byte>, text: seq<byte>, cuts: seq<(nat, nat)>, len: nat, room: nat)
    returns (c: Converter, out: seq<byte>)
    requires IsAlphabet(alphabet) && len > 0 && room >= 3
    ensures fresh(c) && c.Valid() && c.alphabet == alphabet && |c.group| < 4 && InStep(c.table, c.State(), text, out)
  {
    hide InStep, IsAlphabet, IsTable;
    c := new Converter(alphabet);
    var pos := 0;
    out := [];
    assert text[..0] == [];
    for i := 0 to |cuts|
      invariant c.Valid() && c.alphabet == alphabet && fresh(c) && pos <= |text|
      invariant InStep(c.table, c.State(), text[..pos], out)
    {
      pos, out := c.DecodeNext(text, pos, cuts[i].0, cuts[i].1, out);
    }
    out := c.DecodeRest(text, pos, len, room, out);
  }

  /** An encoding in any pieces, into buffers of any size, yields what was encoded. */
  method DecodeInPieces(alphabet: seq<byte>, x: seq<byte>, cuts: seq<(nat, nat)>, len: nat, room: nat)
    returns (out: seq<byte>)
    requires |alphabet| == 64 && IsAlphabet(alphabet) && len > 0 && room >= 3
    ensures out == x
  {
    hide InStep, IsAlphabet, IsTable, Encode;
    var c;
    c, out := DecodeText(alphabet, Encode(alphabet, x), cuts, len, room);
    Recovered(c.table, alphabet, x, c.State(), out);
  }

  /** The same with up to two padding characters left off the end, which `Done` makes up for. */
  method DecodeUnpadded(alphabet: seq<byte>, x: seq<byte>, k: nat, cuts: seq<(nat, nat)>, len: nat, room: nat)
    returns (out: seq<byte>)
    requires |alphabet| == 64 && IsAlphabet(alphabet) && len > 0 && room >= 3
    requires k <= 2 && k <= |Encode(alphabet, x)|
    requires var s := Encode(alphabet, x); s[|s| - k..] == Pads(k)
    ensures out == x
  {
    hide InStep, IsAlphabet, IsTable, Encode, Pads, Worth;
    var s := Encode(alphabet, x);
    var front := s[..|s| - k];
    var c;
    c, out := DecodeText(alphabet, front, cuts, len, room);
    TableSize(c.table, alphabet);
    Unpadded(c.table, alphabet, x, k, c.State(), out);
    var incomplete, more := c.Done(room, front, out);
    if !incomplete {
      assert front == s && out + more == out;
    }
    out := out + more;
    Recovered(c.table, alphabet, x, c.State(), out);
  }

  lemma TableSize(t: seq<int>, alphabet: seq<byte>)
    requires IsTable(t, alphabet)
    ensures |t| == 256
  {
  }

  lemma PadAdds(t: seq<int>, d: Decoder)
    requires |t| == 256 && t[PAD] == 0 && |d.group| < 4
    ensures |Feed(t, d, [PAD]).d.group| == (|d.group| + 1) % 4
  {
    FeedOne(t, d, PAD);
  }

  /** Where trailing padding was left off, `Done` supplies exactly what is missing, so that what
      was encoded is recovered all the same. */
  lemma Unpadded(t: seq<int>, alphabet: seq<byte>, x: seq<byte>, k: nat, d: Decoder, said: seq<byte>)
    requires |t| == 256 && |alphabet| == 64 && IsTable(t, alphabet) && IsAlphabet(alphabet)
    requires k <= 2 && k <= |Encode(alphabet, x)| && |d.group| < 4
    requires var s := Encode(alphabet, x); s[|s| - k..] == Pads(k) && InStep(t, d, s[..|s| - k], said)
    ensures |d.group| == (4 - k) % 4
    ensures var s := Encode(alphabet, x); d.group != [] ==> s[..|s| - k] + Pads(4 - |d.group|) == s
  {
    hide Encode, Feed, IsAlphabet, IsTable, Pads, InStep;
    var s := Encode(alphabet, x);
    var front := s[..|s| - k];
    assert s == front + Pads(k);
    FeedEncoded(t, alphabet, x);
    FeedConcat(t, FRESH, front, Pads(k));
    InStepState(t, alphabet, d, front, said);
    PadsAdd(t, d, k);
    Missing(|d.group|, k);
  }

  lemma InStepState(t: seq<int>, alphabet: seq<byte>, d: Decoder, consumed: seq<byte>, said: seq<byte>)
    requires IsTable(t, alphabet) && InStep(t, d, consumed, said) && |d.group| < 4
    ensures t[PAD] == 0 && Feed(t, FRESH, consumed).d == d
  {
    hide Feed, Worth;
  }

  lemma Missing(n: nat, k: nat)
    requires n < 4 && k <= 2 && (n + k) % 4 == 0
    ensures n == (4 - k) % 4 && (n != 0 ==> 4 - n == k)
  {
  }

  lemma PadsAdd(t: seq<int>, d: Decoder, k: nat)
    requires |t| == 256 && t[PAD] == 0 && |d.group| < 4 && k <= 2
    ensures |Feed(t, d, Pads(k)).d.group| == (|d.group| + k) % 4
  {
    if k == 1 {
      assert Pads(1) == [PAD];
      PadAdds(t, d);
    } else if k == 2 {
      assert Pads(2) == [PAD] + [PAD];
      FeedConcat(t, d, [PAD], [PAD]);
      PadAdds(t, d);
      PadAdds(t, Feed(t, d, [PAD]).d);
    } else {
      assert Pads(0) == [];
    }
  }

  lemma WorthBound(d: Decoder)
    requires Proper(d)
    ensures |Worth(d)| <= 3 && |Flushed(d).group| == if |d.group| == 4 then 0 else |d.group|
  {
  }

  lemma PushAdds(t: seq<int>, d: Decoder, c: byte)
    requires |t| == 256 && |d.group| < 4
    ensures |Push(t, d, c).group| <= |d.group| + 1
  {
  }
}
