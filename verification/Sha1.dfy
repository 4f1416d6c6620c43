/** `SHA1Context`: a message digested piece by piece. */
module Sha1 {
  import opened Bytes
  import opened Sha1Spec

  /** The first `n` entries are words of the block's sequence. */
  ghost predicate Scheduled(words: seq<bv32>, block: seq<byte>, n: nat) {
    |block| == BLOCK && n <= |words| && forall t :: 0 <= t < n ==> words[t] == W(block, t)
  }

  lemma FirstWord(block: seq<byte>, t: nat)
    requires |block| == BLOCK && t < 16
    ensures W(block, t) == Joined(block[4 * t], block[4 * t + 1], block[4 * t + 2], block[4 * t + 3])
  {
    hide Joined, Mixed;
  }

  lemma LaterWord(block: seq<byte>, t: nat)
    requires |block| == BLOCK && t >= 16
    ensures W(block, t) == Mixed(W(block, t - 3), W(block, t - 8), W(block, t - 14), W(block, t - 16))
  {
    hide Joined, Mixed;
  }

  lemma AbsorbNext(m: seq<byte>, k: nat)
    requires |m| == 64 * (k + 1)
    ensures Absorbed(m, k + 1) == Compressed(Absorbed(m[..64 * k], k), m[64 * k..])
  {
    hide Compressed;
  }

  lemma Remainder(k: nat, i: nat)
    requires i < 64
    ensures (64 * k + i) % 64 == i
  {
  }

  /** Two words, the higher one first, as eight bytes. */
  lemma TwoWords(high: nat, low: nat)
    requires low < TWO_TO_THE_32
    ensures BigEndian(high * TWO_TO_THE_32 + low, 8) == BigEndian(high, 4) + BigEndian(low, 4)
  {
    Pow256Words();
    Shifted(high, low, 4);
  }

  lemma {:induction false} Shifted(high: nat, low: nat, k: nat)
    requires low < Pow256(k)
    ensures BigEndian(high * Pow256(k) + low, 4 + k) == BigEndian(high, 4) + BigEndian(low, k)
  {
    if k > 0 {
      var p := Pow256(k - 1);
      hide BigEndian;
      Shifted(high, low / 256, k - 1);
      FactorOut(high, p);
      LastByte(high * p, low, 3 + k);
      LastByte(0, low, k - 1);
      AppendAssoc(BigEndian(high, 4), BigEndian(low / 256, k - 1), [low % 256]);
    }
  }

  lemma FactorOut(high: nat, p: nat)
    ensures high * (256 * p) == 256 * (high * p)
  {
  }

  lemma LastByte(a: nat, low: nat, k: nat)
    ensures BigEndian(256 * a + low, k + 1) == BigEndian(a + low / 256, k) + [low % 256]
  {
    assert (256 * a + low) % 256 == low % 256 && (256 * a + low) / 256 == a + low / 256;
  }

  lemma WordBytes(x: nat)
    ensures BigEndian(x, 4) == [x / 0x100_0000 % 256, x / 0x1_0000 % 256, x / 0x100 % 256, x % 256]
  {
    var y := x / 256;
    var z := y / 256;
    assert BigEndian(z / 256, 1) == [z / 256 % 256];
    assert BigEndian(z, 2) == [z / 256 % 256, z % 256];
    assert BigEndian(y, 3) == [z / 256 % 256, z % 256, y % 256];
    assert z == x / 0x1_0000 && z / 256 == x / 0x100_0000;
  }

  class Context {
    var digest: Words
    var lengthLow: nat
    var lengthHigh: nat
    const block: array<byte>
    var index: nat
    var computed: bool
    var corrupted: bool
    /** The message so far and how many blocks of it have been digested. */
    ghost var message: seq<byte>
    ghost var blocks: nat

    predicate Fields()
      reads this`index
    {
      block.Length == 64 && index <= 64
    }

    /** Whole blocks of a text have been digested and the rest is in the block. */
    ghost predicate Holds(text: seq<byte>)
      reads this`digest, this`index, this`blocks, block
    {
      && block.Length == 64 && index <= 64
      && |text| == 64 * blocks + index && text[64 * blocks..] == block[..index]
      && digest == Absorbed(text[..64 * blocks], blocks)
    }

    /** The two length words count the bits of the message. */
    ghost predicate Open()
      reads this, block
    {
      && Holds(message)
      && lengthLow < TWO_TO_THE_32 && lengthHigh < TWO_TO_THE_32
      && 8 * |message| == lengthHigh * TWO_TO_THE_32 + lengthLow
    }

    /** Between calls. */
    ghost predicate Valid()
      reads this, block
    {
      && block.Length == 64 && index < 64
      && (!corrupted && !computed ==> Open())
      && (!corrupted && computed ==> digest == Digest(message))
    }

    /** `SHA1Reset` of a new context. */
    constructor ()
      ensures Valid() && fresh(block) && !computed && !corrupted && message == []
    {
      block := new byte[64];
      lengthLow, lengthHigh, index := 0, 0, 0;
      digest := INITIAL;
      computed, corrupted := false, false;
      message, blocks := [], 0;
    }

    /** `SHA1Input`: the message grows, unless it is over already or gets too long. */
    method Input(data: seq<byte>)
      requires Valid()
      modifies this, block
      ensures Valid() && computed == old(computed)
      ensures corrupted ==
        (old(corrupted) || (data != [] && (old(computed) || 8 * (|old(message)| + |data|) >= TWO_TO_THE_64)))
      ensures !corrupted ==> message == old(message) + data
    {
      hide Absorbed, Digest;
      if data == [] {
        return;
      }
      if computed || corrupted {
        corrupted := true;
        return;
      }
      var i := 0;
      assert data[..0] == [];
      while i < |data| && !corrupted
        invariant i <= |data| && Valid() && !computed
        invariant corrupted <==> 8 * (|old(message)| + i) >= TWO_TO_THE_64
        invariant message == old(message) + data[..i]
      {
        AddByte(data[i]);
        assert data[..i + 1] == data[..i] + [data[i]];
        i := i + 1;
      }
      assert !corrupted ==> data[..i] == data;
    }

    method AddByte(b: byte)
      requires Open() && index < 64 && !computed && !corrupted
      modifies this, block
      ensures Valid() && !computed && message == old(message) + [b]
      ensures corrupted <==> 8 * |message| >= TWO_TO_THE_64
    {
      hide Absorbed, Digest, Holds;
      assert block.Length == 64 by { HoldsLength(message); }
      Store(b, message);
      message := message + [b];
      CountBits();
      if index == 64 {
        BlockFull(message);
      }
    }

    lemma HoldsLength(text: seq<byte>)
      requires Holds(text)
      ensures block.Length == 64 && index <= 64 && |text| == 64 * blocks + index
    {
    }

    /** One more byte of a text into the block. */
    method Store(b: byte, ghost text: seq<byte>)
      requires Holds(text) && index < 64
      modifies this`index, block
      ensures Holds(text + [b]) && index == old(index) + 1
    {
      hide Absorbed;
      block[index] := b;
      index := index + 1;
      assert (text + [b])[..64 * blocks] == text[..64 * blocks];
      assert (text + [b])[64 * blocks..] == text[64 * blocks..] + [b];
      assert block[..index] == old(block[..index]) + [b];
    }

    method CountBits()
      requires lengthLow < TWO_TO_THE_32 && lengthHigh < TWO_TO_THE_32 && !corrupted
      requires message != [] && 8 * (|message| - 1) == lengthHigh * TWO_TO_THE_32 + lengthLow
      modifies this`lengthLow, this`lengthHigh, this`corrupted
      ensures lengthLow < TWO_TO_THE_32 && lengthHigh < TWO_TO_THE_32
      ensures corrupted <==> 8 * |message| >= TWO_TO_THE_64
      ensures !corrupted ==> 8 * |message| == lengthHigh * TWO_TO_THE_32 + lengthLow
    {
      lengthLow := (lengthLow + 8) % TWO_TO_THE_32;
      if lengthLow == 0 {
        lengthHigh := (lengthHigh + 1) % TWO_TO_THE_32;
        if lengthHigh == 0 {
          corrupted := true;
        }
      }
    }

    /** A full block is digested. */
    method BlockFull(ghost text: seq<byte>)
      requires Holds(text) && index == 64
      modifies this`digest, this`index, this`blocks
      ensures Holds(text) && index == 0
    {
      hide Compressed, Absorbed;
      AbsorbNext(text, blocks);
      assert block[..index] == block[..];
      ProcessMessageBlock();
      blocks := blocks + 1;
      assert text[..64 * blocks] == text;
    }

    /** Zeroes up to a position in the block. */
    method StoreZeros(target: nat, ghost text: seq<byte>)
      requires Holds(text) && index <= target <= 64
      modifies this`index, block
      ensures Holds(text + Zeros(target - old(index))) && index == target
    {
      hide Holds;
      assert text + Zeros(0) == text;
      ghost var from := index;
      while index < target
        invariant from <= index <= target && Holds(text + Zeros(index - from))
      {
        ghost var n := index - from;
        assert text + Zeros(n) + [0] == text + Zeros(n + 1);
        Store(0, text + Zeros(n));
      }
    }

    /** `SHA1PadMessage`. */
    method PadMessage()
      requires Open() && index < 64
      modifies this`digest, this`index, this`blocks, block
      ensures index == 0 && digest == Digest(message)
    {
      hide Absorbed, Digest, Holds;
      ghost var m := message;
      HoldsLength(m);
      var i := index;
      Remainder(blocks, i);
      Store(0x80, m);
      ghost var text := m + [0x80];
      if i > 55 {
        StoreZeros(64, text);
        text := text + Zeros(63 - i);
        BlockFull(text);
        StoreZeros(56, text);
        text := text + Zeros(56);
        assert Zeros(63 - i) + Zeros(56) == Zeros(119 - i);
        assert text == m + [0x80] + Zeros(119 - i);
      } else {
        StoreZeros(56, text);
        text := text + Zeros(55 - i);
      }
      assert text == m + [0x80] + Zeros(ZeroCount(|m|));
      StoreLength(text);
      FinalBlock(text);
    }

    /** The length in bits, into the last eight bytes of the block. */
    method StoreLength(ghost text: seq<byte>)
      requires Holds(text) && index == 56 && lengthLow < TWO_TO_THE_32 && lengthHigh < TWO_TO_THE_32
      requires 8 * |message| == lengthHigh * TWO_TO_THE_32 + lengthLow
      modifies block
      ensures Holds(text) && block[56..] == BigEndian(8 * |message|, 8)
    {
      hide Absorbed, BigEndian;
      TwoWords(lengthHigh, lengthLow);
      WordBytes(lengthHigh);
      WordBytes(lengthLow);
      block[56] := lengthHigh / 0x100_0000 % 256;
      block[57] := lengthHigh / 0x1_0000 % 256;
      block[58] := lengthHigh / 0x100 % 256;
      block[59] := lengthHigh % 256;
      block[60] := lengthLow / 0x100_0000 % 256;
      block[61] := lengthLow / 0x1_0000 % 256;
      block[62] := lengthLow / 0x100 % 256;
      block[63] := lengthLow % 256;
      assert block[..56] == old(block[..56]);
      assert block[56..] == [block[56], block[57], block[58], block[59]] + [block[60], block[61], block[62], block[63]];
    }

    method FinalBlock(ghost text: seq<byte>)
      requires Holds(text) && index == 56 && text == message + [0x80] + Zeros(ZeroCount(|message|))
      requires block[56..] == BigEndian(8 * |message|, 8)
      modifies this`digest, this`index
      ensures index == 0 && digest == Digest(message)
    {
      hide Absorbed, Compressed, BigEndian;
      ghost var k := blocks;
      ghost var whole := text + BigEndian(8 * |message|, 8);
      assert whole == Padded(message);
      PaddedLength(message);
      assert whole[..64 * k] == text[..64 * k];
      assert whole[64 * k..] == block[..];
      AbsorbNext(whole, k);
      ProcessMessageBlock();
    }

    /** `SHA1Result`. */
    method Result() returns (ok: bool)
      requires Valid()
      modifies this, block
      ensures Valid() && ok == !old(corrupted) && corrupted == old(corrupted) && message == old(message)
      ensures ok ==> computed && digest == Digest(message)
    {
      hide Absorbed, Digest, Holds;
      if corrupted {
        return false;
      }
      if !computed {
        PadMessage();
        computed := true;
      }
      return true;
    }

    /** `SHA1ProcessMessageBlock`. */
    method ProcessMessageBlock()
      requires Fields()
      modifies this`digest, this`index
      ensures Fields() && digest == Compressed(old(digest), block[..]) && index == 0
    {
      var words := Schedule();
      hide F, K, Rotated, Sum, W;
      var s := FirstRounds(digest, words);
      s := SecondRounds(s, words, digest);
      s := ThirdRounds(s, words, digest);
      s := FourthRounds(s, words, digest);
      digest := Added(digest, s);
      index := 0;
    }

    /** The array W. */
    method Schedule() returns (words: array<bv32>)
      requires Fields()
      ensures fresh(words) && IsSchedule(words)
    {
      hide W;
      words := new bv32[80];
      FirstWords(words);
      LaterWords(words);
    }

    method FirstWords(words: array<bv32>)
      requires Fields() && words.Length == 80
      modifies words
      ensures Scheduled(words[..], block[..], 16)
    {
      hide W, Joined;
      ghost var b := block[..];
      for t := 0 to 16
        invariant Scheduled(words[..], b, t)
      {
        var word := WordAt(t);
        words[t] := word;
      }
    }

    method WordAt(t: nat) returns (word: bv32)
      requires Fields() && t < 16
      ensures word == W(block[..], t)
    {
      hide Joined;
      FirstWord(block[..], t);
      word := Joined(block[t * 4], block[t * 4 + 1], block[t * 4 + 2], block[t * 4 + 3]);
    }

    method LaterWords(words: array<bv32>)
      requires Fields() && words.Length == 80 && Scheduled(words[..], block[..], 16)
      modifies words
      ensures Scheduled(words[..], block[..], 80)
    {
      hide W, Mixed;
      ghost var b := block[..];
      for t := 16 to 80
        invariant Scheduled(words[..], b, t)
      {
        LaterWord(b, t);
        words[t] := Mixed(words[t - 3], words[t - 8], words[t - 14], words[t - 16]);
      }
    }

    ghost predicate IsSchedule(words: array<bv32>)
      reads this, block, words
    {
      Fields() && words.Length == 80 && Scheduled(words[..], block[..], 80)
    }

    method FirstRounds(h: Words, words: array<bv32>) returns (s: Words)
      requires IsSchedule(words)
      ensures s == Rounds(h, block[..], 20)
    {
      s := h;
      hide W, Rotated, Sum, Chosen;
      for t := 0 to 20
        invariant s == Rounds(h, block[..], t)
      {
        var temp := Sum(s.a, Chosen(s.b, s.c, s.d), s.e, words[t], 0x5A827999);
        s := Words(temp, s.a, Rotated(s.b, 30), s.c, s.d);
      }
    }

    method SecondRounds(s0: Words, words: array<bv32>, ghost h: Words) returns (s: Words)
      requires IsSchedule(words) && s0 == Rounds(h, block[..], 20)
      ensures s == Rounds(h, block[..], 40)
    {
      s := s0;
      hide W, Rotated, Sum, Parity;
      for t := 20 to 40
        invariant s == Rounds(h, block[..], t)
      {
        var temp := Sum(s.a, Parity(s.b, s.c, s.d), s.e, words[t], 0x6ED9EBA1);
        s := Words(temp, s.a, Rotated(s.b, 30), s.c, s.d);
      }
    }

    method ThirdRounds(s0: Words, words: array<bv32>, ghost h: Words) returns (s: Words)
      requires IsSchedule(words) && s0 == Rounds(h, block[..], 40)
      ensures s == Rounds(h, block[..], 60)
    {
      s := s0;
      hide W, Rotated, Sum, Majority;
      for t := 40 to 60
        invariant s == Rounds(h, block[..], t)
      {
        var temp := Sum(s.a, Majority(s.b, s.c, s.d), s.e, words[t], 0x8F1BBCDC);
        s := Words(temp, s.a, Rotated(s.b, 30), s.c, s.d);
      }
    }

    method FourthRounds(s0: Words, words: array<bv32>, ghost h: Words) returns (s: Words)
      requires IsSchedule(words) && s0 == Rounds(h, block[..], 60)
      ensures s == Rounds(h, block[..], 80)
    {
      s := s0;
      hide W, Rotated, Sum, Parity;
      for t := 60 to 80
        invariant s == Rounds(h, block[..], t)
      {
        var temp := Sum(s.a, Parity(s.b, s.c, s.d), s.e, words[t], 0xCA62C1D6);
        s := Words(temp, s.a, Rotated(s.b, 30), s.c, s.d);
      }
    }
  }

  /** The pieces of a message put together. */
  function Whole(pieces: seq<seq<byte>>): seq<byte> {
    if pieces == [] then [] else Whole(pieces[..|pieces| - 1]) + pieces[|pieces| - 1]
  }

  lemma WholeNext(pieces: seq<seq<byte>>, i: nat)
    requires i < |pieces|
    ensures Whole(pieces[..i + 1]) == Whole(pieces[..i]) + pieces[i]
  {
    assert pieces[..i + 1][..i] == pieces[..i];
  }

  lemma {:induction false} WholeGrows(pieces: seq<seq<byte>>, i: nat)
    requires i <= |pieces|
    ensures |Whole(pieces[..i])| <= |Whole(pieces)|
    decreases |pieces| - i
  {
    if i < |pieces| {
      WholeNext(pieces, i);
      WholeGrows(pieces, i + 1);
    } else {
      assert pieces[..i] == pieces;
    }
  }

  /** However a message shorter than 2^64 bits is divided, the result is its digest. */
  method DigestOf(pieces: seq<seq<byte>>) returns (digest: Words)
    requires 8 * |Whole(pieces)| < TWO_TO_THE_64
    ensures digest == Digest(Whole(pieces))
  {
    hide Digest;
    var c := new Context();
    for i := 0 to |pieces|
      invariant c.Valid() && fresh(c) && fresh(c.block) && !c.computed && !c.corrupted
      invariant c.message == Whole(pieces[..i])
    {
      WholeNext(pieces, i);
      WholeGrows(pieces, i + 1);
      c.Input(pieces[i]);
    }
    assert pieces[..|pieces|] == pieces;
    var ok := c.Result();
    digest := c.digest;
  }
}
