/** The wire format of `ChunkedIOFd` and its mathematics: how a chunk is cut into
    frames, how frames are laid out as octets, how the head of an octet string is
    recognised as a frame, and how partial frames are glued together again. */
module Frames {
  import opened Bytes

  const BUFFER_SIZE: nat := 1024 * 1024
  const HEADER_SIZE: nat := 4
  const MAX_PAYLOAD: nat := BUFFER_SIZE - HEADER_SIZE
  const FLAG_PARTIAL: nat := 0x8000_0000

  type Chunk = seq<byte>

  /** One length-prefixed record on the wire; `partial` is the FLAG_PARTIAL bit. */
  datatype Frame = Frame(data: seq<byte>, partial: bool)

  predicate Sendable(f: Frame) {
    0 < |f.data| <= MAX_PAYLOAD
  }

  predicate AllSendable(fs: seq<Frame>) {
    forall i :: 0 <= i < |fs| ==> Sendable(fs[i])
  }

  function LengthWord(f: Frame): nat {
    |f.data| + if f.partial then FLAG_PARTIAL else 0
  }

  function Wire(f: Frame): seq<byte>
    requires Sendable(f)
  {
    BigEndian(LengthWord(f), HEADER_SIZE) + f.data
  }

  function WireAll(fs: seq<Frame>): seq<byte>
    requires AllSendable(fs)
  {
    if fs == [] then [] else Wire(fs[0]) + WireAll(fs[1..])
  }

  lemma {:induction false} WireAllConcat(a: seq<Frame>, b: seq<Frame>)
    requires AllSendable(a) && AllSendable(b)
    ensures AllSendable(a + b)
    ensures WireAll(a + b) == WireAll(a) + WireAll(b)
  {
    hide Wire;
    if a == [] {
      assert a + b == b;
    } else {
      assert (a + b)[0] == a[0];
      assert (a + b)[1..] == a[1..] + b;
      WireAllConcat(a[1..], b);
    }
  }

  lemma WireAllSnoc(fs: seq<Frame>, f: Frame)
    requires AllSendable(fs) && Sendable(f)
    ensures AllSendable(fs + [f])
    ensures WireAll(fs + [f]) == WireAll(fs) + Wire(f)
  {
    assert WireAll([f]) == Wire(f) by { assert WireAll([f][1..]) == []; }
    WireAllConcat(fs, [f]);
  }

  /** The length word at the head of `b`, or 0 when no whole frame is there yet. */
  function HeadLength(b: seq<byte>): (n: nat)
    ensures n > 0 ==> |b| >= HEADER_SIZE + n % FLAG_PARTIAL
  {
    if |b| < HEADER_SIZE then 0
    else
      var len := FromBigEndian(b[..HEADER_SIZE]);
      if |b| - HEADER_SIZE < len % FLAG_PARTIAL then 0 else len
  }

  lemma HeaderRoundTrip(f: Frame)
    requires Sendable(f)
    ensures FromBigEndian(BigEndian(LengthWord(f), HEADER_SIZE)) == LengthWord(f)
    ensures LengthWord(f) % FLAG_PARTIAL == |f.data|
    ensures |Wire(f)| == HEADER_SIZE + |f.data|
  {
    Pow256Words();
    BigEndianRoundTrip(LengthWord(f), HEADER_SIZE);
  }

  /** A buffer holding the start of a stream of sendable frames shows the first
      frame exactly when all of that frame has arrived. */
  lemma HeadOfStream(b: seq<byte>, fs: seq<Frame>)
    requires AllSendable(fs)
    requires b <= WireAll(fs)
    ensures HeadLength(b) != 0 <==> fs != [] && |Wire(fs[0])| <= |b|
    ensures HeadLength(b) != 0 ==>
      && HeadLength(b) == LengthWord(fs[0])
      && b[HEADER_SIZE..HEADER_SIZE + |fs[0].data|] == fs[0].data
      && b[|Wire(fs[0])|..] <= WireAll(fs[1..])
  {
    if fs != [] {
      HeaderRoundTrip(fs[0]);
    }
    if fs != [] && |b| >= HEADER_SIZE {
      var w := WireAll(fs);
      assert w[..HEADER_SIZE] == BigEndian(LengthWord(fs[0]), HEADER_SIZE);
      assert b[..HEADER_SIZE] == w[..HEADER_SIZE];
      if |Wire(fs[0])| <= |b| {
        assert w[HEADER_SIZE..HEADER_SIZE + |fs[0].data|] == fs[0].data;
        assert w[|Wire(fs[0])|..] == WireAll(fs[1..]);
        assert b == w[..|b|];
      }
    }
  }

  /** A full receive buffer always has a whole frame at its head. */
  lemma FullBufferHasFrame(b: seq<byte>, fs: seq<Frame>)
    requires AllSendable(fs)
    requires b <= WireAll(fs)
    requires |b| >= BUFFER_SIZE
    ensures HeadLength(b) != 0
  {
    HeadOfStream(b, fs);
  }

  // ---- Cutting an oversized chunk ----

  function Split(c: Chunk): (fs: seq<Frame>)
    ensures c != [] ==> AllSendable(fs)
    decreases |c|
  {
    if |c| <= MAX_PAYLOAD then [Frame(c, false)]
    else [Frame(c[..MAX_PAYLOAD], true)] + Split(c[MAX_PAYLOAD..])
  }

  predicate AllNonEmpty(cs: seq<Chunk>) {
    forall i :: 0 <= i < |cs| ==> cs[i] != []
  }

  function SplitAll(cs: seq<Chunk>): (fs: seq<Frame>)
    ensures AllNonEmpty(cs) ==> AllSendable(fs)
  {
    if cs == [] then []
    else
      var last := |cs| - 1;
      SplitAll(cs[..last]) + Split(cs[last])
  }

  // ---- Gluing frames back together ----

  /** What the receiver has handed out and what it still holds in `partial`. */
  datatype Glued = Glued(chunks: seq<Chunk>, partial: Option<Chunk>)

  function Held(g: Glued): Chunk {
    if g.partial.Some? then g.partial.value else []
  }

  function GlueStep(g: Glued, f: Frame): Glued {
    if f.partial then Glued(g.chunks, Some(Held(g) + f.data))
    else Glued(g.chunks + [Held(g) + f.data], None)
  }

  function Glue(fs: seq<Frame>): Glued {
    if fs == [] then Glued([], None)
    else GlueStep(Glue(fs[..|fs| - 1]), fs[|fs| - 1])
  }

  function GlueFrom(g: Glued, fs: seq<Frame>): Glued
    decreases |fs|
  {
    if fs == [] then g else GlueFrom(GlueStep(g, fs[0]), fs[1..])
  }

  lemma {:induction false} GlueConcat(a: seq<Frame>, b: seq<Frame>)
    ensures Glue(a + b) == GlueFrom(Glue(a), b)
    decreases |b|
  {
    if b == [] {
      assert a + b == a;
    } else {
      var a' := a + [b[0]];
      assert a'[..|a|] == a && a'[|a|] == b[0];
      assert a + b == a' + b[1..];
      GlueConcat(a', b[1..]);
    }
  }

  /** Gluing the frames of one chunk finishes exactly that chunk. */
  lemma {:induction false} GlueSplit(g: Glued, c: Chunk)
    ensures GlueFrom(g, Split(c)) == Glued(g.chunks + [Held(g) + c], None)
    decreases |c|
  {
    if |c| <= MAX_PAYLOAD {
      assert Split(c)[1..] == [];
    } else {
      var h := GlueStep(g, Frame(c[..MAX_PAYLOAD], true));
      assert Split(c)[1..] == Split(c[MAX_PAYLOAD..]);
      GlueSplit(h, c[MAX_PAYLOAD..]);
      assert c[..MAX_PAYLOAD] + c[MAX_PAYLOAD..] == c;
      assert Held(h) + c[MAX_PAYLOAD..] == Held(g) + c;
    }
  }

  /** Round trip: gluing what was cut gives back the chunks, with nothing held. */
  lemma {:induction false} GlueSplitAll(cs: seq<Chunk>)
    ensures Glue(SplitAll(cs)) == Glued(cs, None)
  {
    if cs == [] {
      assert Glue([]) == Glued([], None);
    } else {
      SplitLast(cs);
      hide Glue, GlueFrom, Split, SplitAll;
      var last := |cs| - 1;
      GlueSplitAll(cs[..last]);
      GlueConcat(SplitAll(cs[..last]), Split(cs[last]));
      GlueSplit(Glued(cs[..last], None), cs[last]);
      NothingHeld(cs);
    }
  }

  lemma SplitLast(cs: seq<Chunk>)
    requires cs != []
    ensures SplitAll(cs) == SplitAll(cs[..|cs| - 1]) + Split(cs[|cs| - 1])
  {
    hide Split;
  }

  lemma NothingHeld(cs: seq<Chunk>)
    requires cs != []
    ensures var front, c := cs[..|cs| - 1], cs[|cs| - 1]; front + [Held(Glued(front, None)) + c] == cs
  {
    assert [] + cs[|cs| - 1] == cs[|cs| - 1];
  }

  lemma GlueLast(fs: seq<Frame>)
    requires fs != []
    ensures Glue(fs) == GlueStep(Glue(fs[..|fs| - 1]), fs[|fs| - 1])
  {
  }

  /** Gluing a prefix of the frames gives a prefix of the chunks. */
  lemma {:induction false} GluePrefix(fs: seq<Frame>, n: nat)
    requires n <= |fs|
    ensures Glue(fs[..n]).chunks <= Glue(fs).chunks
    decreases |fs| - n
  {
    if n == |fs| {
      assert fs[..n] == fs;
    } else {
      GluePrefix(fs, n + 1);
      assert fs[..n + 1][..n] == fs[..n];
    }
  }

  /** The receiver's chunks are a prefix of the sender's whenever its frames are. */
  lemma GluedPrefixOfAccepted(extracted: seq<Frame>, accepted: seq<Chunk>)
    requires extracted <= SplitAll(accepted)
    ensures Glue(extracted).chunks <= accepted
  {
    GlueSplitAll(accepted);
    GluePrefix(SplitAll(accepted), |extracted|);
    assert SplitAll(accepted)[..|extracted|] == extracted;
  }

  /** Extraction by prefix: frames that start the same octet stream are the same frames. */
  lemma {:induction false} WirePrefix(a: seq<Frame>, b: seq<Frame>)
    requires AllSendable(a) && AllSendable(b)
    requires WireAll(a) <= WireAll(b)
    ensures a <= b
  {
    if a != [] {
      var wa := WireAll(a);
      HeadOfStream(wa, a);
      HeadOfStream(wa, b);
      assert |Wire(a[0])| == |Wire(b[0])|;
      assert a[0].data == b[0].data;
      assert wa[|Wire(a[0])|..] == WireAll(a[1..]);
      WirePrefix(a[1..], b[1..]);
      assert a == [a[0]] + a[1..] && b == [b[0]] + b[1..];
    }
  }

  /** A stream can be cut into frames in only one way, and so stands for one list of chunks. */
  lemma OneReading(fs: seq<Frame>, cs: seq<Chunk>)
    requires AllSendable(fs) && AllSendable(SplitAll(cs)) && WireAll(fs) == WireAll(SplitAll(cs))
    ensures fs == SplitAll(cs) && Glue(fs) == Glued(cs, None)
  {
    WirePrefix(fs, SplitAll(cs));
    WirePrefix(SplitAll(cs), fs);
    GlueSplitAll(cs);
  }
}
