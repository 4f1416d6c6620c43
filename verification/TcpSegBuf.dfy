/** `CTcpSegBuf`: putting the segments of one direction of a connection back together. */
module TcpSegBuf {
  import opened Bytes

  /** `tcp_seq`. */
  type SeqNum = x: int | 0 <= x < TWO_TO_THE_32

  /** Unsigned 32-bit subtraction. */
  function Sub32(a: SeqNum, b: SeqNum): SeqNum {
    if a >= b then a - b else a - b + TWO_TO_THE_32
  }

  function Max(a: nat, b: nat): nat {
    if a < b then b else a
  }

  /** `buf` with `data` at `pos`, lengthened with zeroes as needed. */
  function Overlay(buf: seq<byte>, pos: nat, data: seq<byte>): (r: seq<byte>)
    ensures |r| == Max(|buf|, pos + |data|)
    ensures forall i :: 0 <= i < |r| ==>
      r[i] == if pos <= i < pos + |data| then data[i - pos] else if i < |buf| then buf[i] else 0
  {
    var b := buf + Zeros(Max(|buf|, pos + |data|) - |buf|);
    b[..pos] + data + b[pos + |data|..]
  }

  // ---- Segments of a stream ----

  datatype Segment = Segment(pos: nat, data: seq<byte>)

  predicate PartOf(seg: Segment, stream: seq<byte>) {
    seg.pos + |seg.data| <= |stream| && stream[seg.pos..seg.pos + |seg.data|] == seg.data
  }

  predicate Covers(seg: Segment, i: nat) {
    seg.pos <= i < seg.pos + |seg.data|
  }

  ghost predicate Covered(segs: seq<Segment>, i: nat) {
    exists k :: 0 <= k < |segs| && Covers(segs[k], i)
  }

  function AfterAll(segs: seq<Segment>): seq<byte> {
    if segs == [] then [] else Overlay(AfterAll(segs[..|segs| - 1]), segs[|segs| - 1].pos, segs[|segs| - 1].data)
  }

  /** What has arrived is in its place, in whatever order it came and however often. */
  lemma {:induction false} InPlace(segs: seq<Segment>, stream: seq<byte>, i: nat)
    requires forall k :: 0 <= k < |segs| ==> PartOf(segs[k], stream)
    ensures |AfterAll(segs)| <= |stream|
    ensures Covered(segs, i) ==> i < |AfterAll(segs)| && AfterAll(segs)[i] == stream[i]
  {
    if segs != [] {
      hide Overlay;
      var n := |segs| - 1;
      var rest, last := segs[..n], segs[n];
      InPlace(rest, stream, i);
      var now := Overlay(AfterAll(rest), last.pos, last.data);
      if Covers(last, i) {
        assert stream[last.pos..last.pos + |last.data|][i - last.pos] == stream[i];
        assert now[i] == last.data[i - last.pos];
      } else if Covered(segs, i) {
        var k :| 0 <= k < |segs| && Covers(segs[k], i);
        assert Covers(rest[k], i);
      }
    }
  }

  /** Segments of a stream that leave no gap make up the stream, in any order and with any
      repetitions. */
  lemma Reassembles(segs: seq<Segment>, stream: seq<byte>)
    requires forall k :: 0 <= k < |segs| ==> PartOf(segs[k], stream)
    requires forall i: nat :: i < |stream| ==> Covered(segs, i)
    ensures AfterAll(segs) == stream
  {
    hide AfterAll, PartOf, Covered;
    InPlace(segs, stream, 0);
    forall i: nat | i < |stream|
      ensures Agree(AfterAll(segs), stream, i)
    {
      InPlace(segs, stream, i);
    }
    SameSeq(AfterAll(segs), stream);
  }

  predicate Agree(a: seq<byte>, b: seq<byte>, i: nat) {
    i < |a| && i < |b| && a[i] == b[i]
  }

  lemma SameSeq(a: seq<byte>, b: seq<byte>)
    requires |a| <= |b| && forall i: nat :: i < |b| ==> Agree(a, b, i)
    ensures a == b
  {
    assert |a| < |b| ==> Agree(a, b, |a|);
    forall i | 0 <= i < |a|
      ensures a[i] == b[i]
    {
      assert Agree(a, b, i);
    }
  }

  // ---- The buffer ----

  function Resize(buf: seq<byte>, n: nat): seq<byte> {
    if n <= |buf| then buf[..n] else buf + Zeros(n - |buf|)
  }

  /** `string::replace` of as many characters as are written, or of those that are left. */
  function Replace(buf: seq<byte>, pos: nat, data: seq<byte>): seq<byte>
    requires pos <= |buf|
  {
    buf[..pos] + data + if pos + |data| <= |buf| then buf[pos + |data|..] else []
  }

  lemma ResizeReplace(buf: seq<byte>, pos: nat, data: seq<byte>)
    ensures var b := Resize(buf, Max(|buf|, pos + |data|));
      |b| == Max(|buf|, pos + |data|) && Replace(b, pos, data) == Overlay(buf, pos, data)
    ensures Resize(buf, |buf|) == buf
  {
    assert Resize(buf, Max(|buf|, pos + |data|)) == buf + Zeros(Max(|buf|, pos + |data|) - |buf|);
  }

  /** The fields of a buffer. */
  datatype Fields = Fields(start: SeqNum, end: SeqNum, used: SeqNum, buf: seq<byte>)

  /** `insertData` in 32-bit arithmetic, and whether it did not end in the exception of a position
      beyond the buffer. */
  function Inserted(f: Fields, seqNum: SeqNum, data: seq<byte>): (Fields, bool) {
    var f1 := if f.start == 0 then f.(start := seqNum) else f;
    var end := (seqNum + |data|) % TWO_TO_THE_32;
    var f2 := if seqNum + |data| > f.end then f1.(end := end, buf := Resize(f.buf, Sub32(end, f1.start))) else f1;
    var pos := Sub32(seqNum, f2.start);
    if pos > |f2.buf| then (f2, false) else (f2.(buf := Replace(f2.buf, pos, data)), true)
  }

  /** The buffer runs from the start to the end, and the used position lies between or is unset. */
  ghost predicate Whole(f: Fields) {
    && (f.end == 0 ==> f.buf == []) && (f.end != 0 ==> f.start <= f.end && |f.buf| == f.end - f.start)
    && (f.used == 0 || f.start <= f.used <= if f.end == 0 then f.start else f.end)
  }

  /** A segment that neither lies before the start nor wraps around; a start of 0 is none. */
  ghost predicate Fits(f: Fields, seqNum: SeqNum, data: seq<byte>) {
    f.start <= seqNum && seqNum + |data| < TWO_TO_THE_32 && (f.start != 0 || (seqNum != 0 && f.end == 0))
  }

  /** A segment that fits is laid over the buffer at its place. */
  lemma InsertedInPlace(f: Fields, seqNum: SeqNum, data: seq<byte>)
    requires Whole(f) && Fits(f, seqNum, data)
    ensures var start := if f.start == 0 then seqNum else f.start;
      Inserted(f, seqNum, data) ==
      (Fields(start, Max(f.end, seqNum + |data|), f.used, Overlay(f.buf, seqNum - start, data)), true)
    ensures Whole(Inserted(f, seqNum, data).0)
  {
    hide Resize, Replace, Overlay;
    var start := if f.start == 0 then seqNum else f.start;
    ResizeReplace(f.buf, seqNum - start, data);
  }

  /** Data from before the start is an exception, as long as it does not reach past the end. */
  lemma InsertedTooEarly(f: Fields, seqNum: SeqNum, data: seq<byte>)
    requires Whole(f) && seqNum < f.start && seqNum + |data| <= f.end
    ensures Inserted(f, seqNum, data) == (f, false)
  {
  }

  /** Data from before the start that reaches past the end.  Where it reaches up to the start it is
      an exception too, but the buffer has grown to its end by then, with zeros; otherwise, there
      being no data yet, it is laid behind as many zeros as 32-bit arithmetic makes of its distance. */
  lemma InsertedPastEnd(f: Fields, seqNum: SeqNum, data: seq<byte>)
    requires Whole(f) && seqNum < f.start && f.end < seqNum + |data| < TWO_TO_THE_32
    ensures var end := seqNum + |data|;
      Inserted(f, seqNum, data) ==
      if f.start <= end then (f.(end := end, buf := f.buf + Zeros(end - f.start - |f.buf|)), false)
      else (f.(end := end, buf := Zeros(TWO_TO_THE_32 + seqNum - f.start) + data), true)
  {
    hide Resize, Replace, Sub32;
    var end := seqNum + |data|;
    Wraps(seqNum, f.start);
    if f.start <= end {
      NoWrap(end, f.start);
      Grown(f.buf, end - f.start);
    } else {
      Wraps(end, f.start);
      Grown(f.buf, TWO_TO_THE_32 + end - f.start);
      LaidBehind(TWO_TO_THE_32 + seqNum - f.start, data);
    }
  }

  lemma Wraps(a: SeqNum, b: SeqNum)
    requires a < b
    ensures Sub32(a, b) == TWO_TO_THE_32 + a - b
  {
  }

  lemma NoWrap(a: SeqNum, b: SeqNum)
    requires b <= a
    ensures Sub32(a, b) == a - b
  {
  }

  lemma Grown(buf: seq<byte>, n: nat)
    requires |buf| <= n
    ensures Resize(buf, n) == buf + Zeros(n - |buf|)
  {
    if n == |buf| { assert buf[..n] == buf + Zeros(0); }
  }

  lemma LaidBehind(pos: nat, data: seq<byte>)
    ensures Replace(Resize([], pos + |data|), pos, data) == Zeros(pos) + data
  {
    assert Resize([], pos + |data|) == Zeros(pos + |data|);
    assert Zeros(pos + |data|)[..pos] == Zeros(pos);
  }

  /** `dumpUnusedData`: what is appended, if anything can be. */
  function Dumped(f: Fields): (Fields, Option<seq<byte>>) {
    var pos := Sub32(f.used, f.start);
    if pos > |f.buf| then (f, None)
    else
      var len := Sub32(Sub32(f.end, f.start), pos);
      (f.(used := f.end), Some(f.buf[pos..if pos + len < |f.buf| then pos + len else |f.buf|]))
  }

  /** A stream that starts at 1 and is taken from before its first byte has come: the byte that
      comes then is never handed out. */
  lemma DumpedTooEarly()
    ensures var f := Fields(1, 0, 1, []);
      var g := Inserted(Dumped(f).0, 1, [65]).0;
      && Whole(f) && Dumped(f).1 == Some([])
      && g == Fields(1, 2, 0, [65]) && Dumped(g) == (g, None)
  {
    var f := Fields(1, 0, 1, []);
    assert Dumped(f) == (f.(used := 0), Some([]));
    ResizeReplace([], 0, [65]);
    assert Overlay([], 0, [65]) == [65];
  }

  class SegBuf {
    var start: SeqNum
    var end: SeqNum
    var used: SeqNum
    var buf: seq<byte>

    function Now(): Fields
      reads this
    {
      Fields(start, end, used, buf)
    }

    ghost predicate Valid()
      reads this
    {
      Whole(Now())
    }

    constructor ()
      ensures Valid() && start == end == used == 0 && buf == []
    {
      start, end, used, buf := 0, 0, 0, [];
    }

    method SetStartSeq(seqNum: SeqNum)
      modifies this
      ensures Now() == old(Now()).(start := seqNum)
      ensures old(Valid()) && (end == 0 || seqNum == old(start)) && (used == 0 || used == seqNum) ==> Valid()
    {
      start := seqNum;
    }

    method SetUsedPos(pos: SeqNum)
      modifies this
      ensures Now() == old(Now()).(used := (start + pos) % TWO_TO_THE_32)
      ensures old(Valid()) && start + pos <= (if end == 0 then start else end) ==> Valid() && used == start + pos
    {
      used := (start + pos) % TWO_TO_THE_32;
    }

    /** Any segment at any time: what becomes of the fields, and whether there was no exception. */
    method InsertData(seqNum: SeqNum, data: seq<byte>) returns (ok: bool)
      modifies this
      ensures (Now(), ok) == Inserted(old(Now()), seqNum, data)
      ensures old(Valid()) && old(Fits(Now(), seqNum, data)) ==>
        && ok && Valid() && start <= seqNum && used == old(used)
        && start == (if old(start) == 0 then seqNum else old(start))
        && buf == Overlay(old(buf), seqNum - start, data) && end == Max(old(end), seqNum + |data|)
      ensures old(Valid()) && seqNum < old(start) && seqNum + |data| <= old(end) ==> !ok && Now() == old(Now())
      ensures old(Valid()) && seqNum < old(start) && old(end) < seqNum + |data| < TWO_TO_THE_32 ==>
        && end == seqNum + |data| && start == old(start) && used == old(used) && (ok <==> end < start)
        && buf == if ok then Zeros(TWO_TO_THE_32 + seqNum - start) + data
                  else old(buf) + Zeros(end - start - |old(buf)|)
    {
      hide Resize, Replace, Overlay;
      ghost var f := Now();
      if Whole(f) && Fits(f, seqNum, data) { InsertedInPlace(f, seqNum, data); }
      if Whole(f) && seqNum < f.start {
        if seqNum + |data| <= f.end {
          InsertedTooEarly(f, seqNum, data);
        } else if seqNum + |data| < TWO_TO_THE_32 {
          InsertedPastEnd(f, seqNum, data);
        }
      }
      if start == 0 {
        start := seqNum;
      }
      if seqNum + |data| > end {
        end := (seqNum + |data|) % TWO_TO_THE_32;
        buf := Resize(buf, Sub32(end, start));
      }
      var pos := Sub32(seqNum, start);
      if pos > |buf| {
        return false;
      }
      buf := Replace(buf, pos, data);
      ok := true;
    }

    /** Data was taken out when there was none: the used position lies before the start. */
    predicate Astray()
      reads this
    {
      used < start
    }

    /** The data after the used position.  It is an exception exactly if that position has gone
        astray, which happens exactly when there was nothing yet to dump. */
    method DumpUnusedData() returns (out: Option<seq<byte>>)
      requires Valid()
      modifies this
      ensures Valid() && start == old(start) && end == old(end) && buf == old(buf)
      ensures (Now(), out) == Dumped(old(Now()))
      ensures old(Astray()) ==> out.None? && Astray()
      ensures !old(Astray()) ==>
        out == Some(buf[old(used) - start..]) && used == end && (Astray() <==> end == 0 && start != 0)
    {
      var pos := Sub32(used, start);
      if pos > |buf| {
        return None;
      }
      var len := Sub32(Sub32(end, start), pos);
      var piece := buf[pos..if pos + len < |buf| then pos + len else |buf|];
      assert piece == buf[pos..];
      out := Some(piece);
      used := end;
    }
  }

  // ---- A whole run of one direction ----

  /** What a buffer is used for: a segment arrives, or the data not yet used is taken out. */
  datatype Use = Arrive(seg: Segment) | Take

  /** Segments come in order, except that earlier data may come again, and the first data comes
      before anything is taken out. */
  predicate InOrder(uses: seq<Use>, stream: seq<byte>, len: nat) {
    uses != [] ==>
      match uses[0]
      case Arrive(seg) =>
        && PartOf(seg, stream) && seg.pos <= len
        && InOrder(uses[1..], stream, Max(len, seg.pos + |seg.data|))
      case Take => len > 0 && InOrder(uses[1..], stream, len)
  }

  /** How much of the stream has arrived after `len` bytes and some uses. */
  function Arrived(uses: seq<Use>, len: nat): nat {
    if uses == [] then len
    else Arrived(uses[1..], if uses[0].Arrive? then Max(len, uses[0].seg.pos + |uses[0].seg.data|) else len)
  }

  lemma {:induction false} OverlayInOrder(buf: seq<byte>, seg: Segment, stream: seq<byte>)
    requires PartOf(seg, stream) && seg.pos <= |buf| <= |stream| && buf == stream[..|buf|]
    ensures Overlay(buf, seg.pos, seg.data) == stream[..Max(|buf|, seg.pos + |seg.data|)]
  {
    var now := Overlay(buf, seg.pos, seg.data);
    forall i | 0 <= i < |now|
      ensures now[i] == stream[i]
    {
      if seg.pos <= i < seg.pos + |seg.data| {
        assert stream[seg.pos..seg.pos + |seg.data|][i - seg.pos] == stream[i];
      }
    }
  }

  /** Data that arrives in order, however often repeated, is taken out as it was sent, every byte
      once: after a final Take what came out is all that has arrived, in the end the stream. */
  method Drain(start: SeqNum, uses: seq<Use>, stream: seq<byte>) returns (out: seq<byte>, b: SegBuf)
    requires 0 < start && start + |stream| < TWO_TO_THE_32 && InOrder(uses, stream, 0)
    ensures b.Valid() && b.start == start && Arrived(uses, 0) <= |stream| && b.buf == stream[..Arrived(uses, 0)]
    ensures out <= b.buf && (uses != [] && uses[|uses| - 1].Take? ==> out == stream[..Arrived(uses, 0)])
    ensures uses != [] && uses[|uses| - 1].Take? && Arrived(uses, 0) == |stream| ==> out == stream
  {
    hide Overlay, PartOf, Inserted;
    b := new SegBuf();
    b.SetStartSeq(start);
    b.SetUsedPos(0);
    out := [];
    var i := 0;
    assert uses[0..] == uses;
    while i < |uses|
      invariant i <= |uses| && InStep(b, start, stream, out)
      invariant InOrder(uses[i..], stream, |b.buf|) && Arrived(uses[i..], |b.buf|) == Arrived(uses, 0)
      invariant i > 0 && uses[i - 1].Take? ==> out == b.buf
    {
      assert uses[i..][1..] == uses[i + 1..];
      if uses[i].Arrive? {
        Receive(b, start, stream, out, uses[i].seg);
      } else {
        out := TakeOut(b, start, stream, out);
      }
      i := i + 1;
    }
    assert stream[..|stream|] == stream;
  }

  /** The buffer holds a beginning of the stream, and the beginning of that has been taken out. */
  ghost predicate InStep(b: SegBuf, start: SeqNum, stream: seq<byte>, out: seq<byte>)
    reads b
  {
    && b.Valid() && b.start == start && 0 < start && start + |stream| < TWO_TO_THE_32
    && |b.buf| <= |stream| && b.buf == stream[..|b.buf|]
    && b.used == start + |out| && out <= b.buf
  }

  method Receive(b: SegBuf, start: SeqNum, ghost stream: seq<byte>, ghost out: seq<byte>, seg: Segment)
    requires InStep(b, start, stream, out) && PartOf(seg, stream) && seg.pos <= |b.buf|
    modifies b
    ensures InStep(b, start, stream, out) && |b.buf| == Max(old(|b.buf|), seg.pos + |seg.data|)
  {
    hide Overlay, PartOf, Inserted;
    OverlayInOrder(b.buf, seg, stream);
    PartFits(seg, stream);
    var _ := b.InsertData(start + seg.pos, seg.data);
  }

  method TakeOut(b: SegBuf, start: SeqNum, ghost stream: seq<byte>, out: seq<byte>) returns (out': seq<byte>)
    requires InStep(b, start, stream, out) && b.buf != []
    modifies b
    ensures InStep(b, start, stream, out') && b.buf == old(b.buf) && out' == b.buf
  {
    var dump := b.DumpUnusedData();
    out' := out + dump.value;
  }

  lemma PartFits(seg: Segment, stream: seq<byte>)
    requires PartOf(seg, stream)
    ensures seg.pos + |seg.data| <= |stream|
  {
  }

  /** Segments in any order, with any repetitions: the buffer is the stream once no byte of it
      is missing. */
  method Rebuild(start: SeqNum, segs: seq<Segment>, stream: seq<byte>) returns (b: SegBuf)
    requires 0 < start && start + |stream| < TWO_TO_THE_32 && forall k :: 0 <= k < |segs| ==> PartOf(segs[k], stream)
    ensures b.Valid() && b.start == start
    ensures (forall i: nat :: i < |stream| ==> Covered(segs, i)) ==> b.buf == stream
  {
    hide Overlay, PartOf, Inserted;
    b := new SegBuf();
    b.SetStartSeq(start);
    var i := 0;
    while i < |segs|
      invariant i <= |segs| && b.Valid() && b.start == start && b.buf == AfterAll(segs[..i])
    {
      PartFits(segs[i], stream);
      var _ := b.InsertData(start + segs[i].pos, segs[i].data);
      assert segs[..i + 1][..i] == segs[..i];
      i := i + 1;
    }
    assert segs[..i] == segs;
    if forall i: nat :: i < |stream| ==> Covered(segs, i) {
      Reassembles(segs, stream);
    }
  }
}
