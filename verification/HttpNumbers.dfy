/** The numbers the parser reads: content lengths and chunk sizes, and exactly when 64 bits
    hold what was written. */
module HttpNumbers {
  import opened Bytes
  import opened HttpTypes
  import opened HttpStep
  import opened HttpSpec

  /** A decimal numeral; spaces between digits do not end it. */
  function Decimal(ds: seq<byte>): nat
    requires forall k :: 0 <= k < |ds| ==> IsNum(ds[k]) || ds[k] == SP
  {
    if ds == [] then 0
    else
      var v, ch := Decimal(ds[..|ds| - 1]), ds[|ds| - 1];
      if ch == SP then v else v * 10 + Digit(ch)
  }

  /** A hexadecimal numeral in the digits of the `unhex` table. */
  function Hexadecimal(ds: seq<byte>): nat
    requires forall k :: 0 <= k < |ds| ==> Unhex(ds[k]) != -1
  {
    if ds == [] then 0 else Hexadecimal(ds[..|ds| - 1]) * 16 + Unhex(ds[|ds| - 1])
  }

  /** A parser between two digits of a content length. */
  predicate ReadingLength(p: Parser) {
    Resting(p) && p.state.HeaderValue? && p.headerState.ContentLength?
  }

  /** A parser between two digits of a chunk size. */
  predicate ReadingSize(p: Parser) {
    Resting(p) && p.state.ChunkSize?
  }

  /** The overflow test lets a digit pass with the right value exactly if the value fits. */
  lemma AccumulateExact(v: nat, base: nat, d: nat)
    requires base >= 1
    ensures Accumulate(v, base, d) == Some(v * base + d) <==> v * base + d < ULLONG_MAX
  {
    if v * base + d < ULLONG_MAX {
      assert v * base >= v;
    }
  }

  // ---- Content-Length ----

  lemma FirstDigit(p: Parser, ch: byte)
    requires Resting(p) && p.state.HeaderValueStart? && p.headerState.ContentLength? && IsNum(ch)
    requires p.nread < MAX_HEADER_SIZE
    ensures var r := ReadByte(p, ch);
      r.live && ReadingLength(r.p) && r.p.contentLength == Digit(ch) && r.p.nread == p.nread + 1
  {
    hide Step, MarksFit;
    Cases(Counted(p), ch);
  }

  lemma NextDigit(p: Parser, ch: byte)
    requires ReadingLength(p) && (IsNum(ch) || ch == SP) && p.nread < MAX_HEADER_SIZE
    ensures var r := ReadByte(p, ch);
      && (r.live ==> ReadingLength(r.p) && r.p.nread == p.nread + 1)
      && (ch == SP ==> r.live && r.p.contentLength == p.contentLength)
      && (IsNum(ch) ==>
        match Accumulate(p.contentLength, 10, Digit(ch))
        case None => !r.live
        case Some(t) => r.live && r.p.contentLength == t)
  {
    hide Step, Accumulate, MarksFit;
    Cases(Counted(p), ch);
  }

  lemma LengthBound(p: Parser)
    requires ReadingLength(p)
    ensures p.contentLength < ULLONG_MAX
  {
  }

  /** A content length is read as the number that was written if and only if that number is
      below 2^64 - 1. */
  lemma {:induction false} ContentLengthExact(p: Parser, ds: seq<byte>)
    requires Resting(p) && p.state.HeaderValueStart? && p.headerState.ContentLength?
    requires ds != [] && IsNum(ds[0]) && forall k :: 0 <= k < |ds| ==> IsNum(ds[k]) || ds[k] == SP
    requires p.nread + |ds| <= MAX_HEADER_SIZE
    ensures var r := Feed(Run(p, [], true), ds);
      && (r.live && r.p.contentLength == Decimal(ds) <==> Decimal(ds) < ULLONG_MAX)
      && (r.live ==> ReadingLength(r.p) && r.p.nread == p.nread + |ds|)
  {
    hide Resting, ReadByte, ReadingLength, Accumulate;
    var n, start := |ds| - 1, Run(p, [], true);
    var ch, before := ds[n], Feed(start, ds[..n]);
    assert Feed(start, ds) == Then(before, ch);
    if n == 0 {
      FirstDigit(p, ch);
      assert ds[..n] == [];
    } else {
      ContentLengthExact(p, ds[..n]);
      if before.live {
        NextDigit(before.p, ch);
        LengthBound(before.p);
        if Feed(start, ds).live { LengthBound(Feed(start, ds).p); }
        if ch != SP { AccumulateExact(before.p.contentLength, 10, Digit(ch)); }
      }
    }
  }

  // ---- Numerals with many zeroes ----

  const ZERO: byte := 48

  function Noughts(k: nat): (s: seq<byte>)
    ensures |s| == k
  {
    seq(k, _ => ZERO)
  }

  function Power(b: nat, k: nat): nat {
    if k == 0 then 1 else Power(b, k - 1) * b
  }

  lemma {:induction false} DecimalNoughts(d: byte, k: nat)
    requires IsNum(d)
    ensures Decimal([d] + Noughts(k)) == Digit(d) * Power(10, k)
  {
    var ds := [d] + Noughts(k);
    if k == 0 {
      assert ds[..0] == [] && ds == [d];
    } else {
      assert ds[..|ds| - 1] == [d] + Noughts(k - 1);
      DecimalNoughts(d, k - 1);
      Regrouped(Digit(d), Power(10, k - 1), 10);
    }
  }

  lemma Regrouped(a: nat, b: nat, c: nat)
    ensures a * b * c == a * (b * c)
  {
  }

  lemma PowersOfTen()
    ensures Power(10, 18) == 1_000_000_000_000_000_000
  {
    assert Power(10, 3) == 1_000;
    assert Power(10, 6) == 1_000_000;
    assert Power(10, 9) == 1_000_000_000;
    assert Power(10, 12) == 1_000_000_000_000;
    assert Power(10, 15) == 1_000_000_000_000_000;
  }

  /** Not every number that does not fit is rejected: the overflow test misses 3 and 19 zeroes. */
  lemma WrapAround(p: Parser)
    requires Resting(p) && p.state.HeaderValueStart? && p.headerState.ContentLength? && p.nread + 20 <= MAX_HEADER_SIZE
    ensures var ds := [51] + Noughts(19);
      var r := Feed(Run(p, [], true), ds);
      r.live && r.p.contentLength == 11_553_255_926_290_448_384 && Decimal(ds) == 30_000_000_000_000_000_000
  {
    hide Resting, Feed, Power, Noughts;
    ThreeAndNoughts();
    var front := [51] + Noughts(18);
    assert [51] + Noughts(19) == front + [ZERO] by { OneMore(18); }
    WrapsFrom(p, front);
  }

  lemma ThreeAndNoughts()
    ensures var ds := [51] + Noughts(18);
      (forall k :: 0 <= k < |ds| ==> IsNum(ds[k])) && Decimal(ds) == 3_000_000_000_000_000_000
  {
    OneMore(18);
    PowersOfTen();
    hide Power;
    DecimalNoughts(51, 18);
  }

  lemma WrapsFrom(p: Parser, ds: seq<byte>)
    requires Resting(p) && p.state.HeaderValueStart? && p.headerState.ContentLength?
    requires ds != [] && (forall k :: 0 <= k < |ds| ==> IsNum(ds[k])) && Decimal(ds) == 3_000_000_000_000_000_000
    requires p.nread + |ds| < MAX_HEADER_SIZE
    ensures var r := Feed(Run(p, [], true), ds + [ZERO]);
      r.live && r.p.contentLength == 11_553_255_926_290_448_384 && Decimal(ds + [ZERO]) == 30_000_000_000_000_000_000
  {
    hide Resting, ReadByte, ReadingLength, Feed;
    assert (ds + [ZERO])[..|ds|] == ds;
    ContentLengthExact(p, ds);
    FeedSnoc(Run(p, [], true), ds, ZERO);
    NextDigit(Feed(Run(p, [], true), ds).p, ZERO);
  }

  lemma OneMore(k: nat)
    ensures Noughts(k + 1) == Noughts(k) + [ZERO] && forall i :: 0 <= i < k ==> Noughts(k)[i] == ZERO
  {
  }

  // ---- Chunk sizes ----

  lemma FirstHexDigit(p: Parser, ch: byte)
    requires Resting(p) && p.state.ChunkSizeStart? && Unhex(ch) != -1
    ensures var r := ReadByte(p, ch); r.live && ReadingSize(r.p) && r.p.contentLength == Unhex(ch) && r.p.nread == 1
  {
    hide Step, MarksFit, Unhex;
    UnhexRange(ch);
    Cases(Counted(p), ch);
  }

  lemma NextHexDigit(p: Parser, ch: byte)
    requires ReadingSize(p) && Unhex(ch) != -1 && p.nread < MAX_HEADER_SIZE
    ensures Unhex(CR) == -1 && Unhex(ch) >= 0
    ensures var r := ReadByte(p, ch);
      && (r.live ==> ReadingSize(r.p) && r.p.nread == p.nread + 1)
      && match Accumulate(p.contentLength, 16, Unhex(ch))
         case None => !r.live
         case Some(t) => r.live && r.p.contentLength == t
  {
    assert Unhex(CR) == -1;
    hide Step, MarksFit, Unhex, Accumulate;
    UnhexRange(ch);
    Cases(Counted(p), ch);
  }

  lemma SizeBound(p: Parser)
    requires ReadingSize(p)
    ensures p.contentLength < ULLONG_MAX
  {
  }

  /** In the digits of the table: the value is exact if and only if it is below 2^64 - 1. */
  lemma {:induction false} SizeInTable(p: Parser, ds: seq<byte>)
    requires Resting(p) && p.state.ChunkSizeStart?
    requires ds != [] && (forall k :: 0 <= k < |ds| ==> Unhex(ds[k]) != -1) && |ds| <= MAX_HEADER_SIZE
    ensures var r := Feed(Run(p, [], true), ds);
      && (r.live && r.p.contentLength == Hexadecimal(ds) <==> Hexadecimal(ds) < ULLONG_MAX)
      && (r.live ==> ReadingSize(r.p) && r.p.nread == |ds|)
  {
    hide Resting, ReadByte, ReadingSize, Accumulate, Unhex;
    var n, start := |ds| - 1, Run(p, [], true);
    var ch, before := ds[n], Feed(start, ds[..n]);
    assert Feed(start, ds) == Then(before, ch);
    if n == 0 {
      FirstHexDigit(p, ch);
      UnhexRange(ch);
      assert ds[..n] == [];
    } else {
      SizeInTable(p, ds[..n]);
      UnhexRange(ch);
      if before.live {
        NextHexDigit(before.p, ch);
        SizeBound(before.p);
        if Feed(start, ds).live { SizeBound(Feed(start, ds).p); }
        AccumulateExact(before.p.contentLength, 16, Unhex(ch));
      }
    }
  }

  // ---- Chunk sizes as they are written ----

  predicate IsHex(b: byte) {
    IsNum(b) || 'A' as int <= b as int <= 'F' as int || 'a' as int <= b as int <= 'f' as int
  }

  function HexValue(b: byte): nat
    requires IsHex(b)
  {
    if IsNum(b) then b as int - '0' as int
    else if b as int <= 'F' as int then b as int - 'A' as int + 10
    else b as int - 'a' as int + 10
  }

  predicate AllHex(ds: seq<byte>) {
    forall k :: 0 <= k < |ds| ==> IsHex(ds[k])
  }

  /** The number that hexadecimal digits denote. */
  function Written(ds: seq<byte>): nat
    requires AllHex(ds)
  {
    if ds == [] then 0 else Written(ds[..|ds| - 1]) * 16 + HexValue(ds[|ds| - 1])
  }

  /** The table is right about ASCII; its upper half takes everything for the digit 0. */
  lemma TableIs(b: byte)
    ensures Unhex(b) == if IsHex(b) then HexValue(b) else if b >= 128 then 0 else -1
  {
  }

  lemma {:induction false} TableValue(ds: seq<byte>)
    requires AllHex(ds)
    ensures (forall k :: 0 <= k < |ds| ==> Unhex(ds[k]) != -1) && Hexadecimal(ds) == Written(ds)
  {
    forall k | 0 <= k < |ds|
      ensures Unhex(ds[k]) != -1
    {
      TableIs(ds[k]);
    }
    if ds != [] {
      TableValue(ds[..|ds| - 1]);
      TableIs(ds[|ds| - 1]);
    }
  }

  lemma NoDigit(p: Parser, ch: byte)
    requires Resting(p) && Unhex(ch) == -1 && ch != CR && ch != SP && !Is(ch, ';')
    requires p.state.ChunkSizeStart? || p.state.ChunkSize?
    ensures !ReadByte(p, ch).live
  {
    hide Step, MarksFit, Unhex;
    Cases(Counted(p), ch);
  }

  /** Other bytes than those of the table, or those that end a size, are refused. */
  lemma {:induction false} SizeRefused(p: Parser, ds: seq<byte>)
    requires Resting(p) && p.state.ChunkSizeStart? && |ds| <= MAX_HEADER_SIZE
    requires forall k :: 0 <= k < |ds| ==> ds[k] != CR && ds[k] != SP && !Is(ds[k], ';')
    ensures Feed(Run(p, [], true), ds).live ==> forall k :: 0 <= k < |ds| ==> IsHex(ds[k]) || ds[k] >= 128
  {
    hide Resting, ReadByte, Unhex, IsHex;
    if ds != [] {
      var n, start := |ds| - 1, Run(p, [], true);
      SizeRefused(p, ds[..n]);
      var before := Feed(start, ds[..n]);
      assert Feed(start, ds) == Then(before, ds[n]);
      if before.live {
        if n > 0 {
          InTable(ds[..n]);
          SizeInTable(p, ds[..n]);
        } else {
          assert ds[..0] == [];
        }
        TableIs(ds[n]);
        if Unhex(ds[n]) == -1 { NoDigit(before.p, ds[n]); }
      }
    }
  }

  lemma InTable(ds: seq<byte>)
    requires forall k :: 0 <= k < |ds| ==> IsHex(ds[k]) || ds[k] >= 128
    ensures forall k :: 0 <= k < |ds| ==> Unhex(ds[k]) != -1
  {
    forall k | 0 <= k < |ds|
      ensures Unhex(ds[k]) != -1
    {
      TableIs(ds[k]);
    }
  }

  /** A chunk size is read as the number it spells if and only if it spells one, all its bytes
      being hexadecimal digits, and that number is below 2^64 - 1.  Anything else that gets
      through has a byte from 128 on in it, or is too large. */
  lemma ChunkSizeExact(p: Parser, ds: seq<byte>)
    requires Resting(p) && p.state.ChunkSizeStart? && ds != [] && |ds| <= MAX_HEADER_SIZE
    requires forall k :: 0 <= k < |ds| ==> ds[k] != CR && ds[k] != SP && !Is(ds[k], ';')
    ensures var r := Feed(Run(p, [], true), ds);
      && (r.live && AllHex(ds) && r.p.contentLength == Written(ds) <==> AllHex(ds) && Written(ds) < ULLONG_MAX)
      && (r.live && !AllHex(ds) ==> exists k :: 0 <= k < |ds| && ds[k] >= 128)
  {
    if AllHex(ds) {
      TableValue(ds);
      hide Resting, ReadByte, Unhex, Feed;
      SizeInTable(p, ds);
    } else {
      SizeRefused(p, ds);
    }
  }

  /** A byte from 128 on after a size counts as the digit 0. */
  lemma HighByteFrom(p: Parser, ds: seq<byte>, b: byte)
    requires Resting(p) && p.state.ChunkSizeStart? && ds != [] && |ds| < MAX_HEADER_SIZE && b >= 128
    requires AllHex(ds) && Written(ds) * 16 < ULLONG_MAX
    ensures var r := Feed(Run(p, [], true), ds + [b]);
      r.live && r.p.contentLength == Written(ds) * 16 && !AllHex(ds + [b])
  {
    TableValue(ds);
    TableIs(b);
    assert !IsHex((ds + [b])[|ds|]);
    hide Resting, ReadByte, Unhex, IsHex, Feed, Written, HexValue, Accumulate;
    SizeInTable(p, ds);
    FeedSnoc(Run(p, [], true), ds, b);
    NextHexDigit(Feed(Run(p, [], true), ds).p, b);
    AccumulateExact(Written(ds), 16, 0);
  }

  /** The bytes 0x31 and 0x80, of which the second is no digit, are read as 16. */
  lemma HighByte(p: Parser)
    requires Resting(p) && p.state.ChunkSizeStart?
    ensures var r := Feed(Run(p, [], true), [0x31] + [0x80]);
      r.live && r.p.contentLength == 16 && !AllHex([0x31] + [0x80])
  {
    assert [0x31 as byte][..0] == [] && Written([0x31]) == 1;
    hide Resting, Feed, Written;
    HighByteFrom(p, [0x31], 0x80);
  }

  lemma {:induction false} WrittenNoughts(k: nat)
    ensures var ds := [49, 50] + Noughts(k); AllHex(ds) && Written(ds) == 0x12 * Power(16, k)
  {
    var ds := [49, 50] + Noughts(k);
    if k == 0 {
      assert ds == [49, 50] && ds[..1] == [49] && [49 as byte][..0] == [];
      assert Written([49]) == 1;
    } else {
      assert ds[..|ds| - 1] == [49, 50] + Noughts(k - 1);
      WrittenNoughts(k - 1);
      Regrouped(0x12, Power(16, k - 1), 16);
    }
  }

  lemma PowersOfSixteen()
    ensures Power(16, 14) == 0x100_0000_0000_0000 && Power(16, 15) == 0x1000_0000_0000_0000
  {
    assert Power(16, 4) == 0x1_0000;
    assert Power(16, 8) == 0x1_0000_0000;
    assert Power(16, 12) == 0x1_0000_0000_0000;
  }

  /** Sizes wrap around as well: 12 and 15 zeroes are accepted as 2 and 15 zeroes. */
  lemma SizeWrapsAround(p: Parser)
    requires Resting(p) && p.state.ChunkSizeStart?
    ensures var ds := [49, 50] + Noughts(15);
      var r := Feed(Run(p, [], true), ds);
      r.live && r.p.contentLength == 0x2000_0000_0000_0000 && AllHex(ds) && Written(ds) == 0x1_2000_0000_0000_0000
  {
    hide Resting, Feed, Power, Noughts, IsHex, Written, AllHex;
    var front := [49, 50] + Noughts(14);
    PowersOfSixteen();
    WrittenNoughts(14);
    WrittenNoughts(15);
    assert [49, 50] + Noughts(15) == front + [ZERO] by { OneMore(14); }
    SizeWrapsFrom(p, front);
  }

  lemma SizeWrapsFrom(p: Parser, ds: seq<byte>)
    requires Resting(p) && p.state.ChunkSizeStart? && ds != [] && |ds| < MAX_HEADER_SIZE
    requires AllHex(ds) && Written(ds) == 0x1200_0000_0000_0000
    ensures var r := Feed(Run(p, [], true), ds + [ZERO]);
      r.live && r.p.contentLength == 0x2000_0000_0000_0000
  {
    TableValue(ds);
    assert Unhex(ZERO) == 0;
    hide Resting, ReadByte, Unhex, IsHex, Feed, Written, Accumulate;
    SizeInTable(p, ds);
    FeedSnoc(Run(p, [], true), ds, ZERO);
    NextHexDigit(Feed(Run(p, [], true), ds).p, ZERO);
    TestMisses();
  }

  lemma TestMisses()
    ensures Accumulate(0x1200_0000_0000_0000, 16, 0) == Some(0x2000_0000_0000_0000)
  {
  }

  // ---- Looking at a byte again ----

  /** How often the switch is executed for one byte. */
  function Looks(p: Parser, ch: byte): (n: nat)
    requires AtSwitch(p)
    ensures 1 <= n <= Rank(p.state) + 1 <= 4
    decreases Rank(p.state)
  {
    hide AtSwitch, Resting, MarksFit, Step;
    var o := Step(p, ch, 1);
    if o.exit == Reexecute then 1 + Looks(o.p, ch) else 1
  }
}
