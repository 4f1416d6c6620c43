/** First lines as sections 5.1 and 6.1 of RFC 2616 write them, and what the parser makes of them. */
module HttpLines {
  import opened Bytes
  import opened HttpTypes
  import opened HttpStep
  import opened HttpSpec
  import opened HttpNumbers
  import opened HttpUrls

  // ---- Bytes that only move the parser along ----

  /** A byte of the letters of HTTP and the version number. */
  lemma PassedName(p: Parser, ch: byte)
    requires Resting(p) && NameState(p.state) && p.nread < MAX_HEADER_SIZE && Is(ch, NameNext(p.state).0)
    ensures ReadByte(p, ch) == Run(Next(p).(state := NameNext(p.state).1), [], true)
  {
    NextAtSwitch(p);
    Cases(Next(p), ch);
    assert StepName(Next(p), ch) == Outcome(Next(p).(state := NameNext(p.state).1), None, None, None, Break, 1) by {
      hide Good, AtSwitch, NameNext;
    }
    hide Step, StepName, AtSwitch, Resting, NameNext, ReadByte;
    ReadOnce(p, ch, Outcome(Next(p).(state := NameNext(p.state).1), None, None, None, Break, 1));
  }

  lemma PassedMajor(p: Parser, ch: byte, r: Parser)
    requires Resting(p) && MajorState(p.state) && p.nread < MAX_HEADER_SIZE && Holds(r.state).None?
    requires AtSwitch(Next(p)) && StepMajor(Next(p), ch) == Outcome(r, None, None, None, Break, 1)
    ensures ReadByte(p, ch) == Run(r, [], true)
  {
    hide Step, StepMajor, AtSwitch, Resting, ReadByte;
    Cases(Next(p), ch);
    ReadOnce(p, ch, Outcome(r, None, None, None, Break, 1));
  }

  lemma PassedMinor(p: Parser, ch: byte, r: Parser)
    requires Resting(p) && MinorState(p.state) && p.nread < MAX_HEADER_SIZE && Holds(r.state).None?
    requires AtSwitch(Next(p)) && StepMinor(Next(p), ch) == Outcome(r, None, None, None, Break, 1)
    ensures ReadByte(p, ch) == Run(r, [], true)
  {
    hide Step, StepMinor, AtSwitch, Resting, ReadByte;
    Cases(Next(p), ch);
    ReadOnce(p, ch, Outcome(r, None, None, None, Break, 1));
  }

  lemma PassedLine(p: Parser, ch: byte, r: Parser)
    requires Resting(p) && LineState(p.state) && p.nread < MAX_HEADER_SIZE && Holds(r.state).None?
    requires AtSwitch(Next(p)) && StepLine(Next(p), ch) == Outcome(r, None, None, None, Break, 1)
    ensures ReadByte(p, ch) == Run(r, [], true)
  {
    hide Step, StepLine, AtSwitch, Resting, ReadByte;
    Cases(Next(p), ch);
    ReadOnce(p, ch, Outcome(r, None, None, None, Break, 1));
  }

  // ---- Numbers ----

  predicate IsNumeral(ds: seq<byte>) {
    ds != [] && forall k :: 0 <= k < |ds| ==> IsNum(ds[k])
  }

  /** A number of at most three digits' worth. */
  predicate Small(ds: seq<byte>) {
    IsNumeral(ds) && Decimal(ds) <= 999
  }

  lemma SmallBefore(ds: seq<byte>)
    requires Small(ds)
    ensures var n := |ds| - 1;
      && (n > 0 ==> Small(ds[..n]) && Decimal(ds) == Decimal(ds[..n]) * 10 + Digit(ds[n]))
      && (n == 0 ==> Decimal(ds) == Digit(ds[0]))
  {
    var n := |ds| - 1;
    assert IsNum(ds[n]);
    if n == 0 { assert ds[..0] == []; }
  }

  lemma MajorDigit(p: Parser, ch: byte)
    requires Resting(p) && MajorState(p.state) && p.nread < MAX_HEADER_SIZE && IsNum(ch)
    requires p.state.ReqFirstMajor? ==> !Is(ch, '0')
    ensures p.state.ResFirstMajor? || p.state.ReqFirstMajor? ==>
      ReadByte(p, ch) ==
        Run(Next(p).(major := Digit(ch), state := if p.state.ResFirstMajor? then ResMajor else ReqMajor), [], true)
    ensures (p.state.ResMajor? || p.state.ReqMajor?) && p.major * 10 + Digit(ch) <= 999 ==>
      ReadByte(p, ch) == Run(Next(p).(major := p.major * 10 + Digit(ch)), [], true)
  {
    NextAtSwitch(p);
    hide Good, AtSwitch, Resting, ReadByte;
    if p.state.ResFirstMajor? || p.state.ReqFirstMajor? {
      PassedMajor(p, ch, Next(p).(major := Digit(ch), state := if p.state.ResFirstMajor? then ResMajor else ReqMajor));
    } else if p.major * 10 + Digit(ch) <= 999 {
      PassedMajor(p, ch, Next(p).(major := p.major * 10 + Digit(ch)));
    }
  }

  lemma {:induction false} ReadMajor(p: Parser, ds: seq<byte>)
    requires Resting(p) && (p.state.ResFirstMajor? || p.state.ReqFirstMajor?) && Small(ds)
    requires p.nread + |ds| <= MAX_HEADER_SIZE
    requires p.state.ReqFirstMajor? ==> !Is(ds[0], '0')
    ensures Feed(Run(p, [], true), ds) ==
      var next := if p.state.ResFirstMajor? then ResMajor else ReqMajor;
      Run(p.(nread := p.nread + |ds|, major := Decimal(ds), state := next), [], true)
  {
    hide Resting, ReadByte, Decimal;
    var n := |ds| - 1;
    SmallBefore(ds);
    if n == 0 {
      assert ds[..0] == [];
      MajorDigit(p, ds[0]);
    } else {
      ReadMajor(p, ds[..n]);
      MajorDigit(Feed(Run(p, [], true), ds[..n]).p, ds[n]);
    }
  }

  lemma MajorDot(p: Parser, ch: byte)
    requires Resting(p) && (p.state.ResMajor? || p.state.ReqMajor?) && p.nread < MAX_HEADER_SIZE && Is(ch, '.')
    ensures ReadByte(p, ch) ==
      Run(Next(p).(state := if p.state.ResMajor? then ResFirstMinor else ReqFirstMinor), [], true)
  {
    NextAtSwitch(p);
    hide Good, AtSwitch, Resting, ReadByte;
    PassedMajor(p, ch, Next(p).(state := if p.state.ResMajor? then ResFirstMinor else ReqFirstMinor));
  }

  lemma MinorDigit(p: Parser, ch: byte)
    requires Resting(p) && MinorState(p.state) && p.nread < MAX_HEADER_SIZE && IsNum(ch)
    ensures p.state.ResFirstMinor? || p.state.ReqFirstMinor? ==>
      ReadByte(p, ch) ==
        Run(Next(p).(minor := Digit(ch), state := if p.state.ResFirstMinor? then ResMinor else ReqMinor), [], true)
    ensures (p.state.ResMinor? || p.state.ReqMinor?) && p.minor * 10 + Digit(ch) <= 999 ==>
      ReadByte(p, ch) == Run(Next(p).(minor := p.minor * 10 + Digit(ch)), [], true)
  {
    NextAtSwitch(p);
    hide Good, AtSwitch, Resting, ReadByte;
    if p.state.ResFirstMinor? || p.state.ReqFirstMinor? {
      PassedMinor(p, ch, Next(p).(minor := Digit(ch), state := if p.state.ResFirstMinor? then ResMinor else ReqMinor));
    } else if p.minor * 10 + Digit(ch) <= 999 {
      PassedMinor(p, ch, Next(p).(minor := p.minor * 10 + Digit(ch)));
    }
  }

  lemma {:induction false} ReadMinor(p: Parser, ds: seq<byte>)
    requires Resting(p) && (p.state.ResFirstMinor? || p.state.ReqFirstMinor?) && Small(ds)
    requires p.nread + |ds| <= MAX_HEADER_SIZE
    ensures Feed(Run(p, [], true), ds) ==
      var next := if p.state.ResFirstMinor? then ResMinor else ReqMinor;
      Run(p.(nread := p.nread + |ds|, minor := Decimal(ds), state := next), [], true)
  {
    hide Resting, ReadByte, Decimal;
    var n := |ds| - 1;
    SmallBefore(ds);
    if n == 0 {
      assert ds[..0] == [];
      MinorDigit(p, ds[0]);
    } else {
      ReadMinor(p, ds[..n]);
      MinorDigit(Feed(Run(p, [], true), ds[..n]).p, ds[n]);
    }
  }

  lemma StatusDigit(p: Parser, ch: byte)
    requires Resting(p) && (p.state.ResFirstStatusCode? || p.state.ResStatusCode?) && p.nread < MAX_HEADER_SIZE
    requires IsNum(ch)
    ensures p.state.ResFirstStatusCode? ==>
      ReadByte(p, ch) == Run(Next(p).(status := Digit(ch), state := ResStatusCode), [], true)
    ensures p.state.ResStatusCode? && p.status * 10 + Digit(ch) <= 999 ==>
      ReadByte(p, ch) == Run(Next(p).(status := p.status * 10 + Digit(ch)), [], true)
  {
    NextAtSwitch(p);
    hide Good, AtSwitch, Resting, ReadByte;
    if p.state.ResFirstStatusCode? {
      PassedLine(p, ch, Next(p).(status := Digit(ch), state := ResStatusCode));
    } else if p.status * 10 + Digit(ch) <= 999 {
      PassedLine(p, ch, Next(p).(status := p.status * 10 + Digit(ch)));
    }
  }

  lemma {:induction false} ReadStatus(p: Parser, ds: seq<byte>)
    requires Resting(p) && p.state.ResFirstStatusCode? && Small(ds) && p.nread + |ds| <= MAX_HEADER_SIZE
    ensures Feed(Run(p, [], true), ds) ==
      Run(p.(nread := p.nread + |ds|, status := Decimal(ds), state := ResStatusCode), [], true)
  {
    hide Resting, ReadByte, Decimal;
    var n := |ds| - 1;
    SmallBefore(ds);
    if n == 0 {
      assert ds[..0] == [];
      StatusDigit(p, ds[0]);
    } else {
      ReadStatus(p, ds[..n]);
      StatusDigit(Feed(Run(p, [], true), ds[..n]).p, ds[n]);
    }
  }

  // ---- Putting pieces together ----

  /** Two pieces, of which only the second is reported on. */
  lemma Chain(p: Parser, a: seq<byte>, q: Parser, b: seq<byte>)
    requires Resting(p) && Feed(Run(p, [], true), a) == Run(q, [], true)
    ensures Feed(Run(p, [], true), a + b) == Feed(Run(q, [], true), b)
  {
    hide Feed, Resting;
    FeedConcat(Run(p, [], true), a, b);
  }

  lemma FeedByte(p: Parser, ch: byte)
    requires Resting(p)
    ensures Feed(Run(p, [], true), [ch]) == ReadByte(p, ch)
  {
    hide Resting, ReadByte;
    assert [ch][..0] == [];
    assert Feed(Run(p, [], true), [ch]) == Then(Run(p, [], true), ch);
    assert [] + ReadByte(p, ch).events == ReadByte(p, ch).events;
  }

  const H: byte := 72
  const T: byte := 84
  const P: byte := 80
  const SLASH: byte := 47
  const DOT: byte := 46

  /** The rest of "HTTP/" after its first letter. */
  lemma ReadTtp(p: Parser)
    requires Resting(p) && (p.state.ResH? || p.state.ReqHttpH?) && p.nread + 4 <= MAX_HEADER_SIZE
    ensures Feed(Run(p, [], true), ([T] + [T]) + ([P] + [SLASH])) ==
      Run(p.(nread := p.nread + 4, state := if p.state.ResH? then ResFirstMajor else ReqFirstMajor), [], true)
  {
    hide Resting, Feed, NameNext;
    var p2 := p.(nread := p.nread + 2, state := if p.state.ResH? then ResHTT else ReqHttpHTT);
    Letters(p.state);
    Letters(if p.state.ResH? then ResHT else ReqHttpHT);
    Letters(p2.state);
    Letters(if p.state.ResH? then ResHTTP else ReqHttpHTTP);
    TwoLetters(p, T, T);
    TwoLetters(p2, P, SLASH);
    Chain(p, [T] + [T], p2, [P] + [SLASH]);
  }

  lemma TwoLetters(p: Parser, a: byte, b: byte)
    requires Resting(p) && NameState(p.state) && p.nread + 2 <= MAX_HEADER_SIZE && Is(a, NameNext(p.state).0)
    requires var s := NameNext(p.state).1; NameState(s) && Is(b, NameNext(s).0)
    ensures var r := p.(nread := p.nread + 2, state := NameNext(NameNext(p.state).1).1);
      Feed(Run(p, [], true), [a] + [b]) == Run(r, [], true) && Resting(r)
  {
    hide Resting, Feed, NameNext;
    var q := Next(p).(state := NameNext(p.state).1);
    Letter(p, a, q);
    Letter(q, b, Next(q).(state := NameNext(q.state).1));
    Chain(p, [a], q, [b]);
  }

  lemma Letters(s: State)
    requires NameState(s)
    ensures s.ResH? ==> NameNext(s) == ('T', ResHT)
    ensures s.ResHT? ==> NameNext(s) == ('T', ResHTT)
    ensures s.ResHTT? ==> NameNext(s) == ('P', ResHTTP)
    ensures s.ResHTTP? ==> NameNext(s) == ('/', ResFirstMajor)
    ensures s.ReqHttpStart? ==> NameNext(s) == ('H', ReqHttpH)
    ensures s.ReqHttpH? ==> NameNext(s) == ('T', ReqHttpHT)
    ensures s.ReqHttpHT? ==> NameNext(s) == ('T', ReqHttpHTT)
    ensures s.ReqHttpHTT? ==> NameNext(s) == ('P', ReqHttpHTTP)
    ensures s.ReqHttpHTTP? ==> NameNext(s) == ('/', ReqFirstMajor)
  {
    hide Plain;
  }

  lemma Letter(p: Parser, ch: byte, q: Parser)
    requires Resting(p) && NameState(p.state) && p.nread < MAX_HEADER_SIZE && Is(ch, NameNext(p.state).0)
    requires q == Next(p).(state := NameNext(p.state).1)
    ensures Feed(Run(p, [], true), [ch]) == Run(q, [], true) && Resting(q)
  {
    hide Resting, ReadByte, Feed, NameNext;
    PassedName(p, ch);
    FeedByte(p, ch);
  }

  /** Major and minor version. */
  lemma ReadVersion(p: Parser, major: seq<byte>, minor: seq<byte>)
    requires Resting(p) && (p.state.ResFirstMajor? || p.state.ReqFirstMajor?) && Small(major) && Small(minor)
    requires p.nread + |major| + |minor| + 1 <= MAX_HEADER_SIZE && (p.state.ReqFirstMajor? ==> !Is(major[0], '0'))
    ensures Feed(Run(p, [], true), major + ([DOT] + minor)) ==
      Run(p.(nread := p.nread + |major| + |minor| + 1, major := Decimal(major), minor := Decimal(minor),
        state := if p.state.ResFirstMajor? then ResMinor else ReqMinor), [], true)
  {
    hide Resting, ReadByte, Feed, Decimal;
    ReadMajor(p, major);
    var q := Feed(Run(p, [], true), major).p;
    MajorDot(q, DOT);
    FeedByte(q, DOT);
    var r := ReadByte(q, DOT).p;
    ReadMinor(r, minor);
    Chain(q, [DOT], r, minor);
    Chain(p, major, q, [DOT] + minor);
  }

  // ---- The status line ----

  lemma FirstH(p: Parser)
    requires Resting(p) && p.state.StartRes? && p.nread < MAX_HEADER_SIZE
    ensures ReadByte(p, H) ==
      Run(Next(p).(flags := NO_FLAGS, contentLength := ULLONG_MAX, state := ResH), [Notified(MessageBegin)], true)
  {
    var q := Next(p);
    NextAtSwitch(p);
    Cases(q, H);
    var blank := q.(flags := NO_FLAGS, contentLength := ULLONG_MAX, state := ResH);
    assert StepStart(q, H) == Outcome(blank, None, None, Some(MessageBegin), Break, 1) by {
      hide Good, AtSwitch;
    }
    hide Step, StepStart, AtSwitch, Resting, ReadByte;
    ReadOnce(p, H, StepStart(q, H));
  }

  lemma MinorSpace(p: Parser)
    requires Resting(p) && p.state.ResMinor? && p.nread < MAX_HEADER_SIZE
    ensures ReadByte(p, SP) == Run(Next(p).(state := ResFirstStatusCode), [], true)
  {
    NextAtSwitch(p);
    hide Good, AtSwitch, Resting, ReadByte;
    PassedMinor(p, SP, Next(p).(state := ResFirstStatusCode));
  }

  lemma StatusSpace(p: Parser)
    requires Resting(p) && p.state.ResStatusCode? && p.nread < MAX_HEADER_SIZE
    ensures ReadByte(p, SP) == Run(Next(p).(state := ResStatus), [], true)
  {
    NextAtSwitch(p);
    hide Good, AtSwitch, Resting, ReadByte;
    PassedLine(p, SP, Next(p).(state := ResStatus));
  }

  lemma ReasonByte(p: Parser, ch: byte)
    requires Resting(p) && p.state.ResStatus? && p.nread < MAX_HEADER_SIZE && ch != CR && ch != LF
    ensures ReadByte(p, ch) == Run(Next(p), [], true)
  {
    NextAtSwitch(p);
    hide Good, AtSwitch, Resting, ReadByte;
    PassedLine(p, ch, Next(p));
  }

  lemma {:induction false} ReadReason(p: Parser, reason: seq<byte>)
    requires Resting(p) && p.state.ResStatus? && CR !in reason && LF !in reason && p.nread + |reason| <= MAX_HEADER_SIZE
    ensures Feed(Run(p, [], true), reason) == Run(p.(nread := p.nread + |reason|), [], true)
  {
    hide Resting, ReadByte;
    if reason != [] {
      var n := |reason| - 1;
      assert reason[n] in reason;
      ReadReason(p, reason[..n]);
      ReasonByte(Feed(Run(p, [], true), reason[..n]).p, reason[n]);
    }
  }

  lemma LineCr(p: Parser)
    requires Resting(p) && (p.state.ResStatus? || p.state.ResStatusCode?) && p.nread < MAX_HEADER_SIZE
    ensures ReadByte(p, CR) == Run(Next(p).(state := ResLineAlmostDone), [], true)
  {
    NextAtSwitch(p);
    hide Good, AtSwitch, Resting, ReadByte;
    PassedLine(p, CR, Next(p).(state := ResLineAlmostDone));
  }

  lemma LineLf(p: Parser)
    requires Resting(p) && (p.state.ResLineAlmostDone? || p.state.ReqLineAlmostDone?) && p.nread < MAX_HEADER_SIZE
    ensures ReadByte(p, LF) == Run(Next(p).(state := HeaderFieldStart), [], true)
  {
    NextAtSwitch(p);
    hide Good, AtSwitch, Resting, ReadByte;
    PassedLine(p, LF, Next(p).(state := HeaderFieldStart));
  }

  /** From the status code to the end of the line. */
  lemma ReadCode(p: Parser, code: seq<byte>, reason: seq<byte>)
    requires Resting(p) && p.state.ResMinor? && Small(code) && CR !in reason && LF !in reason
    requires p.nread + |code| + |reason| + 4 <= MAX_HEADER_SIZE
    ensures Feed(Run(p, [], true), [SP] + (code + ([SP] + (reason + ([CR] + [LF]))))) ==
      Run(p.(nread := p.nread + |code| + |reason| + 4, status := Decimal(code), state := HeaderFieldStart), [], true)
  {
    hide Resting, ReadByte, Feed, Decimal;
    MinorSpace(p);
    FeedByte(p, SP);
    var p1 := ReadByte(p, SP).p;
    ReadStatus(p1, code);
    var p2 := Feed(Run(p1, [], true), code).p;
    StatusSpace(p2);
    FeedByte(p2, SP);
    var p3 := ReadByte(p2, SP).p;
    ReadReason(p3, reason);
    var p4 := Feed(Run(p3, [], true), reason).p;
    LineCr(p4);
    FeedByte(p4, CR);
    var p5 := ReadByte(p4, CR).p;
    LineLf(p5);
    FeedByte(p5, LF);
    Chain(p4, [CR], p5, [LF]);
    Chain(p3, reason, p4, [CR] + [LF]);
    Chain(p2, [SP], p3, reason + ([CR] + [LF]));
    Chain(p1, code, p2, [SP] + (reason + ([CR] + [LF])));
    Chain(p, [SP], p1, code + ([SP] + (reason + ([CR] + [LF]))));
  }

  function StatusLineOf(major: seq<byte>, minor: seq<byte>, code: seq<byte>, reason: seq<byte>): seq<byte> {
    [H] + ((([T] + [T]) + ([P] + [SLASH]))
    + ((major + ([DOT] + minor)) + ([SP] + (code + ([SP] + (reason + ([CR] + [LF])))))))
  }

  lemma LineLength(major: seq<byte>, minor: seq<byte>, code: seq<byte>, reason: seq<byte>)
    ensures |StatusLineOf(major, minor, code, reason)| == |major| + |minor| + |code| + |reason| + 10
  {
  }

  /** A status line begins a message and sets version and status to the numbers written. */
  lemma StatusLine(p: Parser, major: seq<byte>, minor: seq<byte>, code: seq<byte>, reason: seq<byte>)
    requires Resting(p) && p.state.StartRes? && Small(major) && Small(minor) && Small(code) && CR !in reason
    requires LF !in reason
    requires p.nread + |StatusLineOf(major, minor, code, reason)| <= MAX_HEADER_SIZE
    ensures var line := StatusLineOf(major, minor, code, reason);
      Feed(Run(p, [], true), line) == Run(p.(nread := p.nread + |line|, flags := NO_FLAGS, contentLength := ULLONG_MAX,
        major := Decimal(major), minor := Decimal(minor), status := Decimal(code), state := HeaderFieldStart),
          [Notified(MessageBegin)], true)
  {
    hide Resting, ReadByte, Feed, Decimal;
    var letters, version, rest := ([T] + [T]) + ([P] + [SLASH]), major + ([DOT] + minor),
      [SP] + (code + ([SP] + (reason + ([CR] + [LF]))));
    LineLength(major, minor, code, reason);
    FirstH(p);
    FeedByte(p, H);
    var p1 := ReadByte(p, H).p;
    AfterH(p1, major, minor, code, reason);
    FeedConcat(Run(p, [], true), [H], letters + (version + rest));
    FeedEvents(p1, [Notified(MessageBegin)], letters + (version + rest));
  }

  lemma AfterH(p: Parser, major: seq<byte>, minor: seq<byte>, code: seq<byte>, reason: seq<byte>)
    requires Resting(p) && p.state.ResH? && Small(major) && Small(minor) && Small(code) && CR !in reason
    requires LF !in reason
    requires p.nread + |major| + |minor| + |code| + |reason| + 9 <= MAX_HEADER_SIZE
    ensures var letters, version, rest :=
        ([T] + [T]) + ([P] + [SLASH]), major + ([DOT] + minor), [SP] + (code + ([SP] + (reason + ([CR] + [LF]))));
      Feed(Run(p, [], true), letters + (version + rest)) ==
      Run(p.(nread := p.nread + |major| + |minor| + |code| + |reason| + 9, major := Decimal(major),
        minor := Decimal(minor),
        status := Decimal(code), state := HeaderFieldStart), [], true)
  {
    hide Resting, ReadByte, Feed, Decimal;
    var letters, version, rest := ([T] + [T]) + ([P] + [SLASH]), major + ([DOT] + minor),
      [SP] + (code + ([SP] + (reason + ([CR] + [LF]))));
    ReadTtp(p);
    var p2 := Feed(Run(p, [], true), letters).p;
    ReadVersion(p2, major, minor);
    var p3 := Feed(Run(p2, [], true), version).p;
    ReadCode(p3, code, reason);
    Chain(p2, version, p3, rest);
    Chain(p, letters, p2, version + rest);
  }

  // ---- The method of a request ----

  function MethodBytes(m: nat): (s: seq<byte>)
    requires m < METHOD_COUNT
    ensures |s| == MethodLength(m)
  {
    MethodNameLength(m);
    seq(MethodLength(m), i requires 0 <= i < MethodLength(m) => MethodByte(m, i))
  }

  function MethodByte(m: nat, i: nat): (b: byte)
    requires m < METHOD_COUNT && i < MethodLength(m)
    ensures b as int == At(MethodName(m), i) && b != 0 && b != SP
  {
    MethodNameLength(m);
    AsciiName(m, i);
    MethodName(m)[i] as int
  }

  lemma AsciiName(m: nat, i: nat)
    requires m < METHOD_COUNT && i < |MethodName(m)|
    ensures 0 < MethodName(m)[i] as int < 128 && MethodName(m)[i] != ' '
  {
  }

  /** What the parser takes the first `i` letters of a method's name for. */
  function Guess(m: nat, i: nat): nat {
    if m == M_CHECKOUT && i == 1 then M_CONNECT
    else if m == M_COPY && i <= 2 then M_CONNECT
    else if (m == M_MOVE || m == M_MERGE || m == M_MSEARCH) && i == 1 then M_MKCOL
    else if m == M_MKACTIVITY && i <= 2 then M_MKCOL
    else if m == M_SEARCH && i == 1 then M_SUBSCRIBE
    else if (m == M_PROPFIND || m == M_PUT || m == M_PATCH || m == M_PURGE || m == M_PROPPATCH) && i == 1 then M_POST
    else if m == M_PURGE && i == 2 then M_PUT
    else if m == M_PROPPATCH && i <= 4 then M_PROPFIND
    else if m == M_UNSUBSCRIBE && i <= 2 then M_UNLOCK
    else m
  }

  lemma GuessFirst(m: nat)
    requires m < METHOD_COUNT
    ensures FirstGuess(MethodByte(m, 0)) == Some(Guess(m, 1)) && IsAlpha(MethodByte(m, 0))
  {
  }

  /** The next letter fits the guess, or turns it into the next one. */
  lemma GuessNext(m: nat, i: nat)
    requires m < METHOD_COUNT && 1 <= i < MethodLength(m)
    ensures var g, ch := Guess(m, i), MethodByte(m, i);
      && g < METHOD_COUNT && i < MethodLength(g)
      && if ch as int == At(MethodName(g), i) then Guess(m, i + 1) == g else Reguess(g, i, ch) == Some(Guess(m, i + 1))
  {
    MethodNameLength(m);
    if Guess(m, i) != m {
      assert i <= 4;
    }
  }

  /** The parser after `i` letters of a method's name. */
  function InName(p: Parser, m: nat, i: nat): Parser {
    p.(nread := p.nread + i, flags := NO_FLAGS, contentLength := ULLONG_MAX, meth := Guess(m, i), index := i,
      state := ReqMethod)
  }

  lemma FirstLetter(p: Parser, m: nat)
    requires Resting(p) && p.state.StartReq? && p.nread < MAX_HEADER_SIZE && m < METHOD_COUNT
    ensures ReadByte(p, MethodByte(m, 0)) == Run(InName(p, m, 1), [Notified(MessageBegin)], true)
  {
    var q, ch := Next(p), MethodByte(m, 0);
    NextAtSwitch(p);
    GuessFirst(m);
    Cases(q, ch);
    assert StepStart(q, ch) == Outcome(InName(p, m, 1), None, None, Some(MessageBegin), Break, 1) by {
      hide Good, AtSwitch, FirstGuess, Guess, MethodByte, MethodLength;
    }
    hide Step, StepStart, AtSwitch, Resting, ReadByte, Guess, MethodByte, MethodLength;
    ReadOnce(p, ch, StepStart(q, ch));
  }

  lemma NextLetter(p: Parser, m: nat, i: nat)
    requires Resting(InName(p, m, i)) && m < METHOD_COUNT && 1 <= i < MethodLength(m) && p.nread + i < MAX_HEADER_SIZE
    ensures ReadByte(InName(p, m, i), MethodByte(m, i)) == Run(InName(p, m, i + 1), [], true)
  {
    var q, ch := InName(p, m, i), MethodByte(m, i);
    NextAtSwitch(q);
    GuessNext(m, i);
    Cases(Next(q), ch);
    assert StepMethod(Next(q), ch) == Outcome(InName(p, m, i + 1), None, None, None, Break, 1) by {
      hide Good, AtSwitch, Reguess, Guess, MethodByte, MethodName;
    }
    hide Step, StepMethod, AtSwitch, Resting, Guess, MethodByte, ReadByte;
    ReadOnce(q, ch, Outcome(InName(p, m, i + 1), None, None, None, Break, 1));
  }

  lemma {:induction false} ReadLetters(p: Parser, m: nat, i: nat)
    requires Resting(p) && p.state.StartReq? && m < METHOD_COUNT && 1 <= i <= MethodLength(m)
    requires p.nread + i <= MAX_HEADER_SIZE
    ensures Feed(Run(p, [], true), MethodBytes(m)[..i]) == Run(InName(p, m, i), [Notified(MessageBegin)], true)
  {
    hide Resting, ReadByte, Guess, MethodByte, Feed;
    var name := MethodBytes(m);
    if i == 1 {
      assert name[..1] == [MethodByte(m, 0)];
      FirstLetter(p, m);
      FeedByte(p, MethodByte(m, 0));
    } else {
      ReadLetters(p, m, i - 1);
      NextLetter(p, m, i - 1);
      FeedOne(Run(p, [], true), name, i - 1);
      assert [Notified(MessageBegin)] + [] == [Notified(MessageBegin)];
    }
  }

  lemma MethodSpace(p: Parser, m: nat)
    requires Resting(p) && m < METHOD_COUNT && p.state.ReqMethod? && p.meth == m && p.index == MethodLength(m)
    requires p.nread < MAX_HEADER_SIZE
    ensures ReadByte(p, SP) == Run(Next(p).(index := p.index + 1, state := ReqSpacesBeforeUrl), [], true)
  {
    NextAtSwitch(p);
    MethodNameLength(m);
    Cases(Next(p), SP);
    assert StepMethod(Next(p), SP) ==
      Outcome(Next(p).(index := p.index + 1, state := ReqSpacesBeforeUrl), None, None, None, Break, 1) by {
      hide Good, AtSwitch, Reguess, MethodName;
    }
    hide Step, StepMethod, AtSwitch, Resting, ReadByte;
    ReadOnce(p, SP, Outcome(Next(p).(index := p.index + 1, state := ReqSpacesBeforeUrl), None, None, None, Break, 1));
  }

  lemma GuessLast(m: nat)
    requires m < METHOD_COUNT
    ensures Guess(m, MethodLength(m)) == m
  {
  }

  /** Every method's name is taken for that method. */
  lemma ReadMethod(p: Parser, m: nat)
    requires Resting(p) && p.state.StartReq? && m < METHOD_COUNT && p.nread + MethodLength(m) < MAX_HEADER_SIZE
    ensures Feed(Run(p, [], true), MethodBytes(m) + [SP]) ==
      Run(p.(nread := p.nread + MethodLength(m) + 1, flags := NO_FLAGS, contentLength := ULLONG_MAX, meth := m,
        index := MethodLength(m) + 1, state := ReqSpacesBeforeUrl), [Notified(MessageBegin)], true)
  {
    hide Resting, ReadByte, Guess, Feed, MethodLength, MethodBytes;
    GuessLast(m);
    SomeLength(m);
    var n := MethodLength(m);
    ReadLetters(p, m, n);
    assert MethodBytes(m)[..n] == MethodBytes(m);
    MethodSpace(InName(p, m, n), m);
    FeedSnoc(Run(p, [], true), MethodBytes(m), SP);
    assert [Notified(MessageBegin)] + [] == [Notified(MessageBegin)];
  }

  lemma SomeLength(m: nat)
    ensures MethodLength(m) >= 3
  {
  }

  // ---- The request line ----

  lemma MinorCr(p: Parser)
    requires Resting(p) && p.state.ReqMinor? && p.nread < MAX_HEADER_SIZE
    ensures ReadByte(p, CR) == Run(Next(p).(state := ReqLineAlmostDone), [], true)
  {
    NextAtSwitch(p);
    hide Good, AtSwitch, Resting, ReadByte;
    PassedMinor(p, CR, Next(p).(state := ReqLineAlmostDone));
  }

  /** The version of a request, to the end of the line. */
  lemma ReadHttp(p: Parser, major: seq<byte>, minor: seq<byte>)
    requires Resting(p) && p.state.ReqHttpStart? && Small(major) && Small(minor) && !Is(major[0], '0')
    requires p.nread + |major| + |minor| + 8 <= MAX_HEADER_SIZE
    ensures Feed(Run(p, [], true),
      [H] + ((([T] + [T]) + ([P] + [SLASH])) + ((major + ([DOT] + minor)) + ([CR] + [LF])))) ==
      Run(p.(nread := p.nread + |major| + |minor| + 8, major := Decimal(major), minor := Decimal(minor),
        state := HeaderFieldStart), [], true)
  {
    hide Resting, ReadByte, Feed, Decimal, NameNext;
    var letters, version := ([T] + [T]) + ([P] + [SLASH]), major + ([DOT] + minor);
    Letters(p.state);
    var p1 := Next(p).(state := ReqHttpH);
    Letter(p, H, p1);
    ReadTtp(p1);
    var p2 := Feed(Run(p1, [], true), letters).p;
    ReadVersion(p2, major, minor);
    var p3 := Feed(Run(p2, [], true), version).p;
    MinorCr(p3);
    FeedByte(p3, CR);
    var p4 := ReadByte(p3, CR).p;
    LineLf(p4);
    FeedByte(p4, LF);
    Chain(p3, [CR], p4, [LF]);
    Chain(p2, version, p3, [CR] + [LF]);
    Chain(p1, letters, p2, version + ([CR] + [LF]));
    Chain(p, [H], p1, letters + (version + ([CR] + [LF])));
  }

  function VersionOf(major: seq<byte>, minor: seq<byte>): seq<byte> {
    [H] + ((([T] + [T]) + ([P] + [SLASH])) + ((major + ([DOT] + minor)) + ([CR] + [LF])))
  }

  function RequestLineOf(m: nat, url: seq<byte>, major: seq<byte>, minor: seq<byte>): (line: seq<byte>)
    requires m < METHOD_COUNT
    ensures |line| == MethodLength(m) + |url| + |major| + |minor| + 10
  {
    (MethodBytes(m) + [SP]) + url + [SP] + VersionOf(major, minor)
  }

  /** A request line begins a message, is taken for its method and version, and delivers its URL
      as it is written. */
  lemma RequestLine(p: Parser, m: nat, url: seq<byte>, major: seq<byte>, minor: seq<byte>)
    requires Resting(p) && p.state.StartReq? && m < METHOD_COUNT && IsTargetOf(m, url)
    requires Small(major) && Small(minor) && !Is(major[0], '0')
    requires p.nread + |RequestLineOf(m, url, major, minor)| <= MAX_HEADER_SIZE
    ensures var r := Feed(Run(p, [], true), RequestLineOf(m, url, major, minor));
      && r.live && r.p.nread == p.nread + |RequestLineOf(m, url, major, minor)| && r.p.state.HeaderFieldStart?
      && r.p.meth == m && r.p.major == Decimal(major) && r.p.minor == Decimal(minor) && r.p.kind == p.kind
      && r.p.flags == NO_FLAGS && r.p.contentLength == ULLONG_MAX
      && r.events == [Notified(MessageBegin)] + Tagged(Url, url)
  {
    hide Resting, ReadByte, Feed, Decimal, MethodBytes, MethodLength, Tagged, VersionOf, IsTargetOf;
    var start, a := Run(p, [], true), MethodBytes(m) + [SP];
    ReadMethod(p, m);
    var r1 := Feed(start, a);
    ReadTarget(r1.p, url);
    FeedConcat(start, a, url + [SP]);
    FeedEvents(r1.p, r1.events, url + [SP]);
    assert a + url + [SP] == a + (url + [SP]);
    var r3 := Feed(start, a + url + [SP]);
    VersionRead(r3.p, major, minor);
    FeedConcat(start, a + url + [SP], VersionOf(major, minor));
    FeedEvents(r3.p, r3.events, VersionOf(major, minor));
    assert r3.events + [] == r3.events;
  }

  lemma VersionRead(p: Parser, major: seq<byte>, minor: seq<byte>)
    requires Resting(p) && p.state.ReqHttpStart? && Small(major) && Small(minor) && !Is(major[0], '0')
    requires p.nread + |major| + |minor| + 8 <= MAX_HEADER_SIZE
    ensures Feed(Run(p, [], true), VersionOf(major, minor)) ==
      Run(p.(nread := p.nread + |major| + |minor| + 8, major := Decimal(major), minor := Decimal(minor),
        state := HeaderFieldStart), [], true)
  {
    hide Feed, Resting, Decimal;
    ReadHttp(p, major, minor);
  }
}
