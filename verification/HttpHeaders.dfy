/** Which header fields the parser recognises: exactly those of the known names, in any case of
    letters, and "chunked" exactly where it is the whole value. */
module HttpHeaders {
  import opened Bytes
  import opened HttpTypes
  import opened HttpStep
  import opened HttpSpec

  // ---- Names ----

  /** `u` is the beginning of the word. */
  predicate Starts(u: seq<int>, w: string) {
    |u| <= |w| && forall i :: 0 <= i < |u| ==> u[i] == w[i] as int
  }

  predicate Spells(u: seq<int>, w: string) {
    |u| == |w| && Starts(u, w)
  }

  /** What a field name, or the beginning of one, stands for. */
  function Classified(u: seq<int>): HeaderState {
    if Spells(u, CONNECTION) || Spells(u, PROXY_CONNECTION) then Connection
    else if Spells(u, CONTENT_LENGTH) then ContentLength
    else if Spells(u, TRANSFER_ENCODING) then TransferEncoding
    else if Spells(u, UPGRADE) then Upgrade
    else if Starts(u, CONNECTION) && |u| <= 3 then if |u| <= 1 then C else if |u| == 2 then CO else CON
    else if Starts(u, CONNECTION) then MatchingConnection
    else if Starts(u, PROXY_CONNECTION) then MatchingProxyConnection
    else if Starts(u, CONTENT_LENGTH) then MatchingContentLength
    else if Starts(u, TRANSFER_ENCODING) then MatchingTransferEncoding
    else if Starts(u, UPGRADE) then MatchingUpgrade
    else General
  }

  lemma StartsNext(u: seq<int>, c: int, w: string)
    ensures Starts(u + [c], w) <==> Starts(u, w) && |u| < |w| && c == w[|u|] as int
  {
    var v := u + [c];
    assert forall i :: 0 <= i < |u| ==> v[i] == u[i];
    assert v[|u|] == c;
  }

  lemma StartsAt(u: seq<int>, w: string, i: nat)
    requires Starts(u, w) && i < |u|
    ensures u[i] == w[i] as int
  {
  }

  /** Letters that tell the names apart. */
  lemma Telling(u: seq<int>)
    requires u != []
    ensures Starts(u, CONNECTION) ==> u[0] == 'c' as int && (|u| > 3 ==> u[3] == 'n' as int)
    ensures Starts(u, CONTENT_LENGTH) ==> u[0] == 'c' as int && (|u| > 3 ==> u[3] == 't' as int)
    ensures Starts(u, PROXY_CONNECTION) ==> u[0] == 'p' as int
    ensures Starts(u, TRANSFER_ENCODING) ==> u[0] == 't' as int
    ensures Starts(u, UPGRADE) ==> u[0] == 'u' as int
    ensures |u| <= 3 ==> (Starts(u, CONNECTION) <==> Starts(u, CONTENT_LENGTH))
  {
    hide Starts;
    if Starts(u, CONNECTION) {
      StartsAt(u, CONNECTION, 0);
      if |u| > 3 { StartsAt(u, CONNECTION, 3); }
    }
    if Starts(u, CONTENT_LENGTH) {
      StartsAt(u, CONTENT_LENGTH, 0);
      if |u| > 3 { StartsAt(u, CONTENT_LENGTH, 3); }
    }
    if Starts(u, PROXY_CONNECTION) { StartsAt(u, PROXY_CONNECTION, 0); }
    if Starts(u, TRANSFER_ENCODING) { StartsAt(u, TRANSFER_ENCODING, 0); }
    if Starts(u, UPGRADE) { StartsAt(u, UPGRADE, 0); }
    SameThree(u);
  }

  lemma SameThree(u: seq<int>)
    ensures |u| <= 3 ==> (Starts(u, CONNECTION) <==> Starts(u, CONTENT_LENGTH))
  {
  }

  /** What one more character does to the words a name can still become. */
  ghost predicate Follows(u: seq<int>, c: int, v: seq<int>) {
    && u != [] && |v| == |u| + 1 && v[0] == u[0] && (|u| > 3 ==> v[3] == u[3])
    && (forall w :: w in WORDS ==> (Starts(v, w) <==> Starts(u, w) && |u| < |w| && c == w[|u|] as int))
  }

  const WORDS: set<string> := {CONNECTION, PROXY_CONNECTION, CONTENT_LENGTH, TRANSFER_ENCODING, UPGRADE}

  lemma FollowsNext(u: seq<int>, c: int)
    requires u != []
    ensures Follows(u, c, u + [c])
  {
    forall w | w in WORDS
      ensures Starts(u + [c], w) <==> Starts(u, w) && |u| < |w| && c == w[|u|] as int
    {
      StartsNext(u, c, w);
    }
  }

  function MatchingOf(w: string): HeaderState
    requires w in WORDS
  {
    if w == CONNECTION then MatchingConnection
    else if w == PROXY_CONNECTION then MatchingProxyConnection
    else if w == CONTENT_LENGTH then MatchingContentLength
    else if w == TRANSFER_ENCODING then MatchingTransferEncoding
    else MatchingUpgrade
  }

  function DoneOf(w: string): HeaderState
    requires w in WORDS
  {
    if w == CONNECTION || w == PROXY_CONNECTION then Connection
    else if w == CONTENT_LENGTH then ContentLength
    else if w == TRANSFER_ENCODING then TransferEncoding
    else Upgrade
  }

  /** Past the letters that names share, a name can become at most one word. */
  predicate OnlyCanBe(v: seq<int>, w: string) {
    |v| > 3 || !(w == CONNECTION || w == CONTENT_LENGTH)
  }

  lemma ClassifiedAs(v: seq<int>, w: string)
    requires v != [] && w in WORDS && OnlyCanBe(v, w) && forall x :: x in WORDS && x != w ==> !Starts(v, x)
    ensures Classified(v) == if Spells(v, w) then DoneOf(w) else if Starts(v, w) then MatchingOf(w) else General
  {
    hide Starts;
    assert CONNECTION in WORDS && PROXY_CONNECTION in WORDS && CONTENT_LENGTH in WORDS && TRANSFER_ENCODING in WORDS
      && UPGRADE in WORDS;
  }

  lemma OneWord(u: seq<int>, w: string)
    requires u != [] && w in WORDS && Starts(u, w) && OnlyCanBe(u, w)
    ensures forall x :: x in WORDS && x != w ==> !Starts(u, x)
  {
    Telling(u);
    hide Starts;
  }

  lemma MatchIs(u: seq<int>, c: int, v: seq<int>, w: string, matching: HeaderState, done: HeaderState)
    requires Follows(u, c, v) && w in WORDS && Starts(u, w) && |u| < |w|
    ensures Match(w, |u|, c, matching, done) ==
      if Spells(v, w) then done else if Starts(v, w) then matching else General
  {
    hide Starts;
  }

  lemma NextIsMatch(w: string, index: nat, c: int, ch: byte)
    requires w in WORDS
    ensures FieldMatching(MatchingOf(w))
    ensures NextInField(MatchingOf(w), index, c, ch) == Match(w, index + 1, c, MatchingOf(w), DoneOf(w))
  {
    hide Match;
  }

  lemma NextFromMatching(u: seq<int>, c: int, ch: byte, v: seq<int>, w: string)
    requires u != [] && Follows(u, c, v) && w in WORDS && Starts(u, w) && |u| < |w| && OnlyCanBe(u, w)
    ensures Classified(u) == MatchingOf(w) && FieldMatching(Classified(u))
    ensures NextInField(Classified(u), |u| - 1, c, ch) == Classified(v)
  {
    OneWord(u, w);
    assert forall x :: x in WORDS && x != w ==> !Starts(v, x);
    ClassifiedAs(u, w);
    ClassifiedAs(v, w);
    MatchIs(u, c, v, w, MatchingOf(w), DoneOf(w));
    NextIsMatch(w, |u| - 1, c, ch);
    hide Starts, Classified, NextInField, MatchingOf, DoneOf, Match, FieldMatching, Follows;
  }

  lemma NextFromStart(u: seq<int>, c: int, ch: byte, v: seq<int>)
    requires u != [] && Follows(u, c, v) && ch != SP && |u| <= 3 && Starts(u, CONNECTION)
    ensures NextInField(Classified(u), |u| - 1, c, ch) == Classified(v)
  {
    Telling(u);
    Telling(v);
    hide Starts;
    assert Starts(v, CONNECTION) <==> c == CONNECTION[|u|] as int;
    assert Starts(v, CONTENT_LENGTH) <==> c == CONTENT_LENGTH[|u|] as int;
    assert CONNECTION[1] == 'o' && CONNECTION[2] == 'n' && CONNECTION[3] == 'n';
    assert CONTENT_LENGTH[1] == 'o' && CONTENT_LENGTH[2] == 'n' && CONTENT_LENGTH[3] == 't';
  }

  lemma NextFromEnd(u: seq<int>, c: int, ch: byte, v: seq<int>)
    requires u != [] && Follows(u, c, v) && ch != SP && forall w :: w in WORDS ==> Starts(u, w) ==> |u| == |w|
    ensures NextInField(Classified(u), |u| - 1, c, ch) == Classified(v)
  {
    hide Starts;
    assert forall w :: w in WORDS ==> !Starts(v, w);
    assert CONNECTION in WORDS && PROXY_CONNECTION in WORDS && CONTENT_LENGTH in WORDS && TRANSFER_ENCODING in WORDS
      && UPGRADE in WORDS;
    assert Classified(v) == General;
  }

  /** One more character of a name. */
  lemma ClassifiedNext(u: seq<int>, c: int, ch: byte)
    requires u != [] && ch != SP
    ensures FieldMatching(Classified(u)) && NextInField(Classified(u), |u| - 1, c, ch) == Classified(u + [c])
  {
    var v := u + [c];
    FollowsNext(u, c);
    ClassifiedMatching(u);
    Telling(u);
    hide Starts, Classified, NextInField, Follows;
    if |u| <= 3 && Starts(u, CONNECTION) {
      NextFromStart(u, c, ch, v);
    } else if Starts(u, CONNECTION) && |u| < |CONNECTION| {
      NextFromMatching(u, c, ch, v, CONNECTION);
    } else if Starts(u, CONTENT_LENGTH) && |u| < |CONTENT_LENGTH| {
      NextFromMatching(u, c, ch, v, CONTENT_LENGTH);
    } else if Starts(u, PROXY_CONNECTION) && |u| < |PROXY_CONNECTION| {
      NextFromMatching(u, c, ch, v, PROXY_CONNECTION);
    } else if Starts(u, TRANSFER_ENCODING) && |u| < |TRANSFER_ENCODING| {
      NextFromMatching(u, c, ch, v, TRANSFER_ENCODING);
    } else if Starts(u, UPGRADE) && |u| < |UPGRADE| {
      NextFromMatching(u, c, ch, v, UPGRADE);
    } else {
      AtEnd(u);
      NextFromEnd(u, c, ch, v);
    }
  }

  lemma AtEnd(u: seq<int>)
    requires !(Starts(u, CONNECTION) && |u| < |CONNECTION|) && !(Starts(u, CONTENT_LENGTH) && |u| < |CONTENT_LENGTH|)
    requires !(Starts(u, PROXY_CONNECTION) && |u| < |PROXY_CONNECTION|)
    requires !(Starts(u, TRANSFER_ENCODING) && |u| < |TRANSFER_ENCODING|) && !(Starts(u, UPGRADE) && |u| < |UPGRADE|)
    ensures forall w :: w in WORDS ==> Starts(u, w) ==> |u| == |w|
  {
  }

  lemma ClassifiedMatching(u: seq<int>)
    ensures FieldMatching(Classified(u))
  {
    hide Starts;
  }

  lemma ClassifiedFirst(c: int)
    ensures FirstOfField(c) == Classified([c])
  {
    Telling([c]);
    assert Starts([c], CONNECTION) <==> c == 'c' as int;
    assert Starts([c], PROXY_CONNECTION) <==> c == 'p' as int;
    assert Starts([c], TRANSFER_ENCODING) <==> c == 't' as int;
    assert Starts([c], UPGRADE) <==> c == 'u' as int;
    hide Starts;
  }

  // ---- Reading a name ----

  function Tokens(name: seq<byte>): seq<int> {
    seq(|name|, i requires 0 <= i < |name| => Token(name[i]))
  }

  lemma TokensNext(name: seq<byte>)
    requires name != []
    ensures var n := |name| - 1; Tokens(name) == Tokens(name[..n]) + [Token(name[n])]
  {
    hide Token;
  }

  /** A parser in the middle of a name whose characters so far are `u`. */
  predicate InName(p: Parser, u: seq<int>) {
    && p.state.HeaderField? && p.headerState == Classified(u)
    && (p.headerState.General? || p.headerState.Connection? || p.headerState.ContentLength?
      || p.headerState.TransferEncoding?
        || p.headerState.Upgrade? || p.index == |u| - 1)
  }

  /** Nothing but where the parser is in a header has changed. */
  predicate SameButName(p: Parser, q: Parser) {
    q == p.(state := q.state, headerState := q.headerState, index := q.index)
  }

  lemma NameByte(p: Parser, ch: byte, u: seq<int>)
    requires Resting(p) && Token(ch) != 0 && p.nread < MAX_HEADER_SIZE
    requires if u == [] then p.state.HeaderFieldStart? else InName(p, u)
    ensures var r := ReadByte(p, ch);
      && r.live && r.events == [Delivered(Field, ch)]
      && InName(r.p, u + [Token(ch)]) && SameButName(p.(nread := p.nread + 1), r.p)
  {
    var q := p.(nread := p.nread + 1);
    assert AtSwitch(q) && Counted(p) == q;
    TokenIsNot(ch);
    Cases(q, ch);
    ClassifiedMatching(u);
    NameOutcome(q, ch, u);
    hide Step, StepField, AtSwitch, Resting, Classified, Token, FieldMatching;
    LookedAtOnce(q, ch, StepField(q, ch));
  }

  lemma TokenIsNot(ch: byte)
    requires Token(ch) != 0
    ensures ch != CR && ch != LF && ch != SP
  {
  }

  lemma NameOutcome(q: Parser, ch: byte, u: seq<int>)
    requires AtSwitch(q) && Token(ch) != 0 && ch != CR && ch != LF && ch != SP
    requires if u == [] then q.state.HeaderFieldStart? else InName(q, u)
    ensures var o := StepField(q, ch);
      && o.exit == Break && o.note.None? && InName(o.p, u + [Token(ch)])
      && Holds(o.p.state) == Some(Field) && SameButName(q, o.p)
  {
    hide Good, AtSwitch, Token, FieldMatching, Classified;
    if u == [] {
      ClassifiedFirst(Token(ch));
      hide FirstOfField;
      assert [] + [Token(ch)] == [Token(ch)];
    } else {
      ClassifiedNext(u, Token(ch), ch);
      ShortName(u);
      hide NextInField;
    }
  }

  /** Names that can still match are short. */
  lemma ShortName(u: seq<int>)
    ensures var h := Classified(u);
      h.General? || h.Connection? || h.ContentLength? || h.TransferEncoding? || h.Upgrade? || |u| < 20
  {
    hide Spells;
  }

  /** A field name is delivered as it is written, and what it stands for is decided by its
      letters, regardless of case. */
  lemma {:induction false} ReadName(p: Parser, name: seq<byte>)
    requires Resting(p) && p.state.HeaderFieldStart? && name != [] && p.nread + |name| <= MAX_HEADER_SIZE
    requires forall k :: 0 <= k < |name| ==> Token(name[k]) != 0
    ensures var r := Feed(Run(p, [], true), name);
      && r.live && r.events == Tagged(Field, name)
      && InName(r.p, Tokens(name)) && SameButName(p.(nread := p.nread + |name|), r.p)
  {
    hide Resting, Token, InName, ReadByte;
    var n, start := |name| - 1, Run(p, [], true);
    TokensNext(name);
    TaggedSnoc(Field, name);
    if n == 0 {
      assert name[..0] == [] && Tokens(name[..0]) == [] && Tagged(Field, name[..0]) == [];
      NameByte(p, name[0], []);
    } else {
      ReadName(p, name[..n]);
      NameByte(Feed(start, name[..n]).p, name[n], Tokens(name[..n]));
    }
  }

  lemma ClassifiedAsKnown(u: seq<int>)
    ensures Classified(u) == ContentLength <==> Spells(u, CONTENT_LENGTH)
    ensures Classified(u) == TransferEncoding <==> Spells(u, TRANSFER_ENCODING)
    ensures Classified(u) == Connection <==> Spells(u, CONNECTION) || Spells(u, PROXY_CONNECTION)
    ensures Classified(u) == Upgrade <==> Spells(u, UPGRADE)
  {
    if u != [] { Telling(u); }
    hide Starts;
  }

  /** After the bytes of a name the parser is set for the value of a known field if and only if
      that field's name is what was written. */
  lemma KnownNames(p: Parser, name: seq<byte>)
    requires Resting(p) && p.state.HeaderFieldStart? && name != [] && p.nread + |name| <= MAX_HEADER_SIZE
    requires forall k :: 0 <= k < |name| ==> Token(name[k]) != 0
    ensures var r, u := Feed(Run(p, [], true), name), Tokens(name);
      && r.live
      && (r.p.headerState == ContentLength <==> Spells(u, CONTENT_LENGTH))
      && (r.p.headerState == TransferEncoding <==> Spells(u, TRANSFER_ENCODING))
      && (r.p.headerState == Connection <==> Spells(u, CONNECTION) || Spells(u, PROXY_CONNECTION))
      && (r.p.headerState == Upgrade <==> Spells(u, UPGRADE))
  {
    hide Resting, Feed, Token, Classified, Spells, Tokens;
    ReadName(p, name);
    ClassifiedAsKnown(Tokens(name));
  }

  // ---- The value "chunked" ----

  function Lowers(v: seq<byte>): seq<int> {
    seq(|v|, i requires 0 <= i < |v| => Lower(v[i]) as int)
  }

  /** The word, in any case of letters, and nothing after it but spaces. */
  predicate IsChunked(v: seq<byte>) {
    |v| >= |CHUNKED| && Spells(Lowers(v[..|CHUNKED|]), CHUNKED) && forall i :: |CHUNKED| <= i < |v| ==> v[i] == SP
  }

  function ValueState(v: seq<byte>): HeaderState {
    if IsChunked(v) then TransferEncodingChunked
    else if |v| < |CHUNKED| && Starts(Lowers(v), CHUNKED) then MatchingTransferEncodingChunked
    else General
  }

  /** A parser in the middle of a value of Transfer-Encoding. */
  predicate InValue(p: Parser, v: seq<byte>) {
    && p.state.HeaderValue? && p.headerState == ValueState(v)
    && (p.headerState.MatchingTransferEncodingChunked? ==> p.index == |v| - 1)
  }

  lemma LowersNext(v: seq<byte>, ch: byte)
    ensures Lowers(v + [ch]) == Lowers(v) + [Lower(ch) as int]
  {
    hide Lower;
  }

  /** One more character of a value. */
  lemma ValueNext(v: seq<byte>, ch: byte)
    requires v != []
    ensures var h, c := ValueState(v), Lower(ch) as int;
      ValueState(v + [ch]) ==
        if h.MatchingTransferEncodingChunked? then Match(CHUNKED, |v|, c, h, TransferEncodingChunked)
        else if ch == SP then h
        else General
  {
    var w, c := v + [ch], Lower(ch) as int;
    LowersNext(v, ch);
    StartsNext(Lowers(v), c, CHUNKED);
    if |v| >= |CHUNKED| {
      assert w[..|CHUNKED|] == v[..|CHUNKED|];
      hide Lower, Lowers, Starts;
      assert w[|v|] == ch;
      assert forall i :: |CHUNKED| <= i < |v| ==> w[i] == v[i];
      assert IsChunked(w) <==> IsChunked(v) && ch == SP;
    } else {
      hide Lower, Lowers, Starts;
      assert |w| == |CHUNKED| ==> w[..|CHUNKED|] == w;
    }
  }

  lemma ValueFirst(ch: byte)
    ensures ValueState([ch]) == if Lower(ch) as int == 'c' as int then MatchingTransferEncodingChunked else General
  {
    var u := Lowers([ch]);
    assert u == [Lower(ch) as int];
    assert CHUNKED[0] == 'c';
    assert Starts(u, CHUNKED) <==> u[0] == CHUNKED[0] as int;
    hide Starts, Lower;
  }

  lemma ValueByte(p: Parser, ch: byte, v: seq<byte>)
    requires Resting(p) && ch != CR && ch != LF && p.nread < MAX_HEADER_SIZE
    requires if v == [] then p.state.HeaderValueStart? && p.headerState.TransferEncoding? && ch != SP && ch != HT
      else InValue(p, v)
    ensures var r := ReadByte(p, ch);
      && r.live && r.events == [Delivered(Value, ch)] && InValue(r.p, v + [ch])
      && SameButName(p.(nread := p.nread + 1), r.p)
  {
    var q := p.(nread := p.nread + 1);
    assert AtSwitch(q) && Counted(p) == q;
    Cases(q, ch);
    if v == [] {
      FirstOutcome(q, ch);
      assert [] + [ch] == [ch];
      hide Step, StepValueStart, AtSwitch, Resting, ValueState;
      LookedAtOnce(q, ch, StepValueStart(q, ch));
    } else {
      NextOutcome(q, ch, v);
      hide Step, StepValue, AtSwitch, Resting, ValueState;
      LookedAtOnce(q, ch, StepValue(q, ch));
    }
  }

  lemma FirstOutcome(q: Parser, ch: byte)
    requires AtSwitch(q) && q.state.HeaderValueStart? && q.headerState.TransferEncoding? && ch != CR && ch != LF
    requires ch != SP && ch != HT
    ensures var o := StepValueStart(q, ch);
      && o.exit == Break && o.note.None? && InValue(o.p, [ch]) && Holds(o.p.state) == Some(Value)
      && SameButName(q, o.p)
  {
    ValueFirst(ch);
    hide Good, AtSwitch, ValueState, Lower, ValueMatching;
  }

  lemma NextOutcome(q: Parser, ch: byte, v: seq<byte>)
    requires AtSwitch(q) && v != [] && InValue(q, v) && ch != CR && ch != LF
    ensures var o := StepValue(q, ch);
      && o.exit == Break && o.note.None? && InValue(o.p, v + [ch]) && Holds(o.p.state) == Some(Value)
      && SameButName(q, o.p)
  {
    ValueNext(v, ch);
    ValueIs(v);
    hide Good, AtSwitch, ValueState, Lower, ValueMatching, Match;
    var next := Match(CHUNKED, |v|, Lower(ch) as int, MatchingTransferEncodingChunked, TransferEncodingChunked);
    assert next != ContentLength by {
      MatchGives(CHUNKED, |v|, Lower(ch) as int, MatchingTransferEncodingChunked, TransferEncodingChunked);
    }
  }

  lemma MatchGives(w: string, i: nat, c: int, matching: HeaderState, done: HeaderState)
    ensures var h := Match(w, i, c, matching, done); h == matching || h == done || h == General
  {
  }

  lemma ValueIs(v: seq<byte>)
    ensures var h := ValueState(v);
      && (h.TransferEncodingChunked? || h.MatchingTransferEncodingChunked? || h.General?)
      && (h.MatchingTransferEncodingChunked? ==> |v| < 7)
  {
    hide IsChunked, Starts;
  }

  lemma {:induction false} ReadValue(p: Parser, v: seq<byte>)
    requires Resting(p) && p.state.HeaderValueStart? && p.headerState.TransferEncoding?
    requires p.nread + |v| <= MAX_HEADER_SIZE
    requires v != [] && v[0] != SP && v[0] != HT && CR !in v && LF !in v
    ensures var r := Feed(Run(p, [], true), v);
      && r.live && InValue(r.p, v) && SameButName(p.(nread := p.nread + |v|), r.p) && r.events == Tagged(Value, v)
  {
    hide Resting, InValue, ReadByte;
    var n, start := |v| - 1, Run(p, [], true);
    assert v[n] in v && v == v[..n] + [v[n]];
    TaggedSnoc(Value, v);
    if n == 0 {
      assert v[..0] == [] && Tagged(Value, v[..0]) == [];
      ValueByte(p, v[0], []);
    } else {
      ReadValue(p, v[..n]);
      ValueByte(Feed(start, v[..n]).p, v[n], v[..n]);
    }
  }

}
