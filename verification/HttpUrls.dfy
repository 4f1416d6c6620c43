/** Request targets: which ones `parse_url_char` lets through, and that they are delivered as
    they are written. */
module HttpUrls {
  import opened Bytes
  import opened HttpTypes
  import opened HttpStep
  import opened HttpSpec

  /** The state `parse_url_char` comes to. */
  function UrlAfter(s: State, url: seq<byte>): State {
    if url == [] then s else ParseUrlChar(UrlAfter(s, url[..|url| - 1]), url[|url| - 1])
  }

  /** Where a target begins: with the authority for CONNECT. */
  function UrlStart(meth: nat): State {
    if meth == M_CONNECT then ReqServerStart else ReqSpacesBeforeUrl
  }

  /** States in which a target may end. */
  predicate Ended(s: State) {
    s.ReqServer? || s.ReqServerWithAt? || InPath(s)
  }

  predicate InPath(s: State) {
    s.ReqPath? || s.ReqQueryStart? || s.ReqQuery? || s.ReqFragmentStart? || s.ReqFragment?
  }

  // ---- Which targets are let through ----

  /** What may follow once a path or a query has begun. */
  predicate IsTail(u: seq<byte>) {
    forall k :: 0 <= k < |u| ==> 33 <= u[k] <= 126
  }

  predicate AuthorityByte(ch: byte) {
    IsUserinfoChar(ch) || Is(ch, '[') || Is(ch, ']') || Is(ch, '@')
  }

  /** The characters of user, host and port, with no two at signs in a row. */
  predicate IsAuthority(u: seq<byte>) {
    && (forall k :: 0 <= k < |u| ==> AuthorityByte(u[k]))
    && (forall k :: 0 <= k < |u| - 1 ==> !(Is(u[k], '@') && Is(u[k + 1], '@')))
  }

  predicate BeginsPath(ch: byte) { Is(ch, '/') || Is(ch, '?') }

  /** Where the authority ends: before the first slash or question mark. */
  function Cut(u: seq<byte>): (k: nat)
    ensures k <= |u|
  {
    if u == [] then 0
    else
      var k := Cut(u[..|u| - 1]);
      if k < |u| - 1 || BeginsPath(u[|u| - 1]) then k else |u|
  }

  /** An authority, which may be empty before a path, and what follows it. */
  predicate IsTarget(u: seq<byte>) {
    u != [] && IsAuthority(u[..Cut(u)]) && IsTail(u[Cut(u)..])
  }

  /** How many letters come first. */
  function Letters(u: seq<byte>): (k: nat)
    ensures k <= |u|
  {
    if u == [] || !IsAlpha(u[0]) then 0 else 1 + Letters(u[1..])
  }

  /** A path, or a scheme, a colon, two slashes and a target. */
  predicate IsUrl(u: seq<byte>) {
    var k := Letters(u);
    && u != []
    && if k == 0 then (Is(u[0], '/') || Is(u[0], '*')) && IsTail(u)
       else k + 3 <= |u| && Is(u[k], ':') && Is(u[k + 1], '/') && Is(u[k + 2], '/') && IsTarget(u[k + 3..])
  }

  lemma {:induction false} UrlConcat(s: State, a: seq<byte>, b: seq<byte>)
    ensures UrlAfter(s, a + b) == UrlAfter(UrlAfter(s, a), b)
    decreases |b|
  {
    hide ParseUrlChar;
    if b == [] {
      assert a + b == a;
    } else {
      assert (a + b)[..|a + b| - 1] == a + b[..|b| - 1];
      UrlConcat(s, a, b[..|b| - 1]);
    }
  }

  lemma {:induction false} StaysDead(u: seq<byte>)
    ensures UrlAfter(Dead, u).Dead?
  {
    if u != [] { StaysDead(u[..|u| - 1]); }
  }

  /** Within a path every printable character is let through, and nothing else. */
  lemma {:induction false} TailAfter(s: State, u: seq<byte>)
    requires InPath(s)
    ensures if IsTail(u) then InPath(UrlAfter(s, u)) else UrlAfter(s, u).Dead?
  {
    if u != [] {
      var n := |u| - 1;
      TailAfter(s, u[..n]);
      TailByte(UrlAfter(s, u[..n]), u[n]);
      assert IsTail(u) <==> IsTail(u[..n]) && 33 <= u[n] <= 126;
    }
  }

  lemma TailByte(s: State, ch: byte)
    requires InPath(s) || s.Dead?
    ensures if InPath(s) && 33 <= ch <= 126 then InPath(ParseUrlChar(s, ch)) else ParseUrlChar(s, ch).Dead?
  {
  }

  /** The state an authority leads to. */
  function AuthorityState(u: seq<byte>): State {
    if u == [] then ReqServerStart else if Is(u[|u| - 1], '@') then ReqServerWithAt else ReqServer
  }

  lemma AuthorityByteStep(u: seq<byte>, ch: byte)
    ensures var s := ParseUrlChar(AuthorityState(u), ch);
      if BeginsPath(ch) then InPath(s)
      else if AuthorityByte(ch) && !(u != [] && Is(u[|u| - 1], '@') && Is(ch, '@')) then s == AuthorityState(u + [ch])
      else s.Dead?
  {
  }

  lemma AuthoritySnoc(u: seq<byte>, ch: byte)
    ensures IsAuthority(u + [ch]) <==>
      IsAuthority(u) && AuthorityByte(ch) && !(u != [] && Is(u[|u| - 1], '@') && Is(ch, '@'))
  {
    hide AuthorityByte;
    var v := u + [ch];
    assert v[..|u|] == u;
    if IsAuthority(v) {
      assert forall k :: 0 <= k < |u| ==> u[k] == v[k];
      assert v[|u|] == ch;
    }
  }

  /** Before the path an authority, and nothing else, is let through. */
  lemma {:induction false} AuthorityAfter(u: seq<byte>)
    requires Cut(u) == |u|
    ensures UrlAfter(ReqServerStart, u) == if IsAuthority(u) then AuthorityState(u) else Dead
  {
    hide ParseUrlChar, AuthorityByte, IsAuthority, AuthorityState;
    if u == [] {
      EmptyAuthority();
    } else {
      var n := |u| - 1;
      AuthorityAfter(u[..n]);
      AuthorityByteStep(u[..n], u[n]);
      AuthoritySnoc(u[..n], u[n]);
      assert u[..n] + [u[n]] == u;
      StaysDead([u[n]]);
      assert ParseUrlChar(Dead, u[n]).Dead? by { DeadByte(u[n]); }
    }
  }

  lemma EmptyAuthority()
    ensures IsAuthority([]) && AuthorityState([]) == ReqServerStart
  {
  }

  lemma DeadByte(ch: byte)
    ensures ParseUrlChar(Dead, ch).Dead?
  {
  }

  /** After the two slashes, and from the start for CONNECT, just the targets are let through. */
  lemma TargetAfter(u: seq<byte>)
    ensures Ended(UrlAfter(ReqServerStart, u)) <==> IsTarget(u)
  {
    hide ParseUrlChar, IsAuthority, IsTail, AuthorityState;
    var k := Cut(u);
    var a, b := u[..k], u[k..];
    CutTwice(u);
    AuthorityAfter(a);
    assert a + b == u;
    UrlConcat(ReqServerStart, a, b);
    if b == [] {
      assert a == u;
      EndOfAuthority(u);
    } else if IsAuthority(a) {
      AuthorityByteStep(a, b[0]);
      var s := ParseUrlChar(AuthorityState(a), b[0]);
      assert b == [b[0]] + b[1..];
      UrlConcat(AuthorityState(a), [b[0]], b[1..]);
      assert UrlAfter(AuthorityState(a), [b[0]]) == s by { assert [b[0]][..0] == []; }
      TailAfter(s, b[1..]);
      TailOfRest(b);
    } else {
      StaysDead(b);
    }
  }

  lemma EndOfAuthority(u: seq<byte>)
    ensures Ended(if IsAuthority(u) then AuthorityState(u) else Dead) <==> u != [] && IsAuthority(u)
    ensures IsTail([])
  {
    hide AuthorityByte;
  }

  lemma TailOfRest(b: seq<byte>)
    requires b != [] && BeginsPath(b[0])
    ensures IsTail(b) <==> IsTail(b[1..])
  {
    assert forall k :: 1 <= k < |b| ==> b[k] == b[1..][k - 1];
  }

  lemma {:induction false} CutTwice(u: seq<byte>)
    ensures Cut(u[..Cut(u)]) == Cut(u)
    ensures Cut(u) < |u| ==> BeginsPath(u[Cut(u)])
  {
    if u != [] {
      var n := |u| - 1;
      CutTwice(u[..n]);
      var k := Cut(u);
      if k < n {
        assert u[..n][..k] == u[..k];
      } else if k == n {
        assert u[..n][..n] == u[..n];
      } else {
        assert u[..k] == u;
      }
    }
  }

  /** A scheme of letters. */
  lemma {:induction false} LettersAfter(u: seq<byte>, s: State)
    requires forall k :: 0 <= k < |u| ==> IsAlpha(u[k])
    requires s.ReqSpacesBeforeUrl? || s.ReqSchema?
    ensures UrlAfter(s, u) == if u == [] then s else ReqSchema
  {
    if u != [] { LettersAfter(u[..|u| - 1], s); }
  }

  lemma {:induction false} LettersAre(u: seq<byte>)
    ensures var k := Letters(u); (forall i :: 0 <= i < k ==> IsAlpha(u[i])) && (k < |u| ==> !IsAlpha(u[k]))
    decreases |u|
  {
    if u != [] { LettersAre(u[1..]); }
  }

  lemma UrlOne(s: State, ch: byte)
    ensures UrlAfter(s, [ch]) == ParseUrlChar(s, ch)
  {
    assert [ch][..0] == [];
  }

  /** What has to follow the scheme. */
  lemma SchemeAfter(v: seq<byte>)
    requires v != [] ==> !IsAlpha(v[0])
    ensures Ended(UrlAfter(ReqSchema, v)) <==>
      |v| >= 3 && Is(v[0], ':') && Is(v[1], '/') && Is(v[2], '/') && Ended(UrlAfter(ReqServerStart, v[3..]))
  {
    if |v| >= 3 {
      assert v == v[..3] + v[3..];
      UrlConcat(ReqSchema, v[..3], v[3..]);
      SchemeMark(v[..3]);
      StaysDead(v[3..]);
    } else {
      SchemeMark(v);
    }
  }

  lemma SchemeMark(v: seq<byte>)
    requires |v| <= 3 && (v != [] ==> !IsAlpha(v[0]))
    ensures |v| < 3 ==> !Ended(UrlAfter(ReqSchema, v))
    ensures |v| == 3 ==>
      UrlAfter(ReqSchema, v) == (if Is(v[0], ':') && Is(v[1], '/') && Is(v[2], '/') then ReqServerStart else Dead)
  {
    if |v| >= 1 {
      UrlOne(ReqSchema, v[0]);
      assert v[..1] == [v[0]];
    }
    if |v| >= 2 { assert v[..2][..1] == v[..1]; assert v[..2][1] == v[1]; }
  }

  /** Just the targets that are a path or a scheme with a target are let through. */
  lemma UrlForms(u: seq<byte>)
    ensures Ended(UrlAfter(ReqSpacesBeforeUrl, u)) <==> IsUrl(u)
  {
    hide IsTarget, IsTail;
    var k := Letters(u);
    LettersAre(u);
    if u == [] {
    } else if k == 0 {
      UrlOne(ReqSpacesBeforeUrl, u[0]);
      assert u == [u[0]] + u[1..];
      UrlConcat(ReqSpacesBeforeUrl, [u[0]], u[1..]);
      FirstByte(u[0]);
      if Is(u[0], '/') || Is(u[0], '*') { TailAfter(ReqPath, u[1..]); } else { StaysDead(u[1..]); }
      TailOfPath(u);
    } else {
      assert u == u[..k] + u[k..];
      UrlConcat(ReqSpacesBeforeUrl, u[..k], u[k..]);
      LettersAfter(u[..k], ReqSpacesBeforeUrl);
      SchemeAfter(u[k..]);
      if k + 3 <= |u| {
        assert u[k..][3..] == u[k + 3..];
        TargetAfter(u[k + 3..]);
      }
    }
  }

  lemma FirstByte(ch: byte)
    requires !IsAlpha(ch)
    ensures ParseUrlChar(ReqSpacesBeforeUrl, ch) == if Is(ch, '/') || Is(ch, '*') then ReqPath else Dead
  {
  }

  lemma TailOfPath(u: seq<byte>)
    requires u != []
    ensures Is(u[0], '/') || Is(u[0], '*') ==> (IsTail(u) <==> IsTail(u[1..]))
  {
    assert forall k :: 1 <= k < |u| ==> u[k] == u[1..][k - 1];
  }

  // ---- What the parser makes of them ----

  /** The bytes that end a target. */
  predicate Blank(ch: byte) { ch == SP || ch == CR || ch == LF }

  lemma UrlByte(p: Parser, ch: byte)
    requires Resting(p) && p.nread < MAX_HEADER_SIZE && (UrlState(p.state) || p.state.ReqSpacesBeforeUrl?) && !Blank(ch)
    ensures var next := ParseUrlChar(if p.state.ReqSpacesBeforeUrl? then UrlStart(p.meth) else p.state, ch);
      if next.Dead? then !ReadByte(p, ch).live
      else ReadByte(p, ch) == Run(Next(p).(state := next), [Delivered(Url, ch)], true)
  {
    var q := Next(p);
    NextAtSwitch(p);
    Cases(q, ch);
    UrlOutcome(q, ch);
    hide Step, StepUrl, AtSwitch, Resting, ReadByte, ParseUrlChar;
    if StepUrl(q, ch).exit == Break {
      ReadOnce(p, ch, StepUrl(q, ch));
    } else {
      UrlRefused(p, ch);
    }
  }

  lemma UrlOutcome(q: Parser, ch: byte)
    requires AtSwitch(q) && (UrlState(q.state) || q.state.ReqSpacesBeforeUrl?) && !Blank(ch)
    ensures var next := ParseUrlChar(if q.state.ReqSpacesBeforeUrl? then UrlStart(q.meth) else q.state, ch);
      var o := StepUrl(q, ch);
      if next.Dead? then o.exit == Error
      else o.p == q.(state := next) && UrlState(next) && o.note.None? && o.exit == Break
  {
    hide Good, AtSwitch, ParseUrlChar;
  }

  lemma UrlRefused(p: Parser, ch: byte)
    requires Resting(p) && ParsingHeader(p.state) && p.nread < MAX_HEADER_SIZE && AtSwitch(Next(p))
    requires Step(Next(p), ch, 1).exit == Error
    ensures !ReadByte(p, ch).live
  {
    hide Step, AtSwitch, Resting;
  }

  /** The targets a request line may have. */
  predicate IsTargetOf(meth: nat, url: seq<byte>) {
    if meth == M_CONNECT then IsTarget(url) else IsUrl(url)
  }

  /** Just those targets, and no others, can be followed by a space. */
  lemma TargetForms(meth: nat, url: seq<byte>)
    ensures Ended(UrlAfter(UrlStart(meth), url)) <==> IsTargetOf(meth, url)
    ensures IsTargetOf(meth, url) ==> url != []
  {
    hide UrlAfter, Cut, IsAuthority, IsTail;
    UrlForms(url);
    TargetAfter(url);
  }

  /** None of them has a blank in it. */
  lemma {:induction false} NoBlanks(s: State, url: seq<byte>)
    requires !UrlAfter(s, url).Dead?
    ensures forall k :: 0 <= k < |url| ==> !Blank(url[k])
  {
    hide ParseUrlChar, Blank;
    if url != [] {
      var n := |url| - 1;
      DeadByte(url[n]);
      NoBlanks(s, url[..n]);
      if Blank(url[n]) { BlankByte(UrlAfter(s, url[..n]), url[n]); }
    }
  }

  lemma BlankByte(s: State, ch: byte)
    requires Blank(ch)
    ensures ParseUrlChar(s, ch).Dead?
  {
  }

  /** A target is delivered as it is written, or refused, as `parse_url_char` decides. */
  lemma {:induction false} ReadUrl(p: Parser, url: seq<byte>)
    requires Resting(p) && p.state.ReqSpacesBeforeUrl? && p.nread + |url| <= MAX_HEADER_SIZE
    requires url != [] && forall k :: 0 <= k < |url| ==> !Blank(url[k])
    ensures var s, r := UrlAfter(UrlStart(p.meth), url), Feed(Run(p, [], true), url);
      if s.Dead? then !r.live
      else r == Run(p.(nread := p.nread + |url|, state := s), Tagged(Url, url), true) && UrlState(s)
  {
    hide Resting, ReadByte, ParseUrlChar;
    var n := |url| - 1;
    TaggedSnoc(Url, url);
    var s := UrlAfter(UrlStart(p.meth), url[..n]);
    if n == 0 {
      assert url[..0] == [] && Tagged(Url, url[..0]) == [];
      UrlByte(p, url[0]);
    } else {
      ReadUrl(p, url[..n]);
      if s.Dead? {
        DeadByte(url[n]);
      } else {
        UrlByte(Feed(Run(p, [], true), url[..n]).p, url[n]);
      }
    }
  }

  lemma UrlSpace(p: Parser)
    requires Resting(p) && Ended(p.state) && p.nread < MAX_HEADER_SIZE
    ensures ReadByte(p, SP) == Run(Next(p).(state := ReqHttpStart), [], true)
  {
    var q := Next(p);
    NextAtSwitch(p);
    Cases(q, SP);
    assert StepUrl(q, SP) == Outcome(q.(state := ReqHttpStart), None, Some(Url), None, Break, 1) by {
      hide Good, AtSwitch, ParseUrlChar;
    }
    hide Step, StepUrl, AtSwitch, Resting, ReadByte;
    ReadOnce(p, SP, StepUrl(q, SP));
  }

  /** A target and the space after it. */
  lemma ReadTarget(p: Parser, url: seq<byte>)
    requires Resting(p) && p.state.ReqSpacesBeforeUrl? && IsTargetOf(p.meth, url) && p.nread + |url| < MAX_HEADER_SIZE
    ensures Feed(Run(p, [], true), url + [SP]) ==
      Run(p.(nread := p.nread + |url| + 1, state := ReqHttpStart), Tagged(Url, url), true)
  {
    hide Resting, ReadByte, Feed, UrlAfter, Tagged, IsTarget, IsUrl;
    var s := UrlAfter(UrlStart(p.meth), url);
    TargetForms(p.meth, url);
    NoBlanks(UrlStart(p.meth), url);
    ReadUrl(p, url);
    UrlSpace(p.(nread := p.nread + |url|, state := s));
    FeedSnoc(Run(p, [], true), url, SP);
    assert Tagged(Url, url) + [] == Tagged(Url, url);
  }
}
