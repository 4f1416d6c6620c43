/** `Url::encode` and `Url::decode`: percent coding of UTF-8 (RFC 3986, section 2.1; RFC 3629,
    section 3) over strings of 16-bit units. */
module Url {
  const PERCENT: bv16 := 0x25
  const SPACE: bv16 := 0x20
  const PLUS: bv16 := 0x2b

  // ---- Hexadecimal ----

  function HexDigit(d: bv16): bv16 {
    if d < 10 then 0x30 + d else 0x57 + d
  }

  /** A digit's value, 16 for what is not a digit. */
  function DigitValue(c: bv16): bv16 {
    if 0x30 <= c <= 0x39 then c - 0x30
    else if 0x61 <= c <= 0x66 then c - 0x57
    else if 0x41 <= c <= 0x46 then c - 0x37
    else 16
  }

  /** `wcstol` of the two characters after a percent sign: up to the first that is no digit. */
  function HexValue(a: bv16, b: bv16): bv16 {
    var x, y := DigitValue(a), DigitValue(b);
    if x == 16 then 0 else if y == 16 then x else x * 16 + y
  }

  lemma DigitBack(d: bv16)
    requires d < 16
    ensures DigitValue(HexDigit(d)) == d
  {
  }

  lemma HexBack(b: bv16)
    requires b < 256
    ensures HexValue(HexDigit(b >> 4), HexDigit(b & 15)) == b
  {
    assert b >> 4 < 16 && b & 15 < 16;
    DigitBack(b >> 4);
    DigitBack(b & 15);
    hide DigitValue, HexDigit;
    assert (b >> 4) * 16 + (b & 15) == b;
  }

  // ---- Encoding ----

  predicate Unreserved(c: bv16) {
    || 0x41 <= c <= 0x5a || 0x61 <= c <= 0x7a || 0x30 <= c <= 0x39
    || c == 0x2d || c == 0x5f || c == 0x2e || c == 0x21 || c == 0x7e || c == 0x2a || c == 0x27 || c == 0x28 || c == 0x29
  }

  /** An entry of `hexenc`. */
  function Escape(b: bv16): seq<bv16> {
    [PERCENT, HexDigit(b >> 4), HexDigit(b & 15)]
  }

  function EncodeUnit(c: bv16): seq<bv16> {
    if Unreserved(c) then [c]
    else if c == SPACE then [PLUS]
    else if c <= 0x7f then Escape(c)
    else if c <= 0x7ff then Escape(0xc0 | (c >> 6)) + Escape(0x80 | (c & 0x3f))
    else Escape(0xe0 | (c >> 12)) + Escape(0x80 | ((c >> 6) & 0x3f)) + Escape(0x80 | (c & 0x3f))
  }

  function Encoded(s: seq<bv16>): seq<bv16> {
    if s == [] then [] else EncodeUnit(s[0]) + Encoded(s[1..])
  }

  // ---- Decoding ----

  /** What decoding keeps between bytes: how many more are expected, and the unit so far. */
  datatype Pending = Pending(sequence: int, unit: bv16)

  /** A byte's effect: what is kept, and what is put out. */
  datatype Effect = Effect(p: Pending, out: seq<bv16>)

  function OnByte(b: bv16, p: Pending): Effect {
    if b <= 0x7f then Effect(p, [b])
    else if b <= 0xbf then
      var x := if p.sequence == 2 then (b & 0x3f) << 6 else b & 0x3f;
      var q := Pending(p.sequence - 1, p.unit | x);
      Effect(q, if q.sequence == 0 then [q.unit] else [])
    else if b <= 0xdf then Effect(Pending(1, (b & 0x1f) << 6), [])
    else if b <= 0xef then Effect(Pending(2, (b & 0xf) << 12), [])
    else Effect(p, [])
  }

  function Decoded(s: seq<bv16>, p: Pending): seq<bv16>
    decreases |s|
  {
    if s == [] then []
    else if s[0] == PERCENT && |s| >= 3 then
      var e := OnByte(HexValue(s[1], s[2]), p);
      e.out + Decoded(s[3..], e.p)
    else [s[0]] + Decoded(s[1..], p)
  }

  const FRESH := Pending(0, 0)

  // ---- One unit there and back ----

  lemma EscapeBack(b: bv16, rest: seq<bv16>, p: Pending)
    requires b < 256
    ensures Decoded(Escape(b) + rest, p) == OnByte(b, p).out + Decoded(rest, OnByte(b, p).p)
  {
    HexBack(b);
    hide HexValue, HexDigit, OnByte;
    var s := Escape(b) + rest;
    assert s[0] == PERCENT && s[1] == HexDigit(b >> 4) && s[2] == HexDigit(b & 15) && s[3..] == rest;
  }

  lemma TwoBits(c: bv16)
    requires 0x7f < c <= 0x7ff
    ensures var a, b := 0xc0 | (c >> 6), 0x80 | (c & 0x3f);
      0xbf < a <= 0xdf && 0x7f < b <= 0xbf && (((a & 0x1f) << 6) | (b & 0x3f)) == c
  {
  }

  lemma ThreeBits(c: bv16)
    requires 0x7ff < c
    ensures var a, b, d := 0xe0 | (c >> 12), 0x80 | ((c >> 6) & 0x3f), 0x80 | (c & 0x3f);
      && 0xdf < a <= 0xef && 0x7f < b <= 0xbf && 0x7f < d <= 0xbf
      && ((((a & 0xf) << 12) | ((b & 0x3f) << 6)) | (d & 0x3f)) == c
  {
  }

  lemma Lead(a: bv16, p: Pending)
    requires 0xbf < a <= 0xef
    ensures OnByte(a, p) == Effect(if a <= 0xdf then Pending(1, (a & 0x1f) << 6) else Pending(2, (a & 0xf) << 12), [])
  {
  }

  lemma Middle(b: bv16, u: bv16)
    requires 0x7f < b <= 0xbf
    ensures OnByte(b, Pending(2, u)) == Effect(Pending(1, u | ((b & 0x3f) << 6)), [])
  {
  }

  lemma Last(b: bv16, u: bv16)
    requires 0x7f < b <= 0xbf
    ensures OnByte(b, Pending(1, u)) == Effect(Pending(0, u | (b & 0x3f)), [u | (b & 0x3f)])
  {
  }

  /** A space does not come back: it is a plus sign. */
  function Plus(c: bv16): bv16 {
    if c == SPACE then PLUS else c
  }

  function PlusAll(s: seq<bv16>): seq<bv16> {
    seq(|s|, i requires 0 <= i < |s| => Plus(s[i]))
  }

  lemma PlainBack(x: bv16, rest: seq<bv16>, p: Pending)
    requires x != PERCENT
    ensures Decoded([x] + rest, p) == [x] + Decoded(rest, p)
  {
    hide OnByte, HexValue;
    assert ([x] + rest)[1..] == rest;
  }

  lemma UnreservedIsPlain(c: bv16)
    ensures !Unreserved(PERCENT) && !Unreserved(SPACE) && (Unreserved(c) ==> c != PERCENT && c != SPACE)
  {
  }

  lemma AsciiBack(c: bv16, rest: seq<bv16>, p: Pending)
    requires c <= 0x7f
    ensures Decoded(Escape(c) + rest, p) == [c] + Decoded(rest, p)
  {
    EscapeBack(c, rest, p);
    hide Escape, Decoded;
  }

  lemma UnitBack(c: bv16, rest: seq<bv16>, p: Pending) returns (q: Pending)
    ensures Decoded(EncodeUnit(c) + rest, p) == [Plus(c)] + Decoded(rest, q)
  {
    hide Decoded, Escape, Unreserved, EncodeUnit;
    UnreservedIsPlain(c);
    q := p;
    if Unreserved(c) || c == SPACE {
      OneOf(c);
      PlainBack(Plus(c), rest, p);
    } else if c <= 0x7f {
      OneOf(c);
      AsciiBack(c, rest, p);
    } else if c <= 0x7ff {
      q := Pending(0, c);
      var x, y := TwoOf(c);
      TwoBack(x, y, rest, p);
    } else {
      q := Pending(0, c);
      var x, y, z := ThreeOf(c);
      ThreeBack(x, y, z, rest, p);
    }
  }

  lemma OneOf(c: bv16)
    ensures Unreserved(c) || c == SPACE ==> EncodeUnit(c) == [Plus(c)]
    ensures !Unreserved(c) && c != SPACE && c <= 0x7f ==> EncodeUnit(c) == Escape(c)
  {
    UnreservedIsPlain(c);
    hide Unreserved, Escape;
  }

  lemma TwoOf(c: bv16) returns (a: bv16, b: bv16)
    requires 0x7f < c <= 0x7ff
    ensures 0xbf < a <= 0xdf && 0x7f < b <= 0xbf && (((a & 0x1f) << 6) | (b & 0x3f)) == c
    ensures EncodeUnit(c) == Escape(a) + Escape(b)
  {
    TwoBits(c);
    hide Escape;
    a, b := 0xc0 | (c >> 6), 0x80 | (c & 0x3f);
  }

  lemma ThreeOf(c: bv16) returns (a: bv16, b: bv16, d: bv16)
    requires 0x7ff < c
    ensures 0xdf < a <= 0xef && 0x7f < b <= 0xbf && 0x7f < d <= 0xbf
    ensures ((((a & 0xf) << 12) | ((b & 0x3f) << 6)) | (d & 0x3f)) == c
    ensures EncodeUnit(c) == Escape(a) + Escape(b) + Escape(d)
  {
    ThreeBits(c);
    hide Escape;
    a, b, d := 0xe0 | (c >> 12), 0x80 | ((c >> 6) & 0x3f), 0x80 | (c & 0x3f);
  }

  lemma TwoBack(a: bv16, b: bv16, rest: seq<bv16>, p: Pending)
    requires 0xbf < a <= 0xdf && 0x7f < b <= 0xbf
    ensures var c := ((a & 0x1f) << 6) | (b & 0x3f);
      Decoded(Escape(a) + Escape(b) + rest, p) == [c] + Decoded(rest, Pending(0, c))
  {
    hide OnByte, Escape, Decoded;
    Lead(a, p);
    Last(b, (a & 0x1f) << 6);
    EscapeBack(a, Escape(b) + rest, p);
    EscapeBack(b, rest, OnByte(a, p).p);
    assert Escape(a) + Escape(b) + rest == Escape(a) + (Escape(b) + rest);
  }

  lemma ThreeBack(a: bv16, b: bv16, d: bv16, rest: seq<bv16>, p: Pending)
    requires 0xdf < a <= 0xef && 0x7f < b <= 0xbf && 0x7f < d <= 0xbf
    ensures var c := (((a & 0xf) << 12) | ((b & 0x3f) << 6)) | (d & 0x3f);
      Decoded(Escape(a) + Escape(b) + Escape(d) + rest, p) == [c] + Decoded(rest, Pending(0, c))
  {
    hide OnByte, Escape, Decoded;
    var u := (a & 0xf) << 12;
    Lead(a, p);
    Middle(b, u);
    Last(d, u | ((b & 0x3f) << 6));
    EscapeBack(a, Escape(b) + (Escape(d) + rest), p);
    EscapeBack(b, Escape(d) + rest, Pending(2, u));
    EscapeBack(d, rest, Pending(1, u | ((b & 0x3f) << 6)));
    assert Escape(a) + Escape(b) + Escape(d) + rest == Escape(a) + (Escape(b) + (Escape(d) + rest));
  }

  lemma PlusFirst(s: seq<bv16>)
    requires s != []
    ensures PlusAll(s) == [Plus(s[0])] + PlusAll(s[1..])
  {
    hide Plus;
  }

  /** Decoding an encoded string gives the string back, except that spaces are plus signs. */
  lemma {:induction false} RoundTrip(s: seq<bv16>, p: Pending)
    ensures Decoded(Encoded(s), p) == PlusAll(s)
  {
    if s != [] {
      hide EncodeUnit, Decoded, Plus, PlusAll;
      var q := UnitBack(s[0], Encoded(s[1..]), p);
      RoundTrip(s[1..], q);
      PlusFirst(s);
    }
  }

  // ---- The loops ----

  lemma EncodedFrom(s: seq<bv16>, i: nat)
    requires i < |s|
    ensures Encoded(s[i..]) == EncodeUnit(s[i]) + Encoded(s[i + 1..])
  {
    hide EncodeUnit;
    assert s[i..][1..] == s[i + 1..];
  }

  lemma EncodedNothing(s: seq<bv16>)
    ensures Encoded(s[|s|..]) == []
  {
  }

  method Encode(text: seq<bv16>) returns (encoded: seq<bv16>)
    ensures encoded == Encoded(text)
  {
    hide EncodeUnit, Encoded;
    encoded := [];
    assert text[0..] == text;
    EncodedNothing(text);
    for i := 0 to |text|
      invariant encoded + Encoded(text[i..]) == Encoded(text)
    {
      EncodedFrom(text, i);
      ghost var unit, rest := EncodeUnit(text[i]), Encoded(text[i + 1..]);
      assert encoded + (unit + rest) == encoded + unit + rest;
      encoded := encoded + EncodeUnit(text[i]);
    }
  }

  lemma DecodedFrom(s: seq<bv16>, i: nat, p: Pending)
    requires i < |s|
    ensures if s[i] == PERCENT && i + 2 < |s| then
        var e := OnByte(HexValue(s[i + 1], s[i + 2]), p);
        Decoded(s[i..], p) == e.out + Decoded(s[i + 3..], e.p)
      else Decoded(s[i..], p) == [s[i]] + Decoded(s[i + 1..], p)
  {
    hide OnByte, HexValue;
    var left := s[i..];
    assert left[1..] == s[i + 1..];
    if i + 2 < |s| {
      assert left[3..] == s[i + 3..] && left[1] == s[i + 1] && left[2] == s[i + 2];
    }
  }

  lemma DecodedNothing(s: seq<bv16>, p: Pending)
    ensures Decoded(s[|s|..], p) == []
  {
  }

  method Decode(text: seq<bv16>) returns (decoded: seq<bv16>)
    ensures decoded == Decoded(text, FRESH)
  {
    hide OnByte, HexValue, Decoded;
    decoded := [];
    var p := FRESH;
    var i := 0;
    assert text[0..] == text;
    while i < |text|
      invariant i <= |text| && decoded + Decoded(text[i..], p) == Decoded(text, FRESH)
    {
      DecodedFrom(text, i, p);
      if text[i] == PERCENT && i + 2 < |text| {
        var e := OnByte(HexValue(text[i + 1], text[i + 2]), p);
        decoded, p := decoded + e.out, e.p;
        i := i + 3;
      } else {
        decoded := decoded + [text[i]];
        i := i + 1;
      }
    }
    DecodedNothing(text, p);
  }
}
