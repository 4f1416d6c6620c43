/** The text under which a set of NFA states is cached. */
module DfaTag {
  import opened Nfa

  /** The digits of a number, the last one first. */
  function Digits(n: nat): (s: string)
    ensures |s| >= 1 && forall i :: 0 <= i < |s| ==> '0' <= s[i] <= '9'
  {
    var d := [('0' as int + n % 10) as char];
    if n / 10 > 0 then d + Digits(n / 10) else d
  }

  function Number(s: string): int {
    if s == [] then 0 else s[0] as int - '0' as int + 10 * Number(s[1..])
  }

  lemma {:induction false} DigitsNumber(n: nat)
    ensures Number(Digits(n)) == n
  {
    var d := [('0' as int + n % 10) as char];
    if n / 10 > 0 {
      DigitsNumber(n / 10);
      assert (d + Digits(n / 10))[1..] == Digits(n / 10);
    } else {
      assert d[1..] == [];
      assert Number(d[1..]) == 0;
    }
  }

  /** `id_tag`: the digits of every state, each followed by a delimiter. */
  function Tag(list: seq<nat>): string {
    if list == [] then [] else Digits(list[0]) + ['&'] + Tag(list[1..])
  }

  lemma {:induction false} SplitAtDelimiter(u: string, x: string, v: string, y: string)
    requires u + ['&'] + x == v + ['&'] + y
    requires '&' !in u && '&' !in v
    ensures u == v && x == y
  {
    var s, t := u + ['&'] + x, v + ['&'] + y;
    assert s[|u|] == '&' && t[|v|] == '&';
    assert forall i :: 0 <= i < |u| ==> s[i] == u[i] && u[i] != '&';
    assert forall i :: 0 <= i < |v| ==> t[i] == v[i] && v[i] != '&';
    assert u == s[..|u|] && v == t[..|v|];
    assert x == s[|u| + 1..] && y == t[|v| + 1..];
  }

  /** Different lists have different tags. */
  lemma {:induction false} TagInjective(a: seq<nat>, b: seq<nat>)
    requires Tag(a) == Tag(b)
    ensures a == b
    decreases |a|
  {
    if a != [] && b != [] {
      SplitAtDelimiter(Digits(a[0]), Tag(a[1..]), Digits(b[0]), Tag(b[1..]));
      DigitsNumber(a[0]);
      DigitsNumber(b[0]);
      TagInjective(a[1..], b[1..]);
    }
  }

  lemma TagFirst(a: seq<nat>)
    requires a != []
    ensures Tag(a) == Digits(a[0]) + ['&'] + Tag(a[1..])
  {
    hide Digits;
  }

  lemma {:induction false} TagConcat(a: seq<nat>, q: nat)
    ensures Tag(a + [q]) == Tag(a) + Digits(q) + ['&']
    decreases |a|
  {
    hide Digits;
    if a == [] {
      assert [] + [q] == [q] && [q][1..] == [];
    } else {
      TagConcat(a[1..], q);
      assert (a + [q])[1..] == a[1..] + [q] && (a + [q])[0] == a[0];
      TagFirst(a);
      TagFirst(a + [q]);
      hide Tag;
    }
  }

  /** The buffer of 11 characters per state and one for the terminator is large enough. */
  lemma {:induction false} TagFits(list: seq<nat>)
    requires forall q :: q in list ==> q < 10_000_000_000
    ensures |Tag(list)| + 1 <= |list| * 11 + 1
    decreases |list|
  {
    if list != [] {
      assert forall q :: q in list[1..] ==> q in list;
      assert list[0] in list && Pow10(5) == 100_000 && Pow10(10) == 100_000 * Pow10(5);
      TenDigits(list[0], 10);
      TagFits(list[1..]);
    }
  }

  lemma {:induction false} TenDigits(n: nat, k: nat)
    requires 1 <= k && n < Pow10(k)
    ensures |Digits(n)| <= k
  {
    if k > 1 && n / 10 > 0 { TenDigits(n / 10, k - 1); }
  }

  function Pow10(k: nat): nat {
    if k == 0 then 1 else 10 * Pow10(k - 1)
  }

  /** The states of a list that read a symbol or accept. */
  function Filtered(nfa: seq<State>, list: seq<nat>): seq<nat>
    requires forall i :: 0 <= i < |list| ==> list[i] < |nfa|
  {
    if list == [] then []
    else
      var n := |list| - 1;
      Filtered(nfa, list[..n]) + if Kept(nfa[list[n]]) then [list[n]] else []
  }

  lemma {:induction false} FilteredElems(nfa: seq<State>, list: seq<nat>)
    requires (forall i :: 0 <= i < |list| ==> list[i] < |nfa|) && Within(nfa, Elems(list))
    ensures Elems(Filtered(nfa, list)) == KeptOf(nfa, Elems(list))
    decreases |list|
  {
    if list != [] {
      var n := |list| - 1;
      assert list == list[..n] + [list[n]];
      assert Elems(list) == Elems(list[..n]) + {list[n]};
      FilteredElems(nfa, list[..n]);
      ElemsConcat(Filtered(nfa, list[..n]), if Kept(nfa[list[n]]) then [list[n]] else []);
    }
  }

  lemma ElemsConcat(a: seq<nat>, b: seq<nat>)
    ensures Elems(a + b) == Elems(a) + Elems(b)
  {
  }

  lemma {:induction false} FilteredDecreasing(nfa: seq<State>, list: seq<nat>)
    requires (forall i :: 0 <= i < |list| ==> list[i] < |nfa|) && Decreasing(list)
    ensures Decreasing(Filtered(nfa, list))
    ensures forall i :: 0 <= i < |Filtered(nfa, list)| ==> Filtered(nfa, list)[i] in list
    decreases |list|
  {
    if list != [] {
      var n := |list| - 1;
      FilteredDecreasing(nfa, list[..n]);
      assert list == list[..n] + [list[n]];
      BelowRest(list[..n], list[n]);
      LastDecreasing(Filtered(nfa, list[..n]), list[..n], list[n]);
    }
  }

  lemma BelowRest(front: seq<nat>, x: nat)
    requires Decreasing(front + [x])
    ensures forall q :: q in front ==> q > x
  {
    var list := front + [x];
    assert forall k :: 0 <= k < |front| ==> front[k] == list[k] && list[k] > list[|front|];
  }

  lemma LastDecreasing(f: seq<nat>, list: seq<nat>, x: nat)
    requires Decreasing(f) && (forall i :: 0 <= i < |f| ==> f[i] in list) && forall q :: q in list ==> q > x
    ensures var g := f + [x]; Decreasing(g) && forall i :: 0 <= i < |g| ==> g[i] in list + [x]
  {
  }

  lemma FilteredNext(nfa: seq<State>, list: seq<nat>, i: nat)
    requires i < |list| && forall k :: 0 <= k < |list| ==> list[k] < |nfa|
    ensures Filtered(nfa, list[..i + 1]) ==
      if Kept(nfa[list[i]]) then Filtered(nfa, list[..i]) + [list[i]] else Filtered(nfa, list[..i])
  {
    assert list[..i + 1][..i] == list[..i];
  }

  /** The tag `DFA_State_Cache::Lookup` computes, which leaves out pure epsilon states. */
  method WriteTag(nfa: seq<State>, list: seq<nat>) returns (tag: string)
    requires forall i :: 0 <= i < |list| ==> list[i] < |nfa|
    ensures tag == Tag(Filtered(nfa, list))
  {
    tag := [];
    assert list[..0] == [];
    assert tag == Tag(Filtered(nfa, list[..0]));
    hide Tag, Filtered, Digits, Kept;
    for i := 0 to |list|
      invariant tag == Tag(Filtered(nfa, list[..i]))
    {
      FilteredNext(nfa, list, i);
      if Kept(nfa[list[i]]) {
        TagConcat(Filtered(nfa, list[..i]), list[i]);
        var digits := WriteDigits(list[i]);
        tag := tag + digits + ['&'];
      }
    }
    assert list[..|list|] == list;
  }

  method WriteDigits(n: nat) returns (s: string)
    ensures s == Digits(n)
  {
    s := [('0' as int + n % 10) as char];
    var id := n / 10;
    while id > 0
      invariant Digits(n) == if id > 0 then s + Digits(id) else s
    {
      s := s + [('0' as int + id % 10) as char];
      id := id / 10;
    }
  }
}
