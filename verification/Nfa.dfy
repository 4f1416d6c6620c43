/** Nondeterministic automata: their simulation by sets of states, and the lists of states that
    `epsilon_closure` and `SymFollowSet` build. */
module Nfa {
  /** What a state reads; symbols are equivalence classes of characters. */
  datatype Label = Epsilon | Char(c: nat) | Class(syms: seq<nat>, negated: bool)

  /** A state with its accepting number, 0 for none. */
  datatype State = State(on: Label, accept: nat, next: seq<nat>)

  predicate Increasing(s: seq<nat>) {
    forall i, j :: 0 <= i < j < |s| ==> s[i] < s[j]
  }

  /** States are known by their position; the classes are sorted. */
  ghost predicate WellFormed(nfa: seq<State>) {
    && (forall q, i :: 0 <= q < |nfa| && 0 <= i < |nfa[q].next| ==> nfa[q].next[i] < |nfa|)
    && (forall q :: 0 <= q < |nfa| && nfa[q].on.Class? ==> Increasing(nfa[q].on.syms))
  }

  ghost predicate Within(nfa: seq<State>, s: set<nat>) {
    forall q :: q in s ==> q < |nfa|
  }

  function Elems(list: seq<nat>): set<nat> {
    set q | q in list
  }

  // ---- Simulation ----

  predicate MovesOn(n: State, sym: nat) {
    match n.on
    case Epsilon => false
    case Char(c) => c == sym
    case Class(syms, negated) => (sym in syms) != negated
  }

  ghost function Move(nfa: seq<State>, s: set<nat>, sym: nat): set<nat>
    requires Within(nfa, s)
  {
    set q, r | q in s && MovesOn(nfa[q], sym) && r in nfa[q].next :: r
  }

  /** A path of epsilon transitions. */
  ghost predicate EpsPath(nfa: seq<State>, path: seq<nat>) {
    && |path| > 0
    && (forall i :: 0 <= i < |path| ==> path[i] < |nfa|)
    && (forall i :: 0 <= i < |path| - 1 ==> nfa[path[i]].on.Epsilon? && path[i + 1] in nfa[path[i]].next)
  }

  ghost predicate Reaches(nfa: seq<State>, a: nat, b: nat) {
    exists path :: EpsPath(nfa, path) && path[0] == a && path[|path| - 1] == b
  }

  ghost predicate ReachesFrom(nfa: seq<State>, s: set<nat>, b: nat) {
    exists a :: a in s && Reaches(nfa, a, b)
  }

  ghost function Closure(nfa: seq<State>, s: set<nat>): (c: set<nat>)
    ensures Within(nfa, c)
  {
    set b: nat | b < |nfa| && ReachesFrom(nfa, s, b)
  }

  /** The states a word leads to from the first one, one symbol after the other. */
  ghost function Simulate(nfa: seq<State>, first: nat, word: seq<nat>): (s: set<nat>)
    ensures Within(nfa, s)
  {
    if word == [] then Closure(nfa, {first})
    else Closure(nfa, Move(nfa, Simulate(nfa, first, word[..|word| - 1]), word[|word| - 1]))
  }

  ghost function Accepts(nfa: seq<State>, s: set<nat>): set<nat>
    requires Within(nfa, s)
  {
    set q | q in s && nfa[q].accept != 0 :: nfa[q].accept
  }

  // ---- The states that matter ----

  /** Not a mere intermediate state: it reads a symbol or accepts. */
  predicate Kept(n: State) {
    !n.on.Epsilon? || n.accept != 0
  }

  ghost function KeptOf(nfa: seq<State>, s: set<nat>): (k: set<nat>)
    requires Within(nfa, s)
    ensures Within(nfa, k)
  {
    set q | q in s && Kept(nfa[q])
  }

  /** The other states neither move nor accept. */
  lemma KeptSuffices(nfa: seq<State>, s: set<nat>, sym: nat)
    requires Within(nfa, s)
    ensures Move(nfa, KeptOf(nfa, s), sym) == Move(nfa, s, sym)
    ensures Accepts(nfa, KeptOf(nfa, s)) == Accepts(nfa, s)
  {
    assert forall q, r :: q in s && MovesOn(nfa[q], sym) && r in nfa[q].next ==> q in KeptOf(nfa, s);
    assert forall q :: q in s && nfa[q].accept != 0 ==> q in KeptOf(nfa, s);
  }

  /** Two sets that differ in mere intermediate states only. */
  ghost predicate Alike(nfa: seq<State>, s: set<nat>, t: set<nat>) {
    Within(nfa, s) && Within(nfa, t) && KeptOf(nfa, s) == KeptOf(nfa, t)
  }

  // ---- Epsilon closure of one state ----

  lemma ReachesSelf(nfa: seq<State>, a: nat)
    requires a < |nfa|
    ensures Reaches(nfa, a, a)
  {
    assert EpsPath(nfa, [a]);
  }

  lemma ReachesNext(nfa: seq<State>, a: nat, b: nat, c: nat)
    requires Reaches(nfa, a, b) && c < |nfa| && nfa[b].on.Epsilon? && c in nfa[b].next
    ensures Reaches(nfa, a, c)
  {
    var path :| EpsPath(nfa, path) && path[0] == a && path[|path| - 1] == b;
    assert EpsPath(nfa, path + [c]);
  }

  /** A set with the start in it that no epsilon transition leaves has everything in it that
      can be reached. */
  lemma {:induction false} ReachesWithin(nfa: seq<State>, path: seq<nat>, s: set<nat>)
    requires EpsPath(nfa, path) && path[0] in s
    requires forall q, r :: q in s && q < |nfa| && nfa[q].on.Epsilon? && r in nfa[q].next ==> r in s
    ensures path[|path| - 1] in s
    decreases |path|
  {
    if |path| > 1 {
      var init := path[..|path| - 1];
      assert EpsPath(nfa, init);
      ReachesWithin(nfa, init, s);
    }
  }

  lemma {:induction false} CountBelow(s: set<nat>, n: nat)
    requires forall q :: q in s ==> q < n
    ensures |s| <= n
  {
    if n == 0 {
      assert s == {};
    } else {
      CountBelow(s - {n - 1}, n - 1);
      assert |s| <= |s - {n - 1}| + 1;
    }
  }

  /** The worklist: states that can be reached, each of them once and marked. */
  ghost predicate Work(nfa: seq<State>, start: nat, states: seq<nat>, marked: set<nat>) {
    && start in states && |states| == |marked|
    && (forall q :: q in states <==> q in marked)
    && (forall q :: q in states ==> q < |nfa| && Reaches(nfa, start, q))
  }

  lemma WorkBound(nfa: seq<State>, start: nat, states: seq<nat>, marked: set<nat>)
    requires Work(nfa, start, states, marked)
    ensures |states| <= |nfa|
  {
    CountBelow(marked, |nfa|);
  }

  ghost predicate Followed(nfa: seq<State>, q: nat, states: seq<nat>) {
    q < |nfa| && nfa[q].on.Epsilon? ==> forall r :: r in nfa[q].next ==> r in states
  }

  /** Once all states on the worklist are followed up, everything that can be reached is on it. */
  lemma WorkDone(nfa: seq<State>, start: nat, states: seq<nat>, marked: set<nat>, q: nat)
    requires Work(nfa, start, states, marked) && forall k :: 0 <= k < |states| ==> Followed(nfa, states[k], states)
    ensures q in states <==> q < |nfa| && Reaches(nfa, start, q)
  {
    if Reaches(nfa, start, q) {
      var path :| EpsPath(nfa, path) && path[0] == start && path[|path| - 1] == q;
      ReachesWithin(nfa, path, marked);
    }
  }

  /** `NFA_State::EpsilonClosure`. */
  method EpsilonClosure(nfa: seq<State>, start: nat) returns (closure: seq<nat>)
    requires WellFormed(nfa) && start < |nfa|
    ensures forall q: nat :: q in closure <==> q < |nfa| && Reaches(nfa, start, q) && Kept(nfa[q])
  {
    var states: seq<nat>, marked: set<nat> := [start], {start};
    closure := [];
    var i := 0;
    ReachesSelf(nfa, start);
    hide WellFormed, Reaches;
    while i < |states|
      invariant i <= |states| && Work(nfa, start, states, marked)
      invariant forall k :: 0 <= k < i ==> Followed(nfa, states[k], states)
      invariant forall q: nat :: q in closure <==> q in states[..i] && q < |nfa| && Kept(nfa[q])
      decreases |nfa| - i
    {
      var q := states[i];
      assert q in states;
      if nfa[q].on.Epsilon? {
        states, marked := MarkAll(nfa, start, q, states, marked);
      }
      if Kept(nfa[q]) {
        closure := closure + [q];
      }
      i := i + 1;
      WorkBound(nfa, start, states, marked);
      assert states[..i] == states[..i - 1] + [q];
    }
    assert states[..i] == states;
    forall q: nat
      ensures q in states <==> q < |nfa| && Reaches(nfa, start, q)
    {
      WorkDone(nfa, start, states, marked, q);
    }
  }

  /** Appends the successors of an epsilon state that are not marked yet, and marks them. */
  method MarkAll(nfa: seq<State>, ghost start: nat, from: nat, states0: seq<nat>, marked0: set<nat>)
    returns (states: seq<nat>, marked: set<nat>)
    requires WellFormed(nfa) && Work(nfa, start, states0, marked0) && from in states0 && nfa[from].on.Epsilon?
    ensures Work(nfa, start, states, marked) && states0 <= states && Followed(nfa, from, states)
  {
    states, marked := states0, marked0;
    var next := nfa[from].next;
    for j := 0 to |next|
      invariant Work(nfa, start, states, marked) && states0 <= states
      invariant forall k :: 0 <= k < j ==> next[k] in states
    {
      if next[j] !in marked {
        ReachesNext(nfa, start, from, next[j]);
        states, marked := states + [next[j]], marked + {next[j]};
      }
    }
  }

  // ---- Lists of states ----

  predicate Decreasing(s: seq<nat>) {
    forall i, j :: 0 <= i < j < |s| ==> s[i] > s[j]
  }

  /** `sortedinsert`: from the end towards the front past everything smaller. */
  function SortedInsert(s: seq<nat>, x: nat): (r: seq<nat>)
    requires Decreasing(s) && x !in s
    ensures Decreasing(r) && forall q :: q in r <==> q in s || q == x
  {
    if s == [] || s[|s| - 1] > x then s + [x]
    else
      var n := |s| - 1;
      var r := SortedInsert(s[..n], x);
      assert s == s[..n] + [s[n]];
      assert forall i :: 0 <= i < |r| ==> r[i] in r;
      r + [s[n]]
  }

  /** A sorted list is determined by what is in it. */
  lemma {:induction false} SameList(s: seq<nat>, t: seq<nat>)
    requires Decreasing(s) && Decreasing(t) && forall q: nat :: q in s <==> q in t
    ensures s == t
    decreases |s|
  {
    if s == [] {
      HasMember(t);
    } else {
      assert s[0] in s && s[0] in t;
      assert t[0] in t && t[0] in s;
      SameRest(s, t);
      SameList(s[1..], t[1..]);
    }
  }

  lemma HasMember(s: seq<nat>)
    ensures s != [] ==> exists q: nat :: q in s
  {
    if s != [] { assert s[0] in s; }
  }

  lemma SameRest(s: seq<nat>, t: seq<nat>)
    requires s != [] && t != [] && s[0] == t[0]
    requires Decreasing(s) && Decreasing(t) && forall q: nat :: q in s <==> q in t
    ensures forall q: nat :: q in s[1..] <==> q in t[1..]
  {
    forall q: nat
      ensures q in s[1..] <==> q in t[1..]
    {
      assert q in s[1..] <==> q in s && q != s[0];
      assert q in t[1..] <==> q in t && q != t[0];
    }
  }

  ghost predicate InRange(nfa: seq<State>, list: seq<nat>) {
    forall q :: q in list ==> q < |nfa|
  }

  /** The list `epsilon_closure` makes: sorted, with just the states that matter. */
  ghost predicate ClosureList(nfa: seq<State>, s: set<nat>, list: seq<nat>) {
    Decreasing(list) && forall q: nat :: q in list <==> q < |nfa| && ReachesFrom(nfa, s, q) && Kept(nfa[q])
  }

  lemma ClosureListIs(nfa: seq<State>, s: set<nat>, list: seq<nat>)
    requires ClosureList(nfa, s, list)
    ensures InRange(nfa, list) && Elems(list) == KeptOf(nfa, Closure(nfa, s))
    ensures Alike(nfa, Elems(list), Closure(nfa, s))
  {
    var k := KeptOf(nfa, Closure(nfa, s));
    assert Elems(list) == k;
    assert KeptOf(nfa, k) == k;
  }

  /** `epsilon_closure`. */
  method ClosureOf(nfa: seq<State>, ns: seq<nat>) returns (list: seq<nat>)
    requires WellFormed(nfa) && InRange(nfa, ns)
    ensures ClosureList(nfa, Elems(ns), list)
  {
    hide Reaches, WellFormed;
    list := [];
    for i := 0 to |ns|
      invariant Decreasing(list)
      invariant forall q: nat :: q in list <==>
        q < |nfa| && Kept(nfa[q]) && exists k :: 0 <= k < i && Reaches(nfa, ns[k], q)
    {
      assert ns[i] in ns;
      var closure := EpsilonClosure(nfa, ns[i]);
      list := Merge(list, closure);
    }
    assert forall k :: 0 <= k < |ns| ==> ns[k] in Elems(ns);
  }

  method Merge(list0: seq<nat>, closure: seq<nat>) returns (list: seq<nat>)
    requires Decreasing(list0)
    ensures Decreasing(list) && forall q: nat :: q in list <==> q in list0 || q in closure
  {
    list := list0;
    for j := 0 to |closure|
      invariant Decreasing(list) && forall q: nat :: q in list <==> q in list0 || q in closure[..j]
    {
      if closure[j] !in list {
        list := SortedInsert(list, closure[j]);
      }
    }
    assert closure[..|closure|] == closure;
  }

  // ---- Transitions on a symbol ----

  /** Looking a symbol up in a sorted class, as for a negated one: up to the first not smaller. */
  method FoundNegated(syms: seq<nat>, sym: nat) returns (found: bool)
    requires Increasing(syms)
    ensures found <==> sym in syms
  {
    var j := 0;
    while j < |syms| && syms[j] < sym
      invariant j <= |syms| && forall k :: 0 <= k < j ==> syms[k] < sym
    {
      j := j + 1;
    }
    found := !(j >= |syms| || syms[j] > sym);
  }

  /** The same for a class that is not negated. */
  method Found(syms: seq<nat>, sym: nat) returns (found: bool)
    requires Increasing(syms)
    ensures found <==> sym in syms
  {
    for j := 0 to |syms|
      invariant forall k :: 0 <= k < j ==> syms[k] < sym
    {
      if syms[j] > sym {
        return false;
      }
      if syms[j] == sym {
        return true;
      }
    }
    return false;
  }

  method Moves(n: State, sym: nat) returns (moves: bool)
    requires n.on.Class? ==> Increasing(n.on.syms)
    ensures moves <==> MovesOn(n, sym)
  {
    match n.on
    case Class(syms, negated) =>
      if negated {
        var found := FoundNegated(syms, sym);
        moves := !found;
      } else {
        moves := Found(syms, sym);
      }
    case Epsilon => moves := false;
    case Char(c) => moves := c == sym;
  }

  /** `SymFollowSet`. */
  method SymFollowSet(nfa: seq<State>, list: seq<nat>, sym: nat) returns (ns: seq<nat>)
    requires WellFormed(nfa) && InRange(nfa, list)
    ensures InRange(nfa, ns) && Elems(ns) == Move(nfa, Elems(list), sym)
  {
    ns := [];
    assert forall k :: 0 <= k < |list| ==> list[k] in list;
    for i := 0 to |list|
      invariant InRange(nfa, ns)
      invariant forall r :: r in ns <==> exists k :: 0 <= k < i && MovesOn(nfa[list[k]], sym) && r in nfa[list[k]].next
    {
      var moves := Moves(nfa[list[i]], sym);
      if moves {
        ns := ns + nfa[list[i]].next;
      }
    }
    assert forall k :: 0 <= k < |list| ==> list[k] in Elems(list);
  }

  // ---- One more symbol ----

  lemma MoveWithin(nfa: seq<State>, s: set<nat>, sym: nat)
    requires WellFormed(nfa) && Within(nfa, s)
    ensures Within(nfa, Move(nfa, s, sym))
  {
  }

  lemma ClosureEmpty(nfa: seq<State>, s: set<nat>)
    requires Within(nfa, s)
    ensures Closure(nfa, s) == {} <==> s == {}
  {
    forall q | q in s
      ensures q in Closure(nfa, s)
    {
      ReachesSelf(nfa, q);
    }
    assert s <= Closure(nfa, s);
    if s == {} {
      assert Closure(nfa, s) == {};
    }
  }

  /** The list made from the states that matter stands for all states after one more symbol. */
  lemma SimulateNext(nfa: seq<State>, first: nat, word: seq<nat>, sym: nat, list: seq<nat>)
    requires WellFormed(nfa) && InRange(nfa, list) && Within(nfa, Elems(list))
    requires Alike(nfa, Elems(list), Simulate(nfa, first, word))
    ensures Simulate(nfa, first, word + [sym]) == Closure(nfa, Move(nfa, Elems(list), sym))
    ensures Simulate(nfa, first, word + [sym]) == {} <==> Move(nfa, Elems(list), sym) == {}
  {
    hide Move, Closure, KeptOf;
    KeptSuffices(nfa, Simulate(nfa, first, word), sym);
    KeptSuffices(nfa, Elems(list), sym);
    MoveWithin(nfa, Elems(list), sym);
    ClosureEmpty(nfa, Move(nfa, Elems(list), sym));
    assert (word + [sym])[..|word|] == word;
  }

  lemma {:induction false} StaysEmpty(nfa: seq<State>, first: nat, word: seq<nat>, i: nat)
    requires i <= |word| && Simulate(nfa, first, word[..i]) == {}
    ensures Simulate(nfa, first, word) == {}
    decreases |word|
  {
    if i < |word| {
      var n := |word| - 1;
      assert word[..n][..i] == word[..i];
      StaysEmpty(nfa, first, word[..n], i);
      assert Move(nfa, {}, word[n]) == {};
      ClosureEmpty(nfa, {});
    } else {
      assert word[..i] == word;
    }
  }
}
