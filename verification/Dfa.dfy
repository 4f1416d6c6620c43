/** `DFA_Machine`: deterministic states made on demand and cached, proved against the direct
    simulation of the NFA. */
module Dfa {
  import opened Bytes
  import opened Nfa
  import opened DfaTag
  import EquivSpec
  import EquivClasses

  /** A transition not computed yet, one into nothing, or one to a state. */
  datatype Xtion = Uncomputed | Jam | To(d: DfaState)

  class DfaState {
    const nfaStates: seq<nat>
    const accept: Option<set<nat>>
    const reps: seq<nat>  // what `meta_ec` answers
    var xtions: seq<Xtion>

    constructor (nfaStates: seq<nat>, accept: Option<set<nat>>, reps: seq<nat>)
      ensures this.nfaStates == nfaStates && this.accept == accept && this.reps == reps
      ensures |xtions| == |reps| && forall sym :: 0 <= sym < |reps| ==> xtions[sym].Uncomputed?
    {
      this.nfaStates := nfaStates;
      this.accept := accept;
      this.reps := reps;
      this.xtions := seq(|reps|, i => Uncomputed);
    }
  }

  /** What a set of accepting numbers is stored as. */
  function Stored(accepts: set<nat>): Option<set<nat>> {
    if accepts == {} then None else Some(accepts)
  }

  ghost predicate ListOk(nfa: seq<State>, list: seq<nat>) {
    forall i :: 0 <= i < |list| ==> list[i] < |nfa|
  }

  /** No state of the list tells the two symbols apart. */
  ghost predicate MoveAlike(nfa: seq<State>, list: seq<nat>, a: nat, b: nat)
    requires ListOk(nfa, list)
  {
    forall i :: 0 <= i < |list| ==> (MovesOn(nfa[list[i]], a) <==> MovesOn(nfa[list[i]], b))
  }

  /** Every symbol has the first one that the list does not tell apart from it. */
  ghost predicate RepsOk(nfa: seq<State>, list: seq<nat>, reps: seq<nat>)
    requires ListOk(nfa, list)
  {
    forall sym :: 0 <= sym < |reps| ==>
      && reps[sym] <= sym && MoveAlike(nfa, list, reps[sym], sym)
      && forall r :: 0 <= r < reps[sym] ==> !MoveAlike(nfa, list, r, sym)
  }

  lemma MoveAlikeMove(nfa: seq<State>, list: seq<nat>, a: nat, b: nat)
    requires ListOk(nfa, list) && Within(nfa, Elems(list)) && MoveAlike(nfa, list, a, b)
    ensures Move(nfa, Elems(list), a) == Move(nfa, Elems(list), b)
  {
    assert forall q :: q in Elems(list) ==> (MovesOn(nfa[q], a) <==> MovesOn(nfa[q], b));
  }

  /** The labels name symbols below `n` only. */
  predicate LabelsBelow(nfa: seq<State>, n: nat) {
    forall q :: 0 <= q < |nfa| ==> LabelBelow(nfa[q], n)
  }

  predicate LabelBelow(s: State, n: nat) {
    match s.on
    case Epsilon => true
    case Char(c) => c < n
    case Class(syms, _) => forall i :: 0 <= i < |syms| ==> syms[i] < n
  }

  ghost predicate StateOk(nfa: seq<State>, d: DfaState) {
    && ListOk(nfa, d.nfaStates) && Within(nfa, Elems(d.nfaStates)) && RepsOk(nfa, d.nfaStates, d.reps)
    && d.accept == Stored(Accepts(nfa, Elems(d.nfaStates)))
  }

  /** A computed transition leads where the NFA leads. */
  ghost predicate XtionOk(nfa: seq<State>, states: set<DfaState>, d: DfaState, sym: nat, x: Xtion) {
    Within(nfa, Elems(d.nfaStates)) &&
    var s := Move(nfa, Elems(d.nfaStates), sym);
    match x
    case Uncomputed => true
    case Jam => s == {}
    case To(e) => s != {} && e in states && Alike(nfa, Elems(e.nfaStates), Closure(nfa, s))
  }

  lemma ClosureListOk(nfa: seq<State>, s: set<nat>, list: seq<nat>)
    requires ClosureList(nfa, s, list)
    ensures ListOk(nfa, list) && Alike(nfa, Elems(list), Closure(nfa, s))
  {
    ClosureListIs(nfa, s, list);
    assert forall i :: 0 <= i < |list| ==> list[i] in list;
  }

  lemma SameFilteredAlike(nfa: seq<State>, a: seq<nat>, b: seq<nat>)
    requires ListOk(nfa, a) && ListOk(nfa, b) && Within(nfa, Elems(a)) && Within(nfa, Elems(b))
    requires Filtered(nfa, a) == Filtered(nfa, b)
    ensures Alike(nfa, Elems(a), Elems(b))
  {
    FilteredElems(nfa, a);
    FilteredElems(nfa, b);
  }

  lemma StateIsOk(nfa: seq<State>, d: DfaState)
    requires ListOk(nfa, d.nfaStates) && Within(nfa, Elems(d.nfaStates)) && RepsOk(nfa, d.nfaStates, d.reps)
    requires d.accept == Stored(Accepts(nfa, Elems(d.nfaStates)))
    ensures StateOk(nfa, d)
  {
  }

  lemma XtionAlike(nfa: seq<State>, states: set<DfaState>, d: DfaState, a: nat, b: nat, x: Xtion)
    requires XtionOk(nfa, states, d, a, x) && Within(nfa, Elems(d.nfaStates))
    requires Move(nfa, Elems(d.nfaStates), a) == Move(nfa, Elems(d.nfaStates), b)
    ensures XtionOk(nfa, states, d, b, x)
  {
  }

  lemma XtionMeans(nfa: seq<State>, states: set<DfaState>, d: DfaState, sym: nat, x: Xtion)
    requires XtionOk(nfa, states, d, sym, x) && !x.Uncomputed? && Within(nfa, Elems(d.nfaStates))
    ensures x.Jam? <==> Move(nfa, Elems(d.nfaStates), sym) == {}
    ensures x.To? ==>
      x.d in states && Alike(nfa, Elems(x.d.nfaStates), Closure(nfa, Move(nfa, Elems(d.nfaStates), sym)))
  {
  }

  // ---- Symbols that a list of states does not tell apart ----

  /** The partition tells apart just what the list does. */
  ghost predicate Parted(nfa: seq<State>, list: seq<nat>, p: EquivSpec.Partition) {
    && ListOk(nfa, list)
    && forall x, y :: 0 <= x < |p| && 0 <= y < |p| ==> (p[x] == p[y] <==> MoveAlike(nfa, list, x, y))
  }

  /** The symbols a label sets apart. */
  function LabelSyms(n: State): seq<nat> {
    match n.on
    case Epsilon => []
    case Char(c) => [c]
    case Class(syms, _) => syms
  }

  function LabelSet(n: State): set<nat> {
    Elems(LabelSyms(n))
  }

  lemma LabelTells(n: State, x: nat, y: nat)
    ensures (MovesOn(n, x) <==> MovesOn(n, y)) <==> (x in LabelSet(n) <==> y in LabelSet(n))
  {
  }

  lemma MoveAlikeNext(nfa: seq<State>, list: seq<nat>, i: nat, x: nat, y: nat)
    requires ListOk(nfa, list) && i < |list|
    ensures MoveAlike(nfa, list[..i + 1], x, y) <==>
      MoveAlike(nfa, list[..i], x, y) && (x in LabelSet(nfa[list[i]]) <==> y in LabelSet(nfa[list[i]]))
  {
    hide MovesOn, LabelSet;
    LabelTells(nfa[list[i]], x, y);
    var a, b := list[..i], list[..i + 1];
    assert forall k :: 0 <= k < i ==> a[k] == b[k];
    assert b[i] == list[i];
  }

  lemma PartedNone(nfa: seq<State>, p: EquivSpec.Partition)
    requires forall x :: 0 <= x < |p| ==> p[x] == 0
    ensures Parted(nfa, [], p)
  {
  }

  lemma PartedNext(nfa: seq<State>, list: seq<nat>, i: nat, p: EquivSpec.Partition, q: EquivSpec.Partition)
    requires ListOk(nfa, list) && i < |list| && Parted(nfa, list[..i], p)
    requires EquivSpec.Refines(q, p, LabelSet(nfa[list[i]]))
    ensures Parted(nfa, list[..i + 1], q)
  {
    hide MoveAlike, LabelSet;
    forall x, y | 0 <= x < |p| && 0 <= y < |p|
      ensures q[x] == q[y] <==> MoveAlike(nfa, list[..i + 1], x, y)
    {
      MoveAlikeNext(nfa, list, i, x, y);
    }
  }

  lemma PartedReps(nfa: seq<State>, list: seq<nat>, p: EquivSpec.Partition, classOf: seq<nat>, reps: seq<nat>)
    requires Parted(nfa, list, p) && EquivSpec.Numbered(p, classOf, reps)
    ensures RepsOk(nfa, list, reps)
  {
    hide MoveAlike;
    forall sym | 0 <= sym < |reps|
      ensures reps[sym] <= sym && MoveAlike(nfa, list, reps[sym], sym)
      ensures forall r :: 0 <= r < reps[sym] ==> !MoveAlike(nfa, list, r, sym)
    {
      EquivSpec.ClassNumbers(p, classOf, reps, sym, sym);
      assert EquivSpec.NumberedAt(p, classOf[sym], reps[sym], sym);
    }
  }

  /** What a label does to a partition, as in `SymPartition` and the constructors of NFA states. */
  method Refine(ec: EquivClasses.EquivClass, n: State)
    requires ec.Valid() && LabelBelow(n, ec.size) && (n.on.Class? ==> Increasing(n.on.syms))
    modifies ec`p, ec`next, ec.fwd, ec.bck, ec.flags
    ensures ec.Valid() && EquivSpec.Refines(ec.p, old(ec.p), LabelSet(n))
  {
    match n.on {
      case Epsilon =>
      case Char(c) =>
        ec.UniqueChar(c);
        assert Elems([c]) == {c};
      case Class(syms, _) => ec.CclUse(syms);
    }
  }

  class Machine {
    const nfa: seq<State>
    const first: nat
    const numSym: nat
    var cache: map<string, DfaState>
    var start: DfaState?

    ghost function States(): set<DfaState>
      reads this`cache
    {
      cache.Values
    }

    /** Every cached state is filed under its tag and all it knows is true of the NFA. */
    ghost predicate Cached()
      reads this`cache, States()
    {
      && WellFormed(nfa) && first < |nfa| && 0 < numSym && LabelsBelow(nfa, numSym)
      && (forall tag :: tag in cache ==>
        ListOk(nfa, cache[tag].nfaStates) && tag == Tag(Filtered(nfa, cache[tag].nfaStates)))
      && (forall d :: d in States() ==>
        && StateOk(nfa, d) && |d.xtions| == numSym == |d.reps|
        && forall sym :: 0 <= sym < numSym ==> XtionOk(nfa, States(), d, sym, d.xtions[sym]))
    }

    /** The start state stands for the epsilon closure of the first NFA state. */
    ghost predicate Ready()
      reads this`cache, this`start, States()
    {
      Cached() && start != null && start in States() && Alike(nfa, Elems(start.nfaStates), Closure(nfa, {first}))
    }

    constructor (nfa: seq<State>, first: nat, numSym: nat)
      requires WellFormed(nfa) && first < |nfa| && 0 < numSym && LabelsBelow(nfa, numSym)
      ensures Ready() && this.nfa == nfa && this.first == first && this.numSym == numSym
      ensures forall d :: d in States() ==> fresh(d)
    {
      this.nfa, this.first, this.numSym := nfa, first, numSym;
      this.cache := map[];
      this.start := null;
      new;
      var list := ClosureOf(nfa, [first]);
      assert Elems([first]) == {first};
      ClosureListOk(nfa, {first}, list);
      start := StateSetToDfaState(list);
    }

    /** `StateSetToDFA_State`: the cached state for the list, made if there is none.  Lists that
        differ in mere intermediate states share one. */
    method StateSetToDfaState(list: seq<nat>) returns (d: DfaState)
      requires Cached() && ListOk(nfa, list) && Within(nfa, Elems(list))
      modifies this`cache
      ensures Cached() && States() == old(States()) + {d} && (d in old(States()) || fresh(d))
      ensures d in old(States()) <==>
        exists e :: e in old(States()) && Filtered(nfa, e.nfaStates) == Filtered(nfa, list)
      ensures Filtered(nfa, d.nfaStates) == Filtered(nfa, list) && Alike(nfa, Elems(d.nfaStates), Elems(list))
    {
      hide StateOk, XtionOk, Tag, WellFormed, Elems, Filtered, Within, Alike;
      var tag := WriteTag(nfa, list);
      if tag in cache {
        d := cache[tag];
        TagInjective(Filtered(nfa, d.nfaStates), Filtered(nfa, list));
      } else {
        d := NewState(tag, list);
      }
      StatesWithin();
      SameFilteredAlike(nfa, d.nfaStates, list);
    }

    method NewState(tag: string, list: seq<nat>) returns (d: DfaState)
      requires Cached() && ListOk(nfa, list) && Within(nfa, Elems(list)) && tag == Tag(Filtered(nfa, list))
      requires tag !in cache
      modifies this`cache
      ensures Cached() && d.nfaStates == list && fresh(d) && States() == old(States()) + {d}
    {
      hide StateOk, XtionOk, Tag, WellFormed, Elems, Within, Filtered, Stored;
      var accept := AcceptingSet(list);
      var reps := SymPartition(list);
      d := new DfaState(list, Stored(accept), reps);
      StateIsOk(nfa, d);
      ValuesInsert(cache, tag, d);
      cache := cache[tag := d];
      MoreStates(old(States()), States());
    }

    /** No two cached states with sorted lists stand for the same set of states. */
    lemma OnePerSet(d: DfaState, e: DfaState)
      requires Cached() && d in States() && e in States()
      requires Decreasing(d.nfaStates) && Decreasing(e.nfaStates) && Alike(nfa, Elems(d.nfaStates), Elems(e.nfaStates))
      ensures d == e
    {
      hide StateOk, XtionOk, Tag, WellFormed, Filtered;
      var f, g := Filtered(nfa, d.nfaStates), Filtered(nfa, e.nfaStates);
      FilteredDecreasing(nfa, d.nfaStates);
      FilteredDecreasing(nfa, e.nfaStates);
      FilteredElems(nfa, d.nfaStates);
      FilteredElems(nfa, e.nfaStates);
      assert forall q: nat :: q in f <==> q in Elems(f);
      assert forall q: nat :: q in g <==> q in Elems(g);
      SameList(f, g);
    }

    /** Transitions stay right when states are added, and a new state has none. */
    lemma MoreStates(states: set<DfaState>, states': set<DfaState>)
      requires WellFormed(nfa) && states <= states'
      requires forall d :: d in states' ==> StateOk(nfa, d) && |d.xtions| == numSym == |d.reps|
      requires forall d, sym :: d in states && 0 <= sym < numSym ==> XtionOk(nfa, states, d, sym, d.xtions[sym])
      requires forall d, sym :: d in states' - states && 0 <= sym < numSym ==> d.xtions[sym].Uncomputed?
      ensures forall d, sym :: d in states' && 0 <= sym < numSym ==> XtionOk(nfa, states', d, sym, d.xtions[sym])
    {
    }

    method AcceptingSet(list: seq<nat>) returns (accept: set<nat>)
      requires Within(nfa, Elems(list))
      ensures accept == Accepts(nfa, Elems(list))
    {
      accept := {};
      assert forall i :: 0 <= i < |list| ==> list[i] in Elems(list);
      for i := 0 to |list|
        invariant forall a :: a in accept <==> exists k :: 0 <= k < i && nfa[list[k]].accept == a && a != 0
      {
        if nfa[list[i]].accept != 0 {
          accept := accept + {nfa[list[i]].accept};
        }
      }
    }

    /** `SymPartition`: one refinement for every label. */
    method SymPartition(list: seq<nat>) returns (reps: seq<nat>)
      requires WellFormed(nfa) && ListOk(nfa, list) && 0 < numSym && LabelsBelow(nfa, numSym)
      ensures |reps| == numSym && RepsOk(nfa, list, reps)
    {
      var ec := new EquivClasses.EquivClass(numSym);
      PartedNone(nfa, ec.p);
      assert list[..0] == [];
      hide EquivSpec.Linked, EquivSpec.Below, EquivSpec.Refines, Parted, LabelSet, Increasing, RepsOk;
      hide EquivSpec.Numbered;
      for i := 0 to |list|
        invariant ec.Valid() && ec.numEcs == 0 && ec.size == numSym
        invariant fresh(ec) && fresh(ec.fwd) && fresh(ec.bck) && fresh(ec.flags) && fresh(ec.equivClass)
        invariant fresh(ec.rep)
        invariant Parted(nfa, list[..i], ec.p)
      {
        ghost var p := ec.p;
        Refine(ec, nfa[list[i]]);
        PartedNext(nfa, list, i, p, ec.p);
      }
      assert list[..|list|] == list;
      var _ := ec.BuildEcs();
      EquivSpec.NumberedSeqs(ec.p, ec.equivClass[..], ec.rep[..]);
      reps := ec.rep[..];
      PartedReps(nfa, list, ec.p, ec.equivClass[..], reps);
    }

    /** `Xtion`: a null pointer exactly if no NFA state moves. */
    method Xtion(d: DfaState, sym: nat) returns (next: DfaState?)
      requires Cached() && d in States() && sym < numSym
      modifies this`cache, d`xtions
      ensures Cached() && old(States()) <= States()
      ensures forall e :: e in States() ==> e in old(States()) || fresh(e)
      ensures next == null <==> Move(nfa, Elems(d.nfaStates), sym) == {}
      ensures next != null ==>
        next in States() && Alike(nfa, Elems(next.nfaStates), Closure(nfa, Move(nfa, Elems(d.nfaStates), sym)))
    {
      StatesWithin();
      hide StateOk, XtionOk, WellFormed, Elems, Within, ListOk, Move, Alike, LabelsBelow;
      if d.xtions[sym].Uncomputed? {
        ComputeXtion(d, sym);
      }
      XtionMeans(nfa, States(), d, sym, d.xtions[sym]);
      next := if d.xtions[sym].To? then d.xtions[sym].d else null;
    }

    /** `ComputeXtion`: shared with the first symbol that is not told apart from this one. */
    method ComputeXtion(d: DfaState, sym: nat)
      requires Cached() && d in States() && sym < numSym
      modifies this`cache, d`xtions
      ensures Cached() && old(States()) <= States() && !d.xtions[sym].Uncomputed?
      ensures forall e :: e in States() ==> e in old(States()) || fresh(e)
    {
      StatesWithin();
      StateReps(d, sym);
      hide StateOk, XtionOk, WellFormed, Elems, Within, ListOk, Move, Alike, LabelsBelow;
      var rep := d.reps[sym];
      if d.xtions[rep].Uncomputed? {
        var x := NextState(d, rep);
        SetXtion(d, rep, x);
      }
      XtionAlike(nfa, States(), d, rep, sym, d.xtions[rep]);
      SetXtion(d, sym, d.xtions[rep]);
    }

    lemma StateReps(d: DfaState, sym: nat)
      requires Cached() && d in States() && sym < numSym
      ensures d.reps[sym] <= sym && Within(nfa, Elems(d.nfaStates))
      ensures Move(nfa, Elems(d.nfaStates), d.reps[sym]) == Move(nfa, Elems(d.nfaStates), sym)
    {
      assert StateOk(nfa, d);
      MoveAlikeMove(nfa, d.nfaStates, d.reps[sym], sym);
    }

    lemma StatesWithin()
      requires Cached()
      ensures forall d, i :: d in States() && 0 <= i < |d.nfaStates| ==> d.nfaStates[i] < |nfa|
      ensures forall d :: d in States() ==> Within(nfa, Elems(d.nfaStates))
    {
    }

    /** `AddXtion`. */
    method SetXtion(d: DfaState, sym: nat, x: Xtion)
      requires Cached() && d in States() && sym < numSym && XtionOk(nfa, States(), d, sym, x)
      modifies d`xtions
      ensures Cached() && d.xtions == old(d.xtions)[sym := x]
    {
      hide StateOk, XtionOk, WellFormed;
      d.xtions := d.xtions[sym := x];
    }

    method NextState(d: DfaState, sym: nat) returns (x: Xtion)
      requires Cached() && d in States() && sym < numSym
      modifies this`cache
      ensures Cached() && old(States()) <= States() && !x.Uncomputed? && XtionOk(nfa, States(), d, sym, x)
      ensures forall e :: e in States() ==> e in old(States()) || fresh(e)
    {
      var ns := SymFollowSet(nfa, d.nfaStates, sym);
      if |ns| > 0 {
        var list := ClosureOf(nfa, ns);
        ClosureListOk(nfa, Elems(ns), list);
        var e := StateSetToDfaState(list);
        assert ns[0] in Elems(ns);
        x := To(e);
      } else {
        x := Jam;
      }
    }

    /** The state stands for the set of NFA states, none at all for the empty set. */
    ghost predicate Stands(d: DfaState?, s: set<nat>)
      requires Within(nfa, s)
      reads this`cache
    {
      if d == null then s == {}
      else s != {} && d in States() && Alike(nfa, Elems(d.nfaStates), s)
    }

    /** A state that stands for a set accepts what the set accepts. */
    lemma StandsAccepts(d: DfaState, s: set<nat>)
      requires Cached() && Within(nfa, s) && Stands(d, s)
      ensures d.accept == Stored(Accepts(nfa, s))
    {
      KeptSuffices(nfa, s, 0);
      KeptSuffices(nfa, Elems(d.nfaStates), 0);
    }

    method Step(d: DfaState, sym: nat, ghost word: seq<nat>) returns (next: DfaState?)
      requires Cached() && sym < numSym && Stands(d, Simulate(nfa, first, word))
      modifies this`cache, d`xtions
      ensures Cached() && Stands(next, Simulate(nfa, first, word + [sym]))
      ensures old(States()) <= States() && forall e :: e in States() ==> e in old(States()) || fresh(e)
    {
      StatesWithin();
      hide XtionOk, StateOk, WellFormed, Simulate, Move, Closure, KeptOf;
      next := Xtion(d, sym);
      SimulateNext(nfa, first, word, sym, d.nfaStates);
    }

    /** Following a word from the start state ends in the state that stands for the NFA's
        simulation, whatever has been computed before. */
    method Walk(word: seq<nat>) returns (d: DfaState?)
      requires Ready() && forall i :: 0 <= i < |word| ==> word[i] < numSym
      modifies this`cache, States()
      ensures Ready() && Stands(d, Simulate(nfa, first, word))
      ensures d != null ==> d.accept == Stored(Accepts(nfa, Simulate(nfa, first, word)))
      ensures forall e :: e in States() ==> e in old(States()) || fresh(e)
    {
      hide Simulate, KeptOf, ClosureList, XtionOk, StateOk, WellFormed, Accepts, Stored, Cached;
      d := start;
      StartStands(word);
      var i := 0;
      while d != null && i < |word|
        invariant i <= |word| && Ready() && Stands(d, Simulate(nfa, first, word[..i]))
        invariant old(States()) <= States() && forall e :: e in States() ==> e in old(States()) || fresh(e)
        decreases |word| - i
      {
        assert word[..i + 1] == word[..i] + [word[i]];
        d := Step(d, word[i], word[..i]);
        i := i + 1;
      }
      WalkEnds(d, word, i);
    }

    lemma WalkEnds(d: DfaState?, word: seq<nat>, i: nat)
      requires Cached() && i <= |word| && Stands(d, Simulate(nfa, first, word[..i])) && (d == null || i == |word|)
      ensures Stands(d, Simulate(nfa, first, word))
      ensures d != null ==> d.accept == Stored(Accepts(nfa, Simulate(nfa, first, word)))
    {
      hide Cached, Simulate, Accepts, Stored;
      if d == null {
        StaysEmpty(nfa, first, word, i);
      } else {
        assert word[..i] == word;
        StandsAccepts(d, Simulate(nfa, first, word));
      }
    }

    lemma StartStands(word: seq<nat>)
      requires Ready()
      ensures Stands(start, Simulate(nfa, first, word[..0]))
    {
      ClosureEmpty(nfa, {first});
    }
  }
}
