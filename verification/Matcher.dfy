/** `Specific_RE_Matcher`: the automaton of a pattern is rewritten over equivalence classes of
    characters, made deterministic on demand and run over a text; proved against the simulation
    of the automaton over the characters themselves. */
module Matcher {
  import opened Bytes
  import opened Nfa
  import opened Dfa
  import EquivSpec
  import EquivClasses

  const SYM_BOL: nat := 256
  const SYM_EOL: nat := 257
  const NUM_SYM: nat := 258

  // ---- Characters and their classes ----

  /** A state over classes moves on the class of a character when the state over characters moves
      on the character. */
  ghost predicate Follows(n: State, n': State, ecs: seq<nat>) {
    && n'.accept == n.accept && n'.next == n.next && (n'.on.Epsilon? <==> n.on.Epsilon?)
    && forall c :: 0 <= c < |ecs| ==> (MovesOn(n', ecs[c]) <==> MovesOn(n, c))
  }

  ghost predicate Converted(chars: seq<State>, classes: seq<State>, ecs: seq<nat>) {
    |classes| == |chars| && forall q :: 0 <= q < |chars| ==> Follows(chars[q], classes[q], ecs)
  }

  function Word(ecs: seq<nat>, word: seq<nat>): (r: seq<nat>)
    requires forall i :: 0 <= i < |word| ==> word[i] < |ecs|
    ensures |r| == |word| && forall i :: 0 <= i < |word| ==> r[i] == ecs[word[i]]
  {
    seq(|word|, i requires 0 <= i < |word| => ecs[word[i]])
  }

  lemma WordNext(ecs: seq<nat>, word: seq<nat>, c: nat)
    requires c < |ecs| && forall i :: 0 <= i < |word| ==> word[i] < |ecs|
    ensures Word(ecs, word + [c]) == Word(ecs, word) + [ecs[c]]
  {
  }

  lemma SamePath(chars: seq<State>, classes: seq<State>, ecs: seq<nat>, path: seq<nat>)
    requires Converted(chars, classes, ecs)
    ensures EpsPath(classes, path) <==> EpsPath(chars, path)
  {
    hide MovesOn;
  }

  lemma SameReach(chars: seq<State>, classes: seq<State>, ecs: seq<nat>, a: nat, b: nat)
    requires Converted(chars, classes, ecs)
    ensures Reaches(classes, a, b) <==> Reaches(chars, a, b)
  {
    hide Converted;
    if Reaches(classes, a, b) {
      var path :| EpsPath(classes, path) && path[0] == a && path[|path| - 1] == b;
      SamePath(chars, classes, ecs, path);
    }
    if Reaches(chars, a, b) {
      var path :| EpsPath(chars, path) && path[0] == a && path[|path| - 1] == b;
      SamePath(chars, classes, ecs, path);
    }
  }

  lemma SameClosure(chars: seq<State>, classes: seq<State>, ecs: seq<nat>, s: set<nat>)
    requires Converted(chars, classes, ecs)
    ensures Closure(classes, s) == Closure(chars, s)
  {
    hide Reaches, Follows;
    forall a: nat, b: nat
      ensures Reaches(classes, a, b) <==> Reaches(chars, a, b)
    {
      SameReach(chars, classes, ecs, a, b);
    }
  }

  lemma SameMove(chars: seq<State>, classes: seq<State>, ecs: seq<nat>, s: set<nat>, c: nat)
    requires Converted(chars, classes, ecs) && Within(chars, s) && c < |ecs|
    ensures Within(classes, s) && Move(classes, s, ecs[c]) == Move(chars, s, c)
  {
    hide MovesOn;
    assert forall q :: q in s ==> Follows(chars[q], classes[q], ecs);
  }

  /** Running over the classes of a word is running over the word. */
  lemma {:induction false} SimulateConverted(chars: seq<State>, classes: seq<State>, ecs: seq<nat>, first: nat,
    word: seq<nat>)
    requires Converted(chars, classes, ecs) && forall i :: 0 <= i < |word| ==> word[i] < |ecs|
    ensures Simulate(classes, first, Word(ecs, word)) == Simulate(chars, first, word)
    decreases |word|
  {
    hide Closure, Move, Converted;
    if word == [] {
      SameClosure(chars, classes, ecs, {first});
    } else {
      var n := |word| - 1;
      assert Word(ecs, word)[..n] == Word(ecs, word[..n]);
      SimulateConverted(chars, classes, ecs, first, word[..n]);
      SameMove(chars, classes, ecs, Simulate(chars, first, word[..n]), word[n]);
      SameClosure(chars, classes, ecs, Move(chars, Simulate(chars, first, word[..n]), word[n]));
    }
  }

  // ---- Converting ----

  /** No label of the first `i` states tells members of a block apart. */
  ghost predicate Settled(chars: seq<State>, i: nat, p: EquivSpec.Partition)
    requires i <= |chars|
  {
    forall q :: 0 <= q < i ==> EquivSpec.Closed(p, LabelSyms(chars[q]))
  }

  lemma SettledNext(chars: seq<State>, i: nat, p: EquivSpec.Partition, p': EquivSpec.Partition)
    requires i < |chars| && Settled(chars, i, p) && EquivSpec.Refines(p', p, LabelSet(chars[i]))
    ensures Settled(chars, i + 1, p')
  {
    hide EquivSpec.Closed, EquivSpec.Refines, LabelSyms;
    forall q | 0 <= q < i + 1
      ensures EquivSpec.Closed(p', LabelSyms(chars[q]))
    {
      EquivSpec.UsedIsClosed(p', p, LabelSyms(chars[q]), LabelSet(chars[i]));
    }
  }

  /** A label in terms of the numbers of the blocks. */
  method Convert(ec: EquivClasses.EquivClass, n: State) returns (n': State)
    requires ec.Valid() && LabelBelow(n, ec.size) && (n.on.Class? ==> Increasing(n.on.syms))
    requires EquivSpec.Numbered(ec.p, ec.equivClass[..], ec.rep[..]) && EquivSpec.Closed(ec.p, LabelSyms(n))
    ensures Follows(n, n', ec.equivClass[..]) && LabelBelow(n', EquivSpec.Blocks(ec.p, ec.size))
    ensures n'.on.Class? ==> Increasing(n'.on.syms)
  {
    hide EquivSpec.Linked, EquivSpec.Numbered, EquivSpec.Blocks, Increasing;
    match n.on {
      case Epsilon => n' := n;
      case Char(c) =>
        forall x | 0 <= x < ec.size
          ensures ec.equivClass[c] == ec.equivClass[x] <==> c == x
          ensures ec.equivClass[c] < EquivSpec.Blocks(ec.p, ec.size)
        {
          EquivSpec.ClassNumbers(ec.p, ec.equivClass[..], ec.rep[..], c, x);
        }
        n' := State(Char(ec.equivClass[c]), n.accept, n.next);
      case Class(syms, negated) =>
        var syms' := ec.ConvertCcl(syms);
        n' := State(Class(syms', negated), n.accept, n.next);
    }
  }

  // ---- Compiling and matching ----

  /** Some pattern accepts after the word. */
  ghost predicate Reads(nfa: seq<State>, first: nat, word: seq<nat>) {
    Accepts(nfa, Simulate(nfa, first, word)) != {}
  }

  /** A text between its two ends. */
  function Framed(text: seq<byte>): (word: seq<nat>)
    ensures |word| == |text| + 2 && forall i :: 0 <= i < |word| ==> word[i] < NUM_SYM
  {
    [SYM_BOL] + seq(|text|, i requires 0 <= i < |text| => text[i] as nat) + [SYM_EOL]
  }

  /** One refinement for every label, as the states of the automaton are made. */
  method RefineAll(chars: seq<State>) returns (ec: EquivClasses.EquivClass)
    requires WellFormed(chars) && LabelsBelow(chars, NUM_SYM)
    ensures fresh(ec) && fresh(ec.equivClass) && fresh(ec.rep)
    ensures ec.Valid() && ec.numEcs == 0 && ec.size == NUM_SYM && Settled(chars, |chars|, ec.p)
  {
    ec := new EquivClasses.EquivClass(NUM_SYM);
    hide EquivSpec.Linked, EquivSpec.Below, EquivSpec.Refines, LabelSet, Increasing, LabelBelow, Settled;
    NoneSettled(chars, ec.p);
    for i := 0 to |chars|
      invariant ec.Valid() && ec.numEcs == 0 && ec.size == NUM_SYM
      invariant fresh(ec) && fresh(ec.fwd) && fresh(ec.bck) && fresh(ec.flags) && fresh(ec.equivClass) && fresh(ec.rep)
      invariant Settled(chars, i, ec.p)
    {
      ghost var p := ec.p;
      Refine(ec, chars[i]);
      SettledNext(chars, i, p, ec.p);
    }
  }

  method ConvertAll(ec: EquivClasses.EquivClass, chars: seq<State>) returns (classes: seq<State>)
    requires WellFormed(chars) && ec.Valid() && LabelsBelow(chars, ec.size)
    requires EquivSpec.Numbered(ec.p, ec.equivClass[..], ec.rep[..]) && Settled(chars, |chars|, ec.p)
    ensures Converted(chars, classes, ec.equivClass[..]) && WellFormed(classes)
    ensures LabelsBelow(classes, EquivSpec.Blocks(ec.p, ec.size))
  {
    hide EquivSpec.Linked, EquivSpec.Below, EquivSpec.Numbered, EquivSpec.Blocks, EquivSpec.Closed;
    hide Increasing, LabelBelow, Follows, LabelSyms;
    classes := [];
    for i := 0 to |chars|
      invariant |classes| == i
      invariant forall q :: 0 <= q < i ==> Follows(chars[q], classes[q], ec.equivClass[..])
      invariant forall q :: 0 <= q < i ==> LabelBelow(classes[q], EquivSpec.Blocks(ec.p, ec.size))
      invariant forall q :: 0 <= q < i && classes[q].on.Class? ==> Increasing(classes[q].on.syms)
    {
      var s := Convert(ec, chars[i]);
      classes := classes + [s];
    }
    SameNext(chars, classes, ec.equivClass[..]);
  }

  method ToClasses(chars: seq<State>) returns (classes: seq<State>, ecs: seq<nat>, n: nat)
    requires WellFormed(chars) && LabelsBelow(chars, NUM_SYM)
    ensures Converted(chars, classes, ecs) && WellFormed(classes) && LabelsBelow(classes, n) && 0 < n
    ensures |ecs| == NUM_SYM && forall c :: 0 <= c < NUM_SYM ==> ecs[c] < n
  {
    hide EquivSpec.Linked, EquivSpec.Below, EquivSpec.Numbered, EquivSpec.Blocks, Settled, Converted, WellFormed;
    hide LabelsBelow;
    var ec := RefineAll(chars);
    n := ec.BuildEcs();
    classes := ConvertAll(ec, chars);
    ecs := ec.equivClass[..];
    ClassesBelow(ec.p, ecs, ec.rep[..]);
  }

  lemma NoneSettled(chars: seq<State>, p: EquivSpec.Partition)
    ensures Settled(chars, 0, p)
  {
  }

  class SpecificMatcher {
    var dfa: Machine?
    var ecs: seq<nat>
    ghost var chars: seq<State>
    ghost var first: nat

    constructor ()
      ensures Valid() && dfa == null
    {
      dfa, ecs := null, [];
    }

    ghost function Repr(): set<object>
      reads this, dfa
    {
      if dfa == null then {} else {dfa as object} + set d | d in dfa.States() :: d as object
    }

    /** Without a machine the pattern is empty. */
    ghost predicate Valid()
      reads this, dfa, Repr()
    {
      dfa != null ==>
        && dfa.Ready() && dfa.first == first
        && Converted(chars, dfa.nfa, ecs)
        && |ecs| == NUM_SYM && forall c :: 0 <= c < NUM_SYM ==> ecs[c] < dfa.numSym
    }

    /** `Compile`, once the pattern has been parsed into an automaton over characters. */
    method Compile(chars: seq<State>, first: nat)
      requires WellFormed(chars) && first < |chars| && LabelsBelow(chars, NUM_SYM)
      modifies this
      ensures Valid() && dfa != null && this.chars == chars && this.first == first
      ensures forall o :: o in Repr() ==> fresh(o)
    {
      hide Follows, WellFormed, LabelsBelow, Machine.Cached, Alike;
      var classes, n;
      classes, ecs, n := ToClasses(chars);
      dfa := new Machine(classes, first, n);
      this.chars, this.first := chars, first;
    }

    /** The state stands for where the word leads the automaton over characters. */
    ghost predicate At(d: DfaState?, word: seq<nat>)
      requires dfa != null
      reads this, dfa
    {
      Within(dfa.nfa, Simulate(chars, first, word)) && dfa.Stands(d, Simulate(chars, first, word))
    }

    lemma AtAccepts(d: DfaState, word: seq<nat>)
      requires Valid() && dfa != null && At(d, word)
      ensures d.accept.Some? <==> Reads(chars, first, word)
    {
      hide Simulate;
      SameAccepts(chars, dfa.nfa, ecs, Simulate(chars, first, word));
      dfa.StandsAccepts(d, Simulate(chars, first, word));
    }

    lemma AtInCache(d: DfaState, word: seq<nat>)
      requires Valid() && dfa != null && At(d, word)
      ensures d in Repr()
    {
      hide Simulate, Converted, dfa.Cached;
    }

    /** From nowhere no word leads anywhere. */
    lemma AtNothing(word: seq<nat>, i: nat)
      requires Valid() && dfa != null && i <= |word| && At(null, word[..i])
      ensures !Reads(chars, first, word)
    {
      StaysEmpty(chars, first, word, i);
    }

    lemma AtStart()
      requires Valid() && dfa != null
      ensures dfa.start != null && At(dfa.start, [])
    {
      SimulateConverted(chars, dfa.nfa, ecs, first, []);
      dfa.StartStands([]);
    }

    method Next(d: DfaState, c: nat, ghost word: seq<nat>) returns (next: DfaState?)
      requires Valid() && dfa != null && c < NUM_SYM && At(d, word) && forall i :: 0 <= i < |word| ==> word[i] < NUM_SYM
      modifies Repr()
      ensures unchanged(this) && Valid() && At(next, word + [c])
      ensures forall o :: o in Repr() ==> o in old(Repr()) || fresh(o)
    {
      hide Simulate, Word, Converted, dfa.Cached, dfa.Stands;
      SimulateConverted(chars, dfa.nfa, ecs, first, word);
      SimulateConverted(chars, dfa.nfa, ecs, first, word + [c]);
      WordNext(ecs, word, c);
      AtInCache(d, word);
      next := dfa.Step(d, ecs[c], Word(ecs, word));
    }

    /** `MatchAll`: an empty pattern matches the empty text only. */
    method MatchAll(text: seq<byte>) returns (matched: bool)
      requires Valid()
      modifies Repr()
      ensures unchanged(this) && Valid()
      ensures matched <==> if dfa == null then text == [] else Reads(chars, first, Framed(text))
    {
      if dfa == null {
        return text == [];
      }
      hide Simulate, Word, Converted, dfa.Cached, Framed;
      SimulateConverted(chars, dfa.nfa, ecs, first, Framed(text));
      SameAccepts(chars, dfa.nfa, ecs, Simulate(chars, first, Framed(text)));
      var d := dfa.Walk(Word(ecs, Framed(text)));
      matched := d != null && d.accept.Some?;
    }

    /** The pattern accepts after the first `k` characters. */
    ghost predicate Prefix(text: seq<byte>, k: nat)
      requires k <= |text|
      reads this
    {
      Reads(chars, first, Framed(text)[..k + 1])
    }

    ghost predicate Whole(text: seq<byte>)
      reads this
    {
      Reads(chars, first, Framed(text))
    }

    /** One more symbol of the text, and whether the pattern accepts after it. */
    method Take(d: DfaState, text: seq<byte>, k: nat, c: nat) returns (next: DfaState?, accepted: bool)
      requires Valid() && dfa != null && k < |text| + 2 && c == Framed(text)[k] && At(d, Framed(text)[..k])
      modifies Repr()
      ensures unchanged(this) && Valid() && At(next, Framed(text)[..k + 1])
      ensures accepted <==> Reads(chars, first, Framed(text)[..k + 1])
      ensures next == null ==> !accepted
      ensures forall o :: o in Repr() ==> o in old(Repr()) || fresh(o)
    {
      hide Simulate, Reads, Converted, dfa.Cached, dfa.Stands, Framed;
      ghost var word := Framed(text);
      assert word[..k] + [c] == word[..k + 1];
      next := Next(d, c, word[..k]);
      if next == null {
        accepted := false;
        assert word[..k + 1][..k + 1] == word[..k + 1];
        AtNothing(word[..k + 1], k + 1);
      } else {
        accepted := next.accept.Some?;
        AtAccepts(next, word[..k + 1]);
      }
    }

    /** Nothing follows where the automaton has no state left. */
    lemma NoFurther(text: seq<byte>, i: nat)
      requires Valid() && dfa != null && i < |text| + 2 && At(null, Framed(text)[..i])
      ensures !Whole(text) && forall k :: 0 <= k <= |text| && i <= k + 1 ==> !Prefix(text, k)
    {
      hide Simulate, Reads, Converted, dfa.Cached, dfa.Stands, At;
      var word := Framed(text);
      AtNothing(word, i);
      forall k | 0 <= k <= |text| && i <= k + 1
        ensures !Prefix(text, k)
      {
        assert word[..k + 1][..i] == word[..i];
        AtNothing(word[..k + 1], i);
      }
    }

    /** `r` is the longest match within the first `n` characters. */
    ghost predicate Longest(text: seq<byte>, r: int, n: nat)
      requires n <= |text|
      reads this
    {
      && -1 <= r <= n && (r >= 0 ==> Prefix(text, r))
      && forall k :: r < k <= n && 0 <= k ==> !Prefix(text, k)
    }

    /** `LongestMatch`: -1 without a match; the end of the text counts for its whole length. */
    method LongestMatch(text: seq<byte>) returns (r: int)
      requires Valid()
      modifies Repr()
      ensures unchanged(this) && Valid() && (dfa == null ==> r == 0)
      ensures dfa != null ==> if Whole(text) then r == |text| else Longest(text, r, |text|)
    {
      hide Simulate, Reads, Machine.Cached, Machine.Stands, At, Valid, Repr, Framed, Longest, Whole;
      if dfa == null {
        return 0;
      }
      var d, accepted := TakeFirst(text);
      LongestStart(text);
      r := if accepted then 0 else -1;
      var i := 0;
      while i < |text| && d != null
        invariant unchanged(this) && Valid() && i <= |text| && Longest(text, r, i)
        invariant At(d, Framed(text)[..i + 1])
        invariant forall o :: o in Repr() ==> o in old(Repr()) || fresh(o)
      {
        FramedAt(text, i);
        LongestNext(text, r, i);
        d, accepted := Take(d, text, i + 1, text[i] as nat);
        i := i + 1;
        if accepted {
          r := i;
        }
      }
      if d == null {
        NoFurther(text, i + 1);
        LongestToEnd(text, r, i);
      } else {
        accepted := TakeLast(d, text);
        if accepted {
          r := |text|;
        }
      }
    }

    /** No match of at least one character ends within the first `n`. */
    ghost predicate NoneUpTo(text: seq<byte>, n: nat)
      requires n <= |text|
      reads this
    {
      forall k :: 1 <= k <= n ==> !Prefix(text, k)
    }

    /** `Match`: how far the first match reaches; 0 without one, and never 0 with one. */
    method Match(text: seq<byte>) returns (r: nat)
      requires Valid()
      modifies Repr()
      ensures unchanged(this) && Valid() && (dfa == null ==> r == 1)
      ensures dfa != null ==>
        || (1 <= r <= |text| && Prefix(text, r) && NoneUpTo(text, r - 1))
        || (r == (if text == [] then 1 else |text|) && Whole(text) && NoneUpTo(text, |text|))
        || (r == 0 && !Whole(text) && NoneUpTo(text, |text|))
    {
      hide Simulate, Reads, Machine.Cached, Machine.Stands, At, Valid, Repr, Framed, Whole;
      if dfa == null {
        return 1;
      }
      var d, accepted := TakeFirst(text);
      var i := 0;
      while i < |text| && d != null
        invariant unchanged(this) && Valid() && i <= |text| && NoneUpTo(text, i)
        invariant At(d, Framed(text)[..i + 1])
        invariant forall o :: o in Repr() ==> o in old(Repr()) || fresh(o)
      {
        FramedAt(text, i);
        d, accepted := Take(d, text, i + 1, text[i] as nat);
        i := i + 1;
        if accepted {
          return i;
        }
      }
      if d == null {
        NoFurther(text, i + 1);
        return 0;
      }
      accepted := TakeLast(d, text);
      r := if !accepted then 0 else if text == [] then 1 else |text|;
    }

    /** From the start over the beginning of the line. */
    method TakeFirst(text: seq<byte>) returns (d: DfaState?, accepted: bool)
      requires Valid() && dfa != null
      modifies Repr()
      ensures unchanged(this) && Valid() && At(d, Framed(text)[..1]) && (accepted <==> Prefix(text, 0))
      ensures forall o :: o in Repr() ==> o in old(Repr()) || fresh(o)
    {
      hide Simulate, Reads, dfa.Cached, dfa.Stands, At, Valid, Repr;
      AtStart();
      assert Framed(text)[..0] == [];
      d, accepted := Take(dfa.start, text, 0, SYM_BOL);
    }

    /** Over the end of the line. */
    method TakeLast(d: DfaState, text: seq<byte>) returns (accepted: bool)
      requires Valid() && dfa != null && At(d, Framed(text)[..|text| + 1])
      modifies Repr()
      ensures unchanged(this) && Valid() && (accepted <==> Whole(text))
    {
      hide Simulate, Reads, dfa.Cached, dfa.Stands, At, Valid, Repr;
      var _, last := Take(d, text, |text| + 1, SYM_EOL);
      accepted := last;
      assert Framed(text)[..|text| + 2] == Framed(text);
    }

    lemma LongestStart(text: seq<byte>)
      ensures Longest(text, if Prefix(text, 0) then 0 else -1, 0)
    {
    }

    lemma LongestNext(text: seq<byte>, r: int, i: nat)
      requires i < |text| && Longest(text, r, i)
      ensures Longest(text, if Prefix(text, i + 1) then i + 1 else r, i + 1)
    {
    }

    lemma LongestToEnd(text: seq<byte>, r: int, i: nat)
      requires i <= |text| && Longest(text, r, i) && forall k :: 0 <= k <= |text| && i <= k ==> !Prefix(text, k)
      ensures Longest(text, r, |text|)
    {
    }
  }

  lemma FramedAt(text: seq<byte>, i: nat)
    requires i < |text|
    ensures Framed(text)[i + 1] == text[i] as nat
  {
  }

  lemma ClassesBelow(p: EquivSpec.Partition, ecs: seq<nat>, rep: seq<nat>)
    requires EquivSpec.Numbered(p, ecs, rep) && 0 < |p|
    ensures |ecs| == |p| && 0 < EquivSpec.Blocks(p, |p|)
    ensures forall c :: 0 <= c < |p| ==> ecs[c] < EquivSpec.Blocks(p, |p|)
  {
    hide EquivSpec.Numbered, EquivSpec.Blocks;
    EquivSpec.NumberedSeqs(p, ecs, rep);
    forall c | 0 <= c < |p|
      ensures ecs[c] < EquivSpec.Blocks(p, |p|)
    {
      EquivSpec.ClassNumbers(p, ecs, rep, c, c);
    }
    assert ecs[0] < EquivSpec.Blocks(p, |p|);
  }

  lemma SameNext(chars: seq<State>, classes: seq<State>, ecs: seq<nat>)
    requires Converted(chars, classes, ecs) && WellFormed(chars)
    requires forall q :: 0 <= q < |classes| && classes[q].on.Class? ==> Increasing(classes[q].on.syms)
    ensures WellFormed(classes)
  {
    hide MovesOn;
    assert forall q :: 0 <= q < |chars| ==> Follows(chars[q], classes[q], ecs);
  }

  lemma SameAccepts(chars: seq<State>, classes: seq<State>, ecs: seq<nat>, s: set<nat>)
    requires Converted(chars, classes, ecs) && Within(chars, s)
    ensures Within(classes, s) && Accepts(classes, s) == Accepts(chars, s)
  {
    hide MovesOn;
    assert forall q :: q in s ==> Follows(chars[q], classes[q], ecs);
  }
}
