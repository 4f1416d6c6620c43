/** `EquivClass`: the partition of the symbols in two arrays, refined in place. */
module EquivClasses {
  import opened Nfa
  import opened EquivSpec

  class EquivClass {
    const size: nat
    const fwd: array<nat>
    const bck: array<nat>
    const flags: array<bool>
    const equivClass: array<nat>
    const rep: array<nat>
    var numEcs: nat

    ghost var p: Partition
    ghost var next: nat  // above the numbers of all blocks

    ghost predicate Shape()
      reads this
    {
      && 0 < size && fwd.Length == size && bck.Length == size && flags.Length == size
      && equivClass.Length == size && rep.Length == size && |p| == size
      && fwd != bck && fwd != equivClass && fwd != rep && bck != equivClass && bck != rep && equivClass != rep
      && Below(p, next)
    }

    ghost predicate Chained()
      reads this, fwd, bck
    {
      Shape() && Linked(fwd[..], bck[..], p)
    }

    ghost predicate Valid()
      reads this, fwd, bck, flags
    {
      Chained() && forall t :: 0 <= t < size ==> !flags[t]
    }

    constructor (size: nat)
      requires 0 < size
      ensures Valid() && this.size == size && numEcs == 0
      ensures fresh(fwd) && fresh(bck) && fresh(flags) && fresh(equivClass) && fresh(rep)
      ensures forall x :: 0 <= x < size ==> p[x] == 0
    {
      this.size := size;
      fwd := new nat[size](_ => Nil(size));
      bck := new nat[size](_ => Nil(size));
      flags := new bool[size](_ => false);
      equivClass := new nat[size](_ => Nil(size));
      rep := new nat[size](_ => Nil(size));
      numEcs := 0;
      p, next := seq(size, _ => 0), 1;
      new;
      LinkAll();
    }

    method LinkAll()
      requires Shape() && forall x :: 0 <= x < size ==> p[x] == 0
      modifies fwd, bck
      ensures Linked(fwd[..], bck[..], p)
    {
      hide Linked;
      bck[0] := Nil(size);
      fwd[size - 1] := Nil(size);
      for i := 1 to size
        invariant forall x :: 0 <= x < i - 1 ==> fwd[x] == x + 1
        invariant fwd[size - 1] == Nil(size)
        invariant forall x :: 1 <= x < i ==> bck[x] == x - 1
        invariant bck[0] == Nil(size)
      {
        fwd[i - 1] := i;
        bck[i] := i - 1;
      }
      OneBlock(fwd[..], bck[..], p);
    }

    /** Looks for `k` among the symbols from the `j`-th on. */
    method Find(csyms: seq<nat>, i: nat, j: nat, k: nat) returns (j': nat, found: bool)
      requires Shape() && Usable(csyms, size) && i < j <= |csyms| <= size && csyms[i] < k
      requires forall t :: i < t < j ==> csyms[t] < k
      requires forall t :: i < t < |csyms| && csyms[t] == k ==> !flags[t]
      ensures i < j' <= |csyms| && (forall t :: i < t < j' ==> csyms[t] < k)
      ensures found <==> j' < |csyms| && csyms[j'] == k
      ensures found <==> k in csyms
    {
      j', found := j, false;
      while j' < |csyms| && csyms[j'] <= k && !found
        invariant j <= j' <= |csyms| && (forall t :: i < t < j' ==> csyms[t] < k)
        invariant found ==> j' < |csyms| && csyms[j'] == k
        decreases |csyms| - j', !found
      {
        if csyms[j'] == k && !flags[j'] {
          found := true;
        } else {
          j' := j' + 1;
        }
      }
      if k in csyms {
        var t :| 0 <= t < |csyms| && csyms[t] == k;
      }
    }

    /** The block of the `i`-th symbol is split along the character class. */
    method SplitBlock(csyms: seq<nat>, i: nat)
      requires Chained() && Usable(csyms, size) && i < |csyms| <= size
      requires ToSplit(flags[..], p, csyms, i)
      modifies fwd, bck, flags, this`p, this`next
      ensures Chained() && next == old(next) + 1
      ensures p == Split(old(p), old(p[csyms[i]]), Elems(csyms), old(next))
      ensures Flagged(old(flags[..]), flags[..], old(p), csyms, i, size)
    {
      hide Linked, Split, Elems, Flagged, ToSplit, Increasing, Below;
      ghost var w := Walk(fwd[..], bck[..], p, csyms[i], Elems(csyms), next);
      hide w.Ok, w.At;
      WalkOk(w, flags[..], csyms, i);
      SplitBelow(p, p[csyms[i]], Elems(csyms), next);
      ghost var q := Split(p, p[csyms[i]], Elems(csyms), next);
      assert q == w.Q();
      hide w.Q;
      var newEc, oldEc := WalkOn(w, csyms, i);
      CloseEnds(w, csyms[i], newEc, oldEc);
      p, next := q, next + 1;
      assert Shape() && Linked(fwd[..], bck[..], p);
    }

    /** Follows the block from the `i`-th symbol on, taking it apart. */
    method WalkOn(ghost w: Walk, csyms: seq<nat>, i: nat) returns (newEc: nat, oldEc: nat)
      requires Shape() && Usable(csyms, size) && i < |csyms| <= size
      requires w.Ok() && w == Walk(fwd[..], bck[..], p, csyms[i], Elems(csyms), next)
      requires ToSplit(flags[..], p, csyms, i)
      modifies fwd, bck, flags
      ensures w.At(fwd[..], bck[..], size, newEc, oldEc)
      ensures Flagged(old(flags[..]), flags[..], p, csyms, i, size)
    {
      hide Linked, Split, Increasing, Flagged, ToSplit, w.At, w.Ok, w.Q;
      var sym := csyms[i];
      oldEc, newEc := bck[sym], sym;
      var j: nat, k: nat := i + 1, fwd[sym];
      w.Start();
      w.NextMember(sym);
      FlagStart(flags[..], p, csyms, i, k);
      while k != 0 && k < size
        invariant w.At(fwd[..], bck[..], w.Edge(k), newEc, oldEc)
        invariant k == Nil(size) || (sym < k < size && p[k] == p[sym])
        invariant i < j <= |csyms| && forall t :: i < t < j ==> csyms[t] < k
        invariant Flagged(old(flags[..]), flags[..], p, csyms, i, k)
        decreases size - w.Edge(k)
      {
        var found;
        NotFlagged(old(flags[..]), flags[..], p, csyms, i, k);
        j, found := Find(csyms, i, j, k);
        w.NextMember(k);
        FlagNext(old(flags[..]), flags[..], p, csyms, i, k, w.fwd[k], j, found);
        newEc, oldEc := LinkIn(w, k, newEc, oldEc, found);
        if found {
          flags[j] := true;
        }
        k := fwd[k];
      }
      AllFlagged(old(flags[..]), flags[..], p, csyms, i, k);
    }

    /** Puts `k` behind the end of the new block or of what is left of the old one. */
    method LinkIn(ghost w: Walk, k: nat, newEc: nat, oldEc: nat, found: bool) returns (newEc': nat, oldEc': nat)
      requires Shape() && w.Ok() && w.p == p && k < size && p[k] == p[w.sym] && (found <==> k in w.s)
      requires w.At(fwd[..], bck[..], k, newEc, oldEc)
      modifies fwd, bck
      ensures fwd[k] == w.fwd[k] && w.At(fwd[..], bck[..], w.Edge(w.fwd[k]), newEc', oldEc')
    {
      hide w.At, w.Ok, w.Q, Linked;
      ghost var (f, b) := (fwd[..], bck[..]);
      w.Next(f, b, k, newEc, oldEc);
      w.EndsBelow(f, b, k, newEc, oldEc);
      newEc', oldEc' := newEc, oldEc;
      if found {
        bck[k] := newEc;
        fwd[newEc] := k;
        newEc' := k;
        assert fwd[..] == f[newEc := k] && bck[..] == b[k := newEc];
      } else {
        bck[k] := oldEc;
        if oldEc != Nil(size) {
          fwd[oldEc] := k;
        }
        oldEc' := k;
        assert fwd[..] == (if oldEc < size then f[oldEc := k] else f) && bck[..] == b[k := oldEc];
      }
    }

    method CloseEnds(ghost w: Walk, sym: nat, newEc: nat, oldEc: nat)
      requires Shape() && w.Ok() && w.p == p && w.sym == sym && w.At(fwd[..], bck[..], size, newEc, oldEc)
      modifies fwd, bck
      ensures Linked(fwd[..], bck[..], w.Q())
    {
      hide Linked, IsFirst, IsLast, w.Q;
      w.Finish(fwd[..], bck[..], newEc, oldEc);
      w.OldPart(oldEc);
      ghost var bck' := bck[..][sym := Nil(size)];
      if bck[sym] != Nil(size) || oldEc != bck[sym] {
        bck[sym] := Nil(size);
        fwd[oldEc] := Nil(size);
      }
      fwd[newEc] := Nil(size);
      assert bck[..] == bck';
    }

    method UniqueChar(sym: nat)
      requires Valid() && sym < size
      modifies fwd, bck, this`p, this`next
      ensures Valid() && Refines(p, old(p), {sym})
    {
      hide Linked, Refines, Split, Below;
      NeighboursWithin(fwd[..], bck[..], p, sym);
      Unlinked(fwd[..], bck[..], p, sym, next);
      SplitBelow(p, p[sym], {sym}, next);
      if fwd[sym] != Nil(size) {
        bck[fwd[sym]] := bck[sym];
      }
      if bck[sym] != Nil(size) {
        fwd[bck[sym]] := fwd[sym];
      }
      fwd[sym] := Nil(size);
      bck[sym] := Nil(size);
      p, next := Without(p, sym, next), next + 1;
    }

    method SplitNext(ghost p0: Partition, csyms: seq<nat>, i: nat)
      requires Chained() && |p0| == size && Usable(csyms, size) && i < |csyms| <= size
      requires Refines(p, p0, Done(p0, csyms, i)) && Marked(flags[..], p0, csyms, i)
      requires !Touched(p0, csyms, i, csyms[i])
      modifies fwd, bck, flags, this`p, this`next
      ensures Chained() && Refines(p, p0, Done(p0, csyms, i + 1)) && Marked(flags[..], p0, csyms, i + 1)
    {
      hide Linked, Refines, Split, Touched, Done, Elems, Flagged, Increasing, ToSplit, Marked;
      ReadyToSplit(flags[..], p0, p, csyms, i);
      OneMoreBlock(p0, p, Split(p, p[csyms[i]], Elems(csyms), next), csyms, i, next);
      SplitBlock(csyms, i);
      MarkedNext(old(flags[..]), flags[..], p0, old(p), csyms, i);
    }

    /** `CCL_Use`: afterwards just those symbols are told apart that were before or of which only
        one is in the class. */
    method CclUse(csyms: seq<nat>)
      requires Valid() && Usable(csyms, size)
      modifies fwd, bck, flags, this`p, this`next
      ensures Valid() && Refines(p, old(p), Elems(csyms))
    {
      hide Linked, Refines, Touched, Done, Elems, Usable;
      ghost var p0 := p;
      var i := 0;
      FewSymbols(csyms, size, |csyms|);
      DoneStart(p0, csyms);
      NothingTouched(p0, csyms);
      while i < |csyms|
        invariant i <= |csyms| && Chained() && Refines(p, p0, Done(p0, csyms, i)) && Marked(flags[..], p0, csyms, i)
        invariant i < |csyms| ==> !flags[i]
      {
        SplitNext(p0, csyms, i);
        i := i + 1;
        while i < |csyms| && flags[i]
          invariant i <= |csyms| && Refines(p, p0, Done(p0, csyms, i)) && Marked(flags[..], p0, csyms, i)
          modifies flags
        {
          DoneSkip(p0, p, csyms, i);
          MarkedSkip(flags[..], p0, csyms, i);
          flags[i] := false;
          i := i + 1;
        }
      }
      DoneAll(p0, csyms);
    }

    /** `BuildECs`: representatives are the least members of their blocks, and the blocks are
        numbered in the order of their representatives. */
    method BuildEcs() returns (n: nat)
      requires Valid() && numEcs == 0
      modifies this`numEcs, equivClass, rep
      ensures Valid() && n == numEcs == Blocks(p, size) && Numbered(p, equivClass[..], rep[..])
    {
      NothingSeen(p, equivClass[..], rep[..]);
      hide Linked, Blocks, Leads, NumberedAt, NumberedBelow;
      for i := 0 to size
        invariant Valid() && numEcs == Blocks(p, i) && NumberedBelow(p, equivClass[..], rep[..], i)
      {
        LeadsIff(fwd[..], bck[..], p, i);
        ghost var (classes, reps) := (equivClass[..], rep[..]);
        if bck[i] == Nil(size) {
          NumberBlock(i);
        }
        BelowNext(p, classes, reps, equivClass[..], rep[..], i);
      }
      AllSeen(p, equivClass[..], rep[..]);
      n := numEcs;
    }

    method NumberBlock(i: nat)
      requires Valid() && i < size && Leads(p, i) && numEcs == Blocks(p, i)
      modifies this`numEcs, equivClass, rep
      ensures Valid() && numEcs == old(numEcs) + 1
      ensures forall x :: 0 <= x < size && p[x] == p[i] ==> NumberedAt(p, equivClass[x], rep[x], x)
      ensures forall x :: 0 <= x < size && p[x] != p[i] ==> equivClass[x] == old(equivClass[x]) && rep[x] == old(rep[x])
    {
      hide Linked, Blocks, Leads;
      equivClass[i] := numEcs;
      numEcs := numEcs + 1;
      rep[i] := i;
      NextInBlock(fwd[..], bck[..], p, i);
      var j: nat := fwd[i];
      while j != Nil(size)
        invariant j == Nil(size) || (i < j < size && p[j] == p[i])
        invariant forall x :: i <= x < size && x < j && p[x] == p[i] ==> equivClass[x] == equivClass[i] && rep[x] == i
        invariant forall x :: 0 <= x < size && p[x] != p[i] ==>
          equivClass[x] == old(equivClass[x]) && rep[x] == old(rep[x])
        invariant equivClass[i] == Blocks(p, i)
        decreases size + 1 - j
        modifies equivClass, rep
      {
        NextInBlock(fwd[..], bck[..], p, j);
        equivClass[j] := equivClass[i];
        rep[j] := i;
        j := fwd[j];
      }
      NoneBelow(p, i);
    }

    /** `ConvertCCL`: the class in terms of the numbers of the blocks. */
    method ConvertCcl(csyms: seq<nat>) returns (syms: seq<nat>)
      requires Valid() && Usable(csyms, size) && Numbered(p, equivClass[..], rep[..])
      ensures Increasing(syms) && forall k :: 0 <= k < |syms| ==> syms[k] < Blocks(p, size)
      ensures Closed(p, csyms) <==> forall x :: 0 <= x < size ==> (x in csyms <==> equivClass[x] in syms)
    {
      hide Linked, Numbered;
      syms := [];
      for i := 0 to |csyms|
        invariant Increasing(syms) && forall k :: 0 <= k < |syms| ==> syms[k] < Blocks(p, size)
        invariant forall e :: e in syms <==>
          exists t :: 0 <= t < i && rep[csyms[t]] == csyms[t] && equivClass[csyms[t]] == e
      {
        if rep[csyms[i]] == csyms[i] {
          ClassNumbers(p, equivClass[..], rep[..], csyms[i], csyms[i]);
          forall k | 0 <= k < |syms|
            ensures syms[k] < equivClass[csyms[i]]
          {
            assert syms[k] in syms;
            var t :| 0 <= t < i && rep[csyms[t]] == csyms[t] && equivClass[csyms[t]] == syms[k];
            ClassNumbers(p, equivClass[..], rep[..], csyms[t], csyms[i]);
          }
          syms := syms + [equivClass[csyms[i]]];
        }
      }
      ConvertedMeans(p, equivClass[..], rep[..], csyms, syms);
    }
  }
}
