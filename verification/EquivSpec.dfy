/** Partitions of the symbols, kept as doubly linked chains in two arrays: what splitting a block
    along a character class and taking a symbol out do to the links, and how the blocks are
    numbered. */
module EquivSpec {
  import opened Nfa

  /** No member: `ec_nil`. */
  function Nil(n: nat): nat { n + 1 }

  /** A partition gives every symbol the number of its block. */
  type Partition = seq<nat>

  /** `r` is the last member of a block below `k`. */
  ghost predicate IsLast(p: Partition, id: nat, k: nat, r: nat) {
    && k <= |p| && (r == Nil(|p|) || (r < k && p[r] == id))
    && forall x :: 0 <= x < k && (r == Nil(|p|) || r < x) ==> p[x] != id
  }

  /** `r` is the first member of a block from `k` on. */
  ghost predicate IsFirst(p: Partition, id: nat, k: nat, r: nat) {
    && k <= |p| && (r == Nil(|p|) || (k <= r < |p| && p[r] == id))
    && forall x :: k <= x < |p| && x < r ==> p[x] != id
  }

  /** The arrays link every symbol to its neighbours in its block. */
  ghost predicate Linked(fwd: seq<nat>, bck: seq<nat>, p: Partition) {
    && |fwd| == |p| && |bck| == |p|
    && (forall x :: 0 <= x < |p| ==> IsFirst(p, p[x], x + 1, fwd[x]))
    && (forall x :: 0 <= x < |p| ==> IsLast(p, p[x], x, bck[x]))
  }

  lemma LinkedIs(fwd: seq<nat>, bck: seq<nat>, p: Partition)
    requires |fwd| == |p| && |bck| == |p|
    requires forall x :: 0 <= x < |p| ==> IsFirst(p, p[x], x + 1, fwd[x])
    requires forall x :: 0 <= x < |p| ==> IsLast(p, p[x], x, bck[x])
    ensures Linked(fwd, bck, p)
  {
    hide IsFirst, IsLast;
  }

  /** All symbols in one block, each linked to the next. */
  lemma OneBlock(fwd: seq<nat>, bck: seq<nat>, p: Partition)
    requires 0 < |p| == |fwd| == |bck| && forall x :: 0 <= x < |p| ==> p[x] == 0
    requires forall x :: 0 <= x < |p| - 1 ==> fwd[x] == x + 1
    requires forall x :: 1 <= x < |p| ==> bck[x] == x - 1
    requires fwd[|p| - 1] == Nil(|p|) && bck[0] == Nil(|p|)
    ensures Linked(fwd, bck, p)
  {
  }

  // ---- Neighbours ----

  lemma ExtendLast(q: Partition, id: nat, k: nat, k': nat, r: nat)
    requires IsLast(q, id, k, r) && k < k' <= |q| && forall x :: k < x < k' ==> q[x] != id
    ensures IsLast(q, id, k', if q[k] == id then k else r)
  {
  }

  lemma FirstAfterLast(q: Partition, id: nat, k: nat, e: nat)
    requires IsLast(q, id, k, e) && e < |q| && k < |q| && q[k] == id
    ensures e < k && q[e] == id && IsFirst(q, id, e + 1, k)
  {
  }

  lemma NoneAfterLast(q: Partition, id: nat, e: nat)
    requires IsLast(q, id, |q|, e) && e < |q|
    ensures q[e] == id && IsFirst(q, id, e + 1, Nil(|q|))
  {
  }

  lemma SameLast(p: Partition, q: Partition, id: nat, k: nat, r: nat)
    requires IsLast(p, id, k, r) && |p| == |q| && forall x :: 0 <= x < k ==> (p[x] == id <==> q[x] == id)
    ensures IsLast(q, id, k, r)
  {
  }

  lemma SameFirst(p: Partition, q: Partition, id: nat, k: nat, r: nat)
    requires IsFirst(p, id, k, r) && |p| == |q| && forall x :: k <= x < |p| && x <= r ==> (p[x] == id <==> q[x] == id)
    ensures IsFirst(q, id, k, r)
  {
  }

  /** A member below another one that is not next to it has its successor below it too. */
  lemma FirstBelow(p: Partition, id: nat, x: nat, f: nat, k: nat, b: nat)
    requires IsFirst(p, id, x + 1, f) && IsLast(p, id, k, b) && x < k && p[x] == id && x != b
    ensures x < f <= b < k
  {
  }

  lemma LinkedAt(fwd: seq<nat>, bck: seq<nat>, p: Partition, x: nat)
    requires Linked(fwd, bck, p) && x < |p|
    ensures |fwd| == |p| && |bck| == |p| && IsFirst(p, p[x], x + 1, fwd[x]) && IsLast(p, p[x], x, bck[x])
  {
    hide IsFirst, IsLast;
  }

  /** Two symbols are told apart by `q` if they are by `p` or if just one of them is in `s`. */
  ghost predicate Refines(q: Partition, p: Partition, s: set<nat>) {
    && |q| == |p|
    && forall x, y :: 0 <= x < |p| && 0 <= y < |p| ==> (q[x] == q[y] <==> p[x] == p[y] && (x in s <==> y in s))
  }

  // ---- Splitting one block ----

  /** The members of block `c` that are in `s` become block `id`. */
  function Split(p: Partition, c: nat, s: set<nat>, id: nat): (q: Partition)
    ensures |q| == |p| && forall x :: 0 <= x < |p| ==> q[x] == if p[x] == c && x in s then id else p[x]
  {
    seq(|p|, x requires 0 <= x < |p| => if p[x] == c && x in s then id else p[x])
  }

  /** The blocks have numbers below `id`. */
  ghost predicate Below(p: Partition, id: nat) {
    forall x :: 0 <= x < |p| ==> p[x] < id
  }

  lemma SplitBelow(p: Partition, c: nat, s: set<nat>, id: nat)
    requires Below(p, id)
    ensures |Split(p, c, s, id)| == |p| && Below(Split(p, c, s, id), id + 1)
  {
  }

  // ---- The walk along a block that is being split ----

  /** The arrays and the partition at the start, the symbol the walk starts at, and the partition
      that is being made: the members of its block that are in `s` become block `id`. */
  datatype Walk = Walk(fwd: seq<nat>, bck: seq<nat>, p: Partition, sym: nat, s: set<nat>, id: nat) {
    ghost predicate Ok() {
      && Linked(fwd, bck, p) && |fwd| == |p| && |bck| == |p| && sym < |p| && sym in s
      && Below(p, id)
      && (forall x :: 0 <= x < sym && p[x] == p[sym] ==> x !in s)
    }

    ghost function Q(): Partition
      requires sym < |p|
    {
      Split(p, p[sym], s, id)
    }

    function Edge(k: nat): nat { if k < |p| then k else |p| }

    /** Below `edge` the block is split; the two ends are still open. */
    ghost predicate At(fwd': seq<nat>, bck': seq<nat>, edge: nat, newEc: nat, oldEc: nat)
      requires Ok()
    {
      var q, c := Q(), p[sym];
      && |fwd'| == |p| && |bck'| == |p| && sym < edge <= |p|
      && (forall x :: 0 <= x < |p| && (p[x] != c || x >= edge) ==> fwd'[x] == fwd[x] && bck'[x] == bck[x])
      && (forall x :: 0 <= x < edge && p[x] == c && x != sym ==> IsLast(q, q[x], x, bck'[x]))
      && bck'[sym] == bck[sym]
      && (forall x :: 0 <= x < edge && p[x] == c && x != newEc && x != oldEc ==> IsFirst(q, q[x], x + 1, fwd'[x]))
      && IsLast(q, id, edge, newEc) && IsLast(q, c, edge, oldEc)
    }

    /** Nothing of the block lies between a member and the next one. */
    lemma NoneBetween(k: nat, x: nat)
      requires Ok() && k < |p| && p[k] == p[sym] && k < x < Edge(fwd[k])
      ensures p[x] != p[sym] && Q()[x] == p[x] < id
    {
      LinkedAt(fwd, bck, p, k);
      hide Linked, IsLast, Split;
    }

    lemma EdgeAbove(k: nat)
      requires Ok() && k < |p|
      ensures k < Edge(fwd[k]) <= |p|
    {
      LinkedAt(fwd, bck, p, k);
      hide Linked, IsLast;
    }

    /** Below the symbol nothing changes. */
    lemma SameBelow(x: nat)
      requires Ok() && x < sym
      ensures Q()[x] == p[x] < id
    {
      hide Linked, Split;
    }

    lemma StartEnds()
      requires Ok()
      ensures sym < Edge(fwd[sym]) && IsLast(Q(), id, Edge(fwd[sym]), sym)
      ensures IsLast(Q(), p[sym], Edge(fwd[sym]), bck[sym])
    {
      LinkedAt(fwd, bck, p, sym);
      hide Linked, Split, IsFirst, IsLast;
      var q, c, k := Q(), p[sym], Edge(fwd[sym]);
      EdgeAbove(sym);
      forall x | 0 <= x < sym ensures q[x] == p[x] < id { SameBelow(x); }
      forall x | sym < x < k ensures q[x] != c && q[x] != id { NoneBetween(sym, x); }
      SameLast(p, q, c, sym, bck[sym]);
      NoneYet();
      ExtendLast(q, c, sym, k, bck[sym]);
      ExtendLast(q, id, sym, k, Nil(|p|));
    }

    lemma NoneYet()
      requires Ok()
      ensures IsLast(Q(), id, sym, Nil(|p|))
    {
      hide Linked, Split;
    }

    lemma StartLinks(x: nat)
      requires Ok() && x < sym && p[x] == p[sym]
      ensures IsLast(Q(), p[sym], x, bck[x])
      ensures x != bck[sym] ==> IsFirst(Q(), p[sym], x + 1, fwd[x])
    {
      LinkedAt(fwd, bck, p, sym);
      LinkedAt(fwd, bck, p, x);
      hide Linked, Split, IsFirst, IsLast;
      forall y | 0 <= y < sym ensures Q()[y] == p[y] { SameBelow(y); }
      SameLast(p, Q(), p[sym], x, bck[x]);
      if x != bck[sym] {
        FirstBelow(p, p[sym], x, fwd[x], sym, bck[sym]);
        SameFirst(p, Q(), p[sym], x + 1, fwd[x]);
      }
    }

    lemma Start()
      requires Ok()
      ensures At(fwd, bck, Edge(fwd[sym]), sym, bck[sym])
    {
      hide IsFirst, IsLast, Linked, Split;
      StartEnds();
      forall x | 0 <= x < Edge(fwd[sym]) && p[x] == p[sym] && x != sym
        ensures IsLast(Q(), Q()[x], x, bck[x]) && (x != bck[sym] ==> IsFirst(Q(), Q()[x], x + 1, fwd[x]))
      {
        if sym < x { NoneBetween(sym, x); }
        SameBelow(x);
        StartLinks(x);
      }
    }

    /** The end of the part of the block that `k` goes to. */
    function End(k: nat, newEc: nat, oldEc: nat): nat {
      if k in s then newEc else oldEc
    }

    lemma NextEnds(k: nat, newEc: nat, oldEc: nat)
      requires Ok() && k < |p| && p[k] == p[sym] && IsLast(Q(), id, k, newEc) && IsLast(Q(), p[sym], k, oldEc)
      ensures var q, c, k' := Q(), p[sym], Edge(fwd[k]);
        k < k' && IsLast(q, id, k', if k in s then k else newEc) && IsLast(q, c, k', if k in s then oldEc else k)
    {
      hide Linked, Split, IsFirst, IsLast;
      var q, c, k' := Q(), p[sym], Edge(fwd[k]);
      EdgeAbove(k);
      forall x | k < x < k' ensures q[x] != c && q[x] != id { NoneBetween(k, x); }
      ExtendLast(q, id, k, k', newEc);
      ExtendLast(q, c, k, k', oldEc);
    }

    /** Linking `k` behind the end of its part. */
    lemma Next(fwd': seq<nat>, bck': seq<nat>, k: nat, newEc: nat, oldEc: nat)
      requires Ok() && k < |p| && p[k] == p[sym] && At(fwd', bck', k, newEc, oldEc)
      ensures var e := End(k, newEc, oldEc);
        At(if e < |p| then fwd'[e := k] else fwd', bck'[k := e], Edge(fwd[k]),
          if k in s then k else newEc, if k in s then oldEc else k)
    {
      hide IsFirst, IsLast, Linked, Split;
      var q, c, k', e := Q(), p[sym], Edge(fwd[k]), End(k, newEc, oldEc);
      NextEnds(k, newEc, oldEc);
      if e < |p| { FirstAfterLast(q, q[k], k, e); }
      forall x | k < x < k' ensures p[x] != c { NoneBetween(k, x); }
    }

    /** There is a last member in the new part: the symbol itself is in it. */
    lemma EndsThere(newEc: nat, oldEc: nat)
      requires Ok() && IsLast(Q(), id, |p|, newEc) && IsLast(Q(), p[sym], |p|, oldEc)
      ensures newEc < |p| && Q()[newEc] == id && (oldEc < |p| ==> Q()[oldEc] == p[sym])
    {
      hide Linked, IsFirst, Split;
      assert Q()[sym] == id;
    }

    lemma OtherBlock(x: nat)
      requires Ok() && x < |p| && p[x] != p[sym]
      ensures Q()[x] == p[x] && IsFirst(Q(), p[x], x + 1, fwd[x]) && IsLast(Q(), p[x], x, bck[x])
    {
      LinkedAt(fwd, bck, p, x);
      hide Linked, IsFirst, IsLast, Split;
      SameFirst(p, Q(), p[x], x + 1, fwd[x]);
      SameLast(p, Q(), p[x], x, bck[x]);
    }

    /** Closing both ends. */
    lemma Finish(fwd': seq<nat>, bck': seq<nat>, newEc: nat, oldEc: nat)
      requires Ok() && At(fwd', bck', |p|, newEc, oldEc)
      ensures newEc < |p| && Linked(Closed(fwd', newEc, oldEc), bck'[sym := Nil(|p|)], Q())
    {
      hide IsFirst, IsLast, Split;
      hide Linked;
      EndsThere(newEc, oldEc);
      var q, c, f := Q(), p[sym], Closed(fwd', newEc, oldEc);
      NoneYet();
      NoneAfterLast(q, id, newEc);
      if oldEc < |p| { NoneAfterLast(q, c, oldEc); }
      forall x | 0 <= x < |p| && p[x] != c
        ensures q[x] == p[x] && IsFirst(q, p[x], x + 1, fwd[x]) && IsLast(q, p[x], x, bck[x])
      {
        OtherBlock(x);
      }
      assert forall x :: 0 <= x < |p| ==> IsFirst(q, q[x], x + 1, f[x]);
      assert forall x :: 0 <= x < |p| ==> IsLast(q, q[x], x, bck'[sym := Nil(|p|)][x]);
      LinkedIs(f, bck'[sym := Nil(|p|)], q);
    }

    /** When both ends may be left alone. */
    lemma OldPart(oldEc: nat)
      requires Ok() && IsLast(Q(), p[sym], |p|, oldEc)
      ensures oldEc < |p| || oldEc == bck[sym] == Nil(|p|)
    {
      LinkedAt(fwd, bck, p, sym);
      hide Linked, IsFirst, Split;
      if bck[sym] < sym { SameBelow(bck[sym]); }
    }

    /** The open ends lie below `k`, whose own links have not been touched. */
    lemma EndsBelow(fwd': seq<nat>, bck': seq<nat>, k: nat, newEc: nat, oldEc: nat)
      requires Ok() && k < |p| && At(fwd', bck', k, newEc, oldEc)
      ensures sym < k && fwd'[k] == fwd[k] && newEc < k && (oldEc < k || oldEc == Nil(|p|))
    {
      hide Linked, Split, IsFirst;
      assert Q()[sym] == id;
    }

    lemma NextMember(k: nat)
      requires Ok() && k < |p| && p[k] == p[sym]
      ensures fwd[k] == Nil(|p|) || (k < fwd[k] < |p| && p[fwd[k]] == p[sym])
      ensures forall x :: k < x < |p| && x < fwd[k] ==> p[x] != p[sym]
    {
      hide Linked, Split;
      NextInBlock(fwd, bck, p, k);
    }

    function Closed(fwd': seq<nat>, newEc: nat, oldEc: nat): seq<nat>
      requires |fwd'| == |p| && newEc < |p|
    {
      (if oldEc < |p| then fwd'[oldEc := Nil(|p|)] else fwd')[newEc := Nil(|p|)]
    }
  }

  // ---- Taking out one symbol ----

  ghost function Without(p: Partition, sym: nat, id: nat): Partition
    requires sym < |p|
  {
    Split(p, p[sym], {sym}, id)
  }

  /** Neighbours are each other's neighbours. */
  lemma Neighbours(p: Partition, c: nat, x: nat, f: nat, y: nat, b: nat)
    requires x < |p| && y < |p| && p[x] == c && p[y] == c && IsFirst(p, c, x + 1, f) && IsLast(p, c, y, b)
    ensures f == y <==> b == x
  {
  }

  lemma PassOverForward(p: Partition, q: Partition, sym: nat, x: nat, f: nat, f': nat)
    requires x < |p| && sym < |p| && |q| == |p| && p[x] == p[sym] && x != sym
    requires forall y :: 0 <= y < |p| ==> (q[y] == p[sym] <==> p[y] == p[sym] && y != sym)
    requires IsFirst(p, p[sym], x + 1, f) && IsFirst(p, p[sym], sym + 1, f')
    ensures IsFirst(q, p[sym], x + 1, if f == sym then f' else f)
  {
  }

  lemma PassOverBack(p: Partition, q: Partition, sym: nat, x: nat, b: nat, b': nat)
    requires x < |p| && sym < |p| && |q| == |p| && p[x] == p[sym] && x != sym
    requires forall y :: 0 <= y < |p| ==> (q[y] == p[sym] <==> p[y] == p[sym] && y != sym)
    requires IsLast(p, p[sym], x, b) && IsLast(p, p[sym], sym, b')
    ensures IsLast(q, p[sym], x, if b == sym then b' else b)
  {
  }

  /** One array after `sym` has been unlinked, the other one telling where it was linked from. */
  function Unlink(links: seq<nat>, back: seq<nat>, sym: nat): seq<nat>
    requires sym < |links| == |back|
  {
    (if back[sym] < |links| then links[back[sym] := links[sym]] else links)[sym := Nil(|links|)]
  }

  lemma UnlinkedAt(fwd: seq<nat>, bck: seq<nat>, p: Partition, sym: nat, id: nat, x: nat)
    requires Linked(fwd, bck, p) && |fwd| == |p| && |bck| == |p| && sym < |p| && x < |p|
    requires Below(p, id)
    ensures var q := Without(p, sym, id);
      && IsFirst(q, q[x], x + 1, Unlink(fwd, bck, sym)[x])
      && IsLast(q, q[x], x, Unlink(bck, fwd, sym)[x])
  {
    hide Linked, Split, IsFirst, IsLast;
    var q := Without(p, sym, id);
    LinkedAt(fwd, bck, p, x);
    LinkedAt(fwd, bck, p, sym);
    if x == sym {
      Alone(p, sym, id);
    } else if p[x] != p[sym] {
      InBlocks(p, sym, x, fwd[sym], bck[sym]);
      SameFirst(p, q, p[x], x + 1, fwd[x]);
      SameLast(p, q, p[x], x, bck[x]);
    } else {
      Neighbours(p, p[sym], x, fwd[x], sym, bck[sym]);
      Neighbours(p, p[sym], sym, fwd[sym], x, bck[x]);
      PassOverForward(p, q, sym, x, fwd[x], fwd[sym]);
      PassOverBack(p, q, sym, x, bck[x], bck[sym]);
      LinksWithin(p, sym, fwd[sym], bck[sym]);
    }
  }

  lemma Alone(p: Partition, sym: nat, id: nat)
    requires sym < |p| && Below(p, id)
    ensures var q := Without(p, sym, id);
      q[sym] == id && IsFirst(q, id, sym + 1, Nil(|p|)) && IsLast(q, id, sym, Nil(|p|))
  {
    hide Split;
  }

  lemma LinksWithin(p: Partition, sym: nat, f: nat, b: nat)
    requires sym < |p| && IsFirst(p, p[sym], sym + 1, f) && IsLast(p, p[sym], sym, b)
    ensures (f == Nil(|p|) || sym < f < |p|) && (b == Nil(|p|) || b < sym)
  {
  }

  lemma InBlocks(p: Partition, sym: nat, x: nat, f: nat, b: nat)
    requires sym < |p| && x < |p| && p[x] != p[sym] && IsFirst(p, p[sym], sym + 1, f) && IsLast(p, p[sym], sym, b)
    ensures f != x && b != x
  {
  }

  lemma Unlinked(fwd: seq<nat>, bck: seq<nat>, p: Partition, sym: nat, id: nat)
    requires Linked(fwd, bck, p) && |fwd| == |p| && |bck| == |p| && sym < |p| && Below(p, id)
    ensures Linked(Unlink(fwd, bck, sym), Unlink(bck, fwd, sym), Without(p, sym, id))
    ensures Refines(Without(p, sym, id), p, {sym})
  {
    hide IsFirst, IsLast, Split;
    var q := Without(p, sym, id);
    forall x | 0 <= x < |p|
      ensures IsFirst(q, q[x], x + 1, Unlink(fwd, bck, sym)[x]) && IsLast(q, q[x], x, Unlink(bck, fwd, sym)[x])
    {
      UnlinkedAt(fwd, bck, p, sym, id, x);
    }
  }

  /** Neighbours lie within the symbols. */
  lemma NeighboursWithin(fwd: seq<nat>, bck: seq<nat>, p: Partition, sym: nat)
    requires Linked(fwd, bck, p) && sym < |p|
    ensures |fwd| == |p| && |bck| == |p|
    ensures fwd[sym] == Nil(|p|) || sym < fwd[sym] < |p|
    ensures bck[sym] == Nil(|p|) || bck[sym] < sym
  {
    hide Linked, IsFirst, IsLast;
    LinkedAt(fwd, bck, p, sym);
    LinksWithin(p, sym, fwd[sym], bck[sym]);
  }

  // ---- Refining by a whole class ----

  /** A character class: sorted symbols. */
  predicate Usable(csyms: seq<nat>, size: nat) {
    Increasing(csyms) && forall t :: 0 <= t < |csyms| ==> csyms[t] < size
  }

  /** One of the first `i` symbols is in the block of `x`. */
  ghost predicate Touched(p: Partition, csyms: seq<nat>, i: nat, x: nat)
    requires i <= |csyms| && Usable(csyms, |p|) && x < |p|
  {
    exists t :: 0 <= t < i && p[csyms[t]] == p[x]
  }

  ghost function Done(p: Partition, csyms: seq<nat>, i: nat): set<nat>
    requires i <= |csyms| && Usable(csyms, |p|)
  {
    set x | x in csyms && x < |p| && Touched(p, csyms, i, x)
  }

  lemma TouchedNext(p: Partition, csyms: seq<nat>, i: nat, x: nat)
    requires i < |csyms| && Usable(csyms, |p|) && x < |p|
    ensures Touched(p, csyms, i + 1, x) <==> Touched(p, csyms, i, x) || p[x] == p[csyms[i]]
  {
    hide Increasing;
    if p[x] == p[csyms[i]] {
      assert Touched(p, csyms, i + 1, x);
    } else if Touched(p, csyms, i, x) {
      var t :| 0 <= t < i && p[csyms[t]] == p[x];
      assert Touched(p, csyms, i + 1, x);
    }
  }

  /** A symbol whose block has been touched adds nothing. */
  lemma TouchedSkip(p: Partition, csyms: seq<nat>, i: nat, x: nat)
    requires i < |csyms| && Usable(csyms, |p|) && x < |p| && Touched(p, csyms, i, csyms[i])
    ensures Touched(p, csyms, i + 1, x) <==> Touched(p, csyms, i, x)
  {
    hide Increasing;
    TouchedNext(p, csyms, i, x);
    if p[x] == p[csyms[i]] {
      var t :| 0 <= t < i && p[csyms[t]] == p[csyms[i]];
      assert Touched(p, csyms, i, x);
    }
  }

  lemma TouchedAlike(p: Partition, csyms: seq<nat>, i: nat, x: nat, y: nat)
    requires i <= |csyms| && Usable(csyms, |p|) && x < |p| && y < |p| && p[x] == p[y]
    ensures Touched(p, csyms, i, x) <==> Touched(p, csyms, i, y)
  {
  }

  /** The block of the next symbol is still whole, and none of its members before that symbol is
      in the class. */
  lemma StillWhole(p0: Partition, p: Partition, csyms: seq<nat>, i: nat, x: nat)
    requires i < |csyms| && Usable(csyms, |p0|) && x < |p0| && Refines(p, p0, Done(p0, csyms, i))
    requires !Touched(p0, csyms, i, csyms[i])
    ensures p[x] == p[csyms[i]] <==> p0[x] == p0[csyms[i]]
    ensures p0[x] == p0[csyms[i]] ==> !Touched(p0, csyms, i, x)
    ensures p[x] == p[csyms[i]] && x < csyms[i] ==> x !in csyms
  {
    if p0[x] == p0[csyms[i]] {
      TouchedAlike(p0, csyms, i, x, csyms[i]);
    }
  }

  lemma DoneNext(p0: Partition, csyms: seq<nat>, i: nat, x: nat)
    requires i < |csyms| && Usable(csyms, |p0|) && x < |p0|
    ensures x in Done(p0, csyms, i + 1) <==> x in csyms && (Touched(p0, csyms, i, x) || p0[x] == p0[csyms[i]])
    ensures x in Done(p0, csyms, i) <==> x in csyms && Touched(p0, csyms, i, x)
  {
    hide Touched, Increasing;
    TouchedNext(p0, csyms, i, x);
  }

  lemma OneMorePair(p0: Partition, p: Partition, q: Partition, csyms: seq<nat>, i: nat, id: nat, x: nat, y: nat)
    requires i < |csyms| && Usable(csyms, |p0|) && x < |p0| && y < |p0|
    requires Refines(p, p0, Done(p0, csyms, i)) && !Touched(p0, csyms, i, csyms[i])
    requires p[x] < id && p[y] < id && q == Split(p, p[csyms[i]], Elems(csyms), id)
    ensures q[x] == q[y] <==> p0[x] == p0[y] && (x in Done(p0, csyms, i + 1) <==> y in Done(p0, csyms, i + 1))
  {
    hide Touched, Increasing, Done, Split;
    DoneNext(p0, csyms, i, x);
    DoneNext(p0, csyms, i, y);
    StillWhole(p0, p, csyms, i, x);
    StillWhole(p0, p, csyms, i, y);
  }

  /** Splitting the block of the next symbol refines the partition by what it adds. */
  lemma OneMoreBlock(p0: Partition, p: Partition, q: Partition, csyms: seq<nat>, i: nat, id: nat)
    requires i < |csyms| && Usable(csyms, |p0|)
    requires Refines(p, p0, Done(p0, csyms, i)) && !Touched(p0, csyms, i, csyms[i])
    requires Below(p, id) && q == Split(p, p[csyms[i]], Elems(csyms), id)
    ensures Refines(q, p0, Done(p0, csyms, i + 1))
  {
    hide Touched, Increasing, Done, Split, Elems;
    forall x, y | 0 <= x < |p0| && 0 <= y < |p0|
      ensures q[x] == q[y] <==> p0[x] == p0[y] && (x in Done(p0, csyms, i + 1) <==> y in Done(p0, csyms, i + 1))
    {
      OneMorePair(p0, p, q, csyms, i, id, x, y);
    }
  }

  /** The flags tell which of the symbols still to come have been dealt with. */
  ghost predicate Marked(flags: seq<bool>, p0: Partition, csyms: seq<nat>, i: nat)
    requires i <= |csyms| && Usable(csyms, |p0|)
  {
    && |csyms| <= |flags|
    && forall t :: 0 <= t < |flags| ==> (flags[t] <==> i <= t < |csyms| && Touched(p0, csyms, i, csyms[t]))
  }

  lemma ReadyToSplit(f: seq<bool>, p0: Partition, p: Partition, csyms: seq<nat>, i: nat)
    requires i < |csyms| && Usable(csyms, |p0|) && Refines(p, p0, Done(p0, csyms, i))
    requires !Touched(p0, csyms, i, csyms[i])
    requires Marked(f, p0, csyms, i)
    ensures |p| == |p0| && ToSplit(f, p, csyms, i)
  {
    hide Touched, Done, Increasing;
    forall x | 0 <= x < |p0|
      ensures p[x] == p[csyms[i]] ==> !Touched(p0, csyms, i, x) && (x < csyms[i] ==> x !in csyms)
    {
      StillWhole(p0, p, csyms, i, x);
    }
  }

  lemma MarkedNext(f0: seq<bool>, f: seq<bool>, p0: Partition, p: Partition, csyms: seq<nat>, i: nat)
    requires i < |csyms| && Usable(csyms, |p0|) && Refines(p, p0, Done(p0, csyms, i))
    requires !Touched(p0, csyms, i, csyms[i])
    requires Marked(f0, p0, csyms, i) && Flagged(f0, f, p, csyms, i, |p|)
    ensures Marked(f, p0, csyms, i + 1)
  {
    hide Touched, Done, Increasing;
    forall t | 0 <= t < |csyms|
      ensures Touched(p0, csyms, i + 1, csyms[t]) <==> Touched(p0, csyms, i, csyms[t]) || p[csyms[t]] == p[csyms[i]]
    {
      TouchedNext(p0, csyms, i, csyms[t]);
      StillWhole(p0, p, csyms, i, csyms[t]);
    }
  }

  lemma MarkedSkip(f: seq<bool>, p0: Partition, csyms: seq<nat>, i: nat)
    requires i < |csyms| && Usable(csyms, |p0|) && Marked(f, p0, csyms, i) && f[i]
    ensures Marked(f[i := false], p0, csyms, i + 1)
  {
    hide Touched, Increasing;
    forall t | 0 <= t < |csyms|
      ensures Touched(p0, csyms, i + 1, csyms[t]) <==> Touched(p0, csyms, i, csyms[t])
    {
      TouchedSkip(p0, csyms, i, csyms[t]);
    }
  }

  lemma NothingTouched(p: Partition, csyms: seq<nat>)
    requires Usable(csyms, |p|)
    ensures forall t :: 0 <= t < |csyms| ==> !Touched(p, csyms, 0, csyms[t])
  {
  }

  lemma DoneStart(p: Partition, csyms: seq<nat>)
    requires Usable(csyms, |p|)
    ensures Refines(p, p, Done(p, csyms, 0))
  {
    hide Increasing;
  }

  lemma DoneSkip(p0: Partition, p: Partition, csyms: seq<nat>, i: nat)
    requires i < |csyms| && Usable(csyms, |p0|) && Touched(p0, csyms, i, csyms[i]) && Refines(p, p0, Done(p0, csyms, i))
    ensures Refines(p, p0, Done(p0, csyms, i + 1))
  {
    hide Increasing, Touched, Refines;
    forall x | 0 <= x < |p0|
      ensures Touched(p0, csyms, i + 1, x) <==> Touched(p0, csyms, i, x)
    {
      TouchedSkip(p0, csyms, i, x);
    }
    assert Done(p0, csyms, i + 1) == Done(p0, csyms, i);
  }

  lemma DoneAll(p: Partition, csyms: seq<nat>)
    requires Usable(csyms, |p|)
    ensures Done(p, csyms, |csyms|) == Elems(csyms)
  {
    hide Increasing;
    forall x | x in csyms
      ensures x < |p| && Touched(p, csyms, |csyms|, x)
    {
      var t :| 0 <= t < |csyms| && csyms[t] == x;
    }
  }

  lemma {:induction false} FewSymbols(csyms: seq<nat>, size: nat, n: nat)
    requires Usable(csyms, size) && n <= |csyms|
    ensures n <= size && (n > 0 ==> n - 1 <= csyms[n - 1])
  {
    if n > 0 {
      FewSymbols(csyms, size, n - 1);
      if n > 1 { StepUp(csyms, n - 2); }
      assert csyms[n - 1] < size;
    }
  }

  lemma StepUp(csyms: seq<nat>, k: nat)
    requires Increasing(csyms) && k + 1 < |csyms|
    ensures csyms[k] < csyms[k + 1]
  {
  }

  // ---- Flags ----

  /** The block of the `i`-th symbol has nothing of the class before it and nothing flagged. */
  ghost predicate ToSplit(f: seq<bool>, p: Partition, csyms: seq<nat>, i: nat)
    requires Usable(csyms, |p|) && i < |csyms| <= |f|
  {
    && (forall x :: 0 <= x < csyms[i] && p[x] == p[csyms[i]] ==> x !in csyms)
    && (forall t :: i < t < |csyms| && p[csyms[t]] == p[csyms[i]] ==> !f[t])
  }

  lemma WalkOk(w: Walk, f: seq<bool>, csyms: seq<nat>, i: nat)
    requires Usable(csyms, |w.p|) && i < |csyms| && w.sym == csyms[i] && w.s == Elems(csyms)
    requires Linked(w.fwd, w.bck, w.p) && Below(w.p, w.id)
    requires |csyms| <= |f| && ToSplit(f, w.p, csyms, i)
    ensures w.Ok()
  {
    hide Increasing, IsFirst, IsLast;
  }

  /** Flagged since: the later symbols of the class that are in the block of the `i`-th and
      below `k`. */
  ghost predicate Flagged(f0: seq<bool>, f: seq<bool>, p: Partition, csyms: seq<nat>, i: nat, k: nat)
    requires Usable(csyms, |p|) && i < |csyms|
  {
    && |f| == |f0|
    && forall t :: 0 <= t < |f| ==> (f[t] <==> f0[t] || (i < t < |csyms| && p[csyms[t]] == p[csyms[i]] && csyms[t] < k))
  }

  lemma FlagStart(f: seq<bool>, p: Partition, csyms: seq<nat>, i: nat, k: nat)
    requires Usable(csyms, |p|) && i < |csyms|
    requires forall x :: csyms[i] < x < |p| && x < k ==> p[x] != p[csyms[i]]
    ensures Flagged(f, f, p, csyms, i, k)
  {
  }

  lemma NotFlagged(f0: seq<bool>, f: seq<bool>, p: Partition, csyms: seq<nat>, i: nat, k: nat)
    requires Usable(csyms, |p|) && i < |csyms| <= |f| && Flagged(f0, f, p, csyms, i, k)
    requires k < |p| && p[k] == p[csyms[i]]
    requires ToSplit(f0, p, csyms, i)
    ensures forall t :: i < t < |csyms| && csyms[t] == k ==> !f[t]
  {
  }

  lemma FlagNext(
    f0: seq<bool>, f: seq<bool>, p: Partition, csyms: seq<nat>, i: nat, k: nat, k': nat, j: nat, found: bool)
    requires Usable(csyms, |p|) && i < j <= |csyms| <= |f| && Flagged(f0, f, p, csyms, i, k)
    requires k < |p| && p[k] == p[csyms[i]] && k < k' && forall x :: k < x < |p| && x < k' ==> p[x] != p[k]
    requires (found <==> j < |csyms| && csyms[j] == k) && (found <==> k in csyms)
    ensures Flagged(f0, if found then f[j := true] else f, p, csyms, i, k')
  {
  }

  lemma AllFlagged(f0: seq<bool>, f: seq<bool>, p: Partition, csyms: seq<nat>, i: nat, k: nat)
    requires Usable(csyms, |p|) && i < |csyms| && |p| <= k && Flagged(f0, f, p, csyms, i, k)
    ensures Flagged(f0, f, p, csyms, i, |p|)
  {
  }

  // ---- Numbering the blocks ----

  /** The first member of its block. */
  predicate Leads(p: Partition, x: nat)
    requires x < |p|
  {
    forall y :: 0 <= y < x ==> p[y] != p[x]
  }

  /** How many blocks begin below `k`. */
  function Blocks(p: Partition, k: nat): nat
    requires k <= |p|
  {
    if k == 0 then 0 else Blocks(p, k - 1) + if Leads(p, k - 1) then 1 else 0
  }

  lemma {:induction false} BlocksGrow(p: Partition, x: nat, k: nat)
    requires x <= k <= |p|
    ensures Blocks(p, x) <= Blocks(p, k) && (x < k && Leads(p, x) ==> Blocks(p, x) < Blocks(p, k))
    decreases k - x
  {
    if x < k { BlocksGrow(p, x, k - 1); }
  }

  /** The symbol has its representative and its number. */
  ghost predicate NumberedAt(p: Partition, classOf: nat, rep: nat, x: nat)
    requires x < |p|
  {
    rep < |p| && p[rep] == p[x] && Leads(p, rep) && classOf == Blocks(p, rep)
  }

  ghost predicate Numbered(p: Partition, classOf: seq<nat>, rep: seq<nat>) {
    && |classOf| == |p| && |rep| == |p|
    && forall x :: 0 <= x < |p| ==> NumberedAt(p, classOf[x], rep[x], x)
  }

  lemma OneLeader(p: Partition, x: nat, y: nat)
    requires x < |p| && y < |p| && Leads(p, x) && Leads(p, y) && p[x] == p[y]
    ensures x == y
  {
  }

  /** The numbers tell the blocks apart, in the order of their representatives. */
  lemma ClassNumbers(p: Partition, classOf: seq<nat>, rep: seq<nat>, x: nat, y: nat)
    requires Numbered(p, classOf, rep) && x < |p| && y < |p|
    ensures classOf[x] == classOf[y] <==> p[x] == p[y]
    ensures rep[x] == rep[y] <==> p[x] == p[y]
    ensures classOf[x] < classOf[y] <==> rep[x] < rep[y]
    ensures rep[x] <= x && classOf[x] < Blocks(p, |p|)
  {
    assert NumberedAt(p, classOf[x], rep[x], x) && NumberedAt(p, classOf[y], rep[y], y);
    BlocksGrow(p, rep[x], |p|);
    if rep[x] < rep[y] {
      BlocksGrow(p, rep[x], rep[y]);
    } else if rep[y] < rep[x] {
      BlocksGrow(p, rep[y], rep[x]);
    }
    if p[x] == p[y] { OneLeader(p, rep[x], rep[y]); }
  }

  /** The blocks that begin below `i` are numbered. */
  ghost predicate NumberedBelow(p: Partition, classOf: seq<nat>, rep: seq<nat>, i: nat) {
    && |classOf| == |p| && |rep| == |p| && i <= |p|
    && forall x :: 0 <= x < |p| && Seen(p, i, x) ==> NumberedAt(p, classOf[x], rep[x], x)
  }

  ghost predicate Seen(p: Partition, i: nat, x: nat)
    requires i <= |p| && x < |p|
  {
    exists y :: 0 <= y < i && p[y] == p[x]
  }

  lemma SeenNext(p: Partition, i: nat, x: nat)
    requires i < |p| && x < |p|
    ensures Seen(p, i + 1, x) <==> Seen(p, i, x) || p[x] == p[i]
    ensures Leads(p, i) && p[x] == p[i] ==> !Seen(p, i, x)
    ensures !Leads(p, i) && p[x] == p[i] ==> Seen(p, i, x)
  {
    if Seen(p, i, x) {
      var y :| 0 <= y < i && p[y] == p[x];
      assert Seen(p, i + 1, x);
    }
    if p[x] == p[i] {
      assert Seen(p, i + 1, x);
      if !Leads(p, i) {
        var y :| 0 <= y < i && p[y] == p[i];
        assert Seen(p, i, x);
      }
    }
  }

  lemma BelowNext(p: Partition, c: seq<nat>, r: seq<nat>, c': seq<nat>, r': seq<nat>, i: nat)
    requires i < |p| && NumberedBelow(p, c, r, i) && |c| == |p| == |r| && |c'| == |p| && |r'| == |p|
    requires !Leads(p, i) ==> c' == c && r' == r
    requires Leads(p, i) ==> forall x :: 0 <= x < |p| && p[x] == p[i] ==> NumberedAt(p, c'[x], r'[x], x)
    requires Leads(p, i) ==> forall x :: 0 <= x < |p| && p[x] != p[i] ==> c'[x] == c[x] && r'[x] == r[x]
    ensures NumberedBelow(p, c', r', i + 1)
  {
    hide Seen, Leads, NumberedAt;
    forall x | 0 <= x < |p| && Seen(p, i + 1, x)
      ensures NumberedAt(p, c'[x], r'[x], x)
    {
      SeenNext(p, i, x);
    }
  }

  lemma NothingSeen(p: Partition, classOf: seq<nat>, rep: seq<nat>)
    requires |classOf| == |p| && |rep| == |p|
    ensures NumberedBelow(p, classOf, rep, 0) && Blocks(p, 0) == 0
  {
  }

  lemma SeenItself(p: Partition, i: nat, x: nat, y: nat)
    requires x < |p| && i <= |p| && y < i && p[y] == p[x]
    ensures Seen(p, i, x)
  {
  }

  lemma AllSeen(p: Partition, classOf: seq<nat>, rep: seq<nat>)
    requires NumberedBelow(p, classOf, rep, |p|)
    ensures Numbered(p, classOf, rep)
  {
    forall x | 0 <= x < |p|
      ensures NumberedAt(p, classOf[x], rep[x], x)
    {
      SeenItself(p, |p|, x, x);
    }
  }

  lemma LeadsIff(fwd: seq<nat>, bck: seq<nat>, p: Partition, i: nat)
    requires Linked(fwd, bck, p) && i < |p| && |bck| == |p|
    ensures bck[i] == Nil(|p|) <==> Leads(p, i)
    ensures Blocks(p, i + 1) == Blocks(p, i) + if Leads(p, i) then 1 else 0
    ensures Leads(p, i) <==> forall y :: 0 <= y < i ==> p[y] != p[i]
  {
    LinkedAt(fwd, bck, p, i);
    hide Linked, IsFirst;
  }

  lemma NoneBelow(p: Partition, i: nat)
    requires i < |p| && Leads(p, i)
    ensures forall y :: 0 <= y < i ==> p[y] != p[i]
  {
  }

  lemma NextInBlock(fwd: seq<nat>, bck: seq<nat>, p: Partition, x: nat)
    requires Linked(fwd, bck, p) && x < |p| && |fwd| == |p|
    ensures fwd[x] == Nil(|p|) || (x < fwd[x] < |p| && p[fwd[x]] == p[x])
    ensures forall y :: x < y < |p| && y < fwd[x] ==> p[y] != p[x]
  {
    LinkedAt(fwd, bck, p, x);
    hide Linked, IsLast;
  }

  /** `s` is made up of whole blocks. */
  ghost predicate Closed(p: Partition, s: seq<nat>) {
    forall x, y :: 0 <= x < |p| && 0 <= y < |p| && p[x] == p[y] && x in s ==> y in s
  }

  /** Every class the partition was refined by is made up of whole blocks, whatever it is refined
      by after that. */
  lemma UsedIsClosed(q: Partition, p: Partition, s: seq<nat>, t: set<nat>)
    requires Refines(q, p, t)
    ensures t == Elems(s) || Closed(p, s) ==> Closed(q, s)
  {
  }

  /** The class and the numbers of its representatives say the same just if it is made up of
      whole blocks. */
  lemma ConvertedMeans(p: Partition, classOf: seq<nat>, rep: seq<nat>, csyms: seq<nat>, syms: seq<nat>)
    requires Numbered(p, classOf, rep) && Usable(csyms, |p|)
    requires forall e :: e in syms <==> exists x :: x in csyms && x < |p| && rep[x] == x && classOf[x] == e
    ensures Closed(p, csyms) <==> forall x :: 0 <= x < |p| ==> (x in csyms <==> classOf[x] in syms)
  {
    hide Increasing, Numbered, Leads, Blocks;
    NumberedSeqs(p, classOf, rep);
    if Closed(p, csyms) {
      forall x | 0 <= x < |p|
        ensures x in csyms <==> classOf[x] in syms
      {
        RepOfRep(p, classOf, rep, x);
        if classOf[x] in syms {
          var y :| y in csyms && y < |p| && rep[y] == y && classOf[y] == classOf[x];
          ClassNumbers(p, classOf, rep, x, y);
        }
      }
    } else {
      var x, y :| 0 <= x < |p| && 0 <= y < |p| && p[x] == p[y] && x in csyms && y !in csyms;
      ClassNumbers(p, classOf, rep, x, y);
    }
  }

  lemma NumberedSeqs(p: Partition, classOf: seq<nat>, rep: seq<nat>)
    requires Numbered(p, classOf, rep)
    ensures |classOf| == |p| && |rep| == |p|
  {
  }

  lemma RepOfRep(p: Partition, classOf: seq<nat>, rep: seq<nat>, x: nat)
    requires Numbered(p, classOf, rep) && x < |p|
    ensures rep[x] < |p| && p[rep[x]] == p[x] && rep[rep[x]] == rep[x] && classOf[rep[x]] == classOf[x]
  {
    assert NumberedAt(p, classOf[x], rep[x], x);
    ClassNumbers(p, classOf, rep, x, rep[x]);
  }
}
