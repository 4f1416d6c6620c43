/** `AnonymizeIPAddr_A50`: a path-compressed binary trie whose nodes come from a pool and
    are rewritten in place.  An inner node carries a copy of the input and output of some
    leaf below it. */
module A50 {
  import opened Bits32
  import opened PrefixTable
  import opened KeptNets

  const BLOCK_SIZE: nat := 1024

  /** The contents of a trie node. */
  datatype Cell = Cell(input: Addr, output: Addr, child0: Node?, child1: Node?)

  class Node {
    var c: Cell

    constructor (a: Addr)
      ensures c == Cell(a, a, null, null)
    {
      c := Cell(a, a, null, null);
    }
  }

  // ---- Words ----

  lemma DiffersAt(x: bv32, y: bv32, t: bv32)
    requires 1 <= t <= 32 && Prefix(x, t - 1) == Prefix(y, t - 1) && Bit(x, t) != Bit(y, t)
    ensures x != y && FirstDiff(x, y) == t
  {
    hide Prefix, Bit, FirstDiff;
    PrefixStep(x, y, t);
    FirstDiffFacts(x, y);
    PrefixVsFirstDiff(x, y, t);
    PrefixVsFirstDiff(x, y, t - 1);
  }

  lemma TestBit(x: bv32, t: bv32)
    requires 1 <= t <= 32
    ensures x & (1 << (32 - t)) != 0 <==> Bit(x, t)
  {
  }

  /** Every key agrees with `z` on `d` bits. */
  ghost predicate Share(keys: set<Addr>, z: Addr, d: bv32)
    requires d <= 32
  {
    forall k :: k in keys ==> Prefix(k.w, d) == Prefix(z.w, d)
  }

  ghost predicate AllBit(keys: set<Addr>, t: bv32, b: bool)
    requires 1 <= t <= 32
  {
    forall k :: k in keys ==> Bit(k.w, t) == b
  }

  /** All keys leave `a` at the same bit, the one at which `z` leaves it. */
  ghost predicate LeaveTogether(keys: set<Addr>, a: Addr, z: Addr) {
    forall k :: k in keys ==> FirstDiff(a.w, k.w) == FirstDiff(a.w, z.w)
  }

  lemma ShareLeaveTogether(keys: set<Addr>, z: Addr, a: Addr, t: bv32)
    requires a != z && FirstDiff(a.w, z.w) <= t <= 32 && Share(keys, z, t)
    ensures LeaveTogether(keys, a, z)
  {
    hide Prefix, FirstDiff;
    var s := FirstDiff(a.w, z.w);
    FirstDiffFacts(a.w, z.w);
    PrefixVsFirstDiff(a.w, z.w, s);
    PrefixVsFirstDiff(a.w, z.w, s - 1);
    forall k | k in keys
      ensures FirstDiff(a.w, k.w) == s
    {
      PrefixMonotone(k.w, z.w, s, t);
      PrefixMonotone(k.w, z.w, s - 1, t);
      FirstDiffFacts(a.w, k.w);
      PrefixVsFirstDiff(a.w, k.w, s);
      PrefixVsFirstDiff(a.w, k.w, s - 1);
    }
  }

  /** Keys that agree with `z` up to where `a` leaves it have the other bit there. */
  lemma PeerBits(keys: set<Addr>, z: Addr, a: Addr, s: bv32)
    requires a != z && s == FirstDiff(a.w, z.w) && 1 <= s <= 32
    requires z in keys && LeaveTogether(keys, a, z)
    ensures Share(keys + {a}, z, s - 1)
    ensures AllBit(keys, s, !Bit(a.w, s))
  {
    hide Prefix, Bit, FirstDiff;
    PrefixVsFirstDiff(a.w, z.w, s - 1);
    forall k | k in keys
      ensures Prefix(k.w, s - 1) == Prefix(z.w, s - 1) && Bit(k.w, s) == !Bit(a.w, s)
    {
      FirstDiffFacts(a.w, k.w);
      BitVsFirstDiff(a.w, k.w, s);
      PrefixVsFirstDiff(a.w, k.w, s - 1);
    }
  }

  /** Going down: keys that share `t - 1` bits with `a` and have its bit `t` share `t` bits. */
  lemma ShareMore(keys: set<Addr>, z: Addr, a: Addr, t: bv32)
    requires 1 <= t <= 32 && Share(keys, z, t - 1) && Prefix(a.w, t - 1) == Prefix(z.w, t - 1)
    ensures AllBit(keys, t, Bit(a.w, t)) ==> Share(keys, a, t)
    ensures AllBit(keys, t, !Bit(a.w, t)) ==> Apart(keys, a, t)
  {
    hide Prefix, Bit;
    forall k | k in keys
      ensures Prefix(k.w, t) == Prefix(a.w, t) <==> Bit(k.w, t) == Bit(a.w, t)
    {
      PrefixStep(k.w, a.w, t);
    }
  }

  /** No key agrees with `a` on `d` bits. */
  ghost predicate Apart(keys: set<Addr>, a: Addr, d: bv32)
    requires d <= 32
  {
    forall k :: k in keys ==> Prefix(k.w, d) != Prefix(a.w, d)
  }

  lemma ApartMore(keys: set<Addr>, a: Addr, d: bv32, e: bv32)
    requires d <= e <= 32 && Apart(keys, a, d)
    ensures Apart(keys, a, e)
  {
    hide Prefix;
    forall k | k in keys
      ensures Prefix(k.w, e) != Prefix(a.w, e)
    {
      if Prefix(k.w, e) == Prefix(a.w, e) {
        PrefixMonotone(k.w, a.w, d, e);
      }
    }
  }

  /** The search has found a nearest neighbour: everything outside the node's keys parted
      from `a` at bit `d` or before, everything inside follows `z` past the point `s`. */
  lemma FoundNearest(table: map<Addr, Addr>, keys: set<Addr>, a: Addr, z: Addr, d: bv32)
    requires d <= 32 && z in keys && z in table && a !in table
    requires Share(keys, a, d) && Apart(table.Keys - keys, a, d)
    requires LeaveTogether(keys, a, z)
    ensures Nearest(table, a, z)
  {
    hide Prefix, FirstDiff, Share, Apart, LeaveTogether;
    forall y | y in table
      ensures FirstDiff(a.w, y.w) <= FirstDiff(a.w, z.w)
    {
      NoNearer(table, keys, a, z, d, y);
    }
  }

  lemma NoNearer(table: map<Addr, Addr>, keys: set<Addr>, a: Addr, z: Addr, d: bv32, y: Addr)
    requires d <= 32 && z in keys && z in table && a !in table && y in table
    requires Share(keys, a, d) && Apart(table.Keys - keys, a, d)
    requires LeaveTogether(keys, a, z)
    ensures FirstDiff(a.w, y.w) <= FirstDiff(a.w, z.w)
  {
    hide Prefix, FirstDiff;
    if y !in keys {
      assert y in table.Keys - keys;
      FurtherAway(a.w, y.w, z.w, d);
      assert FirstDiff(a.w, y.w) <= FirstDiff(a.w, z.w);
    } else {
      assert FirstDiff(a.w, y.w) == FirstDiff(a.w, z.w);
    }
  }

  lemma FurtherAway(a: bv32, y: bv32, z: bv32, d: bv32)
    requires a != y && a != z && d <= 32
    requires Prefix(y, d) != Prefix(a, d) && Prefix(z, d) == Prefix(a, d)
    ensures FirstDiff(a, y) <= FirstDiff(a, z)
  {
    hide Prefix, FirstDiff;
    PrefixVsFirstDiff(a, y, d);
    PrefixVsFirstDiff(a, z, d);
  }

  // ---- The shape of the trie ----

  /** The addresses stored below a node, the bit on which its children part, its parent. */
  datatype Info = Info(keys: set<Addr>, swivel: bv32, parent: Node?)

  /** A snapshot of the trie together with the mapping it stores. */
  datatype Shape = Shape(root: Node?, cells: map<Node, Cell>, info: map<Node, Info>, table: map<Addr, Addr>)

  /** The keys of a node, counting in what is about to be added below `cur`. */
  ghost function Keys(s: Shape, m: Node, cur: Node?, more: set<Addr>): set<Addr>
    requires m in s.info
  {
    s.info[m].keys + if m == cur then more else {}
  }

  ghost predicate NodeOk(s: Shape, m: Node, cur: Node?, more: set<Addr>)
    requires m in s.cells && m in s.info
  {
    var c, i := s.cells[m], s.info[m];
    && c.input in i.keys
    && c.input in s.table && s.table[c.input] == c.output
    && (c.child0 == null <==> c.child1 == null)
    && (c.child0 == null ==> i.keys == {c.input})
    && (c.child0 != null ==> InnerOk(s, m, c.child0, c.child1, cur, more))
  }

  ghost predicate InnerOk(s: Shape, m: Node, c0: Node, c1: Node, cur: Node?, more: set<Addr>)
    requires m in s.cells && m in s.info
  {
    var i := s.info[m];
    && c0 in s.cells && c0 in s.info && s.info[c0].parent == m
    && c1 in s.cells && c1 in s.info && s.info[c1].parent == m
    && c0 != c1 && c0 != m && c1 != m
    && 1 <= i.swivel <= 32
    && i.keys == Keys(s, c0, cur, more) + Keys(s, c1, cur, more)
    && Share(i.keys, s.cells[m].input, i.swivel - 1)
    && AllBit(Keys(s, c0, cur, more), i.swivel, false)
    && AllBit(Keys(s, c1, cur, more), i.swivel, true)
  }

  /** Every node is in order once `more` has been added below `cur`. */
  ghost predicate ShapeOk(s: Shape, cur: Node?, more: set<Addr>) {
    && s.info.Keys == s.cells.Keys
    && (s.root == null <==> s.cells == map[])
    && (s.root == null ==> s.table == map[])
    && (s.root != null ==>
      s.root in s.cells && s.info[s.root].parent == null && Keys(s, s.root, cur, more) == s.table.Keys + more)
    && (forall m {:trigger NodeOk(s, m, cur, more)} :: m in s.cells ==> NodeOk(s, m, cur, more))
  }

  /** The copies kept in the children part where the trie says they do. */
  lemma ChildrenPartAtSwivel(s: Shape, m: Node, cur: Node?, more: set<Addr>)
    requires ShapeOk(s, cur, more) && m in s.cells && s.cells[m].child0 != null
    ensures NodeOk(s, m, cur, more) && s.cells[m].child1 != null
    ensures FirstDiff(s.cells[s.cells[m].child0].input.w, s.cells[s.cells[m].child1].input.w) == s.info[m].swivel
  {
    hide Prefix, Bit, FirstDiff;
    assert NodeOk(s, m, cur, more);
    var c0, c1 := s.cells[m].child0, s.cells[m].child1;
    assert NodeOk(s, c0, cur, more) && NodeOk(s, c1, cur, more);
    var x, y := s.cells[c0].input, s.cells[c1].input;
    assert x in s.info[m].keys && y in s.info[m].keys;
    DiffersAt(x.w, y.w, s.info[m].swivel);
  }

  /** The search has reached a node that already holds `a`: nothing was added. */
  lemma NothingAdded(s: Shape, n: Node, a: Addr)
    requires ShapeOk(s, n, {a}) && n in s.cells && s.cells[n].input == a
    ensures ShapeOk(s, null, {}) && a in s.table && s.table[a] == s.cells[n].output
  {
    hide Share, AllBit;
    assert NodeOk(s, n, n, {a});
    assert forall m :: m in s.info ==> Keys(s, m, n, {a}) == Keys(s, m, null, {});
    forall m | m in s.cells
      ensures NodeOk(s, m, null, {})
    {
      assert NodeOk(s, m, n, {a});
    }
  }

  /** The search goes down from `n` to its child `c`; `n` now counts `a` among its keys. */
  ghost function Descend(s: Shape, n: Node, a: Addr): Shape
    requires n in s.info
  {
    s.(info := s.info[n := s.info[n].(keys := s.info[n].keys + {a})])
  }

  /** The search may go from the inner node `n` down to `c`. */
  ghost predicate MayDescend(s: Shape, n: Node, c: Node, a: Addr) {
    && ShapeOk(s, n, {a}) && n in s.cells && s.cells[n].child0 != null && s.cells[n].child1 != null
    && NodeOk(s, n, n, {a})
    && c == (if Bit(a.w, s.info[n].swivel) then s.cells[n].child1 else s.cells[n].child0)
    && Prefix(a.w, s.info[n].swivel - 1) == Prefix(s.cells[n].input.w, s.info[n].swivel - 1)
  }

  lemma DescendSelf(s: Shape, n: Node, c: Node, a: Addr)
    requires MayDescend(s, n, c, a)
    ensures NodeOk(Descend(s, n, a), n, c, {a})
  {
    hide Prefix, Bit;
    var s' := Descend(s, n, a);
    var c0, c1 := s.cells[n].child0, s.cells[n].child1;
    var keys0, keys1 := s.info[c0].keys, s.info[c1].keys;
    assert Keys(s, c0, n, {a}) == keys0 && Keys(s, c1, n, {a}) == keys1;
    assert Keys(s', c0, c, {a}) == keys0 + if c == c0 then {a} else {};
    assert Keys(s', c1, c, {a}) == keys1 + if c == c1 then {a} else {};
  }

  lemma DescendOther(s: Shape, n: Node, c: Node, a: Addr, m: Node)
    requires MayDescend(s, n, c, a) && m in s.cells && m != n
    ensures m in s.info && NodeOk(Descend(s, n, a), m, c, {a})
  {
    hide Prefix, Bit, Share, AllBit;
    assert NodeOk(s, m, n, {a});
    if s.cells[m].child0 != null {
      SameKeysElsewhere(s, n, c, a, m, s.cells[m].child0);
      SameKeysElsewhere(s, n, c, a, m, s.cells[m].child1);
    }
  }

  lemma DescendOk(s: Shape, n: Node, c: Node, a: Addr)
    requires MayDescend(s, n, c, a)
    ensures ShapeOk(Descend(s, n, a), c, {a})
  {
    hide Prefix, Bit, Share, AllBit;
    var s' := Descend(s, n, a);
    forall m | m in s'.cells
      ensures NodeOk(s', m, c, {a})
    {
      if m == n {
        DescendSelf(s, n, c, a);
      } else {
        DescendOther(s, n, c, a, m);
      }
    }
    assert Keys(s', s.root, c, {a}) == Keys(s, s.root, n, {a});
  }

  /** A child of a node other than `n` has the same keys to come before and after. */
  lemma SameKeysElsewhere(s: Shape, n: Node, c: Node, a: Addr, m: Node, x: Node)
    requires n in s.info && c in s.info && x in s.info
    requires s.info[c].parent == n && s.info[x].parent == m && m != n
    ensures Keys(Descend(s, n, a), x, c, {a}) == Keys(s, x, n, {a})
  {
  }

  /** The rewriting of `make_peer`: `n` stays where it is as the parent of a copy of itself
      and of a new leaf for `a`, and keeps a copy of the child on the 1 side. */
  datatype Peering = Peering(n: Node, down0: Node, down1: Node, one: bool, a: Addr, out: Addr, swivel: bv32) {
    function Peer(): Node { if one then down1 else down0 }
    function Copy(): Node { if one then down0 else down1 }

    ghost predicate Fits(s: Shape) {
      && ShapeOk(s, n, {a}) && n in s.cells && a !in s.table
      && down0 !in s.cells && down1 !in s.cells && down0 != down1
      && 1 <= swivel <= 32
      && Share(s.info[n].keys + {a}, s.cells[n].input, swivel - 1)
      && AllBit(s.info[n].keys, swivel, !one) && AllBit({a}, swivel, one)
    }

    function Parent(was: Cell): Cell {
      if one then Cell(a, out, down0, down1) else Cell(was.input, was.output, down0, down1)
    }

    /** The moved children get the copy as their parent. */
    ghost function Moved(s: Shape): (r: map<Node, Info>)
      requires Fits(s)
      ensures r.Keys == s.info.Keys
      ensures forall x :: x in s.info ==>
        r[x] == if s.info[x].parent == n && (x == s.cells[n].child0 || x == s.cells[n].child1)
                then s.info[x].(parent := Copy()) else s.info[x]
    {
      assert NodeOk(s, n, n, {a});
      var c0, c1 := s.cells[n].child0, s.cells[n].child1;
      if c0 == null then s.info
      else s.info[c0 := s.info[c0].(parent := Copy())][c1 := s.info[c1].(parent := Copy())]
    }

    ghost function After(s: Shape): Shape
      requires Fits(s)
    {
      var was, i := s.cells[n], s.info[n];
      Shape(
        s.root,
        s.cells[Peer() := Cell(a, out, null, null)][Copy() := was][n := Parent(was)],
        Moved(s)[Peer() := Info({a}, 1, n)][Copy() := i.(parent := n)][n := Info(i.keys + {a}, swivel, i.parent)],
        s.table[a := out])
    }

    lemma Downs()
      ensures {Peer(), Copy()} == {down0, down1} && (down0 != down1 ==> Peer() != Copy())
    {
    }

    lemma AfterCells(s: Shape)
      requires Fits(s)
      ensures n in s.cells && n != down0 && n != down1 && down0 != down1
      ensures After(s).root == s.root
      ensures After(s).cells ==
        s.cells[Peer() := Cell(a, out, null, null)][Copy() := s.cells[n]][n := Parent(s.cells[n])]
      ensures After(s).table == s.table[a := out]
    {
      hide Moved;
    }

    lemma KeysAfter(s: Shape, x: Node)
      requires Fits(s) && x in s.info
      ensures x in After(s).info && Keys(After(s), x, null, {}) == Keys(s, x, n, {a})
      ensures s.info[x].parent != n ==> After(s).info[x].parent == s.info[x].parent
    {
      hide Moved;
    }

    lemma PeerOk(s: Shape)
      requires Fits(s)
      ensures NodeOk(After(s), Peer(), null, {})
    {
    }

    lemma CopyOk(s: Shape)
      requires Fits(s)
      ensures NodeOk(After(s), Copy(), null, {})
    {
      hide Prefix, Bit, Share, AllBit, Moved;
      var s' := After(s);
      assert NodeOk(s, n, n, {a});
      var c0, c1 := s.cells[n].child0, s.cells[n].child1;
      if c0 != null {
        KeysAfter(s, c0);
        KeysAfter(s, c1);
        assert Keys(s, c0, n, {a}) == s.info[c0].keys;
      }
    }

    lemma ParentOk(s: Shape)
      requires Fits(s)
      ensures NodeOk(After(s), n, null, {})
    {
      hide Prefix, Bit, Moved;
      var s' := After(s);
      assert NodeOk(s, n, n, {a});
      var keys := s.info[n].keys;
      assert Keys(s', Peer(), null, {}) == {a} && Keys(s', Copy(), null, {}) == keys;
      assert Share(keys + {a}, s'.cells[n].input, swivel - 1);
    }

    lemma OtherOk(s: Shape, m: Node)
      requires Fits(s) && m in s.cells && m != n
      ensures m in After(s).cells && m in After(s).info && NodeOk(After(s), m, null, {})
    {
      hide Prefix, Bit, Share, AllBit, Moved;
      var s' := After(s);
      assert NodeOk(s, m, n, {a});
      assert s'.cells[m] == s.cells[m] && s'.info[m].keys == s.info[m].keys && s'.info[m].swivel == s.info[m].swivel;
      if s.cells[m].child0 != null {
        KeysAfter(s, s.cells[m].child0);
        KeysAfter(s, s.cells[m].child1);
      }
    }

    /** The whole trie is in order afterwards, and stores exactly one more address. */
    lemma AfterOk(s: Shape)
      requires Fits(s)
      ensures ShapeOk(After(s), null, {})
    {
      hide Prefix, Bit, Share, AllBit, NodeOk, Moved;
      var s' := After(s);
      assert s'.info.Keys == s'.cells.Keys;
      forall m | m in s'.cells
        ensures NodeOk(s', m, null, {})
      {
        if m == n {
          ParentOk(s);
        } else if m == Peer() {
          PeerOk(s);
        } else if m == Copy() {
          CopyOk(s);
        } else {
          OtherOk(s, m);
        }
      }
      KeysAfter(s, s.root);
    }
  }

  // ---- One step of the search ----

  /** The search for `a` has come to `n`, having read `d` bits: every address below `n`
      shares them with `a` and no other address does. */
  ghost predicate Searching(s: Shape, n: Node, a: Addr, d: bv32) {
    && ShapeOk(s, n, {a}) && n in s.cells
    && d <= 32
    && Share(s.info[n].keys, a, d)
    && Apart(s.table.Keys - s.info[n].keys, a, d)
  }

  lemma StartSearch(s: Shape, a: Addr)
    requires ShapeOk(s, null, {}) && s.root != null
    ensures Searching(s, s.root, a, 0)
  {
    hide AllBit, Bit;
    var n := s.root;
    assert forall m :: m in s.info && m != n ==> Keys(s, m, null, {}) == Keys(s, m, n, {a});
    assert Keys(s, n, null, {}) == s.info[n].keys;
    forall m | m in s.cells
      ensures NodeOk(s, m, n, {a})
    {
      assert NodeOk(s, m, null, {});
    }
    forall k | k in s.table
      ensures Prefix(k.w, 0) == Prefix(a.w, 0)
    {
      PrefixEnds(k.w);
      PrefixEnds(a.w);
    }
  }

  lemma InfoThere(s: Shape, n: Node, a: Addr, d: bv32)
    requires Searching(s, n, a, d)
    ensures n in s.info
  {
  }

  /** The guard of the branch that splits `n`. */
  ghost predicate PartsHere(s: Shape, n: Node, a: Addr)
    requires n in s.cells && n in s.info
  {
    s.cells[n].child0 == null || FirstDiff(a.w, s.cells[n].input.w) < s.info[n].swivel
  }

  lemma SplitHere(s: Shape, n: Node, a: Addr, d: bv32)
    requires Searching(s, n, a, d) && s.cells[n].input != a && PartsHere(s, n, a)
    ensures a !in s.table
    ensures LeaveTogether(s.info[n].keys, a, s.cells[n].input)
    ensures Nearest(s.table, a, s.cells[n].input)
  {
    hide Prefix, Bit, FirstDiff, AllBit, Nearest;
    var z, keys := s.cells[n].input, s.info[n].keys;
    assert NodeOk(s, n, n, {a});
    FirstDiffFacts(a.w, z.w);
    FirstDiffFacts(a.w, a.w);
    if s.cells[n].child0 != null {
      ShareLeaveTogether(keys, z, a, s.info[n].swivel - 1);
    }
    assert LeaveTogether(keys, a, z);
    assert a !in keys && a !in s.table.Keys - keys;
    FoundNearest(s.table, keys, a, z, d);
  }

  ghost function NextChild(s: Shape, n: Node, a: Addr): Node?
    requires n in s.cells && n in s.info && 1 <= s.info[n].swivel <= 32
  {
    if Bit(a.w, s.info[n].swivel) then s.cells[n].child1 else s.cells[n].child0
  }

  lemma GoDown(s: Shape, n: Node, a: Addr, d: bv32)
    requires Searching(s, n, a, d) && s.cells[n].input != a && !PartsHere(s, n, a)
    ensures 1 <= s.info[n].swivel <= 32
    ensures NextChild(s, n, a) != null && NextChild(s, n, a) in s.cells
    ensures d < s.info[n].swivel
    ensures Searching(Descend(s, n, a), NextChild(s, n, a), a, s.info[n].swivel)
  {
    hide Prefix, Bit, FirstDiff, Share, AllBit, Apart;
    assert NodeOk(s, n, n, {a});
    var z, t := s.cells[n].input, s.info[n].swivel;
    var c := NextChild(s, n, a);
    PrefixVsFirstDiff(a.w, z.w, t - 1);
    DescendOk(s, n, c, a);
    GoDownKeys(s, n, c, a, d);
  }

  lemma GoDownKeys(s: Shape, n: Node, c: Node, a: Addr, d: bv32)
    requires Searching(s, n, a, d) && MayDescend(s, n, c, a)
    ensures d < s.info[n].swivel
    ensures Share(s.info[c].keys, a, s.info[n].swivel)
    ensures Apart(s.table.Keys - s.info[c].keys, a, s.info[n].swivel)
  {
    hide Prefix, Bit, FirstDiff;
    var z, t := s.cells[n].input, s.info[n].swivel;
    var c0, c1 := s.cells[n].child0, s.cells[n].child1;
    var other := if c == c1 then c0 else c1;
    var keys, mine, others := s.info[n].keys, s.info[c].keys, s.info[other].keys;
    assert Keys(s, c0, n, {a}) == s.info[c0].keys && Keys(s, c1, n, {a}) == s.info[c1].keys;
    assert keys == mine + others;
    DeeperThan(s, n, c, other, a, d);
    ShareMore(mine, z, a, t);
    ShareMore(others, z, a, t);
    ApartMore(s.table.Keys - keys, a, d, t);
    assert s.table.Keys - mine <= (s.table.Keys - keys) + others;
  }

  /** The branch bit grows on the way down, so the search ends. */
  lemma DeeperThan(s: Shape, n: Node, c: Node, other: Node, a: Addr, d: bv32)
    requires Searching(s, n, a, d) && MayDescend(s, n, c, a)
    requires other in {s.cells[n].child0, s.cells[n].child1} && c != other
    ensures d < s.info[n].swivel
  {
    hide Prefix, Bit, FirstDiff;
    var t := s.info[n].swivel;
    assert NodeOk(s, c, n, {a}) && NodeOk(s, other, n, {a});
    var x, y := s.cells[c].input, s.cells[other].input;
    assert x in s.info[n].keys && y in s.info[n].keys;
    assert Bit(x.w, t) != Bit(y.w, t);
    assert Prefix(x.w, d) == Prefix(y.w, d);
    if t <= d {
      PrefixMonotone(x.w, y.w, t, d);
      PrefixStep(x.w, y.w, t);
    }
  }

  // ---- Writing over an output ----

  /** The net's first bits are kept, and nothing else has changed. */
  ghost predicate Kept(before: map<Addr, Addr>, after: map<Addr, Addr>, net: Addr, bits: bv32)
    requires bits <= 32
  {
    InPlace(after, net, bits) && after == before[net := after[net]]
  }

  ghost predicate InPlace(table: map<Addr, Addr>, net: Addr, bits: bv32)
    requires bits <= 32
  {
    net in table && Prefix(table[net].w, bits) == Prefix(net.w, bits)
  }

  lemma BothInPlace(
    t0: map<Addr, Addr>, t1: map<Addr, Addr>, t2: map<Addr, Addr>, net1: Addr, bits1: bv32, net2: Addr, bits2: bv32)
    requires bits1 < 32 && bits2 < 32 && Kept(t0, t1, net1, bits1) && Kept(t1, t2, net2, bits2)
    ensures InPlace(t2, net2, bits2) && (net1 != net2 ==> InPlace(t2, net1, bits1))
  {
    hide Prefix;
  }

  ghost function Overwrite(s: Shape, n: Node, out: Addr): Shape
    requires n in s.cells
  {
    s.(cells := s.cells[n := s.cells[n].(output := out)], table := s.table[s.cells[n].input := out])
  }

  /** All nodes with a copy of `a` have its output. */
  ghost predicate NoStale(s: Shape, a: Addr) {
    forall m :: m in s.cells && s.cells[m].input == a ==> a in s.table && s.cells[m].output == s.table[a]
  }

  lemma NoneStale(s: Shape, a: Addr)
    requires ShapeOk(s, null, {})
    ensures NoStale(s, a)
  {
    hide Share, AllBit;
    forall m | m in s.cells && s.cells[m].input == a
      ensures a in s.table && s.cells[m].output == s.table[a]
    {
      assert NodeOk(s, m, null, {});
    }
  }

  lemma OverwriteOk(s: Shape, n: Node, out: Addr)
    requires ShapeOk(s, null, {}) && n in s.cells
    ensures s.cells[n].input in s.table
    ensures var s' := Overwrite(s, n, out); ShapeOk(s', null, {}) <==> NoStale(s', s.cells[n].input)
  {
    hide NodeOk;
    var s', net := Overwrite(s, n, out), s.cells[n].input;
    InTable(s, n);
    if ShapeOk(s', null, {}) {
      NoneStale(s', net);
    }
    if NoStale(s', net) {
      hide NoStale;
      assert s'.table.Keys == s.table.Keys && s'.cells.Keys == s.cells.Keys;
      if s.root != null { SameKeys(s, s'); }
      forall m | m in s'.cells
        ensures NodeOk(s', m, null, {})
      {
        OverwriteNode(s, n, out, m);
      }
    }
  }

  lemma InTable(s: Shape, n: Node)
    requires ShapeOk(s, null, {}) && n in s.cells
    ensures s.cells[n].input in s.table && s.table[s.cells[n].input] == s.cells[n].output
    ensures s.table[s.cells[n].input := s.cells[n].output] == s.table
  {
    hide Share, AllBit, Keys;
    assert NodeOk(s, n, null, {});
  }

  lemma OverwriteNode(s: Shape, n: Node, out: Addr, m: Node)
    requires ShapeOk(s, null, {}) && n in s.cells && m in s.cells
    requires NoStale(Overwrite(s, n, out), s.cells[n].input)
    ensures NodeOk(Overwrite(s, n, out), m, null, {})
  {
    hide Share, AllBit, Keys;
    var s' := Overwrite(s, n, out);
    assert NodeOk(s, m, null, {});
    SameKeys(s, s');
    assert s'.cells[m] == if m == n then s.cells[m].(output := out) else s.cells[m];
  }

  lemma SameKeys(s: Shape, s': Shape)
    requires s'.info == s.info
    ensures forall m :: m in s.info ==> Keys(s', m, null, {}) == Keys(s, m, null, {})
  {
  }

  // ---- Copies of a leaf ----

  /** Another node than `n` has a copy of `a`. */
  ghost predicate Copied(s: Shape, n: Node, a: Addr) {
    exists m :: m in s.cells && m != n && s.cells[m].input == a
  }

  ghost predicate Several(s: Shape, a: Addr) {
    exists n :: n in s.cells && s.cells[n].input == a && Copied(s, n, a)
  }

  /** Next to `z`, `a` goes to the 1 side. */
  ghost predicate OneSide(a: Addr, z: Addr) {
    1 <= FirstDiff(a.w, z.w) <= 32 && Bit(a.w, FirstDiff(a.w, z.w))
  }

  /** Once the trie has been searched for `a` more than one node has it. */
  ghost predicate Doubles(s: Shape, a: Addr) {
    if a in s.table then Several(s, a) else exists z :: Nearest(s.table, a, z) && OneSide(a, z)
  }

  lemma SeveralFrom(s: Shape, n: Node, a: Addr)
    requires n in s.cells && s.cells[n].input == a
    ensures Several(s, a) <==> Copied(s, n, a)
  {
    if Several(s, a) {
      var m :| m in s.cells && s.cells[m].input == a && Copied(s, m, a);
      assert Copied(s, n, a) by { if m == n { } }
    }
  }

  /** All nearest neighbours are equally near, so any of them tells the side. */
  lemma NearestTells(s: Shape, a: Addr, z: Addr)
    requires Nearest(s.table, a, z)
    ensures a !in s.table && (Doubles(s, a) <==> OneSide(a, z))
  {
    hide FirstDiff, Bit;
    if Doubles(s, a) {
      var y :| Nearest(s.table, a, y) && OneSide(a, y);
      assert FirstDiff(a.w, y.w) == FirstDiff(a.w, z.w);
    }
  }

  /** The side depends on the addresses and the nodes alone. */
  lemma SameDoubles(s: Shape, t: Shape, a: Addr)
    requires t.cells == s.cells && t.table == s.table
    ensures Doubles(s, a) <==> Doubles(t, a)
  {
    hide OneSide, Nearest;
    assert Several(s, a) <==> Several(t, a) by {
      assert forall n :: Copied(s, n, a) <==> Copied(t, n, a);
    }
  }

  lemma FoundDoubles(s: Shape, n: Node, a: Addr)
    requires n in s.cells && s.cells[n].input == a && a in s.table
    ensures Doubles(s, a) <==> Copied(s, n, a)
  {
    hide OneSide;
    SeveralFrom(s, n, a);
  }

  lemma NothingDoubles(s: Shape, a: Addr)
    requires ShapeOk(s, null, {}) && s.root == null
    ensures !Doubles(s, a)
  {
    hide OneSide, FirstDiff;
    EmptyTable(s);
  }

  lemma LeafNotCopied(n: Node, a: Addr, out: Addr)
    ensures !Copied(SingleLeaf(n, a, out), n, a)
  {
  }

  /** Overwriting an answer leaves no stale one behind just if there is no copy or no change. */
  lemma OverwriteStale(s: Shape, n: Node, out: Addr)
    requires ShapeOk(s, null, {}) && n in s.cells
    ensures var a := s.cells[n].input;
      a in s.table && (NoStale(Overwrite(s, n, out), a) <==> !Copied(s, n, a) || out == s.table[a])
  {
    hide ShapeOk;
    var a := s.cells[n].input;
    NoneStale(s, a);
    var t := Overwrite(s, n, out);
    if Copied(s, n, a) {
      var m :| m in s.cells && m != n && s.cells[m].input == a;
      assert t.cells[m] == s.cells[m];
    }
  }

  /** A new leaf has a copy in its parent just if it is the child on the 1 side. */
  lemma PeerCopied(p: Peering, s: Shape)
    requires p.Fits(s)
    ensures Copied(p.After(s), p.Peer(), p.a) <==> p.one
  {
    hide Share, AllBit, p.Moved;
    var t := p.After(s);
    p.AfterCells(s);
    forall m | m in s.cells
      ensures s.cells[m].input != p.a
    {
      assert NodeOk(s, m, p.n, {p.a});
    }
    if p.one {
      assert p.n in t.cells && p.n != p.Peer() && t.cells[p.n].input == p.a;
    }
  }

  // ---- When a network can be kept ----

  /** `out` in place of the answer `made` for `a` leaves the trie in order. */
  ghost predicate StaysInOrder(s: Shape, a: Addr, made: Addr, out: Addr) {
    Agrees(s.table - {a}, a, out.w) && (Doubles(s, a) ==> out == made)
  }

  /** The first `bits` bits of `a` can be kept: they settle where `a` leaves every other address,
      and no second node gets or has a copy of `a`. */
  ghost predicate Keepable(s: Shape, a: Addr, bits: bv32)
    requires bits < 32
  {
    AllSettled(s.table - {a}, a, bits) && !Doubles(s, a)
  }

  /** Whatever the random word, and whatever answer it replaces, the trie stays in order if and only
      if the network can be kept. */
  lemma KeepableExactly(s: Shape, a: Addr, bits: bv32, made: Addr)
    requires bits < 32
    ensures Keepable(s, a, bits) <==>
      forall random :: StaysInOrder(s, a, made, Addr(KeepWord(a.w, bits, random)))
  {
    hide Doubles, KeepWord, Agrees, AllSettled;
    AllSettledExactly(s.table - {a}, a, bits);
    AnotherOutput(a.w, bits, made.w);
    if Keepable(s, a, bits) {
      forall random ensures StaysInOrder(s, a, made, Addr(KeepWord(a.w, bits, random))) {
        assert Agrees(s.table - {a}, a, KeepWord(a.w, bits, random));
      }
    }
    if forall random :: StaysInOrder(s, a, made, Addr(KeepWord(a.w, bits, random))) {
      forall random ensures Agrees(s.table - {a}, a, KeepWord(a.w, bits, random)) {
        assert StaysInOrder(s, a, made, Addr(KeepWord(a.w, bits, random)));
      }
      assert StaysInOrder(s, a, made, Addr(KeepWord(a.w, bits, 0)));
      assert StaysInOrder(s, a, made, Addr(KeepWord(a.w, bits, 0xFFFF_FFFF)));
    }
  }

  ghost function SingleLeaf(n: Node, a: Addr, out: Addr): Shape {
    Shape(n, map[n := Cell(a, out, null, null)], map[n := Info({a}, 1, null)], map[a := out])
  }

  /** Writing over the output of the only leaf. */
  lemma FirstNet(n: Node, a: Addr, was: Addr, out: Addr)
    ensures n in SingleLeaf(n, a, was).cells && Overwrite(SingleLeaf(n, a, was), n, out) == SingleLeaf(n, a, out)
    ensures ShapeOk(SingleLeaf(n, a, out), null, {}) && Preserving(SingleLeaf(n, a, out).table)
  {
    SingleLeafOk(n, a, out);
  }

  /** Two networks can be kept one after the other: they part within the bits kept of both, and the
      second one on the 0 side. */
  ghost predicate Together(net1: Addr, bits1: bv32, net2: Addr, bits2: bv32) {
    || net2 == net1
    || (FirstDiff(net2.w, net1.w) <= bits1 && FirstDiff(net2.w, net1.w) <= bits2 && !OneSide(net2, net1))
  }

  lemma SecondNet(n: Node, net1: Addr, out: Addr, net2: Addr, bits2: bv32)
    requires bits2 < 32 && net1 != net2
    ensures Keepable(SingleLeaf(n, net1, out), net2, bits2) <==>
      Settled(net2.w, net1.w, out.w, bits2) && !OneSide(net2, net1)
  {
    hide FirstDiff, Settled, OneSide;
    var s := SingleLeaf(n, net1, out);
    assert s.table - {net2} == s.table;
    assert Nearest(s.table, net2, net1);
    NearestTells(s, net2, net1);
  }

  lemma SameNet(n: Node, net: Addr, out: Addr, bits: bv32)
    requires bits < 32
    ensures Keepable(SingleLeaf(n, net, out), net, bits)
  {
    hide FirstDiff, Settled;
    var s := SingleLeaf(n, net, out);
    assert s.table - {net} == map[];
    assert !Several(s, net);
  }

  /** After a first network a second one can be kept whatever the random words, if and only if the
      two go together. */
  lemma TogetherExactly(n: Node, net1: Addr, bits1: bv32, net2: Addr, bits2: bv32)
    requires bits1 < 32 && bits2 < 32
    ensures Together(net1, bits1, net2, bits2) <==>
      forall random :: Keepable(SingleLeaf(n, net1, Addr(KeepWord(net1.w, bits1, random))), net2, bits2)
  {
    hide FirstDiff, Keepable, SingleLeaf, KeepWord, OneSide, Prefix;
    hide Settled;
    if net1 == net2 {
      forall random ensures Keepable(SingleLeaf(n, net1, Addr(KeepWord(net1.w, bits1, random))), net2, bits2) {
        SameNet(n, net1, Addr(KeepWord(net1.w, bits1, random)), bits2);
      }
    } else {
      forall random
        ensures Keepable(SingleLeaf(n, net1, Addr(KeepWord(net1.w, bits1, random))), net2, bits2) <==>
          Settled(net2.w, net1.w, KeepWord(net1.w, bits1, random), bits2) && !OneSide(net2, net1)
      {
        SecondNet(n, net1, Addr(KeepWord(net1.w, bits1, random)), net2, bits2);
      }
      BothSettled(net2.w, net1.w, bits1, bits2);
    }
  }

  /** 10.0.0.0/8 and then 192.0.0.0/8: the second leaf is on the 1 side, and its parent has a copy of
      the answer that was made for it before. */
  lemma SecondOnOneSide(n: Node)
    ensures !Together(Addr(0x0A00_0000), 8, Addr(0xC000_0000), 8)
    ensures !StaysInOrder(SingleLeaf(n, Addr(0x0A00_0000), Addr(0x0A00_0000)), Addr(0xC000_0000),
      Addr(MakeOutput(0x0A00_0000, 1, 0)), Addr(KeepWord(0xC000_0000, 8, 1)))
  {
    var s := SingleLeaf(n, Addr(0x0A00_0000), Addr(0x0A00_0000));
    TenAnd192();
    hide FirstDiff, Bit, KeepWord, MakeOutput;
    assert Nearest(s.table, Addr(0xC000_0000), Addr(0x0A00_0000));
    NearestTells(s, Addr(0xC000_0000), Addr(0x0A00_0000));
  }

  lemma TenAnd192()
    ensures FirstDiff(0xC000_0000, 0x0A00_0000) == 1 && Bit(0xC000_0000, 1)
    ensures MakeOutput(0x0A00_0000, 1, 0) != KeepWord(0xC000_0000, 8, 1)
  {
  }

  /** 10.128.0.0/9 and then 10.0.0.0/8: the second leaf is on the 0 side, but the ninth bit is not
      kept of it, and the two answers no longer part there. */
  lemma SecondWithFewerBits(n: Node, made: Addr)
    ensures !Together(Addr(0x0A80_0000), 9, Addr(0x0A00_0000), 8)
    ensures !OneSide(Addr(0x0A00_0000), Addr(0x0A80_0000))
    ensures !StaysInOrder(SingleLeaf(n, Addr(0x0A80_0000), Addr(KeepWord(0x0A80_0000, 9, 0))), Addr(0x0A00_0000),
      made, Addr(KeepWord(0x0A00_0000, 8, 0x0080_0001)))
  {
    var s := SingleLeaf(n, Addr(0x0A80_0000), Addr(KeepWord(0x0A80_0000, 9, 0)));
    NinthBit();
    hide FirstDiff, Bit, KeepWord;
    var rest := s.table - {Addr(0x0A00_0000)};
    assert Addr(0x0A80_0000) in rest && rest[Addr(0x0A80_0000)] == Addr(KeepWord(0x0A80_0000, 9, 0));
  }

  lemma NinthBit()
    ensures FirstDiff(0x0A00_0000, 0x0A80_0000) == 9 && !Bit(0x0A00_0000, 9)
    ensures FirstDiff(KeepWord(0x0A00_0000, 8, 0x0080_0001), KeepWord(0x0A80_0000, 9, 0)) != 9
  {
  }

  lemma EmptyTable(s: Shape)
    requires ShapeOk(s, null, {}) && s.root == null
    ensures s.table == map[] && s.cells == map[]
  {
  }

  lemma SingleLeafOk(n: Node, a: Addr, out: Addr)
    ensures ShapeOk(SingleLeaf(n, a, out), null, {})
    ensures Preserving(SingleLeaf(n, a, out).table)
  {
    hide FirstDiff;
    FirstDiffSymmetric(a.w, a.w);
    FirstDiffSymmetric(out.w, out.w);
  }

  ghost predicate NoSpecial(table: map<Addr, Addr>) {
    ZERO !in table && ONES !in table
  }

  lemma EmptyOk()
    ensures ShapeOk(Shape(null, map[], map[], map[]), null, {}) && Preserving(map[]) && NoSpecial(map[])
  {
  }

  lemma StillNoSpecial(table: map<Addr, Addr>, a: Addr, out: Addr)
    requires NoSpecial(table) && a in table
    ensures NoSpecial(table[a := out])
  {
  }

  lemma NoSpecialAdded(table: map<Addr, Addr>, a: Addr, out: Addr)
    requires NoSpecial(table) && a != ZERO && a != ONES
    ensures NoSpecial(table[a := out]) && NoSpecial(map[a := out])
  {
  }

  const ZERO: Addr := Addr(0)
  const ONES: Addr := Addr(0xFFFF_FFFF)

  class Anonymizer {
    var root: Node?
    var nextFree: Node?
    var beforeAnonymization: bool
    const special0: Node
    const special1: Node

    var mapping: map<Addr, Addr>  // answers given so far, in network order

    ghost var free: seq<Node>
    ghost var s: Shape

    constructor ()
      ensures Valid() && MemoOk() && root == null && beforeAnonymization
      ensures s.cells == map[] && free == []
      ensures fresh(special0) && fresh(special1)
      ensures special0.c.output == ZERO && special1.c.output == ONES
    {
      hide FirstDiff, NoSpecial, Swap, Special, ShapeOk, Preserving;
      EmptyOk();
      root, nextFree, beforeAnonymization, mapping := null, null, true, map[];
      special0 := new Node(ZERO);
      special1 := new Node(ONES);
      free, s := [], Shape(null, map[], map[], map[]);
    }

    // ---- The pool ----

    static ghost function At(list: seq<Node>, i: nat): Node? {
      if i < |list| then list[i] else null
    }

    ghost predicate PoolOk()
      reads this`nextFree, this`free, this`s, free
    {
      && nextFree == At(free, 0)
      && (forall i :: 0 <= i < |free| ==> free[i] !in s.cells && free[i] != special0 && free[i] != special1)
      && (forall i, j :: 0 <= i < j < |free| ==> free[i] != free[j])
      && (forall i :: 0 <= i < |free| ==> free[i].c.child0 == At(free, i + 1))
    }

    /** A block of fresh nodes: the first is handed out, the others become the free list. */
    method NewNodeBlock() returns (n: Node)
      requires PoolOk() && nextFree == null
      modifies this`nextFree, this`free
      ensures PoolOk() && fresh(n) && n !in free && n !in s.cells && n != special0 && n != special1
      ensures forall x :: x in free ==> fresh(x)
      ensures |free| == BLOCK_SIZE - 1
    {
      var block: seq<Node> := [];
      while |block| < BLOCK_SIZE
        invariant |block| <= BLOCK_SIZE
        invariant forall i :: 0 <= i < |block| ==> fresh(block[i]) && block[i].c.child0 == null
        invariant forall i, j :: 0 <= i < j < |block| ==> block[i] != block[j]
        decreases BLOCK_SIZE - |block|
      {
        var x := new Node(ZERO);
        block := block + [x];
      }
      var i := 1;
      while i < BLOCK_SIZE - 1
        invariant 1 <= i <= BLOCK_SIZE - 1
        invariant forall k :: 1 <= k < i ==> block[k].c.child0 == block[k + 1]
        invariant block[BLOCK_SIZE - 1].c.child0 == null
        modifies block[1..]
      {
        block[i].c := block[i].c.(child0 := block[i + 1]);
        i := i + 1;
      }
      nextFree := block[1];
      free := block[1..];
      n := block[0];
    }

    /** Never hands out a node that is in the tree or still on the free list. */
    method NewNode() returns (n: Node)
      requires PoolOk()
      modifies this`nextFree, this`free
      ensures PoolOk()
      ensures n !in free && n !in s.cells && n != special0 && n != special1
      ensures fresh(n) || n in old(free)
      ensures forall x :: x in free ==> x in old(free) || fresh(x)
    {
      if nextFree != null {
        n := nextFree;
        assert n == free[0] && n.c.child0 == At(free, 1) == At(free[1..], 0);
        nextFree := n.c.child0;
        free := free[1..];
      } else {
        n := NewNodeBlock();
      }
    }

    method NewPair() returns (n0: Node, n1: Node)
      requires PoolOk()
      modifies this`nextFree, this`free
      ensures PoolOk() && n0 != n1
      ensures n0 !in free && n0 !in s.cells && n0 != special0 && n0 != special1
      ensures n1 !in free && n1 !in s.cells && n1 != special0 && n1 != special1
      ensures (fresh(n0) || n0 in old(free)) && (fresh(n1) || n1 in old(free))
      ensures forall x :: x in free ==> x in old(free) || fresh(x)
    {
      n0 := NewNode();
      n1 := NewNode();
    }

    /** Everything the trie and the pool are made of. */
    ghost function Nodes(): set<Node>
      reads this`s, this`free
    {
      s.cells.Keys + set x | x in free
    }

    // ---- The trie ----

    ghost predicate Synced()
      reads this`root, this`s, s.cells.Keys
    {
      && root == s.root
      && special0 !in s.cells && special1 !in s.cells && special0 != special1
      && forall m :: m in s.cells ==> m.c == s.cells[m]
    }

    ghost predicate Valid()
      reads this, s.cells.Keys, free
    {
      && Synced() && PoolOk()
      && ShapeOk(s, null, {})
      && Preserving(s.table)
      && NoSpecial(s.table)
    }

    ghost predicate CanSplit(a: Addr, n: Node)
      reads this`s
    {
      && ShapeOk(s, n, {a}) && n in s.cells && a !in s.table && Preserving(s.table)
      && LeaveTogether(s.info[n].keys, a, s.cells[n].input)
      && Nearest(s.table, a, s.cells[n].input)
    }

    /** Decides what goes into the two new nodes and into `n`. */
    method PlanPeer(a: Addr, n: Node, down0: Node, down1: Node) returns (p: Peering)
      requires Synced() && CanSplit(a, n)
      requires down0 !in s.cells && down1 !in s.cells && down0 != down1
      ensures p.Fits(s) && p.n == n && p.a == a && p.down0 == down0 && p.down1 == down1
      ensures Preserving(s.table[a := p.out]) && (p.one <==> OneSide(a, n.c.input))
    {
      hide Prefix, Bit, FirstDiff, Preserving, Nearest, Share, AllBit, LeaveTogether;
      assert NodeOk(s, n, n, {a});
      var swivel, one, out := ChooseOutput(s.table, a, n.c.input, n.c.output);
      p := Peering(n, down0, down1, one, a, out, swivel);
      PeeringFits(p);
    }

    /** The swivel, its bit in `a`, and an output for `a` made from that of `z`. */
    static method ChooseOutput(ghost table: map<Addr, Addr>, a: Addr, z: Addr, zOut: Addr)
      returns (swivel: bv32, one: bool, out: Addr)
      requires Nearest(table, a, z) && Preserving(table) && table[z] == zOut
      ensures swivel == FirstDiff(a.w, z.w) && 1 <= swivel <= 32
      ensures one <==> Bit(a.w, swivel)
      ensures Preserving(table[a := out])
    {
      hide Bit, FirstDiff, MakeOutput, Preserving;
      swivel := FirstDiff(a.w, z.w);
      FirstDiffFacts(a.w, z.w);
      TestBit(a.w, swivel);
      one := BitSet(a, swivel);
      var random: bv32 := *;
      out := Addr(MakeOutput(zOut.w, swivel, random));
      ExtendPreserves(table, a, z, random);
    }

    method MakePeer(a: Addr, n: Node) returns (peer: Node)
      requires Synced() && PoolOk() && CanSplit(a, n)
      modifies this`nextFree, this`free, this`s, s.cells.Keys, free
      ensures Synced() && PoolOk()
      ensures ShapeOk(s, null, {}) && Preserving(s.table)
      ensures peer in s.cells && peer.c.input == a
      ensures a !in old(s.table) && s.table == old(s.table)[a := peer.c.output]
      ensures Copied(s, peer, a) <==> old(Doubles(s, a))
      ensures forall x :: x in s.cells ==> x in old(s.cells) || x in old(free) || fresh(x)
      ensures forall x :: x in free ==> x in old(free) || fresh(x)
    {
      hide Preserving, ShapeOk, NodeOk, Share, AllBit, LeaveTogether, Nearest;
      hide Peering.Fits, Peering.After, PoolOk, Copied, Doubles, OneSide;
      var down0, down1 := NewPair();
      var p := PlanPeer(a, n, down0, down1);
      p.AfterOk(s);
      p.AfterCells(s);
      PeerCopied(p, s);
      NearestTells(s, a, s.cells[n].input);
      peer := Rewrite(p);
    }

    method Rewrite(p: Peering) returns (peer: Node)
      requires Synced() && PoolOk() && p.Fits(s)
      requires p.down0 !in free && p.down1 !in free
      requires {p.down0, p.down1} !! {special0, special1}
      modifies this`s, p.n, p.down0, p.down1
      ensures s == p.After(old(s)) && Synced() && PoolOk()
      ensures peer == p.Peer() && peer.c == Cell(p.a, p.out, null, null)
    {
      hide p.Fits, p.After, p.Parent, p.Peer, p.Copy;
      p.AfterCells(s);
      p.Downs();
      peer := WriteNodes(p);
      s := p.After(s);
    }

    /** The three nodes, one after the other. */
    static method WriteNodes(p: Peering) returns (peer: Node)
      requires p.n != p.down0 && p.n != p.down1 && p.down0 != p.down1
      modifies p.n, p.down0, p.down1
      ensures peer == p.Peer() && peer.c == Cell(p.a, p.out, null, null)
      ensures p.Copy().c == old(p.n.c) && p.n.c == p.Parent(old(p.n.c))
    {
      peer := if p.one then p.down1 else p.down0;
      var copy := if p.one then p.down0 else p.down1;
      peer.c := Cell(p.a, p.out, null, null);
      copy.c := p.n.c;
      p.n.c := Cell(p.down1.c.input, p.down1.c.output, p.down0, p.down1);
    }

    lemma PeeringFits(p: Peering)
      requires Synced() && ShapeOk(s, p.n, {p.a}) && p.n in s.cells && p.a !in s.table
      requires p.down0 !in s.cells && p.down1 !in s.cells && p.down0 != p.down1
      requires p.swivel == FirstDiff(p.a.w, p.n.c.input.w) && 1 <= p.swivel <= 32
      requires p.one <==> Bit(p.a.w, p.swivel)
      requires LeaveTogether(s.info[p.n].keys, p.a, p.n.c.input)
      ensures p.Fits(s)
      ensures p.n.c.input in s.table && s.table[p.n.c.input] == p.n.c.output
    {
      hide Prefix, Bit, FirstDiff;
      assert NodeOk(s, p.n, p.n, {p.a});
      PeerBits(s.info[p.n].keys, p.n.c.input, p.a, p.swivel);
    }
  
    /** The first bit in which the two children differ. */
    method SwivelOf(n: Node, ghost a: Addr) returns (swivel: bv32)
      requires Synced() && ShapeOk(s, n, {a}) && n in s.cells && n.c.child0 != null
      ensures n.c.child1 != null && n in s.info && swivel == s.info[n].swivel && 1 <= swivel <= 32
    {
      hide Prefix, Bit, FirstDiff, Share, AllBit;
      ChildrenPartAtSwivel(s, n, n, {a});
      swivel := FirstDiff(n.c.child0.c.input.w, n.c.child1.c.input.w);
    }

    /** One turn of the loop in `find_node`: the child to go to, or null when `a` leaves the
        trie at `n`. */
    method Advance(a: Addr, n: Node, ghost d: bv32) returns (next: Node?, ghost d': bv32)
      requires Synced() && Preserving(s.table) && Searching(s, n, a, d) && n.c.input != a
      modifies this`s
      ensures Synced() && s.cells == old(s.cells) && s.table == old(s.table)
      ensures next == null ==> s == old(s) && CanSplit(a, n)
      ensures next != null ==> Searching(s, next, a, d') && d < d' <= 32
    {
      hide Prefix, Bit, FirstDiff, Preserving, Nearest, Share, AllBit, LeaveTogether, Apart, BitSet, NodeOk, ShapeOk;
      InfoThere(s, n, a, d);
      d' := d;
      if n.c.child0 == null {
        SplitHere(s, n, a, d);
        return null, d;
      }
      var swivel := SwivelOf(n, a);
      if FirstDiff(a.w, n.c.input.w) < swivel {
        SplitHere(s, n, a, d);
        return null, d;
      }
      GoDown(s, n, a, d);
      next := if BitSet(a, swivel) then n.c.child1 else n.c.child0;
      s, d' := Descend(s, n, a), swivel;
    }

    static predicate BitSet(a: Addr, swivel: bv32)
      requires 1 <= swivel <= 32
      ensures BitSet(a, swivel) == Bit(a.w, swivel)
    {
      TestBit(a.w, swivel);
      a.w & (1 << (32 - swivel)) != 0
    }

    /** Walks down from the root; splits a node where `a` leaves the trie. */
    method Search(a: Addr) returns (n: Node)
      requires Valid() && root != null && a != ZERO && a != ONES
      modifies this`nextFree, this`free, this`s, s.cells.Keys, free
      ensures Valid()
      ensures n in s.cells && n.c.input == a && a in s.table && s.table[a] == n.c.output
      ensures s.table == old(s.table)[a := n.c.output]
      ensures a in old(s.table) ==> s.table == old(s.table)
      ensures Copied(s, n, a) <==> old(Doubles(s, a))
      ensures forall x :: x in s.cells ==> x in old(s.cells) || x in old(free) || fresh(x)
      ensures forall x :: x in free ==> x in old(free) || fresh(x)
    {
      hide Preserving, ShapeOk, CanSplit, Share, Apart, NoSpecial, Copied, Doubles;
      n := root;
      ghost var d: bv32 := 0;
      StartSearch(s, a);
      while n.c.input != a
        invariant Synced() && PoolOk() && Preserving(s.table)
        invariant n in s.cells && Searching(s, n, a, d)
        invariant s.table == old(s.table) && s.cells == old(s.cells) && free == old(free)
        decreases 32 - d
      {
        var next;
        ghost var d';
        next, d' := Advance(a, n, d);
        if next == null {
          SameDoubles(old(s), s, a);
          n := MakePeer(a, n);
          NoSpecialAdded(old(s.table), a, n.c.output);
          return;
        }
        n, d := next, d';
      }
      NothingAdded(s, n, a);
      SameDoubles(old(s), s, a);
      FoundDoubles(s, n, a);
    }
  
    method FindNode(a: Addr) returns (n: Node)
      requires Valid()
      modifies this`root, this`nextFree, this`free, this`s, s.cells.Keys, free
      ensures Valid()
      ensures Special(a) ==> n == SpecialNode(a) && s == old(s)
      ensures !Special(a) ==> n in s.cells && n.c.input == a && a in s.table && s.table[a] == n.c.output
      ensures !Special(a) ==> s.table == old(s.table)[a := n.c.output]
      ensures a in old(s.table) ==> s.table == old(s.table)
      ensures !Special(a) && old(root) == null ==> s == SingleLeaf(n, a, n.c.output)
      ensures !Special(a) ==> (Copied(s, n, a) <==> old(Doubles(s, a)))
      ensures forall x :: x in s.cells ==> x in old(s.cells) || x in old(free) || fresh(x)
      ensures forall x :: x in free ==> x in old(free) || fresh(x)
    {
      hide Preserving, ShapeOk, FirstDiff, NoSpecial, Copied, Doubles;
      if a == ZERO || a == ONES {
        return if a == ZERO then special0 else special1;
      }
      if root == null {
        NothingDoubles(s, a);
        n := PlantRoot(a);
        assert s.table == map[a := n.c.output];
        LeafNotCopied(n, a, n.c.output);
      } else {
        n := Search(a);
      }
    }

    method PlantRoot(a: Addr) returns (n: Node)
      requires Valid() && root == null && !Special(a)
      modifies this`root, this`nextFree, this`free, this`s, free
      ensures Valid() && n.c.input == a && s == SingleLeaf(n, a, n.c.output)
      ensures fresh(n) || n in old(free)
      ensures forall x :: x in free ==> x in old(free) || fresh(x)
      ensures old(s.table) == map[]
    {
      hide Preserving, FirstDiff, ShapeOk, NoSpecial;
      EmptyTable(s);
      NoSpecialAdded(s.table, a, a);
      n := NewNode();
      var random: bv32 := *;
      n.c := Cell(a, Addr(random), null, null);
      root := n;
      Adopt(n, a, Addr(random));
    }

    /** `n` is the only node of the trie. */
    ghost method Adopt(n: Node, a: Addr, out: Addr)
      requires PoolOk() && n !in free && n != special0 && n != special1 && special0 != special1
      requires n.c == Cell(a, out, null, null) && root == n
      requires NoSpecial(map[a := a])
      modifies this`s
      ensures Valid() && s == SingleLeaf(n, a, out)
    {
      hide Preserving, FirstDiff, ShapeOk;
      SingleLeafOk(n, a, out);
      s := SingleLeaf(n, a, out);
      assert Synced();
      assert PoolOk();
    }

    predicate Special(a: Addr) {
      a == ZERO || a == ONES
    }

    function SpecialNode(a: Addr): Node {
      if a == ZERO then special0 else special1
    }

    /** Keeps the first `bits` bits of the address of a network, unless it is 0.0.0.0, which is not
        in the trie.  `random` fills the rest of its new answer; `made` is the answer it replaces. */
    method PreservePrefix(input: Addr, bits: bv32, random: bv32) returns (ok: bool, ghost made: Addr)
      requires Valid() && bits < 32
      modifies this`root, this`nextFree, this`free, this`s, Nodes(), special0
      ensures ok == beforeAnonymization && Synced() && PoolOk()
      ensures !ok || Net(input, bits) == ZERO ==> Valid() && s == old(s)
      ensures ok && Net(input, bits) != ZERO ==> Kept(old(s.table), s.table, Net(input, bits), bits)
      ensures ok && Net(input, bits) != ZERO ==>
        var out := Addr(KeepWord(Net(input, bits).w, bits, random));
        s.table[Net(input, bits)] == out && (Valid() <==> old(StaysInOrder(s, Net(input, bits), made, out)))
      ensures ok && old(root) == null && Net(input, bits) != ZERO ==>
        exists n :: s == SingleLeaf(n, Net(input, bits), Addr(KeepWord(Net(input, bits).w, bits, random)))
      ensures old(root) == null ==> Valid()
      ensures fresh(Nodes() - old(Nodes()))
    {
      hide Preserving, ShapeOk, FirstDiff, Net, Prefix, NoSpecial, Kept, StaysInOrder, KeepWord, SingleLeaf;
      var net := Net(input, bits);
      NetIsNotOnes(input, bits);
      if bits == 0 { NoBits(input); }
      made := ZERO;
      if !beforeAnonymization {
        return false, made;
      }
      made := KeepNet(net, bits, random);
      return true, made;
    }

    /** What `PreservePrefix` does before any lookup. */
    method KeepNet(net: Addr, bits: bv32, random: bv32) returns (ghost made: Addr)
      requires Valid() && bits < 32 && net != ONES && (bits == 0 ==> net == ZERO)
      modifies this`root, this`nextFree, this`free, this`s, Nodes(), special0
      ensures Synced() && PoolOk() && (net == ZERO ==> Valid() && s == old(s))
      ensures net != ZERO ==>
        var out := Addr(KeepWord(net.w, bits, random));
        Kept(old(s.table), s.table, net, bits) && s.table[net] == out
        && (Valid() <==> old(StaysInOrder(s, net, made, out)))
      ensures old(root) == null && net != ZERO ==>
        exists n :: s == SingleLeaf(n, net, Addr(KeepWord(net.w, bits, random)))
      ensures old(root) == null ==> Valid()
      ensures fresh(Nodes() - old(Nodes()))
    {
      hide Preserving, ShapeOk, FirstDiff, Prefix, NoSpecial, SingleLeaf, Synced, PoolOk, Copied, Doubles, KeepWord;
      hide Agrees;
      var n := FindNode(net);
      made := n.c.output;
      assert net != ZERO ==> s.table - {net} == old(s.table) - {net};
      if bits > 0 {
        KeepOutput(n, net, bits, random);
      }
    }

    /** The answer at `n` is written over. */
    method KeepOutput(n: Node, net: Addr, bits: bv32, random: bv32)
      requires Valid() && 0 < bits < 32 && net != ONES
      requires if net == ZERO then n == special0 else n in s.cells && n.c.input == net
      modifies this`s, n
      ensures Synced() && PoolOk() && s.cells.Keys == old(s.cells.Keys) && (net == ZERO ==> Valid() && s == old(s))
      ensures net != ZERO ==>
        var out := Addr(KeepWord(net.w, bits, random));
        Kept(old(s.table), s.table, net, bits) && s.table[net] == out
        && (Valid() <==>
          Agrees(old(s.table) - {net}, net, out.w) && (old(Copied(s, n, net)) ==> out == old(n.c.output)))
      ensures net != ZERO && old(s) == SingleLeaf(n, net, old(n.c.output)) ==>
        Valid() && s == SingleLeaf(n, net, Addr(KeepWord(net.w, bits, random)))
    {
      hide Preserving, ShapeOk, FirstDiff, Prefix, KeepWord, NoSpecial, NoStale, Overwrite, SingleLeaf, Copied, Agrees;
      KeepWordPrefix(net.w, bits, random);
      var out := Addr(KeepWord(net.w, bits, random));
      FirstNet(n, net, n.c.output, out);
      if net != ZERO {
        OverwriteStale(s, n, out);
        InTable(s, n);
        RewriteExactly(s.table, net, n.c.output, out);
      }
      SetOutput(n, net, out);
    }

    method SetOutput(n: Node, net: Addr, out: Addr)
      requires Valid() && net != ONES
      requires if net == ZERO then n == special0 else n in s.cells && n.c.input == net
      modifies this`s, n
      ensures Synced() && PoolOk() && NoSpecial(s.table)
      ensures s == if net == ZERO then old(s) else Overwrite(old(s), n, out)
      ensures s.cells.Keys == old(s.cells.Keys)
      ensures net != ZERO ==> net in old(s.table) && s.table == old(s.table)[net := out]
      ensures ShapeOk(s, null, {}) <==> NoStale(s, net)
    {
      hide Preserving, ShapeOk, FirstDiff, NoSpecial, NoStale;
      NoneStale(s, net);
      if net == ZERO {
        n.c := n.c.(output := out);
        assert PoolOk();
      } else {
        OverwriteOk(s, n, out);
        StillNoSpecial(s.table, net, out);
        n.c := n.c.(output := out);
        s := Overwrite(s, n, out);
        assert PoolOk();
      }
    }

    // ---- Lookups ----

    /** What the trie and the special nodes answer for an address in network order. */
    ghost predicate Answers(a: Addr, out: Addr)
      reads this`s, special0, special1
    {
      if Special(Swap(a)) then out == Swap(SpecialNode(Swap(a)).c.output)
      else Swap(a) in s.table && out == Swap(s.table[Swap(a)])
    }

    /** Every remembered answer is still what the trie says. */
    ghost predicate MemoOk()
      reads this`mapping, this`s, special0, special1
    {
      forall a :: a in mapping ==> Answers(a, mapping[a])
    }

    /** Answers never change: the table only grows. */
    ghost predicate Grows(before: map<Addr, Addr>, after: map<Addr, Addr>) {
      forall x :: x in before ==> x in after && after[x] == before[x]
    }

    method LookUp(a: Addr) returns (out: Addr)
      requires Valid()
      modifies this`root, this`nextFree, this`free, this`s, this`beforeAnonymization, Nodes()
      ensures Valid() && !beforeAnonymization
      ensures Answers(a, out) && Grows(old(s.table), s.table)
      ensures forall x, o :: old(Answers(x, o)) ==> Answers(x, o)
      ensures fresh(Nodes() - old(Nodes()))
    {
      hide Preserving, ShapeOk, FirstDiff, NoSpecial, Swap, SingleLeaf;
      beforeAnonymization := false;
      var n := FindNode(Swap(a));
      out := Swap(n.c.output);
      assert Grows(old(s.table), s.table);
    }

    method Anonymize(a: Addr) returns (out: Addr)
      requires Valid() && MemoOk()
      modifies this, Nodes()
      ensures Valid() && MemoOk()
      ensures Answers(a, out) && Grows(old(s.table), s.table)
      ensures forall x, o :: old(Answers(x, o)) ==> Answers(x, o)
      ensures fresh(Nodes() - old(Nodes()))
    {
      hide Preserving, ShapeOk, FirstDiff, NoSpecial, Swap, Special, Answers;
      if a in mapping {
        return mapping[a];
      }
      out := LookUp(a);
      Remember(a, out);
    }

    method Remember(a: Addr, out: Addr)
      requires Valid() && MemoOk() && Answers(a, out)
      modifies this`mapping
      ensures Valid() && MemoOk()
    {
      hide Preserving, ShapeOk, NoSpecial, Answers, PoolOk, Synced;
      mapping := mapping[a := out];
    }

    /** Any run of lookups with any random numbers: two answers first differ in the bit in
        which the addresses first differ, so equal addresses get equal answers and different
        addresses different ones. */
    method Run(inputs: seq<Addr>) returns (outputs: seq<Addr>)
      requires Valid() && MemoOk()
      modifies this, Nodes()
      ensures Valid() && MemoOk() && Grows(old(s.table), s.table)
      ensures |outputs| == |inputs| && forall i :: 0 <= i < |inputs| ==> Answers(inputs[i], outputs[i])
      ensures forall i, j ::
        0 <= i < |inputs| && 0 <= j < |inputs| && !Special(Swap(inputs[i])) && !Special(Swap(inputs[j])) ==>
        FirstDiff(Swap(outputs[i]).w, Swap(outputs[j]).w) == FirstDiff(Swap(inputs[i]).w, Swap(inputs[j]).w)
    {
      hide ShapeOk, FirstDiff, NoSpecial, Swap, Special, Preserving, Answers;
      outputs := [];
      for i := 0 to |inputs|
        invariant Valid() && MemoOk() && Grows(old(s.table), s.table)
        invariant |outputs| == i && forall k :: 0 <= k < i ==> Answers(inputs[k], outputs[k])
        invariant fresh(Nodes() - old(Nodes()))
      {
        var out := Anonymize(inputs[i]);
        outputs := outputs + [out];
      }
      forall i, j | 0 <= i < |inputs| && 0 <= j < |inputs| && !Special(Swap(inputs[i])) && !Special(Swap(inputs[j]))
        ensures FirstDiff(Swap(outputs[i]).w, Swap(outputs[j]).w) == FirstDiff(Swap(inputs[i]).w, Swap(inputs[j]).w)
      {
        AnswersPreserve(inputs[i], inputs[j], outputs[i], outputs[j]);
      }
    }

    lemma AnswersPreserve(a: Addr, b: Addr, outA: Addr, outB: Addr)
      requires Preserving(s.table) && Answers(a, outA) && Answers(b, outB)
      requires !Special(Swap(a)) && !Special(Swap(b))
      ensures FirstDiff(Swap(outA).w, Swap(outB).w) == FirstDiff(Swap(a).w, Swap(b).w)
    {
      hide FirstDiff, Swap, Special;
      SwapTwice(s.table[Swap(a)]);
      SwapTwice(s.table[Swap(b)]);
    }

    predicate InNet(a: Addr, net: Addr, bits: bv32)
      requires bits < 32
    {
      !Special(Swap(a)) && Prefix(Swap(a).w, bits) == Prefix(Net(net, bits).w, bits)
    }

    /** The same after keeping the prefix of one network: its addresses keep their first
        `bits` bits. */
    method RunInNet(net: Addr, bits: bv32, inputs: seq<Addr>) returns (outputs: seq<Addr>)
      requires Valid() && MemoOk() && root == null && beforeAnonymization && mapping == map[]
      requires 0 < bits < 32 && Net(net, bits) != ZERO
      modifies this, Nodes(), special0
      ensures |outputs| == |inputs|
      ensures forall i :: 0 <= i < |inputs| ==> KeepsNet(inputs[i], outputs[i], net, bits)
    {
      hide ShapeOk, FirstDiff, NoSpecial, Swap, Special, Prefix, Net, Preserving, KeepWord, KeepsNet, MemoOk, Answers;
      var random: bv32 := *;
      var _, _ := PreservePrefix(net, bits, random);
      NothingRemembered();
      outputs := RunOn(net, bits, net, bits, inputs);
    }

    lemma NothingRemembered()
      ensures mapping == map[] ==> MemoOk()
    {
    }

    /** The second of two networks that go together. */
    method KeepSecond(first: Addr, bits1: bv32, ghost random1: bv32, ghost n: Node, second: Addr, bits2: bv32)
      requires Valid() && beforeAnonymization && bits1 < 32 && bits2 < 32
      requires Net(first, bits1) != ZERO && Net(second, bits2) != ZERO
      requires s == SingleLeaf(n, Net(first, bits1), Addr(KeepWord(Net(first, bits1).w, bits1, random1)))
      requires Together(Net(first, bits1), bits1, Net(second, bits2), bits2)
      modifies this`root, this`nextFree, this`free, this`s, Nodes(), special0
      ensures Valid() && Kept(old(s.table), s.table, Net(second, bits2), bits2)
      ensures fresh(Nodes() - old(Nodes()))
    {
      hide ShapeOk, FirstDiff, NoSpecial, Prefix, Net, Preserving, Keepable, StaysInOrder, KeepWord, Together, Kept;
      hide SingleLeaf;
      ghost var (net1, net2, before) := (Net(first, bits1), Net(second, bits2), s);
      TogetherExactly(n, net1, bits1, net2, bits2);
      assert Keepable(before, net2, bits2);
      var random: bv32 := *;
      var _, made := PreservePrefix(second, bits2, random);
      KeepableExactly(before, net2, bits2, made);
      assert StaysInOrder(before, net2, made, Addr(KeepWord(net2.w, bits2, random)));
    }

    method KeepBoth(first: Addr, bits1: bv32, second: Addr, bits2: bv32)
      requires Valid() && root == null && beforeAnonymization && bits1 < 32 && bits2 < 32
      requires Net(first, bits1) != ZERO && Net(second, bits2) != ZERO
      requires Together(Net(first, bits1), bits1, Net(second, bits2), bits2)
      modifies this`root, this`nextFree, this`free, this`s, Nodes(), special0
      ensures Valid() && InPlace(s.table, Net(second, bits2), bits2)
      ensures Net(first, bits1) != Net(second, bits2) ==> InPlace(s.table, Net(first, bits1), bits1)
      ensures fresh(Nodes() - old(Nodes()))
    {
      hide Valid, FirstDiff, Prefix, Net, KeepWord, Together, StaysInOrder, SingleLeaf, Kept, InPlace, Synced, PoolOk;
      ghost var empty := s.table;
      var random: bv32 := *;
      var _, _ := PreservePrefix(first, bits1, random);
      ghost var one := s.table;
      ghost var n :| s == SingleLeaf(n, Net(first, bits1), Addr(KeepWord(Net(first, bits1).w, bits1, random)));
      KeepSecond(first, bits1, random, n, second, bits2);
      BothInPlace(empty, one, s.table, Net(first, bits1), bits1, Net(second, bits2), bits2);
    }

    /** After two networks that go together the addresses of both keep their first bits. */
    method RunInTwoNets(first: Addr, bits1: bv32, second: Addr, bits2: bv32, inputs: seq<Addr>)
      returns (outputs: seq<Addr>)
      requires Valid() && root == null && beforeAnonymization && mapping == map[]
      requires bits1 < 32 && bits2 < 32 && Net(first, bits1) != ZERO && Net(second, bits2) != ZERO
      requires Together(Net(first, bits1), bits1, Net(second, bits2), bits2)
      modifies this, Nodes(), special0
      ensures |outputs| == |inputs|
      ensures forall i :: 0 <= i < |inputs| ==> KeepsNet(inputs[i], outputs[i], second, bits2)
      ensures Net(first, bits1) != Net(second, bits2) ==>
        forall i :: 0 <= i < |inputs| ==> KeepsNet(inputs[i], outputs[i], first, bits1)
    {
      hide Valid, FirstDiff, Net, Together, KeepsNet, InPlace, MemoOk, Answers, Special;
      KeepBoth(first, bits1, second, bits2);
      NothingRemembered();
      outputs := RunOn(second, bits2, first, bits1, inputs);
    }

    /** Any run, with up to two networks in place. */
    method RunOn(net: Addr, bits: bv32, other: Addr, otherBits: bv32, inputs: seq<Addr>) returns (outputs: seq<Addr>)
      requires Valid() && MemoOk() && bits < 32 && otherBits < 32 && InPlace(s.table, Net(net, bits), bits)
      modifies this, Nodes()
      ensures |outputs| == |inputs|
      ensures forall i :: 0 <= i < |inputs| ==> KeepsNet(inputs[i], outputs[i], net, bits)
      ensures old(InPlace(s.table, Net(other, otherBits), otherBits)) ==>
        forall i :: 0 <= i < |inputs| ==> KeepsNet(inputs[i], outputs[i], other, otherBits)
    {
      hide ShapeOk, FirstDiff, NoSpecial, Swap, Special, Net, Prefix, Preserving, KeepsNet, Answers, InNet, Synced;
      ghost var before := s.table;
      outputs := Run(inputs);
      forall i | 0 <= i < |inputs|
        ensures KeepsNet(inputs[i], outputs[i], net, bits)
        ensures InPlace(before, Net(other, otherBits), otherBits) ==> KeepsNet(inputs[i], outputs[i], other, otherBits)
      {
        AnswerKeepsNet(inputs[i], outputs[i], net, bits);
        if InPlace(before, Net(other, otherBits), otherBits) {
          AnswerKeepsNet(inputs[i], outputs[i], other, otherBits);
        }
      }
    }

    /** An address of the network has its first bits in the answer. */
    predicate KeepsNet(a: Addr, out: Addr, net: Addr, bits: bv32)
      requires bits < 32
    {
      InNet(a, net, bits) ==> Prefix(Swap(out).w, bits) == Prefix(Swap(a).w, bits)
    }

    lemma AnswerKeepsNet(a: Addr, out: Addr, net: Addr, bits: bv32)
      requires bits < 32 && Preserving(s.table) && Answers(a, out) && InPlace(s.table, Net(net, bits), bits)
      ensures KeepsNet(a, out, net, bits)
    {
      hide FirstDiff, Swap, Special, Prefix, Net, Preserving;
      if InNet(a, net, bits) {
        SwapTwice(s.table[Swap(a)]);
        NetKeepsPrefix(s.table, Net(net, bits), Swap(a), bits);
      }
    }
  }

  /** `ntohl` and `htonl` on a little-endian host. */
  function Swap(a: Addr): Addr {
    Addr(Ntohl(a.w))
  }

  lemma SwapTwice(a: Addr)
    ensures Swap(Swap(a)) == a
  {
    hide Ntohl;
    NtohlInvolution(a.w);
  }

  /** The address in host order, with everything after the first `bits` bits cleared. */
  function Net(input: Addr, bits: bv32): Addr
    requires bits < 32
  {
    Addr(Ntohl(input.w) & !(0xFFFF_FFFF >> bits))
  }

  lemma NetIsNotOnes(input: Addr, bits: bv32)
    requires bits < 32
    ensures Net(input, bits) != ONES
  {
  }

  lemma NoBits(input: Addr)
    ensures Net(input, 0) == ZERO
  {
  }

}
