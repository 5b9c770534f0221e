/**
  Forests given by parent links, each node with the set of nodes at or below it. Cutting a
  node off its parent and grafting a tree under a node outside it keep a forest a forest.
 */
module Forest {
  /** `up` has the parent of every linked node; `below` the node itself and its descendants. */
  ghost predicate Covers<T>(nodes: set<T>, up: map<T, T>, below: map<T, set<T>>) {
    && up.Keys <= nodes && up.Values <= nodes && below.Keys == nodes
    && forall n | n in nodes :: n in below[n] && below[n] <= nodes
  }

  ghost predicate ParentsAbove<T>(nodes: set<T>, up: map<T, T>, below: map<T, set<T>>)
    requires Covers(nodes, up, below)
  {
    forall x | x in up :: up[x] in nodes && x in below[up[x]] && up[x] !in below[x]
  }

  ghost predicate ChainsStay<T>(nodes: set<T>, up: map<T, T>, below: map<T, set<T>>)
    requires Covers(nodes, up, below)
  {
    forall n, x | n in nodes && x in below[n] && x != n :: x in up && up[x] in below[n]
  }

  ghost predicate Transitive<T>(nodes: set<T>, below: map<T, set<T>>)
    requires below.Keys == nodes
  {
    forall n, x, z | n in nodes && x in below[n] && x in nodes && z in below[x] :: z in below[n]
  }

  ghost predicate Antisymmetric<T>(nodes: set<T>, below: map<T, set<T>>)
    requires below.Keys == nodes
  {
    forall n, x | n in nodes && x in below[n] && x in nodes && n in below[x] :: x == n
  }

  ghost predicate Laminar<T>(nodes: set<T>, below: map<T, set<T>>)
    requires below.Keys == nodes
  {
    forall a, b, z | a in nodes && b in nodes && z in below[a] && z in below[b] :: a in below[b] || b in below[a]
  }

  ghost predicate IsForest<T>(nodes: set<T>, up: map<T, T>, below: map<T, set<T>>) {
    && Covers(nodes, up, below)
    && ParentsAbove(nodes, up, below) && ChainsStay(nodes, up, below)
    && Transitive(nodes, below) && Antisymmetric(nodes, below) && Laminar(nodes, below)
  }

  lemma ForestKeys<T>(nodes: set<T>, up: map<T, T>, below: map<T, set<T>>)
    requires IsForest(nodes, up, below)
    ensures up.Keys <= nodes && below.Keys == nodes
    ensures forall n | n in nodes :: n in below[n] && below[n] <= nodes
  {
  }

  // ----- cutting

  ghost function CutBelow<T>(nodes: set<T>, below: map<T, set<T>>, x: T): map<T, set<T>>
    requires below.Keys == nodes && x in nodes
  {
    map n | n in nodes :: if x in below[n] && n != x then below[n] - below[x] else below[n]
  }

  lemma CutCovers<T>(nodes: set<T>, up: map<T, T>, below: map<T, set<T>>, x: T)
    requires IsForest(nodes, up, below) && x in up
    ensures Covers(nodes, up - {x}, CutBelow(nodes, below, x))
  {
    assert x in nodes;
    assert forall y | y in (up - {x}).Keys :: (up - {x})[y] == up[y] && up[y] in up.Values;
    forall n | n in nodes
      ensures n in CutBelow(nodes, below, x)[n]
    {
      assert x in below[n] && n in below[x] ==> n == x;
    }
  }

  lemma CutParents<T>(nodes: set<T>, up: map<T, T>, below: map<T, set<T>>, x: T)
    requires IsForest(nodes, up, below) && x in up
    requires Covers(nodes, up - {x}, CutBelow(nodes, below, x))
    ensures ParentsAbove(nodes, up - {x}, CutBelow(nodes, below, x))
  {
    var up', below' := up - {x}, CutBelow(nodes, below, x);
    forall y | y in up'
      ensures up'[y] in nodes && y in below'[up'[y]] && up'[y] !in below'[y]
    {
      var p := up[y];
      assert y in up && y != x;
      assert y in below[x] ==> p in below[x];
    }
  }

  lemma CutChains<T>(nodes: set<T>, up: map<T, T>, below: map<T, set<T>>, x: T)
    requires IsForest(nodes, up, below) && x in up
    requires Covers(nodes, up - {x}, CutBelow(nodes, below, x))
    ensures ChainsStay(nodes, up - {x}, CutBelow(nodes, below, x))
  {
    var below' := CutBelow(nodes, below, x);
    forall n, y | n in nodes && y in below'[n] && y != n
      ensures y in up && y != x && up[y] in below'[n]
    {
      assert y in below[n];
      var p := up[y];
      assert x in below[x] && y in below[p];
      assert p in below[x] ==> y in below[x];
    }
  }

  lemma CutOrder<T>(nodes: set<T>, up: map<T, T>, below: map<T, set<T>>, x: T)
    requires IsForest(nodes, up, below) && x in up
    ensures Antisymmetric(nodes, CutBelow(nodes, below, x))
    ensures Transitive(nodes, CutBelow(nodes, below, x))
  {
    var below' := CutBelow(nodes, below, x);
    assert forall n | n in nodes :: below'[n] <= below[n];
    forall n, y, z | n in nodes && y in below'[n] && y in nodes && z in below'[y]
      ensures z in below'[n]
    {
      assert z in below[n];
      // Below both x and y: either y is below x, which was cut out of below[n], or x is below y.
      assert z in below[x] ==> x in below[y] || y in below[x];
    }
  }

  lemma CutLaminar<T>(nodes: set<T>, up: map<T, T>, below: map<T, set<T>>, x: T)
    requires IsForest(nodes, up, below) && x in up
    ensures Laminar(nodes, CutBelow(nodes, below, x))
  {
    var below' := CutBelow(nodes, below, x);
    forall a, b, z | a in nodes && b in nodes && z in below'[a] && z in below'[b]
      ensures a in below'[b] || b in below'[a]
    {
      assert z in below[a] && z in below[b];
      assert a in below[b] || b in below[a];
      CutStays(nodes, up, below, x, a, b, z);
      CutStays(nodes, up, below, x, b, a, z);
    }
  }

  lemma CutStays<T>(nodes: set<T>, up: map<T, T>, below: map<T, set<T>>, x: T, a: T, b: T, z: T)
    requires IsForest(nodes, up, below) && x in up && a in nodes && b in nodes
    requires z in CutBelow(nodes, below, x)[a] && z in CutBelow(nodes, below, x)[b]
    ensures a in below[b] ==> a in CutBelow(nodes, below, x)[b]
  {
    assert a in below[x] ==> z in below[x];
  }

  // A node and everything below it becomes a tree of its own.
  lemma CutForest<T>(nodes: set<T>, up: map<T, T>, below: map<T, set<T>>, x: T)
    requires IsForest(nodes, up, below) && x in up
    ensures IsForest(nodes, up - {x}, CutBelow(nodes, below, x))
    ensures CutBelow(nodes, below, x)[x] == below[x]
  {
    CutCovers(nodes, up, below, x);
    CutParents(nodes, up, below, x);
    CutChains(nodes, up, below, x);
    CutOrder(nodes, up, below, x);
    CutLaminar(nodes, up, below, x);
  }

  // ----- grafting

  ghost function GraftBelow<T>(nodes: set<T>, below: map<T, set<T>>, x: T, p: T): map<T, set<T>>
    requires below.Keys == nodes && x in nodes && p in nodes
  {
    map n | n in nodes :: if p in below[n] then below[n] + below[x] else below[n]
  }

  ghost predicate Graftable<T>(nodes: set<T>, up: map<T, T>, below: map<T, set<T>>, x: T, p: T) {
    IsForest(nodes, up, below) && x in nodes && p in nodes && x !in up && p !in below[x]
  }

  // Nothing outside the tree of x reaches into it.
  lemma Separate<T>(nodes: set<T>, up: map<T, T>, below: map<T, set<T>>, x: T, n: T, z: T)
    requires IsForest(nodes, up, below) && x in nodes && n in nodes && x !in up && z in below[x]
    ensures z in below[n] ==> n in below[x]
  {
    assert z in below[n] ==> x in below[n] || n in below[x];
    assert x in below[n] && x != n ==> x in up;
  }

  lemma GraftCovers<T>(nodes: set<T>, up: map<T, T>, below: map<T, set<T>>, x: T, p: T)
    requires Graftable(nodes, up, below, x, p)
    ensures Covers(nodes, up[x := p], GraftBelow(nodes, below, x, p))
  {
    var up' := up[x := p];
    forall v | v in up'.Values
      ensures v in nodes
    {
      var y :| y in up' && up'[y] == v;
      assert y != x ==> up[y] in up.Values;
    }
  }

  lemma GraftParents<T>(nodes: set<T>, up: map<T, T>, below: map<T, set<T>>, x: T, p: T)
    requires Graftable(nodes, up, below, x, p)
    requires Covers(nodes, up[x := p], GraftBelow(nodes, below, x, p))
    ensures ParentsAbove(nodes, up[x := p], GraftBelow(nodes, below, x, p))
  {
    var up', below' := up[x := p], GraftBelow(nodes, below, x, p);
    forall y | y in up'
      ensures up'[y] in nodes && y in below'[up'[y]] && up'[y] !in below'[y]
    {
      if y != x {
        var q := up[y];
        assert y in below[q] && q !in below[y];
        assert q in below[x] ==> y in below[x];
        var bx := below[x];
        assert y in bx && p in below[y] ==> p in bx;
      } else {
        assert p in below[p];
      }
    }
  }

  lemma GraftChains<T>(nodes: set<T>, up: map<T, T>, below: map<T, set<T>>, x: T, p: T)
    requires Graftable(nodes, up, below, x, p)
    requires Covers(nodes, up[x := p], GraftBelow(nodes, below, x, p))
    ensures ChainsStay(nodes, up[x := p], GraftBelow(nodes, below, x, p))
  {
    var up', below' := up[x := p], GraftBelow(nodes, below, x, p);
    forall n, y | n in nodes && y in below'[n] && y != n
      ensures y in up' && up'[y] in below'[n]
    {
      if y == x {
        Separate(nodes, up, below, x, n, x);
      } else if y !in below[n] {
        assert y in below[x];
      }
    }
  }

  lemma GraftOrder<T>(nodes: set<T>, up: map<T, T>, below: map<T, set<T>>, x: T, p: T)
    requires Graftable(nodes, up, below, x, p)
    ensures Transitive(nodes, GraftBelow(nodes, below, x, p))
  {
    var below' := GraftBelow(nodes, below, x, p);
    forall n, y, z | n in nodes && y in below'[n] && y in nodes && z in below'[y]
      ensures z in below'[n]
    {
      if y in below[n] {
        if z !in below[y] {
          assert p in below[y] && z in below[x];
        }
      } else {
        assert y in below[x] && p in below[n];
        var bx := below[x];
        assert p in below[y] ==> p in bx;
      }
    }
  }

  lemma GraftAntisymmetric<T>(nodes: set<T>, up: map<T, T>, below: map<T, set<T>>, x: T, p: T)
    requires Graftable(nodes, up, below, x, p)
    ensures Antisymmetric(nodes, GraftBelow(nodes, below, x, p))
  {
    var below' := GraftBelow(nodes, below, x, p);
    forall n, y | n in nodes && y in below'[n] && y in nodes && n in below'[y]
      ensures y == n
    {
      if y !in below[n] {
        GraftOneWay(nodes, up, below, x, p, n, y);
      }
      if n !in below[y] {
        GraftOneWay(nodes, up, below, x, p, y, n);
      }
    }
  }

  // What grafting puts below n is not above n.
  lemma GraftOneWay<T>(nodes: set<T>, up: map<T, T>, below: map<T, set<T>>, x: T, p: T, n: T, y: T)
    requires Graftable(nodes, up, below, x, p) && n in nodes && y in nodes
    requires y in GraftBelow(nodes, below, x, p)[n] && y !in below[n]
    ensures n !in GraftBelow(nodes, below, x, p)[y]
  {
    assert p in below[n] && y in below[x];
    var bx, beneath := below[x], below[y];
    assert p in beneath ==> p in bx;
    assert n in beneath ==> p in beneath;
  }

  lemma GraftLaminar<T>(nodes: set<T>, up: map<T, T>, below: map<T, set<T>>, x: T, p: T)
    requires Graftable(nodes, up, below, x, p)
    ensures Laminar(nodes, GraftBelow(nodes, below, x, p))
  {
    var below' := GraftBelow(nodes, below, x, p);
    forall a, b, z | a in nodes && b in nodes && z in below'[a] && z in below'[b]
      ensures a in below'[b] || b in below'[a]
    {
      assert forall n | n in nodes :: below[n] <= below'[n];
      if z in below[x] {
        Separate(nodes, up, below, x, a, z);
        Separate(nodes, up, below, x, b, z);
        var bx := below[x];
        assert a in bx && p in below[a] ==> p in bx;
        assert b in bx && p in below[b] ==> p in bx;
        assert a !in below[x] ==> p in below[a];
        assert b !in below[x] ==> p in below[b];
      }
    }
  }

  // A tree put under a node outside it.
  lemma GraftForest<T>(nodes: set<T>, up: map<T, T>, below: map<T, set<T>>, x: T, p: T)
    requires Graftable(nodes, up, below, x, p)
    ensures IsForest(nodes, up[x := p], GraftBelow(nodes, below, x, p))
  {
    GraftCovers(nodes, up, below, x, p);
    GraftParents(nodes, up, below, x, p);
    GraftChains(nodes, up, below, x, p);
    GraftOrder(nodes, up, below, x, p);
    GraftAntisymmetric(nodes, up, below, x, p);
    GraftLaminar(nodes, up, below, x, p);
  }

  // ----- single nodes

  lemma AddSingle<T>(nodes: set<T>, up: map<T, T>, below: map<T, set<T>>, x: T)
    requires IsForest(nodes, up, below) && x !in nodes
    ensures IsForest(nodes + {x}, up, below[x := {x}])
  {
    var below' := below[x := {x}];
    assert forall n | n in nodes :: below'[n] == below[n] && x !in below[n];
  }

  lemma DropSingle<T>(nodes: set<T>, up: map<T, T>, below: map<T, set<T>>, x: T)
    requires IsForest(nodes, up, below) && x in nodes && x !in up && below[x] == {x}
    ensures IsForest(nodes - {x}, up, below - {x})
  {
    assert forall n | n in nodes && n != x :: x !in below[n];
    forall y | y in up
      ensures up[y] != x
    {
      assert y in below[up[y]];
    }
  }

  // ----- what a forest is for

  /** The k-th ancestor, if there is one. */
  ghost function Ancestor<T>(up: map<T, T>, x: T, k: nat): (r: set<T>)
  {
    if k == 0 then {x} else set y | y in Ancestor(up, x, k - 1) && y in up :: up[y]
  }

  // Following parents never leads back: a forest has no cycle.
  lemma {:induction false} NoCycle<T>(nodes: set<T>, up: map<T, T>, below: map<T, set<T>>, x: T, k: nat)
    requires IsForest(nodes, up, below) && x in nodes
    ensures forall a | a in Ancestor(up, x, k) :: a in nodes && x in below[a] && (k > 0 ==> a !in below[x] && a != x)
  {
    if k > 0 {
      NoCycle(nodes, up, below, x, k - 1);
      forall a | a in Ancestor(up, x, k)
        ensures a in nodes && x in below[a] && a !in below[x] && a != x
      {
        var y :| y in Ancestor(up, x, k - 1) && y in up && up[y] == a;
        assert x in below[y];
        assert y in below[a];
        var beneath := below[y];
        assert a in below[x] ==> a in beneath;
      }
    }
  }

  // Everything below a node but the node itself is below one of its children.
  lemma {:induction false} BelowAChild<T>(nodes: set<T>, up: map<T, T>, below: map<T, set<T>>, n: T, x: T) returns (c: T)
    requires IsForest(nodes, up, below) && n in nodes && x in below[n] && x != n
    ensures c in up && up[c] == n && x in below[c]
    decreases |nodes| - |below[x]|
  {
    var p := up[x];
    if p == n {
      c := x;
    } else {
      assert x in below[p] && p !in below[x];
      assert below[x] < below[p] by {
        assert p in below[p];
      }
      Larger(below[x], below[p]);
      Larger(below[p], nodes);
      c := BelowAChild(nodes, up, below, n, p);
    }
  }

  lemma Larger<T>(a: set<T>, b: set<T>)
    requires a <= b
    ensures |a| <= |b| && (a != b ==> |a| < |b|)
  {
    var d := b - a;
    assert b == a + d;
  }
}
