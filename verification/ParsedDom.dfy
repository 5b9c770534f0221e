/**
  What a successful parse does to the document on the heap: the nodes it creates, inserts and
  throws away for a given tree, in the order of ParseDeep.
 */
module ParsedDom {
  import opened Options
  import opened ChildLists
  import opened Dom
  import opened Forest
  import X = XmlTree
  import G = Grammar
  import XmlChars

  function PoolOf(tree: X.Node): Pool {
    match tree
    case Element(_, _, _, _) => ElementPool
    case Text(_, _) => TextPool
    case _ => CommentPool
  }

  /** The name of an element, the raw text of other nodes. */
  function ValueOf(tree: X.Node): string {
    if tree.Element? then tree.name else tree.value
  }

  function Names(attributes: seq<X.Attribute>): (names: seq<string>)
    ensures |names| == |attributes|
  {
    seq(|attributes|, i requires 0 <= i < |attributes| => attributes[i].name)
  }

  function AttributeNames(tree: X.Node): seq<string> {
    if tree.Element? then Names(tree.attributes) else []
  }

  /** The node and what is below it have the shape and the values of the tree, and are among `own`. */
  ghost predicate Mirrors(tree: X.Node, n: Node, s: State, own: set<Node>)
    decreases tree, 1
  {
    && n in own && n in s.kids && n in s.attributes && n.pool == PoolOf(tree) && n.value == ValueOf(tree)
    && s.attributes[n] == AttributeNames(tree)
    && if tree.Element? then MirrorsAll(tree.children, s.kids[n], s, own) else s.kids[n] == []
  }

  ghost predicate MirrorsAll(trees: seq<X.Node>, ns: seq<Node>, s: State, own: set<Node>)
    decreases trees, 0
  {
    |ns| == |trees| && forall i | 0 <= i < |trees| :: Mirrors(trees[i], ns[i], s, own)
  }

  /** Nothing changed for the nodes `own`. */
  ghost predicate Same(s: State, t: State, own: set<Node>) {
    forall m | m in own ::
      && (m in s.kids ==> m in t.kids && t.kids[m] == s.kids[m])
      && (m in s.attributes ==> m in t.attributes && t.attributes[m] == s.attributes[m])
  }

  lemma {:induction false} MirrorsKept(tree: X.Node, n: Node, s: State, t: State, own: set<Node>, more: set<Node>)
    requires Mirrors(tree, n, s, own) && Same(s, t, own) && own <= more
    ensures Mirrors(tree, n, t, more)
    decreases tree
  {
    if tree.Element? {
      forall i | 0 <= i < |tree.children|
        ensures Mirrors(tree.children[i], t.kids[n][i], t, more)
      {
        MirrorsKept(tree.children[i], s.kids[n][i], s, t, own, more);
      }
    }
  }

  /** The keys of all parts are the live nodes. */
  ghost predicate Keyed(s: State) {
    s.kids.Keys == s.links.Keys && s.attributes.Keys == s.links.Keys && s.below.Keys == s.links.Keys
  }

  ghost function Fresh(s: State, t: State): set<Node> {
    t.links.Keys - s.links.Keys
  }

  /** The old nodes have their parents, attributes and children, but `p` got the children `ns`. */
  ghost predicate OldKept(s: State, t: State, p: Node, ns: seq<Node>)
    requires Keyed(s) && Keyed(t)
  {
    && s.links.Keys <= t.links.Keys
    && forall m | m in s.links ::
         && t.links[m].parent == s.links[m].parent && t.attributes[m] == s.attributes[m]
         && t.kids[m] == if m == p then s.kids[m] + ns else s.kids[m]
  }

  /** Only new nodes came below old ones, and below new ones there are only new ones. */
  ghost predicate BelowGrown(s: State, t: State)
    requires Keyed(s) && Keyed(t)
  {
    && (forall m | m in s.links && m in t.links :: t.below[m] <= s.below[m] + Fresh(s, t))
    && (forall m | m in Fresh(s, t) :: t.below[m] <= Fresh(s, t))
  }

  /** From `s` to `t` new nodes came, and `ns` at the end of the child list of `p`. */
  ghost predicate Grown(s: State, t: State, p: Node, ns: seq<Node>) {
    Keyed(s) && Keyed(t) && OldKept(s, t, p, ns) && BelowGrown(s, t)
  }

  lemma GoodKeyed(s: State, id: int, root: Node)
    requires Good(s, id, root)
    ensures Keyed(s) && root in s.links && s.links[root].parent == null
  {
  }

  lemma BelowTwice(s: State, t: State, u: State)
    requires Keyed(s) && Keyed(t) && Keyed(u) && s.links.Keys <= t.links.Keys <= u.links.Keys
    requires BelowGrown(s, t) && BelowGrown(t, u)
    ensures BelowGrown(s, u)
  {
    assert Fresh(s, u) == Fresh(s, t) + Fresh(t, u);
    forall m | m in u.links
      ensures m in s.links ==> u.below[m] <= s.below[m] + Fresh(s, u)
      ensures m !in s.links ==> u.below[m] <= Fresh(s, u)
    {
      if m in t.links {
        assert u.below[m] <= t.below[m] + Fresh(t, u);
        assert m in s.links ==> t.below[m] <= s.below[m] + Fresh(s, t);
        assert m !in s.links ==> m in Fresh(s, t);
      } else {
        assert m in Fresh(t, u);
      }
    }
  }

  lemma OldKeptAt(s: State, t: State, p: Node, ns: seq<Node>, m: Node)
    requires Keyed(s) && Keyed(t) && OldKept(s, t, p, ns) && m in s.links
    ensures m in t.links && t.links[m].parent == s.links[m].parent && t.attributes[m] == s.attributes[m]
    ensures t.kids[m] == if m == p then s.kids[m] + ns else s.kids[m]
  {
  }

  lemma Appended(x: seq<Node>, a: seq<Node>, b: seq<Node>)
    ensures x + a + b == x + (a + b)
  {
  }

  lemma OldKeptTwice(s: State, t: State, u: State, p: Node, a: seq<Node>, b: seq<Node>, m: Node)
    requires Keyed(s) && Keyed(t) && Keyed(u) && OldKept(s, t, p, a) && OldKept(t, u, p, b) && m in s.links
    ensures m in u.links && u.links[m].parent == s.links[m].parent && u.attributes[m] == s.attributes[m]
    ensures u.kids[m] == if m == p then s.kids[m] + (a + b) else s.kids[m]
  {
    hide OldKept;
    OldKeptAt(s, t, p, a, m);
    OldKeptAt(t, u, p, b, m);
    Appended(s.kids[m], a, b);
  }

  // More children for the same node.
  lemma GrownMore(s: State, t: State, u: State, p: Node, a: seq<Node>, b: seq<Node>)
    requires Grown(s, t, p, a) && Grown(t, u, p, b)
    ensures Grown(s, u, p, a + b)
  {
    GrownKeys(s, t, p, a);
    GrownKeys(t, u, p, b);
    hide BelowGrown;
    BelowTwice(s, t, u);
    assert OldKept(s, u, p, a + b) by {
      forall m | m in s.links
        ensures u.links[m].parent == s.links[m].parent && u.attributes[m] == s.attributes[m]
        ensures u.kids[m] == if m == p then s.kids[m] + (a + b) else s.kids[m]
      {
        hide OldKept;
        OldKeptTwice(s, t, u, p, a, b, m);
      }
    }
  }

  // What grows below a new node is no change for the old ones.
  lemma GrownInside(s: State, t: State, u: State, p: Node, a: seq<Node>, q: Node, b: seq<Node>)
    requires Grown(s, t, p, a) && Grown(t, u, q, b) && q !in s.links
    ensures Grown(s, u, p, a)
  {
    BelowTwice(s, t, u);
    hide BelowGrown;
  }

  lemma GrownNothing(s: State, p: Node)
    requires Keyed(s)
    ensures Grown(s, s, p, [])
  {
    assert p in s.kids ==> s.kids[p] + [] == s.kids[p];
  }

  lemma CreatedGrows(s: State, n: Node, perBlock: nat, p: Node)
    requires Keyed(s) && n !in s.links
    ensures var t := Created(s, n, perBlock);
            Grown(s, t, p, []) && t.kids[n] == [] && t.attributes[n] == [] && t.links[n].parent == null && t.below[n] == {n}
  {
    var t := Created(s, n, perBlock);
    assert Fresh(s, t) == {n};
    assert p in s.kids ==> s.kids[p] + [] == s.kids[p];
  }

  lemma AttributeGrows(s: State, t: State, p: Node, n: Node, name: string, perBlock: nat)
    requires Grown(s, t, p, []) && n in t.links && n !in s.links
    ensures Grown(s, AttributeAdded(t, n, name, perBlock), p, [])
  {
    assert Fresh(s, AttributeAdded(t, n, name, perBlock)) == Fresh(s, t);
  }

  lemma NotAChild(s: State, id: int, root: Node, m: Node, c: Node)
    requires Good(s, id, root) && m in s.links && c !in s.links
    ensures m in s.kids && Without(s.kids[m], c) == s.kids[m]
  {
    hide Counted, Belong;
    SpellsOf(s, id, root);
    assert Chain(s.links, m, s.kids[m]);
    WithoutAbsent(s.kids[m], c);
  }

  lemma CreatedAt(s: State, c: Node, perBlock: nat)
    requires c !in s.links && Keyed(s)
    ensures var u := Created(s, c, perBlock);
            && u.below[c] == {c} && u.links.Keys == s.links.Keys + {c}
            && forall m | m in s.links ::
                 u.links[m] == s.links[m] && u.attributes[m] == s.attributes[m] && u.below[m] == s.below[m] && u.kids[m] == s.kids[m]
  {
  }

  lemma DiscardedParts(s: State, u: State, t: State, c: Node, perBlock: nat)
    requires c !in s.links && Keyed(s) && Keyed(t)
    requires u == Created(s, c, perBlock).(pools := u.pools) && c in u.below && Pruned(u, t, u.below[c])
    ensures t.links.Keys == s.links.Keys
    ensures forall m | m in s.links :: t.links[m].parent == s.links[m].parent
    ensures forall m | m in s.links :: t.attributes[m] == s.attributes[m] && t.below[m] <= s.below[m]
  {
    CreatedAt(s, c, perBlock);
    hide Created;
    assert t.links.Keys == s.links.Keys;
    forall m | m in s.links
      ensures t.links[m].parent == s.links[m].parent && t.attributes[m] == s.attributes[m] && t.below[m] <= s.below[m]
    {
      assert m in t.links;
    }
  }

  lemma DiscardedLists(s: State, u: State, t: State, c: Node, perBlock: nat, id: int, root: Node)
    requires Good(s, id, root) && c !in s.links && Keyed(s) && Keyed(t) && t.links.Keys == s.links.Keys
    requires u == Created(s, c, perBlock).(pools := u.pools) && ListsWithout(u, t, c)
    ensures forall m | m in s.links :: t.kids[m] == s.kids[m]
  {
    hide Good;
    forall m | m in s.links
      ensures t.kids[m] == s.kids[m]
    {
      NotAChild(s, id, root, m, c);
      assert m in t.kids && u.kids[m] == s.kids[m];
    }
  }

  // The closing tag's node comes and goes.
  lemma DiscardedGrows(s: State, u: State, t: State, c: Node, p: Node, perBlock: nat, id: int, root: Node)
    requires Good(s, id, root) && c !in s.links && Good(t, id, root)
    requires u == Created(s, c, perBlock).(pools := u.pools) && Deleted(u, t, c)
    ensures Grown(s, t, p, []) && t.attributes == s.attributes && t.kids == s.kids
  {
    hide Good, Pruned, ListsWithout, Grown, Created;
    GoodKeyed(s, id, root);
    GoodKeyed(t, id, root);
    DiscardedParts(s, u, t, c, perBlock);
    DiscardedLists(s, u, t, c, perBlock, id, root);
    SameGrows(s, t, p);
  }

  lemma SameGrows(s: State, t: State, p: Node)
    requires Keyed(s) && Keyed(t) && t.links.Keys == s.links.Keys
    requires forall m | m in s.links :: t.links[m].parent == s.links[m].parent && t.kids[m] == s.kids[m]
    requires forall m | m in s.links :: t.attributes[m] == s.attributes[m] && t.below[m] <= s.below[m]
    ensures Grown(s, t, p, [])
  {
    assert Fresh(s, t) == {};
    assert p in s.kids ==> s.kids[p] + [] == s.kids[p];
  }

  lemma FreedUnlinked(t: State, n: Node)
    requires Keyed(t) && n in t.links && t.links[n].parent == null
    ensures Freed(t, n) == t.(pools := Tracking(t.pools, n.pool))
  {
  }

  lemma PlacedParts(t: State, u: State, p: Node, n: Node, ks: seq<Node>)
    requires Keyed(t) && Keyed(u) && n in t.links && p in t.links && t.links[n].parent == null && Placed(t, u, p, n, ks)
    ensures u.links.Keys == t.links.Keys && u.attributes == t.attributes && u.kids == t.kids[p := ks]
    ensures forall m | m in t.links && m != n :: u.links[m].parent == t.links[m].parent
  {
    hide Freed, Tracking, GraftBelow;
    FreedUnlinked(t, n);
  }

  lemma PlacedOld(s: State, t: State, u: State, p: Node, n: Node)
    requires Keyed(s) && Keyed(t) && Keyed(u) && OldKept(s, t, p, []) && p in s.links && n !in s.links
    requires u.links.Keys == t.links.Keys && u.attributes == t.attributes && u.kids == t.kids[p := t.kids[p] + [n]]
    requires forall m | m in t.links && m != n :: u.links[m].parent == t.links[m].parent
    ensures OldKept(s, u, p, [n])
  {
    assert s.kids[p] + [] == s.kids[p];
    forall m | m in s.links
      ensures u.links[m].parent == s.links[m].parent && u.attributes[m] == s.attributes[m]
      ensures u.kids[m] == if m == p then s.kids[m] + [n] else s.kids[m]
    {
      OldAt(s, t, p, m);
    }
  }

  lemma OldAt(s: State, t: State, p: Node, m: Node)
    requires Keyed(s) && Keyed(t) && OldKept(s, t, p, []) && m in s.links
    ensures m in t.links && t.links[m].parent == s.links[m].parent && t.attributes[m] == s.attributes[m]
    ensures t.kids[m] == if m == p then s.kids[m] + [] else s.kids[m]
  {
  }

  // The finished node goes under its parent.
  lemma PlacedGrows(s: State, t: State, u: State, p: Node, n: Node, ks: seq<Node>)
    requires Keyed(t) && Keyed(u) && Grown(s, t, p, []) && p in s.links
    requires n in t.links && n !in s.links && t.links[n].parent == null
    requires Placed(t, u, p, n, ks) && ks == t.kids[p] + [n]
    ensures Grown(s, u, p, [n]) && u.links.Keys == t.links.Keys
    ensures u.kids == t.kids[p := ks] && u.attributes == t.attributes
  {
    hide Placed, BelowGrown, OldKept;
    GrownKeys(s, t, p, []);
    PlacedParts(t, u, p, n, ks);
    PlacedBelow(s, t, u, p, n, ks);
    PlacedOld(s, t, u, p, n);
  }

  lemma PlacedBelow(s: State, t: State, u: State, p: Node, n: Node, ks: seq<Node>)
    requires Keyed(s) && Keyed(t) && Keyed(u) && BelowGrown(s, t) && p in s.links
    requires s.links.Keys <= t.links.Keys && n in t.links && n !in s.links && t.links[n].parent == null
    requires Placed(t, u, p, n, ks)
    ensures BelowGrown(s, u)
  {
    hide Freed, Tracking, BelowGrown;
    FreedUnlinked(t, n);
    assert u.links.Keys == t.links.Keys && u.below == GraftBelow(t.links.Keys, t.below, n, p);
    GraftGrows(s, t, u, p, n);
  }

  lemma GraftGrows(s: State, t: State, u: State, p: Node, n: Node)
    requires Keyed(s) && Keyed(t) && Keyed(u) && BelowGrown(s, t) && p in s.links && n in t.links && n !in s.links
    requires s.links.Keys <= t.links.Keys == u.links.Keys && u.below == GraftBelow(t.links.Keys, t.below, n, p)
    ensures BelowGrown(s, u)
  {
    var more := Fresh(s, t);
    assert Fresh(s, u) == more && n in more;
    assert t.below[n] <= more;
    forall m | m in t.links
      ensures m in s.links ==> u.below[m] <= s.below[m] + more
      ensures m in more ==> u.below[m] <= more
    {
      assert m in s.links ==> t.below[m] <= s.below[m] + more;
      assert m in more ==> t.below[m] <= more && p !in t.below[m];
    }
  }

  // ----- building

  /** A parsed document can be added to: sound, tracked, and `p` is live. */
  ghost predicate Open(doc: Document, p: Node)
    reads doc, doc.nodes
  {
    doc.Valid() && Tracked(doc.Now(), doc.root) && p in doc.nodes
  }

  /** ParseAttributes: each attribute is allocated, tracked at once and linked behind the last one. */
  method ReadAttributes(doc: Document, n: Node, attributes: seq<X.Attribute>, ghost s: State, ghost p: Node)
    requires Open(doc, n) && n != doc.root && X.DistinctNames(attributes) && n.attributes == []
    requires Grown(s, doc.Now(), p, []) && n !in s.links
    modifies doc`pools, n`attributes
    ensures Open(doc, n) && doc.nodes == old(doc.nodes) && Grown(s, doc.Now(), p, [])
    ensures doc.Now() == old(doc.Now()).(attributes := old(doc.Now()).attributes[n := Names(attributes)], pools := doc.pools)
  {
    hide Good, Tracked, Grown;
    var i := 0;
    doc.NowAt(n);
    assert old(doc.Now()).attributes[n := []] == old(doc.Now()).attributes;
    while i < |attributes|
      invariant 0 <= i <= |attributes| && Open(doc, n) && doc.nodes == old(doc.nodes) && Grown(s, doc.Now(), p, [])
      invariant doc.Now() == old(doc.Now()).(attributes := old(doc.Now()).attributes[n := Names(attributes[..i])], pools := doc.pools)
    {
      doc.NowAt(n);
      NotYet(attributes, i);
      AttributeGrows(s, doc.Now(), p, n, attributes[i].name, doc.perBlock[AttributePool]);
      doc.FindOrCreateAttribute(n, attributes[i].name);
      doc.NowAt(n);
      i := i + 1;
    }
    assert attributes[..i] == attributes;
  }

  lemma NotYet(attributes: seq<X.Attribute>, i: nat)
    requires X.DistinctNames(attributes) && i < |attributes|
    ensures attributes[i].name !in Names(attributes[..i])
    ensures Names(attributes[..i + 1]) == Names(attributes[..i]) + [attributes[i].name]
  {
  }

  /** The closing tag of an element: a node is created for it, counted as tracked and deleted. */
  method ReadClosingTag(doc: Document, ghost q: Node, name: string)
    requires doc.Valid() && Tracked(doc.Now(), doc.root)
    modifies doc, doc.nodes
    ensures doc.Valid() && Tracked(doc.Now(), doc.root) && doc.nodes == old(doc.nodes) && Grown(old(doc.Now()), doc.Now(), q, [])
    ensures doc.Now().kids == old(doc.Now()).kids && doc.Now().attributes == old(doc.Now()).attributes
  {
    hide Good, Tracked, Grown, Deleted, Created, Tracking;
    ghost var t := doc.Now();
    doc.NowAt(q);
    GoodKeyed(t, doc.id, doc.root);
    var c := doc.NewNode(ElementPool, name);
    doc.NowAt(c);
    ghost var u := doc.Now();
    CreatedAt(t, c, doc.perBlock[ElementPool]);
    CreatedLinks(t, c, doc.perBlock[ElementPool]);
    doc.DeleteNode(c);
    doc.NowAt(c);
    DiscardedGrows(t, u.(pools := Tracking(u.pools, ElementPool)), doc.Now(), c, q, doc.perBlock[ElementPool], doc.id, doc.root);
    SameNodes(t, doc.Now(), q);
  }

  lemma CreatedLinks(s: State, c: Node, perBlock: nat)
    ensures Created(s, c, perBlock).links == s.links[c := UNLINKED]
  {
  }

  lemma SameNodes(s: State, t: State, q: Node)
    requires Grown(s, t, q, []) && t.kids == s.kids
    ensures t.links.Keys == s.links.Keys
  {
  }

  /** Attribute names are distinct in every element; the parser sees to it. */
  predicate Legal(tree: X.Node)
    decreases tree, 1
  {
    tree.Element? ==> X.DistinctNames(tree.attributes) && LegalAll(tree.children)
  }

  predicate LegalAll(trees: seq<X.Node>)
    decreases trees, 0
  {
    forall i | 0 <= i < |trees| :: Legal(trees[i])
  }

  // What mirrors a tree still does when nodes come elsewhere.
  lemma MirrorsGrow(tree: X.Node, n: Node, s: State, t: State, own: set<Node>, more: set<Node>, p: Node, ns: seq<Node>)
    requires Mirrors(tree, n, s, own) && Grown(s, t, p, ns) && own <= s.links.Keys && p !in own && own <= more
    ensures Mirrors(tree, n, t, more)
  {
    hide Mirrors, BelowGrown;
    MirrorsKept(tree, n, s, t, own, more);
  }

  lemma MirrorsAllGrow(trees: seq<X.Node>, xs: seq<Node>, s: State, t: State, own: set<Node>, more: set<Node>,
                       p: Node, ns: seq<Node>)
    requires MirrorsAll(trees, xs, s, own) && Grown(s, t, p, ns) && own <= s.links.Keys && p !in own && own <= more
    ensures MirrorsAll(trees, xs, t, more)
  {
    hide Grown, Mirrors;
    forall i | 0 <= i < |trees|
      ensures Mirrors(trees[i], xs[i], t, more)
    {
      MirrorsGrow(trees[i], xs[i], s, t, own, more, p, ns);
    }
  }

  /** Of the new nodes, only those in `loose` have no parent. */
  ghost predicate NewLoose(s: State, t: State, loose: set<Node>) {
    forall m | m in t.links && m !in s.links && t.links[m].parent == null :: m in loose
  }

  lemma NewLooseTwice(s: State, t: State, u: State, p: Node, ns: seq<Node>, a: set<Node>, b: set<Node>)
    requires NewLoose(s, t, a) && NewLoose(t, u, b) && Grown(t, u, p, ns)
    ensures NewLoose(s, u, a + b)
  {
    hide BelowGrown;
  }

  /**
    What building leaves: all old nodes as they were but for the new children `ns` of `p`, which mirror the
    trees, and no new node without a parent.
   */
  ghost predicate Built(s: State, t: State, p: Node, trees: seq<X.Node>, ns: seq<Node>) {
    Grown(s, t, p, ns) && p in s.links && MirrorsAll(trees, ns, t, Fresh(s, t)) && NewLoose(s, t, {})
  }

  lemma BuiltMore(s: State, t: State, u: State, p: Node, trees: seq<X.Node>, ns: seq<Node>, tree: X.Node, n: Node)
    requires Built(s, t, p, trees, ns) && Built(t, u, p, [tree], [n])
    ensures Built(s, u, p, trees + [tree], ns + [n])
  {
    hide Mirrors, Grown, NewLoose;
    var none: set<Node> := {};
    NewLooseTwice(s, t, u, p, [n], none, none);
    assert none + none == none;
    GrownMore(s, t, u, p, ns, [n]);
    GrownKeys(s, t, p, ns);
    GrownKeys(t, u, p, [n]);
    var own, more := Fresh(s, t), Fresh(s, u);
    MirrorsAllGrow(trees, ns, t, u, own, more, p, [n]);
    assert Mirrors([tree][0], [n][0], u, Fresh(t, u));
    MirrorsMore(tree, n, u, Fresh(t, u), more);
    forall i | 0 <= i < |trees| + 1
      ensures Mirrors((trees + [tree])[i], (ns + [n])[i], u, more)
    {
      if i < |trees| {
        assert Mirrors(trees[i], ns[i], u, more);
      }
    }
  }

  lemma MirrorsMore(tree: X.Node, n: Node, s: State, own: set<Node>, more: set<Node>)
    requires Mirrors(tree, n, s, own) && own <= more
    ensures Mirrors(tree, n, s, more)
  {
    MirrorsKept(tree, n, s, s, own, more);
  }

  lemma GrownKeys(s: State, t: State, p: Node, ns: seq<Node>)
    requires Grown(s, t, p, ns)
    ensures s.links.Keys <= t.links.Keys
  {
  }

  /** ParseDeep, for the siblings `trees`: each is created, filled and then inserted at the end. */
  method BuildAll(doc: Document, p: Node, trees: seq<X.Node>) returns (ghost ns: seq<Node>)
    requires Open(doc, p) && LegalAll(trees)
    modifies doc, doc.nodes
    ensures Open(doc, p) && fresh(doc.nodes - old(doc.nodes)) && Built(old(doc.Now()), doc.Now(), p, trees, ns)
    decreases trees, 0
  {
    hide Good, Tracked, Grown, Mirrors, Built;
    ghost var s := doc.Now();
    ns := [];
    doc.NowAt(p);
    NothingBuilt(s, doc.id, doc.root, p);
    var i := 0;
    while i < |trees|
      invariant 0 <= i <= |trees| && Open(doc, p) && fresh(doc.nodes - old(doc.nodes))
      invariant Built(s, doc.Now(), p, trees[..i], ns)
    {
      ghost var t := doc.Now();
      var n := Build(doc, p, trees[i]);
      BuiltMore(s, t, doc.Now(), p, trees[..i], ns, trees[i], n);
      assert trees[..i + 1] == trees[..i] + [trees[i]];
      ns := ns + [n];
      i := i + 1;
    }
    assert trees[..i] == trees;
  }

  lemma NothingBuilt(s: State, id: int, root: Node, p: Node)
    requires Good(s, id, root) && p in s.links
    ensures Built(s, s, p, [], [])
  {
    GoodKeyed(s, id, root);
    GrownNothing(s, p);
  }

  /** The node is complete but not yet linked; for the old nodes nothing changed. */
  ghost predicate Filled(s: State, u: State, p: Node, n: Node, tree: X.Node) {
    && Grown(s, u, p, []) && n in Fresh(s, u) && u.links[n].parent == null && Mirrors(tree, n, u, Fresh(s, u))
    && NewLoose(s, u, {n})
  }

  lemma ElementFilled(s: State, t: State, u: State, p: Node, n: Node, tree: X.Node, ns: seq<Node>)
    requires Grown(s, t, p, []) && n in Fresh(s, t) && n in t.kids && n in t.attributes && t.links[n].parent == null
    requires tree.Element? && n.pool == ElementPool && n.value == tree.name && t.kids[n] == [] && t.attributes[n] == Names(tree.attributes)
    requires Built(t, u, n, tree.children, ns) && NewLoose(s, t, {n})
    ensures Filled(s, u, p, n, tree)
  {
    hide Mirrors, BelowGrown, NewLoose;
    NewLooseTwice(s, t, u, n, ns, {n}, {});
    assert {n} + {} == {n};
    GrownInside(s, t, u, p, [], n, ns);
    assert u.kids[n] == [] + ns == ns;
    forall i | 0 <= i < |ns|
      ensures Mirrors(tree.children[i], ns[i], u, Fresh(s, u))
    {
      MirrorsKept(tree.children[i], ns[i], u, u, Fresh(t, u), Fresh(s, u));
    }
    assert MirrorsAll(tree.children, u.kids[n], u, Fresh(s, u));
    MirrorsElement(tree, n, u, Fresh(s, u));
  }

  lemma MirrorsElement(tree: X.Node, n: Node, s: State, own: set<Node>)
    requires tree.Element? && n in own && n in s.kids && n in s.attributes && n.pool == ElementPool && n.value == tree.name
    requires s.attributes[n] == Names(tree.attributes) && MirrorsAll(tree.children, s.kids[n], s, own)
    ensures Mirrors(tree, n, s, own)
  {
  }

  lemma FilledStays(s: State, u: State, v: State, p: Node, n: Node, tree: X.Node)
    requires Filled(s, u, p, n, tree) && Grown(u, v, n, []) && v.kids == u.kids && v.attributes == u.attributes
    ensures Filled(s, v, p, n, tree)
  {
    hide Mirrors, BelowGrown;
    assert NewLoose(s, v, {n}) by {
      SameLoose(s, u, v, n, {n});
    }
    hide NewLoose;
    GrownInside(s, u, v, p, [], n, []);
    assert Fresh(s, v) == Fresh(s, u);
    MirrorsKept(tree, n, u, v, Fresh(s, u), Fresh(s, v));
  }

  lemma SameLoose(s: State, u: State, v: State, q: Node, loose: set<Node>)
    requires NewLoose(s, u, loose) && Grown(u, v, q, []) && v.kids == u.kids
    ensures NewLoose(s, v, loose)
  {
    hide BelowGrown;
    assert v.links.Keys == u.links.Keys;
  }

  lemma PlacedLoose(s: State, u: State, v: State, p: Node, n: Node, ks: seq<Node>)
    requires NewLoose(s, u, {n}) && Placed(u, v, p, n, ks) && Keyed(u) && Keyed(v) && u.links[n].parent == null
    ensures NewLoose(s, v, {})
  {
    hide GraftBelow, Tracking;
    FreedUnlinked(u, n);
  }

  lemma FilledBuilt(s: State, u: State, v: State, p: Node, n: Node, tree: X.Node, ks: seq<Node>)
    requires Keyed(u) && Keyed(v) && Filled(s, u, p, n, tree) && p in s.links
    requires Placed(u, v, p, n, ks) && ks == u.kids[p] + [n]
    ensures Built(s, v, p, [tree], [n])
  {
    hide Mirrors, Placed, Grown;
    PlacedLoose(s, u, v, p, n, ks);
    hide NewLoose;
    GrownKeys(s, u, p, []);
    PlacedGrows(s, u, v, p, n, ks);
    assert Fresh(s, v) == Fresh(s, u);
    MirrorsKept(tree, n, u, v, Fresh(s, u), Fresh(s, v));
    assert Mirrors([tree][0], [n][0], v, Fresh(s, v));
  }

  /** The node is new and unlinked, with these attributes and no children yet. */
  ghost predicate Begun(s: State, t: State, p: Node, n: Node, names: seq<string>) {
    && Grown(s, t, p, []) && n in Fresh(s, t) && t.links[n].parent == null
    && n in t.kids && t.kids[n] == [] && n in t.attributes && t.attributes[n] == names && NewLoose(s, t, {n})
  }

  lemma CreatedBegun(s: State, n: Node, perBlock: nat, p: Node)
    requires Keyed(s) && n !in s.links
    ensures Begun(s, Created(s, n, perBlock), p, n, [])
  {
    CreatedGrows(s, n, perBlock, p);
    hide Grown;
  }

  lemma BegunLeaf(s: State, t: State, p: Node, n: Node, tree: X.Node)
    requires Begun(s, t, p, n, []) && !tree.Element? && n.pool == PoolOf(tree) && n.value == ValueOf(tree)
    ensures Filled(s, t, p, n, tree)
  {
    hide Grown;
  }

  lemma BegunNames(s: State, t: State, u: State, p: Node, n: Node, names: seq<string>)
    requires Begun(s, t, p, n, []) && u == t.(attributes := t.attributes[n := names], pools := u.pools) && Grown(s, u, p, [])
    ensures Begun(s, u, p, n, names)
  {
    hide Grown;
  }

  /** Identify: a node of the right pool. */
  method Create(doc: Document, ghost p: Node, pool: Pool, value: string) returns (n: Node)
    requires Open(doc, p) && pool != AttributePool
    modifies doc
    ensures Open(doc, p) && Open(doc, n) && fresh(n) && doc.nodes == old(doc.nodes) + {n} && n.pool == pool && n.value == value
    ensures Begun(old(doc.Now()), doc.Now(), p, n, []) && n != doc.root && n.attributes == []
  {
    hide Good, Tracked, Grown, Created, Begun;
    ghost var s := doc.Now();
    doc.NowAt(p);
    GoodKeyed(s, doc.id, doc.root);
    n := doc.NewNode(pool, value);
    CreatedBegun(s, n, doc.perBlock[pool], p);
    doc.NowAt(n);
    BegunIs(s, doc.Now(), p, n);
  }

  lemma BegunIs(s: State, t: State, p: Node, n: Node)
    requires Begun(s, t, p, n, [])
    ensures Grown(s, t, p, []) && n in t.attributes && t.attributes[n] == [] && n !in s.links
  {
  }

  /** The content of an element and its closing tag. */
  method FillElement(doc: Document, ghost p: Node, n: Node, tree: X.Node, ghost s: State)
    requires Open(doc, p) && n in doc.nodes && tree.Element? && LegalAll(tree.children) && n.pool == ElementPool && n.value == tree.name
    requires Begun(s, doc.Now(), p, n, Names(tree.attributes))
    modifies doc, doc.nodes
    ensures Open(doc, p) && fresh(doc.nodes - old(doc.nodes)) && Filled(s, doc.Now(), p, n, tree)
    decreases tree, 0, 0
  {
    hide Good, Tracked, Grown, Mirrors, Built, Filled;
    ghost var t := doc.Now();
    doc.NowAt(n);
    ghost var ns := BuildAll(doc, n, tree.children);
    BuiltKeeps(t, doc.Now(), n, tree.children, ns);
    doc.NowAt(p);
    ElementFilled(s, t, doc.Now(), p, n, tree, ns);
    if !tree.closed {
      ghost var u := doc.Now();
      ReadClosingTag(doc, n, tree.name);
      FilledStays(s, u, doc.Now(), p, n, tree);
    }
  }

  lemma BuiltKeeps(t: State, u: State, n: Node, trees: seq<X.Node>, ns: seq<Node>)
    requires Built(t, u, n, trees, ns)
    ensures t.links.Keys <= u.links.Keys
  {
  }

  /** Everything that comes before the insertion of a node. */
  method Fill(doc: Document, ghost p: Node, tree: X.Node) returns (n: Node)
    requires Open(doc, p) && Legal(tree)
    modifies doc, doc.nodes
    ensures Open(doc, p) && fresh(doc.nodes - old(doc.nodes)) && Filled(old(doc.Now()), doc.Now(), p, n, tree)
    decreases tree, 0, 1
  {
    hide Good, Tracked, Grown, Filled, Begun;
    ghost var s := doc.Now();
    n := Create(doc, p, PoolOf(tree), ValueOf(tree));
    ghost var t := doc.Now();
    if !tree.Element? {
      BegunLeaf(s, t, p, n, tree);
      return;
    }
    BegunIs(s, t, p, n);
    ReadAttributes(doc, n, tree.attributes, s, p);
    BegunNames(s, t, doc.Now(), p, n, Names(tree.attributes));
    FillElement(doc, p, n, tree, s);
  }

  /** One node: created, its attributes and content read, its closing tag read, and then inserted. */
  method Build(doc: Document, p: Node, tree: X.Node) returns (n: Node)
    requires Open(doc, p) && Legal(tree)
    modifies doc, doc.nodes
    ensures Open(doc, p) && fresh(doc.nodes - old(doc.nodes)) && Built(old(doc.Now()), doc.Now(), p, [tree], [n])
    decreases tree, 1
  {
    hide Good, Tracked, Grown, Mirrors, Built, Filled, Placed, Others;
    ghost var s := doc.Now();
    doc.NowAt(p);
    n := Fill(doc, p, tree);
    ghost var u := doc.Now();
    doc.NowAt(n);
    FilledInsertable(s, u, p, n, tree, doc.id, doc.root);
    var result := doc.InsertEndChild(p, n);
    GoodKeyed(doc.Now(), doc.id, doc.root);
    FilledBuilt(s, u, doc.Now(), p, n, tree, u.kids[p] + [n]);
  }

  lemma FilledInsertable(s: State, u: State, p: Node, n: Node, tree: X.Node, id: int, root: Node)
    requires Good(s, id, root) && Good(u, id, root) && Filled(s, u, p, n, tree) && p in s.links
    ensures Keyed(u) && n in u.links && n.docId == id && Insertable(u, root, p, n)
    ensures p in u.kids && Others(u, p, n) == u.kids[p]
  {
    GoodKeyed(s, id, root);
    GoodKeyed(u, id, root);
    NotListed(u, id, root, p, n);
    hide Sound, Counted;
    assert u.below[n] <= Fresh(s, u);
  }

  // ----- whole documents

  lemma {:induction false} AttributesDistinct(s: string, seen: seq<X.Attribute>)
    requires X.DistinctNames(seen)
    ensures G.ParseAttributes(s, seen).Head? ==> X.DistinctNames(G.ParseAttributes(s, seen).attributes)
    decreases |s|
  {
    hide G.ParseAttribute, XmlChars.SkipWhiteSpace;
    var t := XmlChars.SkipWhiteSpace(s);
    if t != [] && XmlChars.IsNameStartChar(t[0]) {
      var r := G.ParseAttribute(t);
      if r.Some? && !X.HasAttribute(seen, r.value.0.name) {
        AttributesDistinct(r.value.1, seen + [r.value.0]);
      }
    }
  }

  lemma TagDistinct(s: string)
    ensures G.ParseTag(s).ClosedTag? || G.ParseTag(s).OpenTag? ==> X.DistinctNames(G.ParseTag(s).attributes)
  {
    hide G.ParseAttributes;
    var t := XmlChars.SkipWhiteSpace(s);
    var u := if t != [] && t[0] == '/' then t[1..] else t;
    AttributesDistinct(u[|XmlChars.ParseName(u)|..], []);
  }

  // What the parser returns has distinct attribute names in every element.
  lemma {:induction false} ParsedIsLegal(s: string)
    ensures G.ParseNodes(s).Nodes? ==> LegalAll(G.ParseNodes(s).nodes)
    decreases |s|, 1
  {
    hide Legal, G.ParseOne, XmlChars.SkipWhiteSpace;
    if XmlChars.SkipWhiteSpace(s) != [] {
      var one := G.ParseOne(s);
      if one.One? {
        OneIsLegal(s);
        ParsedIsLegal(one.rest);
      }
    }
  }

  lemma {:induction false} OneIsLegal(s: string)
    requires XmlChars.SkipWhiteSpace(s) != []
    ensures G.ParseOne(s).One? ==> Legal(G.ParseOne(s).node)
    decreases |s|, 0
  {
    hide G.ParseTag, G.ParseNodes, XmlChars.SkipWhiteSpace;
    var (kind, body) := G.Identify(s);
    if kind.ElementTag? {
      TagDistinct(body);
      var tag := G.ParseTag(body);
      if tag.OpenTag? {
        ParsedIsLegal(tag.rest);
      }
    } else {
      LeafIsLegal(kind, body);
    }
  }

  lemma LeafIsLegal(kind: G.Kind, body: string)
    requires !kind.NothingLeft? && !kind.ElementTag? && (kind.TextRun? ==> body != [] && body[0] != '<')
    ensures G.ParseLeafNode(kind, body).One? ==> !G.ParseLeafNode(kind, body).node.Element?
  {
  }

  // An error-free parse of any input into a fresh document leaves under the root exactly the nodes
  // of the parsed tree, with balanced pools.
  method ParseInto(doc: Document, input: string) returns (ghost ns: seq<Node>)
    requires doc.Valid() && Tracked(doc.Now(), doc.root) && G.ParseNodes(input).Nodes?
    modifies doc, doc.nodes
    ensures doc.Valid() && Tracked(doc.Now(), doc.root)
    ensures Built(old(doc.Now()), doc.Now(), doc.root, G.ParseNodes(input).nodes, ns)
  {
    hide Good, Tracked, Grown, Built, Mirrors, LegalAll, G.ParseNodes;
    ghost var s := doc.Now();
    doc.NowAt(doc.root);
    GoodKeyed(s, doc.id, doc.root);
    ParsedIsLegal(input);
    var parsed := G.ParseNodes(input);
    ns := BuildAll(doc, doc.root, parsed.nodes);
    if parsed.end.Some? {
      ghost var t := doc.Now();
      ReadClosingTag(doc, doc.root, parsed.end.value);
      BuiltStays(s, t, doc.Now(), doc.root, parsed.nodes, ns);
    }
  }

  lemma BuiltStays(s: State, t: State, u: State, p: Node, trees: seq<X.Node>, ns: seq<Node>)
    requires Built(s, t, p, trees, ns) && Grown(t, u, p, []) && u.kids == t.kids && u.attributes == t.attributes
    ensures Built(s, u, p, trees, ns)
  {
    hide Mirrors, BelowGrown;
    assert NewLoose(s, u, {}) by {
      SameLoose(s, t, u, p, {});
    }
    hide NewLoose;
    GrownMore(s, t, u, p, ns, []);
    assert ns + [] == ns;
    forall i | 0 <= i < |trees|
      ensures Mirrors(trees[i], ns[i], u, Fresh(s, u))
    {
      MirrorsKept(trees[i], ns[i], t, u, Fresh(s, t), Fresh(s, u));
    }
  }
}
