/**
  The node tree of XMLDocument: inserting, unlinking and deleting keep it a forest whose
  links spell out the child lists, and the counters of the four pools follow the nodes.
 */
module Dom {
  import opened ChildLists
  import opened Forest
  import opened Options
  import MemPool

  // ----- the tree, as values

  /** The parents of the linked nodes. */
  ghost function Up(v: map<Node, Links>): map<Node, Node> {
    map x | x in v && v[x].parent != null :: v[x].parent
  }

  ghost predicate Sound(v: map<Node, Links>, kids: map<Node, seq<Node>>, below: map<Node, set<Node>>, root: Node) {
    Spells(v, kids) && IsForest(v.Keys, Up(v), below) && root in v && v[root].parent == null
  }

  lemma SoundSpells(v: map<Node, Links>, kids: map<Node, seq<Node>>, below: map<Node, set<Node>>, root: Node)
    requires Sound(v, kids, below, root)
    ensures Spells(v, kids) && IsForest(v.Keys, Up(v), below) && kids.Keys == v.Keys
  {
  }

  ghost function FreedBelow(v: map<Node, Links>, below: map<Node, set<Node>>, x: Node): map<Node, set<Node>>
    requires x in v && below.Keys == v.Keys
  {
    if v[x].parent == null then below else CutBelow(v.Keys, below, x)
  }

  lemma FreedSound(v: map<Node, Links>, kids: map<Node, seq<Node>>, below: map<Node, set<Node>>, root: Node, x: Node)
    requires Sound(v, kids, below, root) && x in v && x != root
    ensures below.Keys == v.Keys
    ensures Sound(FreedLinks(v, x), FreedKids(kids, v[x].parent, x), FreedBelow(v, below, x), root)
    ensures FreedLinks(v, x).Keys == v.Keys && FreedBelow(v, below, x)[x] == below[x]
    ensures Up(FreedLinks(v, x)) == Up(v) - {x}
  {
    hide Spells, IsForest, CutBelow, FreedLinks, FreedKids;
    ForestKeys(v.Keys, Up(v), below);
    FreedSpells(v, kids, x);
    assert Up(FreedLinks(v, x)) == Up(v) - {x};
    if v[x].parent != null {
      CutForest(v.Keys, Up(v), below, x);
    } else {
      assert Up(v) - {x} == Up(v);
    }
  }

  lemma AdoptedSound(v: map<Node, Links>, w: map<Node, Links>, kids: map<Node, seq<Node>>, below: map<Node, set<Node>>,
                     root: Node, x: Node, p: Node)
    requires IsForest(v.Keys, Up(v), below) && root in v && v[root].parent == null && x != root
    requires p in v && x in v && v[x].parent == null && p !in below[x]
    requires Adopted(v, w, x, p) && Spells(w, kids)
    ensures Sound(w, kids, GraftBelow(v.Keys, below, x, p), root)
    ensures Up(w) == Up(v)[x := p]
  {
    hide Spells, IsForest, GraftBelow;
    ForestKeys(v.Keys, Up(v), below);
    GraftForest(v.Keys, Up(v), below, x, p);
    assert Up(w) == Up(v)[x := p];
  }

  // ----- the counters

  ghost function Members(nodes: set<Node>, pool: Pool): set<Node> {
    set n | n in nodes && n.pool == pool
  }

  /** Every attribute of every node. */
  ghost function AttributesOf(attributes: map<Node, seq<string>>): set<(Node, int)> {
    set n, i | n in attributes && 0 <= i < |attributes[n]| :: (n, i)
  }

  /** The pools hold the live nodes and their attributes. */
  ghost predicate Counted(pools: map<Pool, MemPool.Counts>, live: set<Node>, attributes: map<Node, seq<string>>) {
    && (forall k: Pool :: k in pools)
    && (forall k: Pool | k != AttributePool :: pools[k].current == |Members(live, k)|)
    && pools[AttributePool].current == |AttributesOf(attributes)|
  }

  /** The untracked nodes are the live nodes that are not linked to a parent. */
  ghost predicate Tracks(pools: map<Pool, MemPool.Counts>, loose: set<Node>) {
    && (forall k: Pool :: k in pools)
    && (forall k: Pool | k != AttributePool :: pools[k].untracked == |Members(loose, k)|)
    && pools[AttributePool].untracked == 0
  }

  lemma MembersAdd(nodes: set<Node>, n: Node, pool: Pool)
    requires n !in nodes
    ensures |Members(nodes + {n}, pool)| == |Members(nodes, pool)| + if n.pool == pool then 1 else 0
  {
    if n.pool == pool {
      assert Members(nodes + {n}, pool) == Members(nodes, pool) + {n};
    } else {
      assert Members(nodes + {n}, pool) == Members(nodes, pool);
    }
  }

  // A list with one more attribute.
  lemma AttributesGrow(attributes: map<Node, seq<string>>, n: Node, longer: seq<string>)
    requires n in attributes && |longer| == |attributes[n]| + 1
    ensures |AttributesOf(attributes[n := longer])| == |AttributesOf(attributes)| + 1
  {
    var added := (n, |attributes[n]|);
    AttributeIn(attributes, added);
    forall x: (Node, int)
      ensures x in AttributesOf(attributes[n := longer]) <==> x in AttributesOf(attributes) + {added}
    {
      AttributeIn(attributes, x);
      AttributeIn(attributes[n := longer], x);
    }
    hide AttributesOf;
    assert AttributesOf(attributes[n := longer]) == AttributesOf(attributes) + {added};
  }

  lemma AttributeIn(attributes: map<Node, seq<string>>, x: (Node, int))
    ensures x in AttributesOf(attributes) <==> x.0 in attributes && 0 <= x.1 < |attributes[x.0]|
  {
  }

  /** SetTracked on one pool. */
  function Tracking(pools: map<Pool, MemPool.Counts>, pool: Pool): map<Pool, MemPool.Counts> {
    if pool in pools then pools[pool := MemPool.TrackCounts(pools[pool])] else pools
  }

  lemma TrackingCounted(pools: map<Pool, MemPool.Counts>, live: set<Node>, attributes: map<Node, seq<string>>, pool: Pool)
    requires Counted(pools, live, attributes)
    ensures Counted(Tracking(pools, pool), live, attributes)
  {
  }

  // ----- the state of a document

  datatype State = State(links: map<Node, Links>, attributes: map<Node, seq<string>>, kids: map<Node, seq<Node>>,
                         below: map<Node, set<Node>>, pools: map<Pool, MemPool.Counts>)

  /** The nodes are of this document, and all but the document itself came from a node pool. */
  ghost predicate Belong(nodes: set<Node>, id: int, root: Node) {
    forall n | n in nodes :: n.docId == id && (n != root ==> n.pool != AttributePool)
  }

  predicate Sized(perBlock: map<Pool, nat>) {
    forall k: Pool :: k in perBlock && perBlock[k] >= 1
  }

  ghost predicate Good(s: State, id: int, root: Node) {
    && Sound(s.links, s.kids, s.below, root) && Counted(s.pools, s.links.Keys - {root}, s.attributes)
    && Belong(s.links.Keys, id, root) && s.attributes.Keys == s.links.Keys && root in s.links && s.attributes[root] == []
  }

  /** The live nodes without a parent, other than the document itself. */
  ghost function Loose(s: State, root: Node): set<Node> {
    (set n | n in s.links && s.links[n].parent == null) - {root}
  }

  ghost predicate Tracked(s: State, root: Node) {
    Tracks(s.pools, Loose(s, root))
  }

  ghost function Freed(s: State, x: Node): State
    requires x in s.links && s.below.Keys == s.links.Keys
  {
    State(FreedLinks(s.links, x), s.attributes, FreedKids(s.kids, s.links[x].parent, x), FreedBelow(s.links, s.below, x),
          if s.links[x].parent == null then Tracking(s.pools, x.pool) else s.pools)
  }

  lemma FreedGood(s: State, id: int, root: Node, x: Node)
    requires Good(s, id, root) && x in s.links && x != root
    ensures s.below.Keys == s.links.Keys && Good(Freed(s, x), id, root)
    ensures Freed(s, x).links.Keys == s.links.Keys
  {
    hide Sound, Counted, Belong, FreedLinks, FreedKids, FreedBelow, Tracking;
    FreedSound(s.links, s.kids, s.below, root, x);
    TrackingCounted(s.pools, s.links.Keys - {root}, s.attributes, x.pool);
  }

  /** From `s` to `t` the node `add` moved into the child list of `p`, which became `ks`; its subtree came along. */
  ghost predicate Placed(s: State, t: State, p: Node, add: Node, ks: seq<Node>) {
    && add in s.links && p in s.links && s.below.Keys == s.links.Keys
    && var f := Freed(s, add);
    && f.below.Keys == f.links.Keys && p in f.links && add in f.links && Adopted(f.links, t.links, add, p)
    && t.kids == f.kids[p := ks] && t.below == GraftBelow(f.links.Keys, f.below, add, p)
    && t.attributes == s.attributes && t.pools == f.pools
  }

  /** `add` may go under `p`: it is live, not the document, and neither `p` nor above it. */
  ghost predicate Insertable(s: State, root: Node, p: Node, add: Node)
  {
    add in s.links && add != root && p in s.links && add in s.below && p !in s.below[add]
  }

  /** The children of `p` other than `add`. */
  ghost function Others(s: State, p: Node, add: Node): seq<Node> {
    if p in s.kids then Without(s.kids[p], add) else []
  }

  lemma {:induction false} WithoutAbsent(s: seq<Node>, x: Node)
    requires x !in s
    ensures Without(s, x) == s
  {
    if s != [] {
      WithoutAbsent(s[1..], x);
      assert s == [s[0]] + s[1..];
    }
  }

  lemma FreedFor(s: State, id: int, root: Node, p: Node, add: Node)
    requires Good(s, id, root) && Insertable(s, root, p, add)
    ensures s.below.Keys == s.links.Keys && Good(Freed(s, add), id, root)
    ensures Freed(s, add).links.Keys == s.links.Keys == Freed(s, add).below.Keys && add != p && p in Freed(s, add).kids
    ensures Freed(s, add).links[add].parent == null && Insertable(Freed(s, add), root, p, add)
    ensures Spells(Freed(s, add).links, Freed(s, add).kids)
  {
    FreedGood(s, id, root, add);
    FreedSound(s.links, s.kids, s.below, root, add);
    SoundSpells(s.links, s.kids, s.below, root);
    SoundSpells(Freed(s, add).links, Freed(s, add).kids, Freed(s, add).below, root);
    FreedSpells(s.links, s.kids, add);
    ForestKeys(s.links.Keys, Up(s.links), s.below);
  }

  lemma FreedOthers(s: State, id: int, root: Node, p: Node, add: Node)
    requires Good(s, id, root) && Insertable(s, root, p, add)
    ensures p in s.kids && p in FreedKids(s.kids, s.links[add].parent, add)
    ensures FreedKids(s.kids, s.links[add].parent, add)[p] == Others(s, p, add)
  {
    hide IsForest, Counted, Belong, Distinct;
    assert Chain(s.links, p, s.kids[p]);
    if s.links[add].parent != p {
      WithoutAbsent(s.kids[p], add);
    }
  }

  lemma PlacedGood(s: State, t: State, id: int, root: Node, p: Node, add: Node, ks: seq<Node>)
    requires Good(s, id, root) && Insertable(s, root, p, add)
    requires Placed(s, t, p, add, ks) && Spells(t.links, t.kids)
    ensures Good(t, id, root)
  {
    FreedFor(s, id, root, p, add);
    var f := Freed(s, add);
    hide Counted, Belong, Spells, IsForest, Freed;
    AdoptedSound(f.links, t.links, t.kids, f.below, root, add, p);
    hide *;
  }

  // A node that gets a parent stops being untracked.
  lemma PlacedTracked(s: State, t: State, id: int, root: Node, p: Node, add: Node, ks: seq<Node>)
    requires Good(s, id, root) && Insertable(s, root, p, add)
    requires Placed(s, t, p, add, ks) && Tracked(s, root)
    ensures Tracked(t, root)
  {
    hide Good, Sound, Spells, IsForest, FreedLinks, FreedKids, FreedBelow, GraftBelow, Tracks, Tracking;
    FreedFor(s, id, root, p, add);
    FreedParents(s, id, root, add);
    LooseLess(s, Freed(s, add), t, root, p, add);
    hide Loose;
    if s.links[add].parent == null {
      TracksLess(s.pools, Loose(s, root), add);
    } else {
      assert Loose(s, root) - {add} == Loose(s, root);
    }
  }

  lemma LooseLess(s: State, f: State, t: State, root: Node, p: Node, add: Node)
    requires f.links.Keys == s.links.Keys && Adopted(f.links, t.links, add, p)
    requires forall y | y in s.links && y != add :: f.links[y].parent == s.links[y].parent
    ensures Loose(t, root) == Loose(s, root) - {add}
  {
    forall y | y in s.links && y != add
      ensures t.links[y].parent == s.links[y].parent
    {
      assert f.links[y].parent == s.links[y].parent;
    }
  }

  lemma FreedParents(s: State, id: int, root: Node, x: Node)
    requires Good(s, id, root) && x in s.links && x != root
    ensures s.below.Keys == s.links.Keys && Freed(s, x).links.Keys == s.links.Keys
    ensures forall y | y in s.links :: Freed(s, x).links[y].parent == if y == x then null else s.links[y].parent
    ensures x.pool != AttributePool
  {
    FreedSpells(s.links, s.kids, x);
    ForestKeys(s.links.Keys, Up(s.links), s.below);
  }

  lemma TracksLess(pools: map<Pool, MemPool.Counts>, loose: set<Node>, n: Node)
    requires Tracks(pools, loose) && n in loose && n.pool != AttributePool
    ensures Tracks(Tracking(pools, n.pool), loose - {n})
  {
    var rest := loose - {n};
    assert loose == rest + {n};
    forall k: Pool
      ensures |Members(loose, k)| == |Members(rest, k)| + if n.pool == k then 1 else 0
    {
      MembersAdd(rest, n, k);
    }
  }

  // ----- the insertions

  /** `s` once `add` is the child of `p` by the new links, with the children of `p` being `ks`. */
  ghost function Grafted(f: State, links: map<Node, Links>, p: Node, add: Node, ks: seq<Node>): State {
    if add in f.links && p in f.links && f.below.Keys == f.links.Keys then
      State(links, f.attributes, f.kids[p := ks], GraftBelow(f.links.Keys, f.below, add, p), f.pools)
    else
      f
  }

  lemma GraftedGood(s: State, id: int, root: Node, p: Node, add: Node, links: map<Node, Links>, ks: seq<Node>)
    requires Good(s, id, root) && Insertable(s, root, p, add) && s.below.Keys == s.links.Keys
    requires p in Freed(s, add).links && Adopted(Freed(s, add).links, links, add, p)
    requires Spells(links, Freed(s, add).kids[p := ks])
    ensures var t := Grafted(Freed(s, add), links, p, add, ks);
            Good(t, id, root) && Placed(s, t, p, add, ks) && (Tracked(s, root) ==> Tracked(t, root))
  {
    hide Good, Spells, Tracked, IsForest, FreedLinks, FreedKids, FreedBelow, Tracking;
    FreedFor(s, id, root, p, add);
    var t := Grafted(Freed(s, add), links, p, add, ks);
    PlacedGood(s, t, id, root, p, add, ks);
    if Tracked(s, root) {
      PlacedTracked(s, t, id, root, p, add, ks);
    }
  }

  lemma EndGood(s: State, id: int, root: Node, p: Node, add: Node)
    requires Good(s, id, root) && Insertable(s, root, p, add) && s.below.Keys == s.links.Keys
    ensures var f, ks := Freed(s, add), Others(s, p, add) + [add];
            && add in f.links && p in f.links
            && var t := Grafted(f, LastLinks(f.links, p, add), p, add, ks);
               Good(t, id, root) && Placed(s, t, p, add, ks) && (Tracked(s, root) ==> Tracked(t, root))
  {
    hide Good, Spells, Tracked, Placed, Grafted, IsForest, FreedLinks, FreedBelow, Tracking, LastLinks;
    FreedFor(s, id, root, p, add);
    FreedOthers(s, id, root, p, add);
    var f := Freed(s, add);
    LastSpells(f.links, f.kids, p, add);
    GraftedGood(s, id, root, p, add, LastLinks(f.links, p, add), Others(s, p, add) + [add]);
  }

  lemma FirstGood(s: State, id: int, root: Node, p: Node, add: Node)
    requires Good(s, id, root) && Insertable(s, root, p, add) && s.below.Keys == s.links.Keys
    ensures var f, ks := Freed(s, add), [add] + Others(s, p, add);
            && add in f.links && p in f.links
            && var t := Grafted(f, FirstLinks(f.links, p, add), p, add, ks);
               Good(t, id, root) && Placed(s, t, p, add, ks) && (Tracked(s, root) ==> Tracked(t, root))
  {
    hide Good, Spells, Tracked, Placed, Grafted, IsForest, FreedLinks, FreedBelow, Tracking, FirstLinks;
    FreedFor(s, id, root, p, add);
    FreedOthers(s, id, root, p, add);
    var f := Freed(s, add);
    FirstSpells(f.links, f.kids, p, add);
    GraftedGood(s, id, root, p, add, FirstLinks(f.links, p, add), [add] + Others(s, p, add));
  }

  lemma AfterGood(s: State, id: int, root: Node, p: Node, after: Node, add: Node)
    requires Good(s, id, root) && Insertable(s, root, p, add) && s.below.Keys == s.links.Keys
    requires after in s.links && s.links[after].parent == p
    requires s.links[after].next != null && SafeAfter(s.links, after, add)
    ensures var f, ks := Freed(s, add), InsertedAfter(Others(s, p, add), after, add);
            && add in f.links && p in f.links && after in f.links
            && f.links[after].next != null && f.links[after].next in f.links
            && var t := Grafted(f, AfterLinks(f.links, p, after, add), p, add, ks);
               Good(t, id, root) && Placed(s, t, p, add, ks) && (Tracked(s, root) ==> Tracked(t, root))
  {
    hide Good, Sound, Spells, Chain, Tracked, Placed, Grafted, IsForest, FreedLinks, FreedBelow, Tracking, AfterLinks;
    SpellsOf(s, id, root);
    FreedFor(s, id, root, p, add);
    FreedOthers(s, id, root, p, add);
    var f := Freed(s, add);
    SafeAfterWorks(s.links, s.kids, p, after, add);
    var q, k := PlaceOf(f.links, f.kids, after);
    AroundAt(f.links, q, f.kids[q], k);
    GraftedGood(s, id, root, p, add, AfterLinks(f.links, p, after, add), InsertedAfter(Others(s, p, add), after, add));
  }

  lemma SpellsOf(s: State, id: int, root: Node)
    requires Good(s, id, root)
    ensures Spells(s.links, s.kids)
  {
  }

  // ----- new nodes and attributes

  /** The pools once one chunk of `pool` was handed out. */
  function Allocated(pools: map<Pool, MemPool.Counts>, pool: Pool, perBlock: nat): map<Pool, MemPool.Counts> {
    if pool in pools && perBlock >= 1 then pools[pool := MemPool.AllocCounts(pools[pool], perBlock)] else pools
  }

  function Released(pools: map<Pool, MemPool.Counts>, pool: Pool): map<Pool, MemPool.Counts> {
    if pool in pools then pools[pool := MemPool.FreeCounts(pools[pool])] else pools
  }

  /** With a new node, linked to nothing. */
  ghost function Created(s: State, n: Node, perBlock: nat): State {
    State(s.links[n := UNLINKED], s.attributes[n := []], s.kids[n := []], s.below[n := {n}],
          Allocated(s.pools, n.pool, perBlock))
  }

  lemma CreatedSound(v: map<Node, Links>, kids: map<Node, seq<Node>>, below: map<Node, set<Node>>, root: Node, n: Node)
    requires Sound(v, kids, below, root) && n !in v
    ensures Sound(v[n := UNLINKED], kids[n := []], below[n := {n}], root)
  {
    hide IsForest, Spells;
    var w := v[n := UNLINKED];
    AddSingle(v.Keys, Up(v), below, n);
    CreatedSpells(v, kids, n);
    assert w.Keys == v.Keys + {n};
    assert forall x | x in v :: w[x] == v[x];
    assert Up(w) == Up(v);
  }

  lemma CreatedSpells(v: map<Node, Links>, kids: map<Node, seq<Node>>, n: Node)
    requires Spells(v, kids) && n !in v
    ensures Spells(v[n := UNLINKED], kids[n := []])
  {
    hide Chain;
    var w, kids' := v[n := UNLINKED], kids[n := []];
    forall m | m in w
      ensures Chain(w, m, kids'[m]) && m !in kids'[m]
    {
      if m == n {
        EmptyChain(w, n);
      } else {
        assert Chain(v, m, kids[m]);
        CreatedChain(v, n, m, kids[m]);
      }
    }
    assert forall x | x in v :: w[x].parent == v[x].parent;
  }

  lemma EmptyChain(v: map<Node, Links>, n: Node)
    requires n in v && v[n] == UNLINKED
    ensures Chain(v, n, [])
  {
  }

  lemma CreatedChain(v: map<Node, Links>, n: Node, m: Node, ks: seq<Node>)
    requires n !in v && Chain(v, m, ks)
    ensures Chain(v[n := UNLINKED], m, ks)
  {
    ChainKept(v, v[n := UNLINKED], m, ks);
  }

  lemma AllocatedCounted(pools: map<Pool, MemPool.Counts>, live: set<Node>, attributes: map<Node, seq<string>>,
                         n: Node, perBlock: nat)
    requires Counted(pools, live, attributes) && n !in live && n.pool != AttributePool && perBlock >= 1
    ensures Counted(Allocated(pools, n.pool, perBlock), live + {n}, attributes)
  {
    hide Members, AttributesOf;
    forall k: Pool
      ensures |Members(live + {n}, k)| == |Members(live, k)| + if n.pool == k then 1 else 0
    {
      MembersAdd(live, n, k);
    }
  }

  lemma AllocatedTracks(pools: map<Pool, MemPool.Counts>, loose: set<Node>, n: Node, perBlock: nat)
    requires Tracks(pools, loose) && n !in loose && n.pool != AttributePool && perBlock >= 1
    ensures Tracks(Allocated(pools, n.pool, perBlock), loose + {n})
  {
    hide Members;
    forall k: Pool
      ensures |Members(loose + {n}, k)| == |Members(loose, k)| + if n.pool == k then 1 else 0
    {
      MembersAdd(loose, n, k);
    }
  }

  lemma CreatedGood(s: State, id: int, root: Node, n: Node, perBlock: nat)
    requires Good(s, id, root) && n !in s.links && n.docId == id && n.pool != AttributePool && perBlock >= 1
    ensures Good(Created(s, n, perBlock), id, root)
    ensures Tracked(s, root) ==> Tracked(Created(s, n, perBlock), root)
  {
    hide Sound, Counted, Tracks, AttributesOf, Loose, Belong;
    var live := s.links.Keys - {root};
    CreatedSound(s.links, s.kids, s.below, root, n);
    CreatedCounts(s, root, n, perBlock);
    assert s.links.Keys + {n} - {root} == live + {n};
    AllocatedCounted(s.pools, live, s.attributes, n, perBlock);
    AttributesSame(Allocated(s.pools, n.pool, perBlock), live + {n}, s.attributes, s.attributes[n := []]);
    if Tracked(s, root) {
      AllocatedTracks(s.pools, Loose(s, root), n, perBlock);
    }
    CreatedBelong(s.links.Keys, id, root, n);
  }

  lemma AttributesSame(pools: map<Pool, MemPool.Counts>, live: set<Node>, a: map<Node, seq<string>>, b: map<Node, seq<string>>)
    requires Counted(pools, live, a) && AttributesOf(a) == AttributesOf(b)
    ensures Counted(pools, live, b)
  {
  }

  lemma CreatedCounts(s: State, root: Node, n: Node, perBlock: nat)
    requires n !in s.links && root in s.links && s.attributes.Keys == s.links.Keys
    ensures var t := Created(s, n, perBlock);
            && Loose(t, root) == Loose(s, root) + {n} && n !in Loose(s, root)
            && AttributesOf(t.attributes) == AttributesOf(s.attributes)
            && t.links.Keys == s.links.Keys + {n}
  {
    var t := Created(s, n, perBlock);
    assert forall x | x in s.links :: t.links[x] == s.links[x] && t.attributes[x] == s.attributes[x];
  }

  lemma CreatedBelong(nodes: set<Node>, id: int, root: Node, n: Node)
    requires Belong(nodes, id, root) && n.docId == id && n.pool != AttributePool
    ensures Belong(nodes + {n}, id, root)
  {
  }

  /** With the name at the end of the list of `n`; the attribute is tracked at once. */
  ghost function AttributeAdded(s: State, n: Node, name: string, perBlock: nat): State
    requires n in s.attributes
  {
    s.(attributes := s.attributes[n := s.attributes[n] + [name]],
       pools := Tracking(Allocated(s.pools, AttributePool, perBlock), AttributePool))
  }

  lemma AttributeAddedGood(s: State, id: int, root: Node, n: Node, name: string, perBlock: nat)
    requires Good(s, id, root) && n in s.links && n != root && perBlock >= 1
    ensures n in s.attributes && Good(AttributeAdded(s, n, name, perBlock), id, root)
    ensures Tracked(s, root) ==> Tracked(AttributeAdded(s, n, name, perBlock), root)
  {
    hide Sound, Belong, Members, AttributesOf;
    AttributesGrow(s.attributes, n, s.attributes[n] + [name]);
    assert Loose(AttributeAdded(s, n, name, perBlock), root) == Loose(s, root);
  }

  /** With one attribute of `n` less, so that its list is `list`. */
  ghost function AttributeDropped(s: State, n: Node, list: seq<string>): State {
    s.(attributes := s.attributes[n := list], pools := Released(s.pools, AttributePool))
  }

  lemma AttributeDroppedGood(s: State, id: int, root: Node, n: Node, list: seq<string>)
    requires Good(s, id, root) && n in s.links && n != root && |s.attributes[n]| == |list| + 1
    ensures Good(AttributeDropped(s, n, list), id, root)
    ensures Tracked(s, root) ==> Tracked(AttributeDropped(s, n, list), root)
  {
    hide Sound, Belong, Members, AttributesOf;
    AttributesGrow(s.attributes[n := list], n, s.attributes[n]);
    assert s.attributes[n := list][n := s.attributes[n]] == s.attributes;
    assert Loose(AttributeDropped(s, n, list), root) == Loose(s, root);
  }

  // ----- deleting

  /** From `s` to `t` the nodes `gone` went, and nothing else changed but child lists. */
  ghost predicate Pruned(s: State, t: State, gone: set<Node>) {
    && s.below.Keys == s.links.Keys && t.below.Keys == t.links.Keys == s.links.Keys - gone
    && s.attributes.Keys == s.links.Keys && t.attributes.Keys == t.links.Keys
    && (forall m | m in t.links :: m in s.links && t.links[m].parent == s.links[m].parent)
    && (forall m | m in t.links :: t.attributes[m] == s.attributes[m] && t.below[m] == s.below[m] - gone)
    && (forall k: Pool :: k in s.pools && k in t.pools && t.pools[k].untracked == s.pools[k].untracked)
  }

  /** The child lists of `t` are those of `s`, without `x`. */
  ghost predicate ListsWithout(s: State, t: State, x: Node) {
    forall m | m in t.kids :: m in s.kids && t.kids[m] == Without(s.kids[m], x)
  }

  /** The other nodes have the same child lists. */
  ghost predicate ListsBut(s: State, t: State, n: Node) {
    forall m | m in t.kids && m != n :: m in s.kids && t.kids[m] == s.kids[m]
  }

  /** `t` is `s` without `x` and everything below it. */
  ghost predicate Deleted(s: State, t: State, x: Node) {
    x in s.below && Pruned(s, t, s.below[x]) && ListsWithout(s, t, x)
  }

  /** `t` is `s` without some of what is below `n`; `n` itself is still there. */
  ghost predicate Clearing(s: State, t: State, n: Node) {
    && n in s.below && n in t.below && t.below[n] <= s.below[n] && n in t.below[n]
    && Pruned(s, t, s.below[n] - t.below[n]) && ListsBut(s, t, n)
  }

  /** Nothing is left below `n`. */
  ghost predicate Cleared(s: State, t: State, n: Node) {
    && n in s.below && n in t.below && t.below[n] == {n} && n in t.kids && t.kids[n] == []
    && Pruned(s, t, s.below[n] - {n}) && ListsBut(s, t, n)
  }

  lemma PrunedTwice(s: State, t: State, u: State, a: set<Node>, b: set<Node>)
    requires Pruned(s, t, a) && Pruned(t, u, b)
    ensures Pruned(s, u, a + b)
  {
  }

  lemma ParentIs(s: State, id: int, root: Node, x: Node)
    requires Good(s, id, root) && x in s.links
    ensures s.below.Keys == s.links.Keys && s.kids.Keys == s.links.Keys && x in s.below[x]
    ensures s.links[x].parent != null ==> s.links[x].parent in s.links && s.links[x].parent !in s.below[x]
  {
    if s.links[x].parent != null {
      assert x in Up(s.links) && Up(s.links)[x] !in s.below[x];
    }
  }

  lemma FreedParts(s: State, id: int, root: Node, x: Node)
    requires Good(s, id, root) && x in s.links && s.links[x].parent != null
    ensures s.below.Keys == s.links.Keys
    ensures var f := Freed(s, x);
            && f.below.Keys == s.links.Keys && f.below[x] == s.below[x]
            && (forall m | m in s.links :: f.below[m] - s.below[x] == s.below[m] - s.below[x])
            && f.attributes == s.attributes && f.pools == s.pools
  {
    hide IsForest, Spells, Counted, Belong, FreedLinks, FreedKids;
    ParentIs(s, id, root, x);
    FreedSound(s.links, s.kids, s.below, root, x);
  }

  lemma FreedLists(s: State, id: int, root: Node, x: Node)
    requires Good(s, id, root) && x in s.links && s.links[x].parent != null
    ensures s.below.Keys == s.links.Keys && s.links[x].parent in s.kids
    ensures Freed(s, x).kids == s.kids[s.links[x].parent := Without(s.kids[s.links[x].parent], x)]
  {
    ParentIs(s, id, root, x);
  }

  // A node is only in the list of its parent.
  lemma NotListed(s: State, id: int, root: Node, m: Node, x: Node)
    requires Good(s, id, root) && m in s.links && x in s.links && s.links[x].parent != m
    ensures m in s.kids && Without(s.kids[m], x) == s.kids[m]
  {
    hide IsForest, Counted, Belong, Distinct;
    assert Chain(s.links, m, s.kids[m]);
    WithoutAbsent(s.kids[m], x);
  }

  // Unlinking a linked node leaves it the root of a tree of its own.
  lemma UnlinkedDeleted(s: State, t: State, id: int, root: Node, x: Node)
    requires Good(s, id, root) && x in s.links && s.links[x].parent != null
    requires s.below.Keys == s.links.Keys && x in Freed(s, x).below && Deleted(Freed(s, x), t, x)
    ensures Pruned(s, t, s.below[x])
  {
    hide Good, Freed, ListsWithout;
    RootFree(s, id, root);
    ParentIs(s, id, root, x);
    FreedParts(s, id, root, x);
    FreedParents(s, id, root, x);
  }

  lemma UnlinkedLists(s: State, t: State, id: int, root: Node, x: Node)
    requires Good(s, id, root) && x in s.links && s.links[x].parent != null
    requires s.below.Keys == s.links.Keys && ListsWithout(Freed(s, x), t, x)
    ensures s.links[x].parent in s.links
    ensures ListsWithout(s, t, x) && ListsBut(s, t, s.links[x].parent)
  {
    hide Good, Freed, Without;
    ParentIs(s, id, root, x);
    FreedLists(s, id, root, x);
    var n := s.links[x].parent;
    WithoutTwice(s, id, root, n, x);
    forall m | m in t.kids
      ensures m in s.kids && t.kids[m] == Without(s.kids[m], x) && (m != n ==> t.kids[m] == s.kids[m])
    {
      if m != n {
        NotListed(s, id, root, m, x);
      }
    }
  }

  lemma RootFree(s: State, id: int, root: Node)
    requires Good(s, id, root)
    ensures root in s.links && s.links[root].parent == null
    ensures s.attributes.Keys == s.links.Keys
  {
  }

  lemma WithoutTwice(s: State, id: int, root: Node, n: Node, x: Node)
    requires Good(s, id, root) && n in s.links
    ensures n in s.kids && Without(Without(s.kids[n], x), x) == Without(s.kids[n], x)
  {
    hide IsForest, Counted, Belong;
    var ks := s.kids[n];
    assert Chain(s.links, n, ks);
    if x in ks {
      var k: nat :| k < |ks| && ks[k] == x;
      WithoutAt(ks, k);
    } else {
      WithoutAbsent(ks, x);
    }
    WithoutAbsent(Without(ks, x), x);
  }

  lemma ChildBelow(s: State, id: int, root: Node, n: Node, x: Node)
    requires Good(s, id, root) && n in s.links && x in s.links && s.links[x].parent == n
    ensures s.below.Keys == s.links.Keys && x in s.below[n] && s.below[x] <= s.below[n] && n in s.below[n]
    ensures n !in s.below[x] && x in s.below[x]
  {
    assert x in Up(s.links) && Up(s.links)[x] == n;
  }

  // One child of `n` deleted.
  lemma ClearStep(s: State, u: State, t: State, id: int, root: Node, n: Node, x: Node)
    requires Good(u, id, root) && Clearing(s, u, n) && x in u.links && u.links[x].parent == n
    requires u.below.Keys == u.links.Keys && x in Freed(u, x).below && Deleted(Freed(u, x), t, x)
    ensures n in u.below && n in t.below && n in t.links && Clearing(s, t, n) && t.below[n] < u.below[n]
  {
    hide Good, Freed, Without;
    ParentIs(u, id, root, x);
    ChildBelow(u, id, root, n, x);
    UnlinkedDeleted(u, t, id, root, x);
    UnlinkedLists(u, t, id, root, x);
    hide ListsWithout;
    ClearedMore(s, u, t, n, x);
  }

  lemma ClearedMore(s: State, u: State, t: State, n: Node, x: Node)
    requires Clearing(s, u, n) && x in u.below && u.below[x] <= u.below[n] && x in u.below[x]
    requires n !in u.below[x] && Pruned(u, t, u.below[x]) && ListsBut(u, t, n)
    ensures n in u.below && n in t.below && n in t.links && Clearing(s, t, n) && t.below[n] < u.below[n]
  {
    hide Pruned, ListsBut;
    var a, b := s.below[n] - u.below[n], u.below[x];
    PrunedTwice(s, u, t, a, b);
    PrunedAt(u, t, b, n);
    ListsButTwice(s, u, t, n);
    assert a + b == s.below[n] - t.below[n];
  }

  lemma ListsButTwice(s: State, u: State, t: State, n: Node)
    requires ListsBut(s, u, n) && ListsBut(u, t, n)
    ensures ListsBut(s, t, n)
  {
  }

  lemma PrunedAt(s: State, t: State, gone: set<Node>, n: Node)
    requires Pruned(s, t, gone) && n in s.below && n !in gone
    ensures n in t.below && n in t.links && t.below[n] == s.below[n] - gone
  {
  }

  lemma ClearDone(s: State, t: State, id: int, root: Node, n: Node)
    requires Good(t, id, root) && Clearing(s, t, n) && n in t.kids && t.kids[n] == []
    ensures Cleared(s, t, n)
  {
    hide Counted, Belong, Pruned, ListsBut, Chain;
    assert forall c | c in Up(t.links) :: Up(t.links)[c] != n;
    hide IsForest, Spells;
    forall y | y in t.below[n]
      ensures y == n
    {
      if y != n {
        var c := BelowAChild(t.links.Keys, Up(t.links), t.below, n, y);
      }
    }
    assert t.below[n] == {n};
  }

  /** Without the childless, unlinked node `x`. */
  ghost function Removed(s: State, x: Node): State {
    State(s.links - {x}, s.attributes - {x}, s.kids - {x}, s.below - {x}, Released(s.pools, x.pool))
  }

  lemma RemovedSpells(v: map<Node, Links>, kids: map<Node, seq<Node>>, x: Node)
    requires Spells(v, kids) && x in v && v[x].parent == null && kids[x] == []
    ensures Spells(v - {x}, kids - {x})
  {
    hide Chain;
    var w := v - {x};
    forall m | m in w
      ensures Chain(w, m, kids[m]) && m !in kids[m]
    {
      RemovedChain(v, x, m, kids[m]);
    }
  }

  lemma RemovedChain(v: map<Node, Links>, x: Node, m: Node, ks: seq<Node>)
    requires Chain(v, m, ks) && x in v && v[x].parent == null && m != x
    ensures Chain(v - {x}, m, ks)
  {
    ChainKept(v, v - {x}, m, ks);
  }

  lemma RemovedSound(v: map<Node, Links>, kids: map<Node, seq<Node>>, below: map<Node, set<Node>>, root: Node, x: Node)
    requires Sound(v, kids, below, root) && x in v && x != root && v[x].parent == null
    requires x in below && below[x] == {x} && x in kids && kids[x] == []
    ensures Sound(v - {x}, kids - {x}, below - {x}, root)
  {
    hide IsForest, Spells;
    DropSingle(v.Keys, Up(v), below, x);
    RemovedSpells(v, kids, x);
    assert Up(v - {x}) == Up(v);
    assert (v - {x}).Keys == v.Keys - {x};
  }

  lemma ReleasedCounted(pools: map<Pool, MemPool.Counts>, live: set<Node>, attributes: map<Node, seq<string>>, x: Node)
    requires Counted(pools, live, attributes) && x in live && x.pool != AttributePool
    ensures Counted(Released(pools, x.pool), live - {x}, attributes)
  {
    hide Members, AttributesOf;
    var rest := live - {x};
    assert live == rest + {x};
    forall k: Pool
      ensures |Members(live, k)| == |Members(rest, k)| + if x.pool == k then 1 else 0
    {
      MembersAdd(rest, x, k);
    }
  }

  lemma RemovedGood(s: State, id: int, root: Node, x: Node)
    requires Good(s, id, root) && x in s.links && x != root && s.links[x].parent == null
    requires x in s.below && s.below[x] == {x} && x in s.kids && s.kids[x] == []
    requires x in s.attributes && s.attributes[x] == []
    ensures Good(Removed(s, x), id, root)
  {
    hide Sound, Counted;
    RemovedSound(s.links, s.kids, s.below, root, x);
    ReleasedCounted(s.pools, s.links.Keys - {root}, s.attributes, x);
    assert (s.links - {x}).Keys - {root} == s.links.Keys - {root} - {x};
    assert AttributesOf(s.attributes - {x}) == AttributesOf(s.attributes);
    AttributesSame(Released(s.pools, x.pool), s.links.Keys - {root} - {x}, s.attributes, s.attributes - {x});
  }

  /** `f` is `c` with `x` a tree of its own. */
  ghost predicate Detached(c: State, f: State, x: Node) {
    && f.links.Keys == c.links.Keys == f.below.Keys == c.below.Keys && x in f.links && f.links[x].parent == null
    && (forall m | m in c.links && m != x :: f.links[m].parent == c.links[m].parent && f.below[m] == c.below[m] - {x})
    && f.below[x] == c.below[x] && f.attributes == c.attributes && f.pools == c.pools && ListsWithout(c, f, x)
  }

  lemma NotBelowAny(s: State, id: int, root: Node, x: Node)
    requires Good(s, id, root) && x in s.links && s.links[x].parent == null
    ensures s.below.Keys == s.links.Keys && forall m | m in s.links && m != x :: x !in s.below[m]
  {
  }

  lemma FreedWithout(c: State, id: int, root: Node, x: Node)
    requires Good(c, id, root) && x in c.links && c.links[x].parent != null
    ensures c.below.Keys == c.links.Keys && ListsWithout(c, Freed(c, x), x)
  {
    hide Good, Freed, Without;
    ParentIs(c, id, root, x);
    FreedLists(c, id, root, x);
    forall m | m in c.kids && m != c.links[x].parent
      ensures c.kids[m] == Without(c.kids[m], x)
    {
      NotListed(c, id, root, m, x);
    }
  }

  lemma FreedDetached(c: State, id: int, root: Node, x: Node)
    requires Good(c, id, root) && x in c.links && x != root && c.links[x].parent != null
    requires c.below.Keys == c.links.Keys && c.below[x] == {x}
    ensures Good(Freed(c, x), id, root) && Detached(c, Freed(c, x), x)
  {
    hide Good, Freed, ListsWithout;
    FreedGood(c, id, root, x);
    var f := Freed(c, x);
    FreedParts(c, id, root, x);
    FreedParents(c, id, root, x);
    FreedWithout(c, id, root, x);
    forall m | m in c.links && m != x
      ensures f.below[m] == c.below[m] - {x}
    {
      NotBelowAny(f, id, root, x);
      assert f.below[m] == f.below[m] - c.below[x];
    }
  }

  lemma SelfDetached(c: State, id: int, root: Node, x: Node)
    requires Good(c, id, root) && x in c.links && c.links[x].parent == null
    ensures Detached(c, c, x)
  {
    hide Good, Without;
    NotBelowAny(c, id, root, x);
    ParentIs(c, id, root, x);
    forall m | m in c.kids
      ensures c.kids[m] == Without(c.kids[m], x)
    {
      NotListed(c, id, root, m, x);
    }
    assert forall m | m in c.links && m != x :: c.below[m] - {x} == c.below[m];
  }

  lemma DroppingStarts(s: State, id: int, root: Node, x: Node)
    requires Good(s, id, root) && x in s.links
    ensures Dropping(s, s, x)
  {
    hide Sound, Belong, Members, AttributesOf;
    assert s.attributes[x := s.attributes[x]] == s.attributes;
  }

  lemma DroppingStep(s: State, a: State, x: Node, list: seq<string>)
    requires Dropping(s, a, x)
    ensures Dropping(s, AttributeDropped(a, x, list), x)
  {
    assert a.attributes[x := list] == s.attributes[x := list];
  }

  /** `a` is `s` with the attributes of `x` dropped. */
  ghost predicate Stripped(s: State, a: State, x: Node) {
    Dropping(s, a, x) && a.attributes[x] == []
  }

  /** `a` is `s` with another attribute list of `x`. */
  ghost predicate Dropping(s: State, a: State, x: Node) {
    && a == s.(attributes := a.attributes, pools := a.pools) && x in s.attributes && x in a.attributes
    && a.attributes == s.attributes[x := a.attributes[x]]
    && forall k: Pool :: k in s.pools && k in a.pools && a.pools[k].untracked == s.pools[k].untracked
  }

  // The steps of deleting `x` together.
  lemma DetachedPruned(c: State, f: State, x: Node)
    requires Detached(c, f, x) && c.attributes.Keys == c.links.Keys && forall k: Pool :: k in f.pools
    ensures Pruned(c, Removed(f, x), {x})
  {
    hide ListsWithout;
  }

  // All but the attributes of `x` is pruned; those are gone with `x`.
  lemma RemovedPruned(s: State, a: State, c: State, f: State, x: Node)
    requires Stripped(s, a, x) && Cleared(a, c, x) && Detached(c, f, x)
    requires x in s.below && x in s.below[x] && forall k: Pool :: k in f.pools
    ensures Pruned(s, Removed(f, x), s.below[x])
  {
    hide ListsWithout, ListsBut, Detached, Removed, Pruned, Cleared;
    var rest, t := s.below[x] - {x}, Removed(f, x);
    ClearedPruned(a, c, x);
    DetachedPruned(c, f, x);
    PrunedTwice(a, c, t, rest, {x});
    assert rest + {x} == s.below[x];
    StrippedPruned(s, a, t, s.below[x], x);
  }

  lemma ClearedPruned(a: State, c: State, x: Node)
    requires Cleared(a, c, x)
    ensures x in a.below && Pruned(a, c, a.below[x] - {x}) && c.attributes.Keys == c.links.Keys
  {
  }

  lemma StrippedPruned(s: State, a: State, t: State, gone: set<Node>, x: Node)
    requires Stripped(s, a, x) && Pruned(a, t, gone) && x in gone
    ensures Pruned(s, t, gone)
  {
  }

  lemma RemovedLists(s: State, a: State, c: State, f: State, x: Node)
    requires Stripped(s, a, x) && Cleared(a, c, x) && Detached(c, f, x)
    ensures ListsWithout(s, Removed(f, x), x) && (x in f.kids ==> f.kids[x] == [])
  {
    hide Pruned, Released;
    WithoutAbsent([], x);
  }

  lemma RemovedDeleted(s: State, a: State, c: State, f: State, id: int, root: Node, x: Node)
    requires Good(s, id, root) && x in s.links && x != root && Stripped(s, a, x) && Cleared(a, c, x)
    requires Good(f, id, root) && Detached(c, f, x)
    ensures Deleted(s, Removed(f, x), x) && Good(Removed(f, x), id, root)
  {
    hide Sound, Without;
    ParentIs(s, id, root, x);
    RemovedPruned(s, a, c, f, x);
    ParentIs(f, id, root, x);
    hide Counted;
    RemovedLists(s, a, c, f, x);
    StrippedAt(a, c, f, x);
    RemovedGood(f, id, root, x);
  }

  lemma StrippedAt(a: State, c: State, f: State, x: Node)
    requires Cleared(a, c, x) && Detached(c, f, x) && x in a.attributes && a.attributes[x] == []
    ensures x in f.attributes && f.attributes[x] == [] && x in f.below && f.below[x] == {x}
  {
  }

  lemma StrippedBelow(s: State, a: State, x: Node)
    requires Stripped(s, a, x)
    ensures a.below == s.below && a.links == s.links
  {
  }

  lemma ClearedAt(a: State, c: State, id: int, root: Node, x: Node)
    requires Cleared(a, c, x) && Good(c, id, root)
    ensures x in c.links && x in c.below && c.below[x] == {x}
  {
  }

  lemma ClearingStarts(s: State, id: int, root: Node, n: Node)
    requires Good(s, id, root) && n in s.links
    ensures Clearing(s, s, n)
  {
    hide IsForest, Spells, Belong;
    ParentIs(s, id, root, n);
    assert s.below[n] - s.below[n] == {};
  }

  // The first child is the head of the list.
  lemma FirstIs(s: State, id: int, root: Node, n: Node)
    requires Good(s, id, root) && n in s.links
    ensures n in s.kids && (s.links[n].first == null ==> s.kids[n] == [])
    ensures s.links[n].first != null ==>
              (var x := s.links[n].first;
               x in s.links && x != root && s.links[x].parent == n && x in s.below && n in s.below && s.below[x] < s.below[n])
  {
    hide Counted, Belong;
    assert Chain(s.links, n, s.kids[n]);
    if s.links[n].first != null {
      assert s.kids[n][0] in s.kids[n];
      ChildBelow(s, id, root, n, s.kids[n][0]);
    }
  }

  // ----- what deleting does to the counters

  lemma PrunedLoose(s: State, t: State, gone: set<Node>, root: Node)
    requires Pruned(s, t, gone)
    ensures Loose(t, root) == Loose(s, root) - gone
  {
  }

  lemma BelowLinked(s: State, id: int, root: Node, n: Node)
    requires Good(s, id, root) && n in s.links
    ensures n in s.below && forall y | y in s.below[n] && y != n :: y in s.links && s.links[y].parent != null
  {
    forall y | y in s.below[n] && y != n
      ensures y in s.links && s.links[y].parent != null
    {
      assert y in Up(s.links);
    }
  }

  // Deleting linked nodes leaves the nodes that have no parent as they were.
  lemma PrunedTracked(s: State, t: State, gone: set<Node>, root: Node)
    requires Pruned(s, t, gone) && Tracked(s, root) && Loose(s, root) - gone == Loose(s, root)
    ensures Tracked(t, root)
  {
    hide Members, Loose;
    PrunedLoose(s, t, gone, root);
  }

  lemma TrackingGood(s: State, id: int, root: Node, pool: Pool)
    requires Good(s, id, root)
    ensures Good(s.(pools := Tracking(s.pools, pool)), id, root)
  {
    hide Sound, Belong, Tracking;
    TrackingCounted(s.pools, s.links.Keys - {root}, s.attributes, pool);
  }

  lemma DeletedTracked(s: State, t: State, id: int, root: Node, x: Node)
    requires Good(s, id, root) && x in s.links && Deleted(s, t, x) && s.links[x].parent != null && Tracked(s, root)
    ensures Tracked(t, root)
  {
    hide Good, ListsWithout, Tracked;
    BelowLinked(s, id, root, x);
    assert Loose(s, root) - s.below[x] == Loose(s, root);
    hide Loose, Pruned;
    PrunedTracked(s, t, s.below[x], root);
  }

  lemma ClearedTracked(s: State, t: State, id: int, root: Node, n: Node)
    requires Good(s, id, root) && n in s.links && Cleared(s, t, n) && Tracked(s, root)
    ensures Tracked(t, root)
  {
    hide Good, ListsBut, Tracked;
    BelowLinked(s, id, root, n);
    assert Loose(s, root) - (s.below[n] - {n}) == Loose(s, root);
    hide Loose, Pruned;
    PrunedTracked(s, t, s.below[n] - {n}, root);
  }

  // A node that never got a parent, counted as tracked and then deleted.
  lemma DiscardedTracked(s: State, t: State, id: int, root: Node, x: Node)
    requires Good(s, id, root) && x in s.links && x != root && s.links[x].parent == null && Tracked(s, root)
    requires Deleted(s.(pools := Tracking(s.pools, x.pool)), t, x)
    ensures Tracked(t, root)
  {
    hide Sound, Counted, ListsWithout, Tracks;
    assert x.pool != AttributePool;
    BelowLinked(s, id, root, x);
    PrunedLoose(s.(pools := Tracking(s.pools, x.pool)), t, s.below[x], root);
    assert x in s.below[x] by {
      ParentIs(s, id, root, x);
    }
    TracksLess(s.pools, Loose(s, root), x);
    assert Loose(s.(pools := Tracking(s.pools, x.pool)), root) == Loose(s, root);
    assert Loose(s, root) - s.below[x] == Loose(s, root) - {x};
    hide Loose;
    SameUntracked(Tracking(s.pools, x.pool), t.pools, Loose(t, root));
  }

  lemma SameUntracked(a: map<Pool, MemPool.Counts>, b: map<Pool, MemPool.Counts>, loose: set<Node>)
    requires Tracks(a, loose) && forall k: Pool :: k in a && k in b && a[k].untracked == b[k].untracked
    ensures Tracks(b, loose)
  {
  }

  /** The linked nodes, other than the document itself. */
  ghost function LinkedNodes(s: State, root: Node): set<Node> {
    (set n | n in s.links && s.links[n].parent != null) - {root}
  }

  // In each node pool CurrentAllocs less Untracked is the number of nodes that have a parent, less those
  // that were deleted without being counted as tracked.
  lemma CountsAreConserved(s: State, id: int, root: Node, gone: set<Node>, k: Pool)
    requires Good(s, id, root) && Drifted(s, root, gone) && k != AttributePool
    ensures k in s.pools
    ensures s.pools[k].current - s.pools[k].untracked == |Members(LinkedNodes(s, root), k)| - |Members(gone, k)|
  {
    hide Sound, Belong, Members;
    var live, loose, linked := s.links.Keys - {root}, Loose(s, root), LinkedNodes(s, root);
    assert live == loose + linked && loose !! linked;
    hide Loose, LinkedNodes;
    MembersSplit(loose, linked, k);
  }

  lemma MembersSplit(a: set<Node>, b: set<Node>, k: Pool)
    requires a !! b
    ensures |Members(a + b, k)| == |Members(a, k)| + |Members(b, k)|
  {
    assert Members(a + b, k) == Members(a, k) + Members(b, k);
  }

  ghost predicate Balanced(s: State, k: Pool) {
    k in s.pools && s.pools[k].current == s.pools[k].untracked
  }

  lemma NodePoolsBalance(s: State, id: int, root: Node)
    requires Good(s, id, root) && Tracked(s, root)
    ensures (forall k: Pool | k != AttributePool :: Balanced(s, k)) <==> LinkedNodes(s, root) == {}
  {
    TrackedUndrifted(s, root);
    hide Sound, Counted, Tracked, LinkedNodes, Drifted;
    forall k: Pool | k != AttributePool
      ensures Balanced(s, k) <==> |Members(LinkedNodes(s, root), k)| == 0
    {
      assert Members({}, k) == {};
      DriftBalances(s, id, root, {}, k);
    }
    if n :| n in LinkedNodes(s, root) {
      assert n in Members(LinkedNodes(s, root), n.pool);
      LinkedPool(s, id, root, n);
      assert !Balanced(s, n.pool);
    }
  }

  lemma LinkedPool(s: State, id: int, root: Node, n: Node)
    requires Good(s, id, root) && n in LinkedNodes(s, root)
    ensures n.pool != AttributePool
  {
  }

  /** Every live node has neither children nor attributes. */
  ghost predicate AllBare(s: State) {
    forall n | n in s.links :: n in s.kids && n in s.attributes && s.kids[n] == [] && s.attributes[n] == []
  }

  // The equalities that Clear asserts once the children of the document are deleted hold
  // exactly when every node that is left has neither children nor attributes.
  lemma ClearBalances(s: State, id: int, root: Node)
    requires Good(s, id, root) && Tracked(s, root)
    ensures (forall k: Pool :: Balanced(s, k)) <==> AllBare(s)
  {
    hide Good, Tracked, LinkedNodes, AttributesOf;
    NodePoolsBalance(s, id, root);
    LinkedIffListed(s, id, root);
    NoAttributes(s.attributes);
    AttributeBalance(s, id, root);
    RootFree(s, id, root);
    assert (forall k: Pool :: Balanced(s, k)) <==>
           (forall k: Pool | k != AttributePool :: Balanced(s, k)) && Balanced(s, AttributePool);
  }

  lemma AttributeBalance(s: State, id: int, root: Node)
    requires Good(s, id, root) && Tracked(s, root)
    ensures Balanced(s, AttributePool) <==> |AttributesOf(s.attributes)| == 0
  {
  }

  lemma NoAttributes(attributes: map<Node, seq<string>>)
    ensures |AttributesOf(attributes)| == 0 <==> forall n | n in attributes :: attributes[n] == []
  {
    forall n | n in attributes && attributes[n] != []
      ensures (n, 0) in AttributesOf(attributes)
    {
    }
  }

  // No node is linked exactly when all child lists are empty.
  lemma LinkedIffListed(s: State, id: int, root: Node)
    requires Good(s, id, root)
    ensures s.kids.Keys == s.links.Keys
    ensures LinkedNodes(s, root) == {} <==> forall n | n in s.links :: s.kids[n] == []
  {
    hide IsForest, Counted, Belong;
    forall n | n in s.links && s.kids[n] != []
      ensures s.kids[n][0] in LinkedNodes(s, root)
    {
      assert Chain(s.links, n, s.kids[n]) && s.kids[n][0] in s.kids[n];
    }
  }

  /** An element, and if a name is asked for, one of that name. */
  predicate IsElement(n: Node, name: Option<string>) {
    n.pool == ElementPool && (name == None || n.value == name.value)
  }

  ghost predicate NoElement(ks: seq<Node>, name: Option<string>) {
    forall c <- ks :: c.pool != ElementPool || (name.Some? && c.value != name.value)
  }

  lemma NoneFrom(ks: seq<Node>, i: nat, name: Option<string>)
    requires i < |ks| && !IsElement(ks[i], name) && NoElement(ks[i + 1..], name)
    ensures NoElement(ks[i..], name)
  {
    assert ks[i..] == [ks[i]] + ks[i + 1..];
  }

  predicate NoneTwice(s: seq<Node>) {
    forall i, j | 0 <= i < j < |s| :: s[i] != s[j]
  }

  // ----- nodes deleted without being counted as tracked

  /** The nodes `gone` had no parent and were deleted untracked: each leaves its pool one untracked node too many. */
  ghost predicate Drifted(s: State, root: Node, gone: set<Node>) {
    && (forall k: Pool :: k in s.pools)
    && forall k: Pool | k != AttributePool :: s.pools[k].untracked == |Members(Loose(s, root), k)| + |Members(gone, k)|
  }

  lemma TrackedUndrifted(s: State, root: Node)
    requires Tracked(s, root)
    ensures Drifted(s, root, {})
  {
    forall k: Pool
      ensures |Members({}, k)| == 0
    {
      assert Members({}, k) == {};
    }
  }

  lemma PrunedDrifted(s: State, t: State, cut: set<Node>, root: Node, gone: set<Node>)
    requires Pruned(s, t, cut) && Drifted(s, root, gone) && Loose(s, root) - cut == Loose(s, root)
    ensures Drifted(t, root, gone)
  {
    hide Members, Loose;
    PrunedLoose(s, t, cut, root);
  }

  lemma ClearedDrifted(s: State, t: State, id: int, root: Node, n: Node, gone: set<Node>)
    requires Good(s, id, root) && n in s.links && Cleared(s, t, n) && Drifted(s, root, gone)
    ensures Drifted(t, root, gone)
  {
    hide Good, ListsBut, Drifted;
    BelowLinked(s, id, root, n);
    assert Loose(s, root) - (s.below[n] - {n}) == Loose(s, root);
    hide Loose, Pruned;
    PrunedDrifted(s, t, s.below[n] - {n}, root, gone);
  }

  // ParseDeep gives up on a node: it is deleted, and its pool drifts by one.
  lemma DiscardDrifts(s: State, t: State, id: int, root: Node, x: Node, gone: set<Node>)
    requires Good(s, id, root) && x in s.links && x != root && s.links[x].parent == null && x !in gone
    requires Drifted(s, root, gone) && Deleted(s, t, x)
    ensures Drifted(t, root, gone + {x})
  {
    hide Sound, Counted, ListsWithout;
    BelowLinked(s, id, root, x);
    PrunedLoose(s, t, s.below[x], root);
    assert x in s.below[x] by {
      ParentIs(s, id, root, x);
    }
    var rest := Loose(t, root);
    assert Loose(s, root) == rest + {x} && x !in rest;
    hide Loose, Members;
    forall k: Pool | k != AttributePool
      ensures t.pools[k].untracked == |Members(rest, k)| + |Members(gone + {x}, k)|
    {
      MembersAdd(rest, x, k);
      MembersAdd(gone, x, k);
    }
  }

  // The other nodes without a parent survive.
  lemma OthersStay(s: State, t: State, id: int, root: Node, x: Node)
    requires Good(s, id, root) && x in s.links && Deleted(s, t, x)
    ensures x !in t.links
    ensures forall y | y in s.links && s.links[y].parent == null && y != x :: y in t.links && t.links[y].parent == null
  {
    hide Sound, Counted, ListsWithout;
    BelowLinked(s, id, root, x);
    assert x in s.below[x] by {
      ParentIs(s, id, root, x);
    }
  }

  ghost function Upto(s: seq<Node>, i: nat): set<Node>
    requires i <= |s|
  {
    set x | x in s[..i]
  }

  /** Everything below the first `i` of the open nodes. */
  ghost function BelowOpen(s: State, open: seq<Node>, i: nat): set<Node>
    requires i <= |open|
  {
    set j, y | 0 <= j < i && open[j] in s.below && y in s.below[open[j]] :: y
  }

  /** `t` is `s` without the first `i` of the open nodes and what is below them; nobody else lost a child. */
  ghost predicate GivenUp(s: State, t: State, open: seq<Node>, i: nat)
    requires i <= |open|
  {
    Pruned(s, t, BelowOpen(s, open, i)) && forall m | m in t.kids :: m in s.kids && t.kids[m] == s.kids[m]
  }

  lemma NothingGiven(s: State, id: int, root: Node, open: seq<Node>)
    requires Good(s, id, root)
    ensures GivenUp(s, s, open, 0)
  {
    assert BelowOpen(s, open, 0) == {};
    GoodParts(s, id, root);
    hide *;
    PrunedNothing(s);
    GivenBy(s, s, open, 0);
  }

  lemma GoodParts(s: State, id: int, root: Node)
    requires Good(s, id, root)
    ensures s.kids.Keys == s.links.Keys && s.attributes.Keys == s.links.Keys && s.below.Keys == s.links.Keys
    ensures forall k: Pool :: k in s.pools
  {
  }

  lemma PrunedNothing(s: State)
    requires s.attributes.Keys == s.links.Keys && s.below.Keys == s.links.Keys && forall k: Pool :: k in s.pools
    ensures Pruned(s, s, {})
  {
    assert s.links.Keys - {} == s.links.Keys;
    assert forall m | m in s.below :: s.below[m] - {} == s.below[m];
  }

  lemma GivenBy(s: State, t: State, open: seq<Node>, i: nat)
    requires i <= |open| && Pruned(s, t, BelowOpen(s, open, i)) && forall m | m in t.kids :: m in s.kids && t.kids[m] == s.kids[m]
    ensures GivenUp(s, t, open, i)
  {
    hide Pruned, BelowOpen;
  }

  lemma LooseUnlisted(s: State, id: int, root: Node, x: Node)
    requires Good(s, id, root) && x in s.links && s.links[x].parent == null
    ensures s.kids.Keys == s.links.Keys && forall m | m in s.kids :: Without(s.kids[m], x) == s.kids[m]
  {
    SpellsOf(s, id, root);
    hide Good, Without;
    forall m | m in s.kids
      ensures Without(s.kids[m], x) == s.kids[m]
    {
      NotListed(s, id, root, m, x);
    }
  }

  lemma OneMoreOpen(s: State, open: seq<Node>, i: nat)
    requires i < |open| && open[i] in s.below
    ensures BelowOpen(s, open, i + 1) == BelowOpen(s, open, i) + s.below[open[i]]
  {
  }

  lemma GivenMore(s: State, t: State, u: State, id: int, root: Node, open: seq<Node>, i: nat)
    requires i < |open| && GivenUp(s, t, open, i) && Good(t, id, root)
    requires open[i] in t.links && t.links[open[i]].parent == null && Deleted(t, u, open[i])
    ensures GivenUp(s, u, open, i + 1)
  {
    hide *;
    var x, a := open[i], BelowOpen(s, open, i);
    GivenParts(s, t, open, i, x);
    OneMoreOpen(s, open, i);
    assert a + t.below[x] == BelowOpen(s, open, i + 1);
    DeletedParts(t, u, x);
    PrunedTwice(s, t, u, a, t.below[x]);
    LooseUnlisted(t, id, root, x);
    GivenBy(s, u, open, i + 1);
  }

  lemma GivenParts(s: State, t: State, open: seq<Node>, i: nat, x: Node)
    requires i <= |open| && GivenUp(s, t, open, i) && x in t.links
    ensures Pruned(s, t, BelowOpen(s, open, i)) && forall m | m in t.kids :: m in s.kids && t.kids[m] == s.kids[m]
    ensures x in s.below && x in t.below && t.below[x] == s.below[x] - BelowOpen(s, open, i)
  {
    hide BelowOpen;
  }

  lemma DeletedParts(t: State, u: State, x: Node)
    requires Deleted(t, u, x)
    ensures x in t.below && Pruned(t, u, t.below[x])
    ensures forall m | m in u.kids :: m in t.kids && u.kids[m] == Without(t.kids[m], x)
  {
    hide Pruned, Without;
  }

  /** Each node pool balances exactly if as many of its nodes have a parent as are in `gone`. */
  ghost predicate BalancedUpTo(s: State, root: Node, gone: set<Node>) {
    forall k: Pool | k != AttributePool :: Balanced(s, k) <==> |Members(LinkedNodes(s, root), k)| == |Members(gone, k)|
  }

  // A pool that has drifted balances exactly if as many of its nodes have a parent as were deleted
  // untracked; with no linked node left, only if none of its nodes was.
  lemma DriftBalances(s: State, id: int, root: Node, gone: set<Node>, k: Pool)
    requires Good(s, id, root) && Drifted(s, root, gone) && k != AttributePool
    ensures Balanced(s, k) <==> |Members(LinkedNodes(s, root), k)| == |Members(gone, k)|
    ensures LinkedNodes(s, root) == {} ==> (Balanced(s, k) <==> Members(gone, k) == {})
  {
    CountsAreConserved(s, id, root, gone, k);
    hide Good, Drifted, LinkedNodes;
    if LinkedNodes(s, root) == {} {
      assert Members({}, k) == {};
    }
  }

  class Document {
    const id: int
    const root: Node
    const perBlock: map<Pool, nat>   // COUNT of each pool
    var pools: map<Pool, MemPool.Counts>
    ghost var nodes: set<Node>               // the live nodes
    ghost var kids: map<Node, seq<Node>>
    ghost var below: map<Node, set<Node>>    // each node and its descendants

    ghost function Now(): State
      reads this, nodes
    {
      State(View(nodes), AttributeLists(nodes), kids, below, pools)
    }

    ghost predicate Valid()
      reads this, nodes
    {
      Good(Now(), id, root) && Sized(perBlock)
    }

    constructor (id: int, perBlock: map<Pool, nat>)
      requires Sized(perBlock)
      ensures Valid() && Tracked(Now(), root) && fresh(nodes) && nodes == {root} && kids == map[root := []]
      ensures this.id == id && below == map[root := {root}]
    {
      this.id, this.perBlock := id, perBlock;
      root := new Node(id, ElementPool, "");
      pools := EmptyPools();
      new;
      nodes, kids, below := {root}, map[root := []], map[root := {root}];
      StartState();
      StartGood(id, root, pools);
      hide *;
    }

    lemma StartState()
      requires nodes == {root} && kids == map[root := []] && below == map[root := {root}]
      requires root.Fields() == UNLINKED && root.attributes == []
      ensures Now() == State(map[root := UNLINKED], map[root := []], map[root := []], map[root := {root}], pools)
    {
    }

    // Steps of the operations, and what they do to the state.

    method SetTracked(pool: Pool)
      modifies this`pools
      ensures Now() == old(Now()).(pools := Tracking(old(Now()).pools, pool))
    {
      pools := Tracking(pools, pool);
    }

    /** The new child lists and descendants. */
    ghost method Record(kids: map<Node, seq<Node>>, below: map<Node, set<Node>>)
      modifies this`kids, this`below
      ensures Now() == old(Now()).(kids := kids, below := below)
    {
      this.kids, this.below := kids, below;
    }

    lemma NowAt(n: Node)
      ensures Now().links.Keys == nodes && Now().attributes.Keys == nodes
      ensures Now().pools == pools && Now().kids == kids && Now().below == below
      ensures n in nodes ==> Now().links[n] == n.Fields() && Now().attributes[n] == n.attributes
    {
    }

    /** XMLNode::Unlink, for the parent of `child`. */
    method Unlink(child: Node)
      requires Valid() && child in nodes && child.parent != null
      modifies nodes`parent, nodes`firstChild, nodes`lastChild, nodes`prev, nodes`next
      ensures Now() == old(Now()).(links := FreedLinks(old(Now().links), child))
    {
      FreedIs(nodes, kids, child);
      hide Good, FreedLinks, UnlinkLinks, View, AttributeLists;
      child.parent.Unlink(child, nodes);
    }

    /** XMLNode::InsertChildPreamble */
    method InsertChildPreamble(add: Node)
      requires Valid() && add in nodes && add != root
      modifies this`pools, this`kids, this`below
      modifies nodes`parent, nodes`firstChild, nodes`lastChild, nodes`prev, nodes`next
      ensures Valid() && nodes == old(nodes)
      ensures Now() == Freed(old(Now()), add)
    {
      hide Good, UnlinkLinks, FreedKids, FreedBelow, Tracking, Now;
      ghost var s := Now();
      NowAt(add);
      FreedGood(s, id, root, add);
      if add.parent != null {
        Unlink(add);
      } else {
        SetTracked(add.pool);
      }
      Record(FreedKids(s.kids, s.links[add].parent, add), FreedBelow(s.links, s.below, add));
    }
  
    /** The link assignments of InsertEndChild. */
    method LinkLast(p: Node, add: Node)
      requires p in nodes && add in nodes && add != p && (p.lastChild != null ==> p.lastChild in nodes)
      modifies nodes`parent, nodes`firstChild, nodes`lastChild, nodes`prev, nodes`next
      ensures Now() == old(Now()).(links := LastLinks(old(Now()).links, p, add))
    {
      hide View, AttributeLists, LastLinks, FirstLinks, AfterLinks;
      p.LinkLast(add, nodes);
    }

    /** The link assignments of InsertFirstChild. */
    method LinkFirst(p: Node, add: Node)
      requires p in nodes && add in nodes && add != p && (p.firstChild != null ==> p.firstChild in nodes)
      modifies nodes`parent, nodes`firstChild, nodes`lastChild, nodes`prev, nodes`next
      ensures Now() == old(Now()).(links := FirstLinks(old(Now()).links, p, add))
    {
      hide View, AttributeLists, LastLinks, FirstLinks, AfterLinks;
      p.LinkFirst(add, nodes);
    }

    /** The link assignments of InsertAfterChild. */
    method LinkAfter(p: Node, after: Node, add: Node)
      requires p in nodes && add in nodes && add != p
      requires after in nodes && after.next != null && after.next in nodes
      modifies nodes`parent, nodes`firstChild, nodes`lastChild, nodes`prev, nodes`next
      ensures Now() == old(Now()).(links := AfterLinks(old(Now()).links, p, after, add))
    {
      hide View, AttributeLists, LastLinks, FirstLinks, AfterLinks;
      p.LinkAfter(after, add, nodes);
    }

    /** XMLNode::InsertEndChild, called on `p`. */
    method InsertEndChild(p: Node, add: Node) returns (result: Node?)
      requires Valid() && p in nodes && (add.docId == id ==> Insertable(Now(), root, p, add))
      modifies this`pools, this`kids, this`below
      modifies nodes`parent, nodes`firstChild, nodes`lastChild, nodes`prev, nodes`next
      ensures Valid() && nodes == old(nodes) && (old(Tracked(Now(), root)) ==> Tracked(Now(), root))
      ensures add.docId != id ==> result == null && Now() == old(Now())
      ensures add.docId == id ==> result == add
      ensures add.docId == id ==>
                Placed(old(Now()), Now(), p, add, Others(old(Now()), p, add) + [add])
    {
      hide Good, Now, Freed, Placed, Others, Tracked, Spells, LastLinks, GraftBelow;
      if add.docId != id {
        return null;
      }
      ghost var s := Now();
      NowAt(add);
      FreedFor(s, id, root, p, add);
      InsertChildPreamble(add);
      ghost var f := Now();
      EndsAt(p);
      EndGood(s, id, root, p, add);
      LinkLast(p, add);
      Record(f.kids[p := Others(s, p, add) + [add]], GraftBelow(f.links.Keys, f.below, add, p));
      assert Now() == Grafted(f, LastLinks(f.links, p, add), p, add, Others(s, p, add) + [add]);
      result := add;
    }

    /** XMLNode::InsertFirstChild, called on `p`. */
    method InsertFirstChild(p: Node, add: Node) returns (result: Node?)
      requires Valid() && p in nodes && (add.docId == id ==> Insertable(Now(), root, p, add))
      modifies this`pools, this`kids, this`below
      modifies nodes`parent, nodes`firstChild, nodes`lastChild, nodes`prev, nodes`next
      ensures Valid() && nodes == old(nodes) && (old(Tracked(Now(), root)) ==> Tracked(Now(), root))
      ensures add.docId != id ==> result == null && Now() == old(Now())
      ensures add.docId == id ==> result == add
      ensures add.docId == id ==>
                Placed(old(Now()), Now(), p, add, [add] + Others(old(Now()), p, add))
    {
      hide Good, Now, Freed, Placed, Others, Tracked, Spells, FirstLinks, GraftBelow;
      if add.docId != id {
        return null;
      }
      ghost var s := Now();
      NowAt(add);
      FreedFor(s, id, root, p, add);
      InsertChildPreamble(add);
      ghost var f := Now();
      EndsAt(p);
      FirstGood(s, id, root, p, add);
      LinkFirst(p, add);
      Record(f.kids[p := [add] + Others(s, p, add)], GraftBelow(f.links.Keys, f.below, add, p));
      assert Now() == Grafted(f, FirstLinks(f.links, p, add), p, add, [add] + Others(s, p, add));
      result := add;
    }

    /** XMLNode::InsertAfterChild, called on `p`. */
    method InsertAfterChild(p: Node, after: Node, add: Node) returns (result: Node?)
      requires Valid() && p in nodes && after in nodes && (add.docId == id ==> Insertable(Now(), root, p, add))
      requires add.docId == id && after.parent == p ==> add in nodes && SafeAfter(Now().links, after, add)
      modifies this`pools, this`kids, this`below
      modifies nodes`parent, nodes`firstChild, nodes`lastChild, nodes`prev, nodes`next
      ensures Valid() && nodes == old(nodes) && (old(Tracked(Now(), root)) ==> Tracked(Now(), root))
      ensures add.docId != id || old(after.parent) != p ==> result == null && Now() == old(Now())
      ensures add.docId == id && old(after.parent) == p ==> result == add
      ensures add.docId == id && old(after.parent) == p ==>
                Placed(old(Now()), Now(), p, add,
                       if old(after.next) == null then Others(old(Now()), p, add) + [add]
                       else InsertedAfter(Others(old(Now()), p, add), after, add))
    {
      hide Good, Now, Freed, Placed, Others, Tracked, Spells, AfterLinks, GraftBelow, InsertedAfter;
      if add.docId != id {
        return null;
      }
      if after.parent != p {
        return null;
      }
      if after.next == null {
        result := InsertEndChild(p, add);
        return;
      }
      ghost var s := Now();
      NowAt(add);
      NowAt(after);
      FreedFor(s, id, root, p, add);
      AfterGood(s, id, root, p, after, add);
      InsertChildPreamble(add);
      ghost var f := Now();
      NowAt(after);
      LinkAfter(p, after, add);
      ghost var ks := InsertedAfter(Others(s, p, add), after, add);
      Record(f.kids[p := ks], GraftBelow(f.links.Keys, f.below, add, p));
      assert Now() == Grafted(f, AfterLinks(f.links, p, after, add), p, add, ks);
      result := add;
    }

    /** NewElement, NewText, NewComment, NewDeclaration and NewUnknown, by the pool they take from. */
    method NewNode(pool: Pool, value: string) returns (n: Node)
      requires Valid() && pool != AttributePool
      modifies this
      ensures Valid() && fresh(n) && n.docId == id && n.pool == pool && n.value == value && nodes == old(nodes) + {n}
      ensures Now() == Created(old(Now()), n, perBlock[pool])
      ensures old(Tracked(Now(), root)) ==> Tracked(Now(), root)
    {
      n := new Node(id, pool, value);
      CreatedGood(Now(), id, root, n, perBlock[pool]);
      Enter(n);
    }

    method Enter(n: Node)
      requires Valid() && n !in nodes && n.Fields() == UNLINKED && n.attributes == []
      modifies this
      ensures nodes == old(nodes) + {n} && Now() == Created(old(Now()), n, perBlock[n.pool])
    {
      hide Good, Allocated;
      EnterView(nodes, n);
      hide View, AttributeLists;
      pools := Allocated(pools, n.pool, perBlock[n.pool]);
      nodes, kids, below := nodes + {n}, kids[n := []], below[n := {n}];
    }

    method SetAttributes(n: Node, list: seq<string>, pools: map<Pool, MemPool.Counts>)
      requires n in nodes
      modifies this`pools, n`attributes
      ensures n.attributes == list
      ensures Now() == old(Now()).(attributes := old(Now()).attributes[n := list], pools := pools)
    {
      hide View, AttributeLists;
      n.SetAttributes(list, nodes);
      this.pools := pools;
    }

    /** The walk of FindOrCreateAttribute and DeleteAttribute along the list. */
    method FindAttribute(n: Node, name: string) returns (i: nat)
      ensures i <= |n.attributes| && name !in n.attributes[..i]
      ensures i < |n.attributes| ==> n.attributes[i] == name
    {
      i := 0;
      while i < |n.attributes|
        invariant i <= |n.attributes| && name !in n.attributes[..i]
      {
        if n.attributes[i] == name {
          return;
        }
        i := i + 1;
      }
    }

    /** XMLElement::FindOrCreateAttribute */
    method FindOrCreateAttribute(n: Node, name: string)
      requires Valid() && n in nodes && n != root
      modifies this`pools, n`attributes
      ensures Valid() && nodes == old(nodes) && (old(Tracked(Now(), root)) ==> Tracked(Now(), root))
      ensures name in old(n.attributes) ==> Now() == old(Now())
      ensures name !in old(n.attributes) ==>
                n in old(Now().attributes) && Now() == AttributeAdded(old(Now()), n, name, perBlock[AttributePool])
    {
      hide Good, Tracked, View, AttributeLists, Tracking, Allocated;
      var i := FindAttribute(n, name);
      if i < |n.attributes| {
        return;
      }
      NowAt(n);
      AttributeAddedGood(Now(), id, root, n, name, perBlock[AttributePool]);
      SetAttributes(n, n.attributes + [name],
                    Tracking(Allocated(pools, AttributePool, perBlock[AttributePool]), AttributePool));
    }

    /** XMLElement::DeleteAttribute */
    method DeleteAttribute(n: Node, name: string)
      requires Valid() && n in nodes && n != root
      modifies this`pools, n`attributes
      ensures Valid() && nodes == old(nodes) && (old(Tracked(Now(), root)) ==> Tracked(Now(), root))
      ensures name !in old(n.attributes) ==> Now() == old(Now())
      ensures name in old(n.attributes) ==>
                exists i :: 0 <= i < |old(n.attributes)| && old(n.attributes)[i] == name && name !in old(n.attributes)[..i]
                            && Now() == AttributeDropped(old(Now()), n, old(n.attributes)[..i] + old(n.attributes)[i + 1..])
    {
      hide Good, Tracked, View, AttributeLists, Released;
      var i := FindAttribute(n, name);
      if i < |n.attributes| {
        var rest := n.attributes[..i] + n.attributes[i + 1..];
        NowAt(n);
        AttributeDroppedGood(Now(), id, root, n, rest);
        SetAttributes(n, rest, Released(pools, AttributePool));
      }
    }

    /** The attributes go one by one, from the first on, as in the destructor of XMLElement. */
    method DropAttributes(n: Node)
      requires Valid() && n in nodes && n != root
      modifies this`pools, n`attributes
      ensures Valid() && nodes == old(nodes) && Stripped(old(Now()), Now(), n)
    {
      hide Good, Now, Dropping;
      NowAt(n);
      DroppingStarts(Now(), id, root, n);
      while n.attributes != []
        invariant Valid() && nodes == old(nodes) && Dropping(old(Now()), Now(), n)
        decreases |n.attributes|
      {
        var rest := n.attributes[1..];
        NowAt(n);
        AttributeDroppedGood(Now(), id, root, n, rest);
        DroppingStep(old(Now()), Now(), n, rest);
        SetAttributes(n, rest, Released(pools, AttributePool));
      }
      NowAt(n);
    }

    /** XMLNode::DeleteNode: the destructors of the element and of the node, then the chunk goes back to its pool. */
    method Destroy(x: Node)
      requires Valid() && x in nodes && x != root
      modifies this`pools, this`nodes, this`kids, this`below, nodes
      ensures Valid() && Deleted(old(Now()), Now(), x) && nodes <= old(nodes)
      decreases below[x], 1
    {
      hide Good, Now, Deleted, Stripped, Cleared, Detached, Removed;
      ghost var s := Now();
      NowAt(x);
      ParentIs(s, id, root, x);
      DropAttributes(x);
      ghost var a := Now();
      NowAt(x);
      StrippedBelow(s, a, x);
      DeleteChildren(x);
      ghost var c := Now();
      ClearedAt(a, c, id, root, x);
      NowAt(x);
      Detach(x);
      RemovedDeleted(s, a, c, Now(), id, root, x);
      NowAt(x);
      Leave(x);
    }

    /** The unlinking in the destructor of XMLNode. */
    method Detach(x: Node)
      requires Valid() && x in nodes && x != root && x in below && below[x] == {x}
      modifies this`kids, this`below, nodes`parent, nodes`firstChild, nodes`lastChild, nodes`prev, nodes`next
      ensures Valid() && nodes == old(nodes) && Detached(old(Now()), Now(), x)
    {
      hide Good, Now, Detached, FreedLinks, FreedKids, FreedBelow;
      ghost var c := Now();
      NowAt(x);
      ParentIs(c, id, root, x);
      if x.parent == null {
        SelfDetached(c, id, root, x);
        return;
      }
      FreedDetached(c, id, root, x);
      Unlink(x);
      Record(FreedKids(c.kids, c.links[x].parent, x), FreedBelow(c.links, c.below, x));
      assert Now() == Freed(c, x);
    }

    /** The node is no longer live, and its chunk is free again. */
    method Leave(x: Node)
      requires x in nodes
      modifies this`pools, this`nodes, this`kids, this`below
      ensures nodes == old(nodes) - {x} && Now() == Removed(old(Now()), x)
    {
      hide Released;
      LeaveView(nodes, x);
      hide View, AttributeLists;
      pools := Released(pools, x.pool);
      nodes, kids, below := nodes - {x}, kids - {x}, below - {x};
    }

    /** The first lines of the loop in DeleteChildren. */
    method UnlinkFirst(n: Node) returns (node: Node)
      requires Valid() && n in nodes && n in below && n.firstChild != null
      modifies this`kids, this`below, nodes`parent, nodes`firstChild, nodes`lastChild, nodes`prev, nodes`next
      ensures Valid() && nodes == old(nodes) && node in nodes && node != root && node in old(Now().links)
      ensures old(Now().links)[node].parent == n
      ensures old(Now().below).Keys == old(Now().links).Keys && Now() == Freed(old(Now()), node)
      ensures node in below && below[node] < old(below)[n]
    {
      hide Good, Now, FreedLinks, FreedKids, FreedBelow;
      ghost var u := Now();
      NowAt(n);
      FirstIs(u, id, root, n);
      node := n.firstChild;
      NowAt(node);
      FreedGood(u, id, root, node);
      FreedParts(u, id, root, node);
      Unlink(node);
      Record(FreedKids(u.kids, u.links[node].parent, node), FreedBelow(u.links, u.below, node));
      assert Now() == Freed(u, node);
      NowAt(node);
    }

    /** XMLNode::DeleteChildren, called on `n`. */
    method DeleteChildren(n: Node)
      requires Valid() && n in nodes && n in below
      modifies this`pools, this`nodes, this`kids, this`below, nodes
      ensures Valid() && Cleared(old(Now()), Now(), n) && nodes <= old(nodes)
      ensures old(Tracked(Now(), root)) ==> Tracked(Now(), root)
      decreases below[n], 0
    {
      hide Good, Now, Clearing, Cleared, Deleted, Tracked, Freed;
      ghost var s := Now();
      NowAt(n);
      ClearingStarts(s, id, root, n);
      while n.firstChild != null
        invariant Valid() && nodes <= old(nodes) && n in nodes && n in below && Clearing(s, Now(), n)
        invariant below[n] <= old(below)[n]
        decreases below[n]
      {
        ghost var u := Now();
        NowAt(n);
        var node := UnlinkFirst(n);
        NowAt(node);
        Destroy(node);
        ClearStep(s, u, Now(), id, root, n, node);
        NowAt(n);
      }
      NowAt(n);
      FirstIs(Now(), id, root, n);
      ClearDone(s, Now(), id, root, n);
      if Tracked(s, root) {
        ClearedTracked(s, Now(), id, root, n);
      }
    }

    /** XMLNode::DeleteChild, called on `n`. */
    method DeleteChild(n: Node, x: Node)
      requires Valid() && n in nodes && x in nodes && x.parent == n
      modifies this`pools, this`nodes, this`kids, this`below, nodes
      ensures Valid() && Deleted(old(Now()), Now(), x) && nodes <= old(nodes)
      ensures old(Tracked(Now(), root)) ==> Tracked(Now(), root)
    {
      hide Good, Now, Deleted, Tracked;
      ghost var s := Now();
      NowAt(x);
      RootFree(s, id, root);
      Destroy(x);
      if Tracked(s, root) {
        DeletedTracked(s, Now(), id, root, x);
      }
    }

    /** XMLDocument::DeleteNode */
    method DeleteNode(x: Node)
      requires Valid() && x in nodes && x != root
      modifies this`pools, this`nodes, this`kids, this`below, nodes
      ensures Valid() && nodes <= old(nodes)
      ensures old(x.parent) != null ==> Deleted(old(Now()), Now(), x)
      ensures old(x.parent) == null ==>
                Deleted(old(Now()).(pools := Tracking(old(Now()).pools, x.pool)), Now(), x)
      ensures old(Tracked(Now(), root)) ==> Tracked(Now(), root)
    {
      hide Good, Now, Deleted, Tracked, Tracking;
      ghost var s := Now();
      NowAt(x);
      if x.parent != null {
        ParentIs(s, id, root, x);
        DeleteChild(x.parent, x);
        return;
      }
      TrackingGood(s, id, root, x.pool);
      SetTracked(x.pool);
      Destroy(x);
      if Tracked(s, root) {
        DiscardedTracked(s, Now(), id, root, x);
      }
    }

    /**
      XMLNode::ParseDeep and its callers, giving up: the nodes that are open and not yet inserted anywhere
      are deleted in turn, none of them counted as tracked.
     */
    method GiveUp(open: seq<Node>)
      requires Valid() && NoneTwice(open)
      requires forall j | 0 <= j < |open| :: open[j] in nodes && open[j] != root && open[j].parent == null
      modifies this`pools, this`nodes, this`kids, this`below, nodes
      ensures Valid() && nodes <= old(nodes) && Upto(open, |open|) !! nodes && GivenUp(old(Now()), Now(), open, |open|)
      ensures old(Tracked(Now(), root)) ==> Drifted(Now(), root, Upto(open, |open|))
    {
      hide Good, Now, Deleted, Tracked, Drifted, GivenUp;
      ghost var s := Now();
      if Tracked(s, root) {
        TrackedUndrifted(s, root);
      }
      NothingGiven(s, id, root, open);
      assert Upto(open, 0) == {};
      for i := 0 to |open|
        invariant Valid() && nodes <= old(nodes) && Upto(open, i) !! nodes
        invariant forall j | i <= j < |open| :: open[j] in nodes && open[j].parent == null
        invariant Tracked(s, root) ==> Drifted(Now(), root, Upto(open, i))
        invariant GivenUp(s, Now(), open, i)
      {
        GiveUpOne(open, i, s);
      }
    }

    /** DeleteNode on one of them. */
    method GiveUpOne(open: seq<Node>, i: nat, ghost start: State)
      requires Valid() && NoneTwice(open) && i < |open| && open[i] != root && Upto(open, i) !! nodes
      requires forall j | i <= j < |open| :: open[j] in nodes && open[j].parent == null
      requires GivenUp(start, Now(), open, i)
      modifies this`pools, this`nodes, this`kids, this`below, nodes
      ensures Valid() && nodes <= old(nodes) && Upto(open, i + 1) !! nodes && GivenUp(start, Now(), open, i + 1)
      ensures forall j | i < j < |open| :: open[j] in nodes && open[j].parent == null
      ensures old(Drifted(Now(), root, Upto(open, i))) ==> Drifted(Now(), root, Upto(open, i + 1))
    {
      hide Good, Now, Deleted, Drifted, GivenUp;
      ghost var s := Now();
      NowAt(open[i]);
      forall j | i < j < |open|
        ensures open[j] in s.links && s.links[open[j]].parent == null
      {
        NowAt(open[j]);
      }
      Destroy(open[i]);
      GivenMore(start, s, Now(), id, root, open, i);
      OthersStay(s, Now(), id, root, open[i]);
      NowAt(open[i]);
      forall j | i < j < |open|
        ensures open[j] in nodes && open[j].parent == null
      {
        NowAt(open[j]);
      }
      assert Upto(open, i) + {open[i]} == Upto(open, i + 1);
      if Drifted(s, root, Upto(open, i)) {
        DiscardDrifts(s, Now(), id, root, open[i], Upto(open, i));
      }
    }

    /**
      The part of Clear that empties the tree, and the balance it then asserts; `gone` are the nodes
      that failed parses deleted untracked.
     */
    method Clear(ghost gone: set<Node>)
      requires Valid() && root in below
      modifies this`pools, this`nodes, this`kids, this`below, nodes
      ensures Valid() && Cleared(old(Now()), Now(), root)
      ensures old(Drifted(Now(), root, gone)) ==>
                Drifted(Now(), root, gone) && BalancedUpTo(Now(), root, gone)
      ensures old(Tracked(Now(), root)) ==>
                ((forall k: Pool :: Balanced(Now(), k)) <==> (forall n | n in nodes :: kids[n] == [] && n.attributes == []))
    {
      hide Good, Tracked, Drifted, Cleared, Balanced, LinkedNodes;
      ghost var s := Now();
      RootFree(s, id, root);
      DeleteChildren(root);
      if Drifted(s, root, gone) {
        ClearedDrifted(s, Now(), id, root, root, gone);
        forall k: Pool | k != AttributePool {
          DriftBalances(Now(), id, root, gone, k);
        }
      }
      if Tracked(s, root) {
        ClearBalances(Now(), id, root);
        BareNodes();
      }
    }

    lemma BareNodes()
      requires Valid()
      ensures kids.Keys == nodes && (AllBare(Now()) <==> forall n | n in nodes :: kids[n] == [] && n.attributes == [])
    {
      RootFree(Now(), id, root);
      hide Counted, Belong, Chain, IsForest;
      forall n | n in nodes
        ensures n in Now().kids && n in Now().links && Now().attributes[n] == n.attributes
      {
        NowAt(n);
      }
    }

    /** XMLNode::FirstChildElement, called on `p`: forward along the siblings; without a name any element will do. */
    method FirstChildElement(p: Node, name: Option<string>) returns (result: Node?)
      requires Valid() && p in nodes && p in kids
      ensures result == null ==> NoElement(kids[p], name)
      ensures result != null ==> result.pool == ElementPool && (name.Some? ==> result.value == name.value)
      ensures result != null ==> exists i :: 0 <= i < |kids[p]| && kids[p][i] == result && NoElement(kids[p][..i], name)
    {
      hide Good, Now;
      ghost var i := 0;
      LinksOf(p, i);
      result := p.firstChild;
      while result != null
        invariant 0 <= i <= |kids[p]| && result == (if i < |kids[p]| then kids[p][i] else null) && NoElement(kids[p][..i], name)
        decreases |kids[p]| - i
      {
        if IsElement(result, name) {
          return;
        }
        LinksOf(p, i);
        result := result.next;
        assert kids[p][..i + 1] == kids[p][..i] + [kids[p][i]];
        i := i + 1;
      }
      assert kids[p][..i] == kids[p];
    }

    /** XMLNode::LastChildElement, called on `p`: backward along the siblings. */
    method LastChildElement(p: Node, name: Option<string>) returns (result: Node?)
      requires Valid() && p in nodes && p in kids
      ensures result == null ==> NoElement(kids[p], name)
      ensures result != null ==> result.pool == ElementPool && (name.Some? ==> result.value == name.value)
      ensures result != null ==> exists i :: 0 <= i < |kids[p]| && kids[p][i] == result && NoElement(kids[p][i + 1..], name)
    {
      hide Good, Now, View, AttributeLists;
      ghost var i := |kids[p]|;
      LinksOf(p, i - 1);
      result := p.lastChild;
      while result != null
        invariant 0 <= i <= |kids[p]| && result == (if i > 0 then kids[p][i - 1] else null) && NoElement(kids[p][i..], name)
        decreases i
      {
        if IsElement(result, name) {
          return;
        }
        LinksOf(p, i - 1);
        NoneFrom(kids[p], i - 1, name);
        result := result.prev;
        i := i - 1;
      }
      assert kids[p][i..] == kids[p];
    }

    lemma LinksOf(p: Node, i: int)
      requires Valid() && p in nodes && p in kids
      ensures p.firstChild == (if kids[p] == [] then null else kids[p][0])
      ensures p.lastChild == (if kids[p] == [] then null else kids[p][|kids[p]| - 1])
      ensures 0 <= i < |kids[p]| ==> kids[p][i].next == if i + 1 < |kids[p]| then kids[p][i + 1] else null
      ensures 0 <= i < |kids[p]| ==> kids[p][i].prev == if i > 0 then kids[p][i - 1] else null
    {
      hide IsForest, Counted, Belong;
      var v, ks := Now().links, kids[p];
      assert Chain(v, p, ks) && v[p] == p.Fields();
      if 0 <= i < |ks| {
        assert ks[i] in ks && v[ks[i]] == ks[i].Fields();
      }
    }

    // The ends of the child list of a live node are live.
    lemma EndsAt(p: Node)
      requires Valid() && p in nodes
      ensures p.lastChild != null ==> p.lastChild in nodes
      ensures p.firstChild != null ==> p.firstChild in nodes
    {
      NowAt(p);
      assert Chain(Now().links, p, Now().kids[p]);
    }
  }

  function EmptyPools(): (pools: map<Pool, MemPool.Counts>)
    ensures forall k: Pool :: k in pools && pools[k] == MemPool.EMPTY
  {
    var pools := map[ElementPool := MemPool.EMPTY, TextPool := MemPool.EMPTY,
                     CommentPool := MemPool.EMPTY, AttributePool := MemPool.EMPTY];
    EveryPool(pools);
    pools
  }

  lemma EveryPool(pools: map<Pool, MemPool.Counts>)
    requires ElementPool in pools && TextPool in pools && CommentPool in pools && AttributePool in pools
    requires pools.Values == {MemPool.EMPTY}
    ensures forall k: Pool :: k in pools && pools[k] == MemPool.EMPTY
  {
    forall k: Pool
      ensures k in pools && pools[k] == MemPool.EMPTY
    {
      match k
      case ElementPool => assert pools[k] in pools.Values;
      case TextPool => assert pools[k] in pools.Values;
      case CommentPool => assert pools[k] in pools.Values;
      case AttributePool => assert pools[k] in pools.Values;
    }
  }

  lemma StartSound(root: Node)
    ensures Sound(map[root := UNLINKED], map[root := []], map[root := {root}], root)
  {
    assert Up(map[root := UNLINKED]) == map[];
  }

  lemma StartCounted(pools: map<Pool, MemPool.Counts>, attributes: map<Node, seq<string>>)
    requires forall k: Pool :: k in pools && pools[k] == MemPool.EMPTY
    requires forall n | n in attributes :: attributes[n] == []
    ensures Counted(pools, {}, attributes) && Tracks(pools, {})
  {
    assert forall k: Pool :: Members({}, k) == {};
    assert AttributesOf(attributes) == {};
  }

  lemma StartGood(id: int, root: Node, pools: map<Pool, MemPool.Counts>)
    requires root.docId == id && forall k: Pool :: k in pools && pools[k] == MemPool.EMPTY
    ensures var s := State(map[root := UNLINKED], map[root := []], map[root := []], map[root := {root}], pools);
            Good(s, id, root) && Tracked(s, root)
  {
    var s := State(map[root := UNLINKED], map[root := []], map[root := []], map[root := {root}], pools);
    assert s.links.Keys - {root} == {} && Loose(s, root) == {};
    StartSound(root);
    StartCounted(pools, map[root := []]);
  }
}
