/**
  What a parse that fails leaves behind on the heap: which nodes it had open, and which pools
  they were taken from without being counted as tracked.
 */
module FailedParse {
  import opened Options
  import opened ChildLists
  import opened Dom
  import opened Forest
  import opened ParsedDom
  import opened RepeatedAttributes
  import X = XmlTree
  import G = Grammar
  import N = Nesting
  import XmlChars

  // ----- the nodes that are open when the parse fails

  /**
    A node that ParseDeep gives up on: its pool, its name if it is an element, the attributes and children
    that are already linked, and the open child or the closing tag of another name that ended it.
   */
  datatype Stuck = Stuck(pool: Pool, value: string, attributes: seq<X.Attribute>, done: seq<X.Node>,
                         inner: Option<Stuck>, closing: Option<string>)

  /** The pools of the open nodes, the innermost first. */
  function Lost(st: Stuck): (pools: seq<Pool>)
    ensures pools != []
  {
    (if st.inner.Some? then Lost(st.inner.value) else []) + [st.pool]
  }

  function LeafPool(kind: G.Kind): Pool {
    if kind.TextRun? || kind.CDataTag? then TextPool else CommentPool
  }

  /** The attributes linked before the tag ends or fails. */
  function Linked(s: string, seen: seq<X.Attribute>): seq<X.Attribute>
    decreases |s|
  {
    var t := XmlChars.SkipWhiteSpace(s);
    if t == [] || !XmlChars.IsNameStartChar(t[0]) then seen
    else
      match G.ParseAttribute(t)
      case None => seen
      case Some((attribute, rest)) =>
        if X.HasAttribute(seen, attribute.name) then seen else Linked(rest, seen + [attribute])
  }

  /** The nodes completed before the one that fails. */
  function Done(s: string): seq<X.Node>
    requires G.ParseNodes(s).BadNodes?
    decreases |s|
  {
    match G.ParseOne(s)
    case One(node, rest) => [node] + Done(rest)
    case _ => []
  }

  function StuckAt(s: string): Stuck
    requires G.ParseNodes(s).BadNodes?
    decreases |s|, 1
  {
    if G.ParseOne(s).One? then StuckAt(G.ParseOne(s).rest)
    else
      var (kind, body) := G.Identify(s);
      if kind.ElementTag? then StuckElement(body) else Stuck(LeafPool(kind), "", [], [], None, None)
  }

  function StuckElement(s: string): Stuck
    requires G.ParseElement(s).BadNode?
    decreases |s|, 2
  {
    var t := XmlChars.SkipWhiteSpace(s);
    var u := if t != [] && t[0] == '/' then t[1..] else t;
    var name := XmlChars.ParseName(u);
    var attributes := if name == [] then [] else Linked(u[|name|..], []);
    var bare := Stuck(ElementPool, name, attributes, [], None, None);
    match G.ParseTag(s)
    case OpenTag(_, _, rest) =>
      if rest == [] then bare
      else
        (match G.ParseNodes(rest)
         case BadNodes(_) => bare.(done := Done(rest), inner := Some(StuckAt(rest)))
         case Nodes(children, end, _) => bare.(done := children, closing := end))
    case _ => bare
  }

  // ----- how many they are

  function Elements(n: nat): (r: seq<Pool>)
    ensures |r| == n
  {
    seq(n, _ => ElementPool)
  }

  /**
    The flat reader at the point of failure: the node it cannot read, and every element on the stack. A closing
    tag of another name and the end of the input fail the elements on the stack only.
   */
  function LostFlat(s: string, stack: seq<string>): seq<Pool>
    decreases |s|
  {
    match N.NextEvent(s)
    case Finished => Elements(|stack|)
    case Unreadable =>
      [if G.Identify(s).0.ElementTag? then ElementPool else LeafPool(G.Identify(s).0)] + Elements(|stack|)
    case Next(Leaf(_), rest) => LostFlat(rest, stack)
    case Next(Sealed(_, _), rest) => LostFlat(rest, stack)
    case Next(Opens(name, _), rest) => LostFlat(rest, [name] + stack)
    case Next(Closes(name), rest) =>
      if stack == [] then [] else if name == stack[0] then LostFlat(rest, stack[1..]) else Elements(|stack|)
  }

  /** What the result of the recursive parser means for a reader that still has `stack` open. */
  function LostBy(s: string, stack: seq<string>): seq<Pool> {
    match G.ParseNodes(s)
    case BadNodes(_) => Lost(StuckAt(s)) + Elements(|stack|)
    case Nodes(_, None, _) => Elements(|stack|)
    case Nodes(_, Some(name), rest) =>
      if stack == [] then [] else if name == stack[0] then LostFlat(rest, stack[1..]) else Elements(|stack|)
  }

  lemma OneMoreElement(n: nat)
    ensures [ElementPool] + Elements(n) == Elements(n + 1)
  {
  }

  lemma UnreadableLost(s: string, stack: seq<string>)
    requires N.NextEvent(s) == N.Unreadable
    ensures LostFlat(s, stack) == LostBy(s, stack)
  {
    hide G.ParseNodes, G.ParseLeafNode, N.NextEvent, FatalTag, XmlChars.SkipWhiteSpace;
    UnreadableParsed(s);
    NodesFail(s);
    UnreadableStuck(s);
  }

  lemma NodesFail(s: string)
    requires XmlChars.SkipWhiteSpace(s) != [] && G.ParseOne(s).BadNode?
    ensures G.ParseNodes(s) == G.BadNodes(G.ParseOne(s).error)
  {
    hide G.ParseOne;
  }

  lemma UnreadableStuck(s: string)
    requires N.NextEvent(s) == N.Unreadable && XmlChars.SkipWhiteSpace(s) != [] && G.ParseOne(s).BadNode?
    requires G.ParseNodes(s).BadNodes?
    ensures Lost(StuckAt(s)) == [if G.Identify(s).0.ElementTag? then ElementPool else LeafPool(G.Identify(s).0)]
  {
    hide G.ParseNodes, G.ParseLeafNode, G.ParseTag, XmlChars.SkipWhiteSpace, Linked;
  }

  // An element that opens: its own failure counts it, and so does the failure of anything in it.
  lemma OpenedLost(s: string, stack: seq<string>)
    requires N.NextEvent(s).Next? && N.NextEvent(s).event.Opens? && G.ParseNodes(s).BadNodes? && G.ParseOne(s).BadNode?
    requires LostFlat(N.NextEvent(s).rest, [N.NextEvent(s).event.name] + stack)
          == LostBy(N.NextEvent(s).rest, [N.NextEvent(s).event.name] + stack)
    ensures LostFlat(s, stack) == LostBy(s, stack)
  {
    hide G.ParseOne, G.ParseTag, G.ParseNodes, G.Identify, N.NextEvent, XmlChars.SkipWhiteSpace, Linked;
    var name, rest := N.NextEvent(s).event.name, N.NextEvent(s).rest;
    OpensStuck(s);
    OneMoreElement(|stack|);
    assert |[name] + stack| == |stack| + 1;
    assert LostFlat(s, stack) == LostFlat(rest, [name] + stack);
    if rest != [] && G.ParseNodes(rest).BadNodes? {
      assert Lost(StuckAt(s)) == Lost(StuckAt(rest)) + [ElementPool];
      assert Lost(StuckAt(rest)) + [ElementPool] + Elements(|stack|) == Lost(StuckAt(rest)) + ([ElementPool] + Elements(|stack|));
    } else {
      EmptyNodes();
      assert Lost(StuckAt(s)) == [ElementPool];
    }
  }

  lemma EmptyNodes()
    ensures G.ParseNodes([]) == G.Nodes([], None, [])
  {
  }

  lemma OpensStuck(s: string)
    requires N.NextEvent(s).Next? && N.NextEvent(s).event.Opens? && G.ParseNodes(s).BadNodes? && G.ParseOne(s).BadNode?
    ensures var name, rest, st := N.NextEvent(s).event.name, N.NextEvent(s).rest, StuckAt(s);
            && st.pool == ElementPool
            && (st.inner.Some? <==> rest != [] && G.ParseNodes(rest).BadNodes?)
            && (st.inner.Some? ==> st.inner.value == StuckAt(rest))
            && (rest != [] && G.ParseNodes(rest).Nodes? && G.ParseNodes(rest).end.Some? ==> G.ParseNodes(rest).end.value != name)
  {
    hide G.ParseNodes, G.ParseTag, XmlChars.SkipWhiteSpace, Linked;
  }

  // A failed parse loses the node it cannot read, if any, and one element for each that is open there.
  lemma {:induction false} LostAgrees(s: string, stack: seq<string>)
    ensures LostFlat(s, stack) == LostBy(s, stack)
    decreases |s|
  {
    hide N.NextEvent, G.ParseOne, G.Identify, XmlChars.SkipWhiteSpace, Lost, LostBy;
    match N.NextEvent(s)
    case Finished => FinishedLost(s, stack);
    case Unreadable => UnreadableLost(s, stack);
    case Next(event, rest) =>
      EventParsed(s);
      match event {
        case Leaf(_) =>
          LostAgrees(rest, stack);
          PassedLost(s, stack);
        case Sealed(_, _) =>
          LostAgrees(rest, stack);
          PassedLost(s, stack);
        case Closes(_) => ClosedLost(s, stack);
        case Opens(name, _) =>
          LostAgrees(rest, [name] + stack);
          if G.ParseOne(s).One? {
            LostAgrees(G.ParseOne(s).rest, stack);
            PassedLost(s, stack);
            OpenedPassed(s, stack);
          } else {
            NodesFail(s);
            OpenedLost(s, stack);
          }
      }
  }

  lemma FinishedLost(s: string, stack: seq<string>)
    requires N.NextEvent(s) == N.Finished
    ensures LostFlat(s, stack) == LostBy(s, stack)
  {
    FinishedParsed(s);
    hide G.ParseNodes, N.NextEvent;
  }

  lemma ClosedLost(s: string, stack: seq<string>)
    requires N.NextEvent(s).Next? && N.NextEvent(s).event.Closes? && XmlChars.SkipWhiteSpace(s) != []
    requires G.ParseOne(s) == G.End(N.NextEvent(s).event.name, N.NextEvent(s).rest)
    ensures LostFlat(s, stack) == LostBy(s, stack)
  {
    hide N.NextEvent, G.ParseOne, XmlChars.SkipWhiteSpace;
  }

  // A node that is read loses nothing.
  lemma PassedLost(s: string, stack: seq<string>)
    requires XmlChars.SkipWhiteSpace(s) != [] && G.ParseOne(s).One?
    ensures LostBy(s, stack) == LostBy(G.ParseOne(s).rest, stack)
  {
    hide G.ParseOne, XmlChars.SkipWhiteSpace, Lost, LostFlat;
  }

  lemma OpenedPassed(s: string, stack: seq<string>)
    requires N.NextEvent(s).Next? && N.NextEvent(s).event.Opens? && G.ParseOne(s).One?
    requires G.ParseOne(s) == Opened(N.NextEvent(s).event.name, N.NextEvent(s).event.attributes, N.NextEvent(s).rest)
    requires LostFlat(N.NextEvent(s).rest, [N.NextEvent(s).event.name] + stack)
          == LostBy(N.NextEvent(s).rest, [N.NextEvent(s).event.name] + stack)
    requires LostFlat(G.ParseOne(s).rest, stack) == LostBy(G.ParseOne(s).rest, stack)
    ensures LostFlat(s, stack) == LostBy(G.ParseOne(s).rest, stack)
  {
    hide N.NextEvent, G.ParseOne, G.ParseNodes, Lost;
    var name := N.NextEvent(s).event.name;
    assert ([name] + stack)[1..] == stack;
  }

  lemma LostByDepth(s: string)
    requires G.ParseNodes(s).BadNodes?
    ensures Lost(StuckAt(s)) == LostFlat(s, [])
  {
    LostAgrees(s, []);
    hide Lost, LostFlat;
    assert Lost(StuckAt(s)) + Elements(0) == Lost(StuckAt(s));
  }

  // ----- on the heap

  predicate LegalStuck(st: Stuck) {
    && st.pool != AttributePool && X.DistinctNames(st.attributes) && LegalAll(st.done)
    && (st.inner.Some? ==> LegalStuck(st.inner.value))
  }

  /** The open nodes: new, unlinked, from the pools that `st` says. */
  ghost predicate OpenNodes(doc: Document, old_: State, open: seq<Node>, st: Stuck)
    reads doc, doc.nodes
  {
    && |open| == |Lost(st)| && NoneTwice(open)
    && forall j | 0 <= j < |open| ::
         open[j] in doc.nodes && open[j] !in old_.links && open[j] != doc.root && open[j].parent == null && open[j].pool == Lost(st)[j]
  }

  /** Down to the failure: each node is created, filled as far as it goes, and left open. */
  method Descend(doc: Document, ghost p: Node, st: Stuck) returns (open: seq<Node>)
    requires Open(doc, p) && LegalStuck(st)
    modifies doc, doc.nodes
    ensures Open(doc, p) && fresh(doc.nodes - old(doc.nodes))
    ensures Grown(old(doc.Now()), doc.Now(), p, []) && NewLoose(old(doc.Now()), doc.Now(), Upto(open, |open|))
    ensures OpenNodes(doc, old(doc.Now()), open, st)
    decreases st
  {
    hide Good, Tracked, Grown, Built, NewLoose, Begun, Lost;
    ghost var s := doc.Now();
    var n := Start(doc, p, st);
    ghost var t := doc.Now();
    doc.NowAt(n);
    doc.NowAt(p);
    if st.inner.Some? {
      GrownKeys(s, t, p, []);
      var inner := Descend(doc, n, st.inner.value);
      Deeper(s, t, doc.Now(), p, n, inner);
      open := inner + [n];
      OuterOpen(doc, s, t, inner, n, st);
      return;
    }
    if st.closing.Some? {
      ReadClosingTag(doc, n, st.closing.value);
    } else {
      GoodKeyed(t, doc.id, doc.root);
      GrownNothing(t, n);
    }
    Ended(s, t, doc.Now(), p, n);
    open := [n];
    LastOpen(doc, s, t, n, st);
  }

  /** The node with its attributes and completed children. */
  method Start(doc: Document, ghost p: Node, st: Stuck) returns (n: Node)
    requires Open(doc, p) && LegalStuck(st)
    modifies doc, doc.nodes
    ensures Open(doc, p) && fresh(doc.nodes - old(doc.nodes)) && n in doc.nodes && fresh(n) && n != doc.root && n.pool == st.pool
    ensures Grown(old(doc.Now()), doc.Now(), p, []) && NewLoose(old(doc.Now()), doc.Now(), {n})
    ensures n !in old(doc.Now()).links && n.parent == null
  {
    hide Good, Tracked, Grown, Built, NewLoose, Begun, LegalAll, X.DistinctNames, Names;
    ghost var s := doc.Now();
    n := Begin(doc, p, st);
    ghost var u := doc.Now();
    ghost var ns := BuildAll(doc, n, st.done);
    Filling(s, u, doc.Now(), p, n, Names(st.attributes), st.done, ns);
    doc.NowAt(n);
    doc.NowAt(p);
  }

  method Begin(doc: Document, ghost p: Node, st: Stuck) returns (n: Node)
    requires Open(doc, p) && LegalStuck(st)
    modifies doc
    ensures Open(doc, p) && doc.nodes == old(doc.nodes) + {n} && fresh(n) && n != doc.root && n.pool == st.pool
    ensures Begun(old(doc.Now()), doc.Now(), p, n, Names(st.attributes))
  {
    hide Good, Tracked, Grown, NewLoose, Begun, LegalAll, X.DistinctNames, Names;
    ghost var s := doc.Now();
    doc.NowAt(p);
    n := Create(doc, p, st.pool, st.value);
    doc.NowAt(n);
    BegunIs(s, doc.Now(), p, n);
    ghost var t := doc.Now();
    ReadAttributes(doc, n, st.attributes, s, p);
    BegunNames(s, t, doc.Now(), p, n, Names(st.attributes));
  }

  lemma Filling(s: State, t: State, u: State, p: Node, n: Node, names: seq<string>, trees: seq<X.Node>, ns: seq<Node>)
    requires Begun(s, t, p, n, names) && Built(t, u, n, trees, ns)
    ensures Grown(s, u, p, []) && NewLoose(s, u, {n}) && n in u.links && n !in s.links && u.links[n].parent == null
    ensures s.links.Keys <= u.links.Keys
  {
    hide BelowGrown, Mirrors;
    GrownInside(s, t, u, p, [], n, ns);
    hide OldKept;
    OldKeptAt(t, u, n, ns, n);
    NewLooseTwice(s, t, u, n, ns, {n}, {});
    assert {n} + {} == {n};
    GrownKeys(s, u, p, []);
  }

  lemma Deeper(s: State, t: State, u: State, p: Node, n: Node, inner: seq<Node>)
    requires Grown(s, t, p, []) && NewLoose(s, t, {n}) && n !in s.links && n in t.links
    requires Grown(t, u, n, []) && NewLoose(t, u, Upto(inner, |inner|))
    ensures Grown(s, u, p, []) && NewLoose(s, u, Upto(inner + [n], |inner| + 1))
    ensures u.links.Keys >= t.links.Keys && u.links[n].parent == t.links[n].parent
  {
    hide BelowGrown, NewLoose;
    GrownInside(s, t, u, p, [], n, []);
    NewLooseTwice(s, t, u, n, [], {n}, Upto(inner, |inner|));
    OneMoreUpto(inner, n);
  }

  lemma OneMoreUpto(inner: seq<Node>, n: Node)
    ensures {n} + Upto(inner, |inner|) == Upto(inner + [n], |inner| + 1)
  {
    assert inner[..|inner|] == inner && (inner + [n])[..|inner| + 1] == inner + [n];
  }

  lemma Ended(s: State, t: State, u: State, p: Node, n: Node)
    requires Grown(s, t, p, []) && NewLoose(s, t, {n}) && n !in s.links && n in t.links
    requires Grown(t, u, n, []) && u.kids == t.kids
    ensures Grown(s, u, p, []) && NewLoose(s, u, Upto([n], 1))
    ensures u.links.Keys >= t.links.Keys && u.links[n].parent == t.links[n].parent
  {
    hide BelowGrown, NewLoose;
    SameLoose(s, t, u, n, {n});
    GrownInside(s, t, u, p, [], n, []);
    OldParent(t, u, n);
    hide *;
    OneMoreUpto([], n);
    assert [] + [n] == [n] && {n} + Upto([], 0) == {n} by { assert Upto([], 0) == {}; }
  }

  lemma OldParent(t: State, u: State, n: Node)
    requires Grown(t, u, n, []) && n in t.links
    ensures u.links.Keys >= t.links.Keys && u.links[n].parent == t.links[n].parent
  {
    hide BelowGrown;
  }

  lemma OuterOpen(doc: Document, s: State, t: State, inner: seq<Node>, n: Node, st: Stuck)
    requires doc.Valid() && st.inner.Some? && OpenNodes(doc, t, inner, st.inner.value)
    requires n in t.links && s.links.Keys <= t.links.Keys && n !in s.links && n in doc.nodes && n != doc.root && n.parent == null
    requires n.pool == st.pool
    ensures OpenNodes(doc, s, inner + [n], st)
  {
    hide Good;
    assert Lost(st) == Lost(st.inner.value) + [st.pool];
  }

  lemma LastOpen(doc: Document, s: State, t: State, n: Node, st: Stuck)
    requires doc.Valid() && st.inner.None? && n !in s.links && n in doc.nodes && n != doc.root && n.parent == null && n.pool == st.pool
    ensures OpenNodes(doc, s, [n], st)
  {
    hide Good;
    assert Lost(st) == [] + [st.pool];
  }

  // Above a new node there are only new nodes, up to one without a parent.
  lemma {:induction false} NewTop(s: State, u: State, id: int, root: Node, p: Node, x: Node) returns (r: Node)
    requires Good(u, id, root) && Grown(s, u, p, []) && Good(s, id, root) && x in u.links && x !in s.links
    ensures r in u.links && r !in s.links && u.links[r].parent == null && r in u.below && x in u.below[r]
    decreases |u.links.Keys - u.below[x]|
  {
    ParentIs(u, id, root, x);
    if u.links[x].parent == null {
      return x;
    }
    var q := u.links[x].parent;
    ParentNew(s, u, id, root, p, x);
    ChildBelow(u, id, root, q, x);
    Shrinks(u.links.Keys, u.below[x], u.below[q], q);
    r := NewTop(s, u, id, root, p, q);
    BelowChain(u, id, root, r, q, x);
  }

  lemma Shrinks(all: set<Node>, a: set<Node>, b: set<Node>, q: Node)
    requires a <= b && q in b && q !in a && q in all
    ensures |all - b| < |all - a|
  {
    assert all - b < all - a;
    SetSmaller(all - b, all - a);
  }

  lemma SetSmaller(a: set<Node>, b: set<Node>)
    requires a < b
    ensures |a| < |b|
  {
    assert b == a + (b - a);
  }

  lemma ParentNew(s: State, u: State, id: int, root: Node, p: Node, x: Node)
    requires Good(u, id, root) && Grown(s, u, p, []) && Good(s, id, root) && x in u.links && x !in s.links && u.links[x].parent != null
    ensures u.links[x].parent in u.links && u.links[x].parent !in s.links
  {
    var q := u.links[x].parent;
    SpellsOf(s, id, root);
    SpellsOf(u, id, root);
    hide Good, Grown;
    Listed(u, x);
    if q in s.links {
      GrownAt(s, u, p, q);
      ListedOld(s, q, x);
    }
  }

  lemma Listed(u: State, x: Node)
    requires Spells(u.links, u.kids) && x in u.links && u.links[x].parent != null
    ensures u.links[x].parent in u.links && u.links[x].parent in u.kids && x in u.kids[u.links[x].parent]
  {
    hide Chain;
  }

  lemma ListedOld(s: State, q: Node, x: Node)
    requires Spells(s.links, s.kids) && q in s.kids && x in s.kids[q]
    ensures x in s.links
  {
    assert Chain(s.links, q, s.kids[q]);
    hide Spells;
  }

  lemma GrownAt(s: State, u: State, p: Node, q: Node)
    requires Grown(s, u, p, []) && q in s.links
    ensures q in s.kids && q in u.kids && u.kids[q] == s.kids[q]
  {
    hide BelowGrown;
    assert s.kids[q] + [] == s.kids[q];
  }

  lemma BelowChain(u: State, id: int, root: Node, r: Node, q: Node, x: Node)
    requires Good(u, id, root) && r in u.below && q in u.below[r] && q in u.links && x in u.below[q]
    ensures x in u.below[r]
  {
  }

  // ----- giving up

  // What was below the open nodes is new, and everything new was below one of them.
  lemma NewIsBelowOpen(s: State, u: State, id: int, root: Node, p: Node, open: seq<Node>)
    requires Good(s, id, root) && Good(u, id, root) && Grown(s, u, p, []) && NewLoose(s, u, Upto(open, |open|))
    requires forall j | 0 <= j < |open| :: open[j] in u.links && open[j] !in s.links
    ensures u.links.Keys - BelowOpen(u, open, |open|) == s.links.Keys
  {
    hide *;
    GrownKeys(s, u, p, []);
    NewCut(s, u, id, root, p, open);
    CutNew(s, u, p, open);
  }

  lemma NewCut(s: State, u: State, id: int, root: Node, p: Node, open: seq<Node>)
    requires Good(s, id, root) && Good(u, id, root) && Grown(s, u, p, []) && NewLoose(s, u, Upto(open, |open|))
    ensures forall x | x in u.links && x !in s.links :: x in BelowOpen(u, open, |open|)
  {
    hide Good, Grown, NewLoose;
    forall x | x in u.links && x !in s.links
      ensures x in BelowOpen(u, open, |open|)
    {
      var r := NewTop(s, u, id, root, p, x);
      TopIsOpen(s, u, open, r);
    }
  }

  lemma CutNew(s: State, u: State, p: Node, open: seq<Node>)
    requires Grown(s, u, p, []) && forall j | 0 <= j < |open| :: open[j] in u.links && open[j] !in s.links
    ensures forall x | x in BelowOpen(u, open, |open|) :: x !in s.links
  {
    hide Grown;
    forall x | x in BelowOpen(u, open, |open|)
      ensures x !in s.links
    {
      var j :| 0 <= j < |open| && open[j] in u.below && x in u.below[open[j]];
      BelowNew(s, u, p, open[j]);
    }
  }

  lemma TopIsOpen(s: State, u: State, open: seq<Node>, r: Node)
    requires NewLoose(s, u, Upto(open, |open|)) && r in u.links && r !in s.links && u.links[r].parent == null
    ensures exists j :: 0 <= j < |open| && open[j] == r
  {
    assert r in Upto(open, |open|);
    assert open[..|open|] == open;
  }

  lemma BelowNew(s: State, u: State, p: Node, n: Node)
    requires Grown(s, u, p, []) && n in u.links && n !in s.links
    ensures n in u.below && u.below[n] !! s.links.Keys
  {
    hide OldKept;
    assert n in Fresh(s, u);
  }

  // Giving up the open nodes takes the heap back to where it was before the first of them.
  lemma Unwound(s: State, u: State, t: State, id: int, root: Node, p: Node, open: seq<Node>)
    requires Good(s, id, root) && Good(u, id, root) && Good(t, id, root)
    requires Grown(s, u, p, []) && NewLoose(s, u, Upto(open, |open|)) && GivenUp(u, t, open, |open|)
    requires forall j | 0 <= j < |open| :: open[j] in u.links && open[j] !in s.links
    ensures Grown(s, t, p, []) && t.kids == s.kids && t.attributes == s.attributes
  {
    hide Good, NewLoose, Grown, GivenUp, BelowOpen;
    NewIsBelowOpen(s, u, id, root, p, open);
    GoodKeyed(s, id, root);
    GoodKeyed(t, id, root);
    GivenKeys(u, t, open);
    forall m | m in s.links
      ensures m in t.links && t.links[m].parent == s.links[m].parent && t.kids[m] == s.kids[m]
      ensures t.attributes[m] == s.attributes[m] && t.below[m] <= s.below[m]
    {
      UnwoundAt(s, u, t, p, open, m);
    }
    SameGrows(s, t, p);
  }

  lemma GivenKeys(u: State, t: State, open: seq<Node>)
    requires GivenUp(u, t, open, |open|)
    ensures t.links.Keys == u.links.Keys - BelowOpen(u, open, |open|)
  {
    hide BelowOpen;
  }

  lemma UnwoundAt(s: State, u: State, t: State, p: Node, open: seq<Node>, m: Node)
    requires Grown(s, u, p, []) && GivenUp(u, t, open, |open|) && Keyed(t)
    requires u.links.Keys - BelowOpen(u, open, |open|) == s.links.Keys && m in s.links
    ensures m in t.links && t.links[m].parent == s.links[m].parent && t.kids[m] == s.kids[m]
    ensures t.attributes[m] == s.attributes[m] && t.below[m] <= s.below[m]
  {
    GivenKeys(u, t, open);
    GrownAt(s, u, p, m);
    var cut := BelowOpen(u, open, |open|);
    hide BelowOpen;
    assert m in t.links && m in u.links;
    assert u.below[m] <= s.below[m] + Fresh(s, u) && Fresh(s, u) <= cut;
    assert t.below[m] == u.below[m] - cut;
  }

  // ----- whole documents

  lemma {:induction false} LinkedDistinct(s: string, seen: seq<X.Attribute>)
    requires X.DistinctNames(seen)
    ensures X.DistinctNames(Linked(s, seen))
    decreases |s|
  {
    hide G.ParseAttribute, XmlChars.SkipWhiteSpace;
    var t := XmlChars.SkipWhiteSpace(s);
    if t != [] && XmlChars.IsNameStartChar(t[0]) && G.ParseAttribute(t).Some? {
      var (attribute, rest) := G.ParseAttribute(t).value;
      if !X.HasAttribute(seen, attribute.name) {
        LinkedDistinct(rest, seen + [attribute]);
      }
    }
  }

  lemma {:induction false} DoneIsLegal(s: string)
    requires G.ParseNodes(s).BadNodes?
    ensures LegalAll(Done(s))
    decreases |s|
  {
    hide Legal, G.ParseOne, XmlChars.SkipWhiteSpace;
    if G.ParseOne(s).One? {
      OneIsLegal(s);
      DoneIsLegal(G.ParseOne(s).rest);
    }
  }

  lemma {:induction false} StuckIsLegal(s: string)
    requires G.ParseNodes(s).BadNodes?
    ensures LegalStuck(StuckAt(s))
    decreases |s|, 1
  {
    hide G.ParseTag, G.ParseNodes, G.ParseLeafNode, XmlChars.SkipWhiteSpace, LegalAll;
    NotFinished(s);
    if G.ParseOne(s).One? {
      NextFails(s);
      StuckIsLegal(G.ParseOne(s).rest);
    } else {
      FailingIs(s);
      var (kind, body) := G.Identify(s);
      if kind.ElementTag? {
        StuckElementIsLegal(body);
      } else {
        NoneLegal();
      }
    }
  }

  lemma NoneLegal()
    ensures LegalAll([])
  {
  }

  lemma NotFinished(s: string)
    requires G.ParseNodes(s).BadNodes?
    ensures XmlChars.SkipWhiteSpace(s) != []
  {
    hide G.ParseOne, XmlChars.SkipWhiteSpace;
  }

  lemma NextFails(s: string)
    requires G.ParseNodes(s).BadNodes? && G.ParseOne(s).One?
    ensures G.ParseNodes(G.ParseOne(s).rest).BadNodes?
  {
    hide G.ParseOne;
  }

  lemma FailingIs(s: string)
    requires G.ParseNodes(s).BadNodes? && !G.ParseOne(s).One?
    ensures XmlChars.SkipWhiteSpace(s) != [] && G.ParseOne(s).BadNode?
  {
    hide G.ParseOne;
  }

  lemma {:induction false} StuckElementIsLegal(s: string)
    requires G.ParseElement(s).BadNode?
    ensures LegalStuck(StuckElement(s))
    decreases |s|, 2
  {
    hide G.ParseTag, G.ParseNodes, XmlChars.SkipWhiteSpace, Linked, LegalAll, XmlChars.ParseName;
    var t := XmlChars.SkipWhiteSpace(s);
    var u := if t != [] && t[0] == '/' then t[1..] else t;
    var name := XmlChars.ParseName(u);
    NoneLegal();
    LinkedDistinct(u[|name|..], []);
    var tag := G.ParseTag(s);
    if tag.OpenTag? && tag.rest != [] {
      if G.ParseNodes(tag.rest).BadNodes? {
        DoneIsLegal(tag.rest);
        StuckIsLegal(tag.rest);
      } else {
        ParsedIsLegal(tag.rest);
      }
    }
  }

  ghost predicate TakenFrom(gone: seq<Node>, pools: seq<Pool>) {
    |gone| == |pools| && NoneTwice(gone) && forall j | 0 <= j < |gone| :: gone[j].pool == pools[j]
  }

  /**
    A parse that fails: under the document there are the completed nodes, everything else is as before, and
    the nodes open at the failure, by pool as LostFlat says, were deleted without being counted as tracked.
   */
  method ParseFailing(doc: Document, input: string) returns (ghost ns: seq<Node>, ghost gone: seq<Node>)
    requires doc.Valid() && Tracked(doc.Now(), doc.root)
    requires G.ParseNodes(input).BadNodes? && G.ParseNodes(input).error != X.NULL_DEREFERENCE
    modifies doc, doc.nodes
    ensures doc.Valid() && fresh(doc.nodes - old(doc.nodes)) && Built(old(doc.Now()), doc.Now(), doc.root, Done(input), ns)
    ensures TakenFrom(gone, LostFlat(input, [])) && Drifted(doc.Now(), doc.root, Upto(gone, |gone|))
  {
    hide Good, Tracked, Grown, Built, NewLoose, GivenUp, Drifted, LegalAll, LegalStuck, StuckAt, Done, LostFlat, G.ParseNodes;
    ghost var s := doc.Now();
    doc.NowAt(doc.root);
    GoodKeyed(s, doc.id, doc.root);
    DoneIsLegal(input);
    StuckIsLegal(input);
    LostByDepth(input);
    ns := BuildAll(doc, doc.root, Done(input));
    ghost var m := doc.Now();
    var open := Descend(doc, doc.root, StuckAt(input));
    ghost var u := doc.Now();
    OpenIn(doc, m, open, StuckAt(input));
    doc.GiveUp(open);
    Unwound(m, u, doc.Now(), doc.id, doc.root, doc.root, open);
    BuiltStays(s, m, doc.Now(), doc.root, Done(input), ns);
    gone := open;
  }

  lemma OpenIn(doc: Document, s: State, open: seq<Node>, st: Stuck)
    requires doc.Valid() && OpenNodes(doc, s, open, st)
    ensures TakenFrom(open, Lost(st))
    ensures forall j | 0 <= j < |open| :: open[j] in doc.Now().links && open[j] !in s.links
    ensures forall j | 0 <= j < |open| :: open[j] in doc.nodes && open[j] != doc.root && open[j].parent == null
  {
    hide Good;
    forall j | 0 <= j < |open|
      ensures open[j] in doc.Now().links
    {
      doc.NowAt(open[j]);
    }
  }
}
