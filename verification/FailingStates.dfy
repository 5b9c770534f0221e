/**
  Reachable documents on which InsertAfterChild and the balance that Clear asserts fail.
 */
module FailingStates {
  import opened Options
  import opened ChildLists
  import opened Dom
  import opened ParsedDom
  import opened FailedParse
  import G = Grammar
  import N = Nesting
  import X = XmlTree
  import XmlChars
  import RoundTrip
  import SourceErrors
  import Rendering

  // ----- a failed parse

  // In a document that was empty, every node is below the document.
  lemma {:induction false} UnderRoot(s: State, u: State, id: int, root: Node, x: Node)
    requires s.links.Keys == {root} && NewLoose(s, u, {}) && Good(u, id, root) && x in u.links
    ensures root in u.below && x in u.below[root]
    decreases |u.links.Keys - u.below[x]|
  {
    ParentIs(u, id, root, x);
    GoodKeyed(u, id, root);
    hide Good;
    if u.links[x].parent == null {
      assert x == root;
      return;
    }
    var q := u.links[x].parent;
    ChildBelow(u, id, root, q, x);
    Shrinks(u.links.Keys, u.below[x], u.below[q], q);
    UnderRoot(s, u, id, root, q);
    BelowChain(u, id, root, root, q, x);
  }

  lemma AllUnder(s: State, u: State, id: int, root: Node)
    requires s.links.Keys == {root} && NewLoose(s, u, {}) && Good(u, id, root)
    ensures root in u.below && u.below[root] == u.links.Keys
  {
    GoodParts(u, id, root);
    BelowLive(u, id, root);
    hide Good, NewLoose;
    forall x | x in u.links
      ensures x in u.below[root]
    {
      UnderRoot(s, u, id, root, x);
    }
  }

  lemma BelowLive(u: State, id: int, root: Node)
    requires Good(u, id, root)
    ensures root in u.below && u.below[root] <= u.links.Keys
  {
  }

  lemma AllCleared(u: State, t: State, root: Node)
    requires root in u.below && u.below[root] == u.links.Keys && Cleared(u, t, root)
    ensures LinkedNodes(t, root) == {}
  {
    hide ListsBut;
    assert t.links.Keys == u.links.Keys - (u.below[root] - {root});
    assert forall x | x in t.links :: x == root;
  }

  lemma LostMembers(gone: seq<Node>, pools: seq<Pool>, k: Pool)
    requires TakenFrom(gone, pools)
    ensures Members(Upto(gone, |gone|), k) == {} <==> k !in pools
  {
    assert gone[..|gone|] == gone;
    if k in pools {
      var j :| 0 <= j < |pools| && pools[j] == k;
      assert gone[j] in Upto(gone, |gone|);
      assert gone[j] in Members(Upto(gone, |gone|), k);
    }
  }

  /** A document whose first parse fails. */
  method FailFirst(id: int, perBlock: map<Pool, nat>, input: string) returns (doc: Document, ghost gone: seq<Node>)
    requires Sized(perBlock)
    requires G.ParseNodes(input).BadNodes? && G.ParseNodes(input).error != X.NULL_DEREFERENCE
    ensures doc.Valid() && fresh(doc) && fresh(doc.nodes) && TakenFrom(gone, LostFlat(input, []))
    ensures Drifted(doc.Now(), doc.root, Upto(gone, |gone|))
    ensures doc.root in doc.below && doc.below[doc.root] == doc.Now().links.Keys
  {
    hide Good, Tracked, Built, Drifted, LostFlat, G.ParseNodes, TakenFrom;
    doc := new Document(id, perBlock);
    ghost var s := doc.Now();
    doc.NowAt(doc.root);
    ghost var ns;
    ns, gone := ParseFailing(doc, input);
    ghost var u := doc.Now();
    BuiltLoose(s, u, doc.root, Done(input), ns);
    AllUnder(s, u, doc.id, doc.root);
  }

  /**
    The same document, emptied as the next LoadFile does: a node pool balances exactly if no node of it was
    open at the failure.
   */
  method FailThenClear(id: int, perBlock: map<Pool, nat>, input: string) returns (doc: Document)
    requires Sized(perBlock)
    requires G.ParseNodes(input).BadNodes? && G.ParseNodes(input).error != X.NULL_DEREFERENCE
    ensures doc.Valid() && forall k: Pool | k != AttributePool :: Balanced(doc.Now(), k) <==> k !in LostFlat(input, [])
  {
    hide Good, Drifted, Cleared, LostFlat, G.ParseNodes, TakenFrom, Balanced, BalancedUpTo, Tracked;
    ghost var gone;
    doc, gone := FailFirst(id, perBlock, input);
    ghost var u := doc.Now();
    doc.Clear(Upto(gone, |gone|));
    AllCleared(u, doc.Now(), doc.root);
    Emptied(doc.Now(), doc.id, doc.root, gone, LostFlat(input, []));
  }

  lemma Emptied(t: State, id: int, root: Node, gone: seq<Node>, pools: seq<Pool>)
    requires Good(t, id, root) && Drifted(t, root, Upto(gone, |gone|)) && LinkedNodes(t, root) == {} && TakenFrom(gone, pools)
    ensures forall k: Pool | k != AttributePool :: Balanced(t, k) <==> k !in pools
  {
    hide *;
    forall k: Pool | k != AttributePool
      ensures Balanced(t, k) <==> k !in pools
    {
      DriftBalances(t, id, root, Upto(gone, |gone|), k);
      LostMembers(gone, pools, k);
    }
  }

  lemma BuiltLoose(s: State, u: State, p: Node, trees: seq<X.Node>, ns: seq<Node>)
    requires Built(s, u, p, trees, ns)
    ensures NewLoose(s, u, {})
  {
  }

  lemma UnclosedFails()
    ensures G.ParseNodes("<a>") == G.BadNodes(X.XML_ERROR_MISMATCHED_ELEMENT) && LostFlat("<a>", []) == [ElementPool]
  {
    var s := "<a>";
    assert "<" + "a>" == s;
    RoundTrip.ElementHeader("a>");
    UnclosedTag();
    hide XmlChars.SkipWhiteSpace, G.ParseTag, G.Identify;
    assert G.ParseElement("a>") == G.BadNode(X.XML_ERROR_MISMATCHED_ELEMENT);
    assert N.NextEvent(s) == N.Next(N.Opens("a", []), "");
    NothingLeft();
    assert LostFlat(s, []) == LostFlat("", ["a"] + []);
  }

  lemma UnclosedTag()
    ensures G.ParseTag("a>") == G.OpenTag("a", [], "")
  {
    assert XmlChars.IsName("a");
    RoundTrip.TagParses("a", [], ">", "");
    assert "a" + "" + ">" + "" == "a>";
  }

  lemma NothingLeft()
    ensures LostFlat("", ["a"] + []) == [ElementPool]
  {
    assert N.NextEvent("") == N.Finished;
    assert |["a"] + []| == 1 && Elements(1) == [ElementPool];
  }

  /** An element that is never closed. */
  method UnclosedElement(id: int, perBlock: map<Pool, nat>) returns (doc: Document)
    requires Sized(perBlock)
    ensures doc.Valid() && !Balanced(doc.Now(), ElementPool)
  {
    hide *;
    UnclosedFails();
    doc := FailThenClear(id, perBlock, "<a>");
  }

  // The pool of a leaf is that of its kind, whether it can be read or not.
  lemma PoolOfKind(kind: G.Kind, body: string)
    requires !kind.NothingLeft? && !kind.ElementTag? && (kind.TextRun? ==> body != [] && body[0] != '<')
    ensures G.ParseLeafNode(kind, body).One? ==> PoolOf(G.ParseLeafNode(kind, body).node) == LeafPool(kind)
  {
    hide XmlChars.ParseText;
  }

  // A leaf that does not end is lost from the pool of its kind, whatever stands in it.
  lemma UnfinishedLeaf(s: string, kind: G.Kind, body: string)
    requires kind.CommentTag? || kind.CDataTag? || kind.DeclarationTag? || kind.UnknownTag?
    requires s == SourceErrors.Head(kind) + body
    requires kind.UnknownTag? ==> !("<!--" <= s) && !("<![CDATA[" <= s)
    requires G.ParseLeafNode(kind, body).BadNode?
    ensures LostFlat(s, []) == [if kind.CDataTag? then TextPool else CommentPool]
  {
    var error := G.ParseLeafNode(kind, body).error;
    SourceErrors.LeafFails(s, kind, body, error);
    assert s[0] == '<' && SourceErrors.Head(kind) <= s && s[|SourceErrors.Head(kind)|..] == body;
    RoundTrip.TagStarts(s);
    hide G.ParseLeafNode, G.ParseNodes, XmlChars.SkipWhiteSpace, G.Identify;
    assert G.ParseOne(s) == G.BadNode(error);
    assert N.NextEvent(s) == N.Unreadable;
    assert Elements(0) == [];
  }

  // A text that no tag follows is lost from the text pool.
  lemma UnfinishedText(text: string)
    requires '<' !in text && !XmlChars.Blank(text)
    ensures LostFlat(text, []) == [TextPool]
  {
    RoundTrip.SkipToText(text, "");
    assert text + "" == text;
    RoundTrip.TextIs(text);
    NoTag(text);
    TextKind(text);
    hide XmlChars.SkipWhiteSpace, G.Identify, XmlChars.ParseText, G.ParseOne;
    assert N.NextEvent(text) == N.Unreadable;
    assert Elements(0) == [];
  }

  lemma TextKind(s: string)
    requires XmlChars.SkipWhiteSpace(s) != [] && XmlChars.SkipWhiteSpace(s)[0] != '<'
    ensures G.Identify(s) == (G.TextRun, s)
  {
    var t := XmlChars.SkipWhiteSpace(s);
    hide XmlChars.SkipWhiteSpace;
    assert "<?"[0] == '<' && "<!--"[0] == '<' && "<![CDATA["[0] == '<' && "<!"[0] == '<' && "<"[0] == '<';
  }

  lemma NoTag(text: string)
    requires '<' !in text
    ensures XmlChars.ParseText(text, "<") == XmlChars.NoCut
  {
    RoundTrip.CutHasTag(text);
  }

  // ----- a child behind itself, and behind its predecessor

  lemma NewInsertable(s: State, id: int, root: Node, a: Node, b: Node, perBlock: nat)
    requires Good(s, id, root) && a in s.links && b !in s.links && Good(Created(s, b, perBlock), id, root)
    ensures Insertable(Created(s, b, perBlock), root, a, b) && Others(Created(s, b, perBlock), a, b) == s.kids[a]
    ensures a in s.kids && s.below.Keys == s.links.Keys
  {
    GoodParts(s, id, root);
    NotListed(Created(s, b, perBlock), id, root, a, b);
    NewIsFree(s, root, a, b, perBlock);
    hide *;
  }

  lemma NewIsFree(s: State, root: Node, a: Node, b: Node, perBlock: nat)
    requires a in s.links && b !in s.links && root in s.links && s.kids.Keys == s.links.Keys
    requires b !in Created(s, b, perBlock).kids[a]
    ensures Insertable(Created(s, b, perBlock), root, a, b) && Others(Created(s, b, perBlock), a, b) == s.kids[a]
  {
    hide Allocated;
    WithoutAbsent(s.kids[a], b);
  }

  /** `b` is created and becomes the last child of `a`. */
  method NewChild(doc: Document, a: Node, pool: Pool) returns (b: Node)
    requires doc.Valid() && Tracked(doc.Now(), doc.root) && a in doc.nodes && pool != AttributePool
    modifies doc, doc.nodes
    ensures doc.Valid() && Tracked(doc.Now(), doc.root) && fresh(b) && doc.nodes == old(doc.nodes) + {b}
    ensures a in old(doc.kids) && doc.kids == old(doc.kids)[b := []][a := old(doc.kids)[a] + [b]]
    ensures forall n | n in old(doc.nodes) :: Parent(doc.Now(), n) == old(Parent(doc.Now(), n))
  {
    hide Good, Tracked, Placed, Created, Insertable, Others, View, AttributeLists;
    ghost var s := doc.Now();
    doc.NowAt(a);
    b := doc.NewNode(pool, "");
    ghost var t := doc.Now();
    NewInsertable(s, doc.id, doc.root, a, b, doc.perBlock[pool]);
    var result := doc.InsertEndChild(a, b);
    PlacedKids(s, t, doc.Now(), a, b, doc.perBlock[pool]);
    hide *;
  }

  lemma PlacedKids(s: State, t: State, u: State, a: Node, b: Node, perBlock: nat)
    requires t == Created(s, b, perBlock) && a in s.kids && b !in s.links && s.below.Keys == s.links.Keys
    requires Placed(t, u, a, b, s.kids[a] + [b])
    ensures u.kids == s.kids[b := []][a := s.kids[a] + [b]]
    ensures forall n | n in s.links :: Parent(u, n) == Parent(s, n)
  {
  }

  ghost function Parent(s: State, n: Node): Node? {
    if n in s.links then s.links[n].parent else null
  }

  // Where the children are `a` and `b`, neither can be put behind `a`.
  lemma PairUnsafe(v: map<Node, Links>, kids: map<Node, seq<Node>>, p: Node, a: Node, b: Node)
    requires Spells(v, kids) && p in v && kids[p] == [a, b]
    ensures a in v && b in v && a != b && p != a && p != b && v[a].parent == p && v[a].next == b && v[b].next == null
    ensures !SafeAfter(v, a, a) && !SafeAfter(v, a, b)
  {
    assert Chain(v, p, kids[p]);
    assert a == kids[p][0] && b == kids[p][1];
  }

  lemma PairFails(v: map<Node, Links>, kids: map<Node, seq<Node>>, p: Node, a: Node, b: Node)
    requires Spells(v, kids) && p in v && kids[p] == [a, b]
    ensures a in v && b in v && v[a].parent == p && v[a].next == b
    ensures FreedLinks(v, b).Keys == FreedLinks(v, a).Keys == v.Keys
    ensures FreedLinks(v, b)[a].next == null
    ensures !exists ks :: Spells(AfterLinks(FreedLinks(v, a), p, a, a), ks)
  {
    PairUnsafe(v, kids, p, a, b);
    hide Spells, FreedLinks, AfterLinks;
    InsertAfterExact(v, kids, p, a, a);
    InsertAfterExact(v, kids, p, a, b);
    FreedNext(v, kids, a, b);
    FreedNext(v, kids, a, a);
  }

  /**
    Two children of the document. Putting the second behind the first takes it out and then follows the null that
    is left behind the first; putting the first behind itself leaves links that spell no child lists.
   */
  method TwoChildren(id: int, perBlock: map<Pool, nat>) returns (doc: Document, a: Node, b: Node)
    requires Sized(perBlock)
    ensures doc.Valid() && doc.root in doc.kids && doc.kids[doc.root] == [a, b]
    ensures {doc.root, a, b} <= doc.Now().links.Keys && a.parent == doc.root && a.next == b
    ensures doc.Now().links.Keys == FreedLinks(doc.Now().links, b).Keys == FreedLinks(doc.Now().links, a).Keys
    ensures !SafeAfter(doc.Now().links, a, a) && !SafeAfter(doc.Now().links, a, b)
    ensures FreedLinks(doc.Now().links, b)[a].next == null
    ensures !exists ks :: Spells(AfterLinks(FreedLinks(doc.Now().links, a), doc.root, a, a), ks)
  {
    hide *;
    doc, a, b := PairOfChildren(id, perBlock);
    doc.NowAt(doc.root);
    doc.NowAt(a);
    ValidSpells(doc);
    PairUnsafe(doc.Now().links, doc.kids, doc.root, a, b);
    PairFails(doc.Now().links, doc.kids, doc.root, a, b);
    PairFields(doc, a, b);
  }

  lemma ValidSpells(doc: Document)
    requires doc.Valid()
    ensures Spells(doc.Now().links, doc.kids) && doc.root in doc.Now().links
  {
    hide Good, Spells, View, AttributeLists;
    SpellsOf(doc.Now(), doc.id, doc.root);
    RootFree(doc.Now(), doc.id, doc.root);
  }

  lemma PairFields(doc: Document, a: Node, b: Node)
    requires a in doc.Now().links && doc.Now().links[a].parent == doc.root && doc.Now().links[a].next == b
    ensures a.parent == doc.root && a.next == b
  {
    doc.NowAt(a);
  }

  method PairOfChildren(id: int, perBlock: map<Pool, nat>) returns (doc: Document, a: Node, b: Node)
    requires Sized(perBlock)
    ensures doc.Valid() && doc.root in doc.kids && doc.kids[doc.root] == [a, b]
  {
    hide Good, Tracked, View, AttributeLists, Parent;
    doc := new Document(id, perBlock);
    a := NewChild(doc, doc.root, ElementPool);
    b := NewChild(doc, doc.root, ElementPool);
  }

  // ----- a node that was never inserted

  /** A node with a child, neither of them in the tree: the document is emptied and some pool does not balance. */
  method ChildOfUnlinked(id: int, perBlock: map<Pool, nat>) returns (doc: Document)
    requires Sized(perBlock)
    ensures doc.Valid() && !forall k: Pool :: Balanced(doc.Now(), k)
  {
    hide Good, Tracked, Drifted, BalancedUpTo, Balanced, Cleared, Parent, View, AttributeLists;
    var a;
    doc, a := UnlinkedParent(id, perBlock);
    ghost var s := doc.Now();
    doc.NowAt(a);
    doc.Clear({});
    doc.NowAt(a);
    Survives(s, doc.Now(), doc.id, doc.root, a);
  }

  method UnlinkedParent(id: int, perBlock: map<Pool, nat>) returns (doc: Document, a: Node)
    requires Sized(perBlock)
    ensures doc.Valid() && Tracked(doc.Now(), doc.root) && doc.root in doc.below && fresh(doc) && fresh(doc.nodes)
    ensures a in doc.nodes && a != doc.root && Parent(doc.Now(), a) == null && a in doc.kids && doc.kids[a] != []
  {
    hide Good, Tracked, View, AttributeLists;
    doc := new Document(id, perBlock);
    a := doc.NewNode(ElementPool, "");
    doc.NowAt(a);
    hide Parent;
    var b := NewChild(doc, a, ElementPool);
    RootBelow(doc);
  }

  lemma RootBelow(doc: Document)
    requires doc.Valid()
    ensures doc.root in doc.below
  {
    doc.NowAt(doc.root);
    RootFree(doc.Now(), doc.id, doc.root);
    GoodParts(doc.Now(), doc.id, doc.root);
    hide *;
  }

  lemma Survives(s: State, t: State, id: int, root: Node, a: Node)
    requires Good(s, id, root) && Good(t, id, root) && Cleared(s, t, root)
    requires a in s.links && Parent(s, a) == null && a != root
    ensures a in t.links && a in s.kids && a in t.kids && t.kids[a] == s.kids[a]
  {
    NotBelowAny(s, id, root, a);
    RootFree(s, id, root);
    GoodParts(t, id, root);
    hide Good;
    StillListed(s, t, root, a);
    hide *;
  }

  lemma StillListed(s: State, t: State, root: Node, a: Node)
    requires Cleared(s, t, root) && a in s.links && a != root && a !in s.below[root] && t.kids.Keys == t.links.Keys
    ensures a in t.links && a in s.kids && a in t.kids && t.kids[a] == s.kids[a]
  {
    assert t.links.Keys == s.links.Keys - (s.below[root] - {root});
    assert a in t.links.Keys;
  }
}
