/**
  The intrusive doubly linked child lists of XMLNode: the pointer assignments of Unlink and
  of the insertions, as updates of the link fields, and the sequences those fields spell out.
 */
module ChildLists {
  datatype Pool = ElementPool | TextPool | CommentPool | AttributePool

  class Node {
    const docId: int    // which document _document points to
    const pool: Pool    // which pool _memPool points to
    const value: string // the name of an element, the text of other nodes
    var parent: Node?
    var firstChild: Node?
    var lastChild: Node?
    var prev: Node?
    var next: Node?
    var attributes: seq<string>   // the names in the attribute list

    constructor (docId: int, pool: Pool, value: string)
      ensures this.docId == docId && this.pool == pool && this.value == value
      ensures Fields() == UNLINKED && attributes == []
    {
      this.docId, this.pool, this.value := docId, pool, value;
      parent, firstChild, lastChild, prev, next := null, null, null, null, null;
      attributes := [];
    }

    ghost function Fields(): Links
      reads this
    {
      Links(parent, firstChild, lastChild, prev, next)
    }

    // Single assignments to link fields.

    method SetParent(x: Node?, ghost nodes: set<Node>)
      requires this in nodes
      modifies this`parent
      ensures View(nodes) == old(View(nodes))[this := old(Fields()).(parent := x)]
      ensures AttributeLists(nodes) == old(AttributeLists(nodes))
    {
      parent := x;
    }

    method SetFirstChild(x: Node?, ghost nodes: set<Node>)
      requires this in nodes
      modifies this`firstChild
      ensures View(nodes) == old(View(nodes))[this := old(Fields()).(first := x)]
      ensures AttributeLists(nodes) == old(AttributeLists(nodes))
    {
      firstChild := x;
    }

    method SetLastChild(x: Node?, ghost nodes: set<Node>)
      requires this in nodes
      modifies this`lastChild
      ensures View(nodes) == old(View(nodes))[this := old(Fields()).(last := x)]
      ensures AttributeLists(nodes) == old(AttributeLists(nodes))
    {
      lastChild := x;
    }

    method SetPrev(x: Node?, ghost nodes: set<Node>)
      requires this in nodes
      modifies this`prev
      ensures View(nodes) == old(View(nodes))[this := old(Fields()).(prev := x)]
      ensures AttributeLists(nodes) == old(AttributeLists(nodes))
    {
      prev := x;
    }

    method SetNext(x: Node?, ghost nodes: set<Node>)
      requires this in nodes
      modifies this`next
      ensures View(nodes) == old(View(nodes))[this := old(Fields()).(next := x)]
      ensures AttributeLists(nodes) == old(AttributeLists(nodes))
    {
      next := x;
    }

    method SetAttributes(list: seq<string>, ghost nodes: set<Node>)
      requires this in nodes
      modifies this`attributes
      ensures attributes == list
      ensures View(nodes) == old(View(nodes)) && AttributeLists(nodes) == old(AttributeLists(nodes))[this := list]
    {
      attributes := list;
    }

    /** XMLNode::Unlink */
    method Unlink(child: Node, ghost nodes: set<Node>)
      requires this in nodes && child in nodes && Around(nodes, child)
      modifies nodes`parent, nodes`firstChild, nodes`lastChild, nodes`prev, nodes`next
      ensures View(nodes) == UnlinkLinks(old(View(nodes)), this, child)
      ensures AttributeLists(nodes) == old(AttributeLists(nodes))
    {
      hide View, AttributeLists;
      ghost var v := View(nodes);
      ViewAt(nodes, this);
      ViewAt(nodes, child);
      if child == firstChild {
        SetFirstChild(firstChild.next, nodes);
      }
      v := v[this := v[this].(first := if v[this].first == child then v[child].next else v[this].first)];
      assert View(nodes) == v;
      ViewAt(nodes, this);
      ViewAt(nodes, child);
      if child == lastChild {
        SetLastChild(lastChild.prev, nodes);
      }
      v := v[this := v[this].(last := if v[this].last == child then v[child].prev else v[this].last)];
      assert View(nodes) == v;
      ViewAt(nodes, child);
      if child.prev != null {
        ViewAt(nodes, child.prev);
        child.prev.SetNext(child.next, nodes);
      }
      v := WithNext(v, v[child].prev, v[child].next);
      assert View(nodes) == v;
      ViewAt(nodes, child);
      if child.next != null {
        ViewAt(nodes, child.next);
        child.next.SetPrev(child.prev, nodes);
      }
      v := WithPrev(v, v[child].next, v[child].prev);
      assert View(nodes) == v;
      ViewAt(nodes, child);
      child.SetParent(null, nodes);
    }

    /** The link assignments of XMLNode::InsertEndChild. */
    method LinkLast(add: Node, ghost nodes: set<Node>)
      requires this in nodes && add in nodes && add != this && (lastChild != null ==> lastChild in nodes)
      modifies nodes`parent, nodes`firstChild, nodes`lastChild, nodes`prev, nodes`next
      ensures View(nodes) == LastLinks(old(View(nodes)), this, add)
      ensures AttributeLists(nodes) == old(AttributeLists(nodes))
    {
      hide View, AttributeLists;
      ViewAt(nodes, this);
      ViewAt(nodes, add);
      if lastChild != null {
        ViewAt(nodes, lastChild);
        lastChild.SetNext(add, nodes);
        ViewAt(nodes, this);
        ViewAt(nodes, add);
        add.SetPrev(lastChild, nodes);
        SetLastChild(add, nodes);
        ViewAt(nodes, add);
        add.SetNext(null, nodes);
      } else {
        SetFirstChild(add, nodes);
        ViewAt(nodes, this);
        SetLastChild(add, nodes);
        ViewAt(nodes, add);
        add.SetPrev(null, nodes);
        ViewAt(nodes, add);
        add.SetNext(null, nodes);
      }
      ViewAt(nodes, add);
      add.SetParent(this, nodes);
    }

    /** The link assignments of XMLNode::InsertFirstChild. */
    method LinkFirst(add: Node, ghost nodes: set<Node>)
      requires this in nodes && add in nodes && add != this && (firstChild != null ==> firstChild in nodes)
      modifies nodes`parent, nodes`firstChild, nodes`lastChild, nodes`prev, nodes`next
      ensures View(nodes) == FirstLinks(old(View(nodes)), this, add)
      ensures AttributeLists(nodes) == old(AttributeLists(nodes))
    {
      hide View, AttributeLists;
      ViewAt(nodes, this);
      ViewAt(nodes, add);
      if firstChild != null {
        ViewAt(nodes, firstChild);
        firstChild.SetPrev(add, nodes);
        ViewAt(nodes, this);
        ViewAt(nodes, add);
        add.SetNext(firstChild, nodes);
        SetFirstChild(add, nodes);
        ViewAt(nodes, add);
        add.SetPrev(null, nodes);
      } else {
        SetFirstChild(add, nodes);
        ViewAt(nodes, this);
        SetLastChild(add, nodes);
        ViewAt(nodes, add);
        add.SetPrev(null, nodes);
        ViewAt(nodes, add);
        add.SetNext(null, nodes);
      }
      ViewAt(nodes, add);
      add.SetParent(this, nodes);
    }

    /** The link assignments at the end of XMLNode::InsertAfterChild; dereferences after->_next. */
    method LinkAfter(after: Node, add: Node, ghost nodes: set<Node>)
      requires this in nodes && add in nodes && after in nodes && after.next != null && after.next in nodes
      modifies nodes`parent, nodes`firstChild, nodes`lastChild, nodes`prev, nodes`next
      ensures View(nodes) == AfterLinks(old(View(nodes)), this, after, add)
      ensures AttributeLists(nodes) == old(AttributeLists(nodes))
    {
      hide View, AttributeLists;
      ViewAt(nodes, after);
      ViewAt(nodes, add);
      add.SetPrev(after, nodes);
      ViewAt(nodes, add);
      ViewAt(nodes, after);
      add.SetNext(after.next, nodes);
      ViewAt(nodes, after);
      ViewAt(nodes, after.next);
      after.next.SetPrev(add, nodes);
      ViewAt(nodes, after);
      after.SetNext(add, nodes);
      ViewAt(nodes, add);
      add.SetParent(this, nodes);
    }
  }

  /** The link fields of a node. */
  datatype Links = Links(parent: Node?, first: Node?, last: Node?, prev: Node?, next: Node?)

  const UNLINKED := Links(null, null, null, null, null)

  ghost function View(nodes: set<Node>): map<Node, Links>
    reads nodes
  {
    map n | n in nodes :: n.Fields()
  }

  ghost function AttributeLists(nodes: set<Node>): map<Node, seq<string>>
    reads nodes`attributes
  {
    map n | n in nodes :: n.attributes
  }

  lemma ViewAt(nodes: set<Node>, n: Node)
    requires n in nodes
    ensures View(nodes).Keys == nodes && View(nodes)[n] == n.Fields()
  {
  }

  lemma EnterView(nodes: set<Node>, n: Node)
    requires n !in nodes && n.Fields() == UNLINKED && n.attributes == []
    ensures View(nodes + {n}) == View(nodes)[n := UNLINKED]
    ensures AttributeLists(nodes + {n}) == AttributeLists(nodes)[n := []]
  {
  }

  lemma LeaveView(nodes: set<Node>, n: Node)
    ensures View(nodes - {n}) == View(nodes) - {n}
    ensures AttributeLists(nodes - {n}) == AttributeLists(nodes) - {n}
  {
  }

  /** The neighbours of `child` are among `nodes`. */
  ghost predicate Around(nodes: set<Node>, child: Node)
    reads child
  {
    && (child.prev != null ==> child.prev in nodes)
    && (child.next != null ==> child.next in nodes)
  }

  // ----- assignments to link fields

  ghost function WithNext(v: map<Node, Links>, x: Node?, y: Node?): map<Node, Links> {
    if x == null || x !in v then v else v[x := v[x].(next := y)]
  }

  ghost function WithPrev(v: map<Node, Links>, x: Node?, y: Node?): map<Node, Links> {
    if x == null || x !in v then v else v[x := v[x].(prev := y)]
  }

  ghost function UnlinkLinks(v: map<Node, Links>, p: Node, child: Node): map<Node, Links>
    requires p in v && child in v
  {
    var u := v[p := v[p].(first := if v[p].first == child then v[child].next else v[p].first)];
    var w := u[p := u[p].(last := if u[p].last == child then u[child].prev else u[p].last)];
    var x := WithNext(w, w[child].prev, w[child].next);
    var y := WithPrev(x, x[child].next, x[child].prev);
    y[child := y[child].(parent := null)]
  }

  ghost function LastLinks(v: map<Node, Links>, p: Node, add: Node): map<Node, Links>
    requires p in v && add in v
  {
    var y :=
      if v[p].last != null then
        var w := WithNext(v, v[p].last, add);
        var x := WithPrev(w, add, w[p].last);
        WithNext(x[p := x[p].(last := add)], add, null)
      else
        OnlyLinks(v, p, add);
    y[add := y[add].(parent := p)]
  }

  ghost function FirstLinks(v: map<Node, Links>, p: Node, add: Node): map<Node, Links>
    requires p in v && add in v
  {
    var y :=
      if v[p].first != null then
        var w := WithPrev(v, v[p].first, add);
        var x := WithNext(w, add, w[p].first);
        WithPrev(x[p := x[p].(first := add)], add, null)
      else
        OnlyLinks(v, p, add);
    y[add := y[add].(parent := p)]
  }

  ghost function OnlyLinks(v: map<Node, Links>, p: Node, add: Node): map<Node, Links>
    requires p in v && add in v
  {
    var w := v[p := v[p].(first := add)];
    WithNext(WithPrev(w[p := w[p].(last := add)], add, null), add, null)
  }

  ghost function AfterLinks(v: map<Node, Links>, p: Node, after: Node, add: Node): map<Node, Links>
    requires p in v && add in v && after in v
  {
    var w := v[add := v[add].(prev := after)];
    var x := w[add := w[add].(next := w[after].next)];
    var y := WithPrev(x, x[after].next, add);
    var z := y[after := y[after].(next := add)];
    z[add := z[add].(parent := p)]
  }

  // ----- child lists as sequences

  ghost predicate Distinct(s: seq<Node>) {
    forall i, j | 0 <= i < j < |s| :: s[i] != s[j]
  }

  /** `ks` is the child list of `n`, forward from first and backward from last. */
  ghost predicate Chain(v: map<Node, Links>, n: Node, ks: seq<Node>) {
    && n in v && Distinct(ks) && (forall c <- ks :: c in v && v[c].parent == n)
    && v[n].first == (if ks == [] then null else ks[0])
    && v[n].last == (if ks == [] then null else ks[|ks| - 1])
    && (ks != [] ==> v[ks[0]].prev == null && v[ks[|ks| - 1]].next == null)
    && (forall i | 0 <= i < |ks| - 1 :: v[ks[i]].next == ks[i + 1])
    && (forall i | 1 <= i < |ks| :: v[ks[i]].prev == ks[i - 1])
  }

  /** The link fields spell out the child lists `kids`, and a node is in the list of its parent only. */
  ghost predicate Spells(v: map<Node, Links>, kids: map<Node, seq<Node>>) {
    && kids.Keys == v.Keys
    && (forall n {:trigger kids[n]} | n in v :: Chain(v, n, kids[n]) && n !in kids[n])
    && (forall x {:trigger v[x].parent} | x in v && v[x].parent != null ::
          v[x].parent in v && x in kids[v[x].parent])
  }

  /** The list without `x`. */
  ghost function Without(s: seq<Node>, x: Node): seq<Node> {
    if s == [] then [] else if s[0] == x then s[1..] else [s[0]] + Without(s[1..], x)
  }

  lemma {:induction false} WithoutAt(s: seq<Node>, k: nat)
    requires k < |s| && Distinct(s)
    ensures Without(s, s[k]) == s[..k] + s[k + 1..]
    ensures forall x :: x in Without(s, s[k]) <==> x in s && x != s[k]
  {
    if k > 0 {
      WithoutAt(s[1..], k - 1);
      assert s[..k] + s[k + 1..] == [s[0]] + (s[1..][..k - 1] + s[1..][k..]);
    }
  }

  // A child list whose fields were not assigned to is as before.
  lemma ChainKept(v: map<Node, Links>, w: map<Node, Links>, n: Node, ks: seq<Node>)
    requires Chain(v, n, ks) && n in w && w[n].first == v[n].first && w[n].last == v[n].last
    requires forall c <- ks :: c in w && SamePlace(v[c], w[c])
    ensures Chain(w, n, ks)
  {
  }

  ghost predicate SamePlace(a: Links, b: Links) {
    a.parent == b.parent && a.prev == b.prev && a.next == b.next
  }

  ghost predicate SameEnds(a: Links, b: Links) {
    a.first == b.first && a.last == b.last
  }

  /** Only links of `p`, of its children `ks` and of `x` differ, and of parents only that of `x`. */
  ghost predicate OnlyAround(v: map<Node, Links>, w: map<Node, Links>, p: Node, ks: seq<Node>, x: Node) {
    && w.Keys == v.Keys
    && (forall y | y in v && y != p :: SameEnds(v[y], w[y]))
    && (forall y | y in v && y !in ks && y != x :: SamePlace(v[y], w[y]))
    && (forall y | y in v && y != x :: w[y].parent == v[y].parent)
  }

  // ----- unlinking

  lemma UnlinkAssigns(v: map<Node, Links>, p: Node, child: Node, y: Node)
    requires p in v && child in v && y in v
    ensures var w := UnlinkLinks(v, p, child);
            && w.Keys == v.Keys && w[child].parent == null
            && (y != p ==> SameEnds(v[y], w[y])) && (y != child ==> w[y].parent == v[y].parent)
            && (y != child && y != v[child].prev && y != v[child].next ==> SamePlace(v[y], w[y]))
  {
  }

  lemma UnlinkTouches(v: map<Node, Links>, p: Node, ks: seq<Node>, k: nat)
    requires Chain(v, p, ks) && p !in ks && k < |ks|
    ensures var w := UnlinkLinks(v, p, ks[k]);
            OnlyAround(v, w, p, ks, ks[k]) && w[ks[k]].parent == null
  {
    var child := ks[k];
    assert k > 0 ==> v[child].prev == ks[k - 1] && ks[k - 1] in ks;
    assert k < |ks| - 1 ==> v[child].next == ks[k + 1] && ks[k + 1] in ks;
    UnlinkAssigns(v, p, child, child);
    hide UnlinkLinks, SameEnds, SamePlace, Chain;
    forall y | y in v
      ensures y != p ==> SameEnds(v[y], UnlinkLinks(v, p, child)[y])
      ensures y !in ks ==> SamePlace(v[y], UnlinkLinks(v, p, child)[y])
      ensures y != child ==> UnlinkLinks(v, p, child)[y].parent == v[y].parent
    {
      UnlinkAssigns(v, p, child, y);
    }
  }

  lemma UnlinkFields(v: map<Node, Links>, p: Node, ks: seq<Node>, k: nat)
    requires Chain(v, p, ks) && p !in ks && k < |ks|
    ensures var w := UnlinkLinks(v, p, ks[k]);
            && w.Keys == v.Keys
            && w[p].first == (if k == 0 then v[ks[0]].next else v[p].first)
            && w[p].last == (if k == |ks| - 1 then v[ks[k]].prev else v[p].last)
            && (forall i | 0 <= i < |ks| && i != k - 1 :: w[ks[i]].next == v[ks[i]].next)
            && (forall i | 0 <= i < |ks| && i != k + 1 :: w[ks[i]].prev == v[ks[i]].prev)
            && (k > 0 ==> w[ks[k - 1]].next == v[ks[k]].next)
            && (k < |ks| - 1 ==> w[ks[k + 1]].prev == v[ks[k]].prev)
  {
    assert k > 0 ==> v[ks[k]].prev == ks[k - 1] && ks[k - 1] in ks;
    assert k < |ks| - 1 ==> v[ks[k]].next == ks[k + 1] && ks[k + 1] in ks;
    assert ks[k] in ks;
  }

  lemma UnlinkOrder(v: map<Node, Links>, p: Node, ks: seq<Node>, k: nat)
    requires Chain(v, p, ks) && p !in ks && k < |ks|
    ensures var w, rest := UnlinkLinks(v, p, ks[k]), ks[..k] + ks[k + 1..];
            && (forall c <- rest :: c in w) && p in w
            && w[p].first == (if rest == [] then null else rest[0])
            && w[p].last == (if rest == [] then null else rest[|rest| - 1])
            && (rest != [] ==> w[rest[0]].prev == null && w[rest[|rest| - 1]].next == null)
            && (forall i | 0 <= i < |rest| - 1 :: w[rest[i]].next == rest[i + 1])
            && (forall i | 1 <= i < |rest| :: w[rest[i]].prev == rest[i - 1])
  {
    hide UnlinkLinks, Distinct;
    var rest := ks[..k] + ks[k + 1..];
    UnlinkFields(v, p, ks, k);
    assert forall i | 0 <= i < |rest| :: rest[i] == ks[if i < k then i else i + 1] && rest[i] in ks;
    assert k > 0 ==> v[ks[k]].prev == ks[k - 1];
    assert k < |ks| - 1 ==> v[ks[k]].next == ks[k + 1];
  }

  lemma UnlinkChain(v: map<Node, Links>, p: Node, ks: seq<Node>, k: nat)
    requires Chain(v, p, ks) && p !in ks && k < |ks|
    ensures Chain(UnlinkLinks(v, p, ks[k]), p, ks[..k] + ks[k + 1..])
  {
    hide UnlinkLinks, SamePlace, SameEnds;
    var rest := ks[..k] + ks[k + 1..];
    UnlinkTouches(v, p, ks, k);
    UnlinkOrder(v, p, ks, k);
    assert forall i | 0 <= i < |rest| :: rest[i] == ks[if i < k then i else i + 1] && rest[i] in ks;
  }

  // ----- linking

  lemma LastAssigns(v: map<Node, Links>, p: Node, add: Node, y: Node)
    requires p in v && add in v && add != p && y in v
    ensures var w := LastLinks(v, p, add);
            && w.Keys == v.Keys && w[add].parent == p
            && (y != p ==> SameEnds(v[y], w[y])) && (y != add ==> w[y].parent == v[y].parent)
            && (y != add && y != v[p].last ==> SamePlace(v[y], w[y]))
  {
  }

  lemma LastTouches(v: map<Node, Links>, p: Node, ks: seq<Node>, add: Node)
    requires Chain(v, p, ks) && add in v && add != p && add !in ks
    ensures OnlyAround(v, LastLinks(v, p, add), p, ks, add) && LastLinks(v, p, add)[add].parent == p
  {
    assert v[p].last != null ==> v[p].last in ks;
    LastAssigns(v, p, add, add);
    hide LastLinks, SameEnds, SamePlace, Chain;
    forall y | y in v
      ensures y != p ==> SameEnds(v[y], LastLinks(v, p, add)[y])
      ensures y !in ks && y != add ==> SamePlace(v[y], LastLinks(v, p, add)[y])
      ensures y != add ==> LastLinks(v, p, add)[y].parent == v[y].parent
    {
      LastAssigns(v, p, add, y);
    }
  }

  lemma FirstAssigns(v: map<Node, Links>, p: Node, add: Node, y: Node)
    requires p in v && add in v && add != p && y in v
    ensures var w := FirstLinks(v, p, add);
            && w.Keys == v.Keys && w[add].parent == p
            && (y != p ==> SameEnds(v[y], w[y])) && (y != add ==> w[y].parent == v[y].parent)
            && (y != add && y != v[p].first ==> SamePlace(v[y], w[y]))
  {
  }

  lemma FirstTouches(v: map<Node, Links>, p: Node, ks: seq<Node>, add: Node)
    requires Chain(v, p, ks) && add in v && add != p && add !in ks
    ensures OnlyAround(v, FirstLinks(v, p, add), p, ks, add) && FirstLinks(v, p, add)[add].parent == p
  {
    assert v[p].first != null ==> v[p].first in ks;
    FirstAssigns(v, p, add, add);
    hide FirstLinks, SameEnds, SamePlace, Chain;
    forall y | y in v
      ensures y != p ==> SameEnds(v[y], FirstLinks(v, p, add)[y])
      ensures y !in ks && y != add ==> SamePlace(v[y], FirstLinks(v, p, add)[y])
      ensures y != add ==> FirstLinks(v, p, add)[y].parent == v[y].parent
    {
      FirstAssigns(v, p, add, y);
    }
  }

  lemma AfterAssigns(v: map<Node, Links>, p: Node, after: Node, add: Node, y: Node)
    requires p in v && add in v && add != p && y in v && after in v && after != add
    ensures var w := AfterLinks(v, p, after, add);
            && w.Keys == v.Keys && w[add].parent == p
            && (y != p ==> SameEnds(v[y], w[y])) && (y != add ==> w[y].parent == v[y].parent)
            && (y != add && y != after && y != v[after].next ==> SamePlace(v[y], w[y]))
  {
  }

  lemma AfterTouches(v: map<Node, Links>, p: Node, ks: seq<Node>, k: nat, add: Node)
    requires Chain(v, p, ks) && add in v && add != p && add !in ks && k < |ks| - 1
    ensures OnlyAround(v, AfterLinks(v, p, ks[k], add), p, ks, add) && AfterLinks(v, p, ks[k], add)[add].parent == p
  {
    assert v[ks[k]].next == ks[k + 1] && ks[k + 1] in ks && ks[k] in ks;
    AfterAssigns(v, p, ks[k], add, add);
    hide AfterLinks, SameEnds, SamePlace, Chain;
    forall y | y in v
      ensures y != p ==> SameEnds(v[y], AfterLinks(v, p, ks[k], add)[y])
      ensures y !in ks && y != add ==> SamePlace(v[y], AfterLinks(v, p, ks[k], add)[y])
      ensures y != add ==> AfterLinks(v, p, ks[k], add)[y].parent == v[y].parent
    {
      AfterAssigns(v, p, ks[k], add, y);
    }
  }

  lemma LastFields(v: map<Node, Links>, p: Node, ks: seq<Node>, add: Node)
    requires Chain(v, p, ks) && p !in ks && add in v && add != p && add !in ks
    ensures var w := LastLinks(v, p, add);
            && w.Keys == v.Keys && w[p].last == add && w[add].next == null && w[add].prev == v[p].last
            && w[p].first == (if ks == [] then add else v[p].first)
            && (forall i | 0 <= i < |ks| :: w[ks[i]].prev == v[ks[i]].prev)
            && (forall i | 0 <= i < |ks| - 1 :: w[ks[i]].next == v[ks[i]].next)
            && (ks != [] ==> w[ks[|ks| - 1]].next == add)
  {
    assert ks != [] ==> ks[|ks| - 1] in ks;
  }

  lemma LastChain(v: map<Node, Links>, p: Node, ks: seq<Node>, add: Node)
    requires Chain(v, p, ks) && p !in ks && add in v && add != p && add !in ks
    ensures Chain(LastLinks(v, p, add), p, ks + [add])
  {
    var all := ks + [add];
    LastTouches(v, p, ks, add);
    LastFields(v, p, ks, add);
    hide LastLinks, SamePlace, SameEnds;
    assert forall i | 0 <= i < |ks| :: all[i] == ks[i] && all[i] in ks;
  }

  lemma FirstFields(v: map<Node, Links>, p: Node, ks: seq<Node>, add: Node)
    requires Chain(v, p, ks) && p !in ks && add in v && add != p && add !in ks
    ensures var w := FirstLinks(v, p, add);
            && w.Keys == v.Keys && w[p].first == add && w[add].prev == null && w[add].next == v[p].first
            && w[p].last == (if ks == [] then add else v[p].last)
            && (forall i | 0 <= i < |ks| :: w[ks[i]].next == v[ks[i]].next)
            && (forall i | 1 <= i < |ks| :: w[ks[i]].prev == v[ks[i]].prev)
            && (ks != [] ==> w[ks[0]].prev == add)
  {
    assert ks != [] ==> ks[0] in ks;
  }

  lemma FirstChain(v: map<Node, Links>, p: Node, ks: seq<Node>, add: Node)
    requires Chain(v, p, ks) && p !in ks && add in v && add != p && add !in ks
    ensures Chain(FirstLinks(v, p, add), p, [add] + ks)
  {
    var all := [add] + ks;
    FirstTouches(v, p, ks, add);
    FirstFields(v, p, ks, add);
    hide FirstLinks, SamePlace, SameEnds;
    assert forall i | 1 <= i < |all| :: all[i] == ks[i - 1] && all[i] in ks;
  }

  lemma AfterFields(v: map<Node, Links>, p: Node, ks: seq<Node>, k: nat, add: Node)
    requires Chain(v, p, ks) && p !in ks && add in v && add != p && add !in ks && k < |ks| - 1
    ensures var w := AfterLinks(v, p, ks[k], add);
            && w.Keys == v.Keys && SameEnds(v[p], w[p]) && w[add].prev == ks[k] && w[add].next == ks[k + 1]
            && (forall i | 0 <= i < |ks| && i != k :: w[ks[i]].next == v[ks[i]].next)
            && (forall i | 0 <= i < |ks| && i != k + 1 :: w[ks[i]].prev == v[ks[i]].prev)
            && w[ks[k]].next == add && w[ks[k + 1]].prev == add
  {
    assert v[ks[k]].next == ks[k + 1] && ks[k + 1] in ks && ks[k] in ks;
  }

  lemma AfterChain(v: map<Node, Links>, p: Node, ks: seq<Node>, k: nat, add: Node)
    requires Chain(v, p, ks) && p !in ks && add in v && add != p && add !in ks && k < |ks| - 1
    ensures Chain(AfterLinks(v, p, ks[k], add), p, ks[..k + 1] + [add] + ks[k + 1..])
  {
    var all := ks[..k + 1] + [add] + ks[k + 1..];
    hide AfterLinks, SamePlace, SameEnds, Distinct;
    AfterTouches(v, p, ks, k, add);
    AfterFields(v, p, ks, k, add);
    InsertedDistinct(ks, k, add);
    AfterEnds(v, p, ks, k, add);
    AfterOrder(v, p, ks, k, add);
    forall c | c in all
      ensures c in AfterLinks(v, p, ks[k], add) && AfterLinks(v, p, ks[k], add)[c].parent == p
    {
      assert c in ks || c == add;
    }
  }

  lemma AfterOrder(v: map<Node, Links>, p: Node, ks: seq<Node>, k: nat, add: Node)
    requires Chain(v, p, ks) && p !in ks && add in v && add != p && add !in ks && k < |ks| - 1
    ensures var w, all := AfterLinks(v, p, ks[k], add), ks[..k + 1] + [add] + ks[k + 1..];
            && (forall c <- all :: c in w)
            && w[all[0]].prev == null && w[all[|all| - 1]].next == null
            && (forall i | 0 <= i < |all| - 1 :: w[all[i]].next == all[i + 1])
            && (forall i | 1 <= i < |all| :: w[all[i]].prev == all[i - 1])
  {
    hide AfterLinks, SameEnds, Distinct;
    AfterFields(v, p, ks, k, add);
    var all := ks[..k + 1] + [add] + ks[k + 1..];
    assert forall i | 0 <= i < |all| && i != k + 1 :: all[i] == ks[if i <= k then i else i - 1] && all[i] in ks;
    assert all[k + 1] == add;
  }

  lemma AfterEnds(v: map<Node, Links>, p: Node, ks: seq<Node>, k: nat, add: Node)
    requires Chain(v, p, ks) && p !in ks && add in v && add != p && add !in ks && k < |ks| - 1
    ensures AfterLinks(v, p, ks[k], add)[p].first == ks[0] && AfterLinks(v, p, ks[k], add)[p].last == ks[|ks| - 1]
  {
    AfterFields(v, p, ks, k, add);
  }

  lemma InsertedDistinct(ks: seq<Node>, k: nat, add: Node)
    requires Distinct(ks) && add !in ks && k < |ks|
    ensures Distinct(ks[..k + 1] + [add] + ks[k + 1..])
  {
    var all := ks[..k + 1] + [add] + ks[k + 1..];
    assert forall i | 0 <= i < |all| && i != k + 1 :: all[i] == ks[if i <= k then i else i - 1];
  }

  // ----- all child lists

  // One list changed around one node, the others are as before.
  lemma OtherChain(v: map<Node, Links>, kids: map<Node, seq<Node>>, w: map<Node, Links>, p: Node, x: Node, n: Node)
    requires Spells(v, kids) && p in v && n in v && n != p && x in v && OnlyAround(v, w, p, kids[p], x)
    requires x in kids[p] || v[x].parent == null
    ensures Chain(w, n, kids[n])
  {
    forall c | c in kids[n]
      ensures c !in kids[p] && c != x
    {
      assert v[c].parent == n;
    }
    ChainKept(v, w, n, kids[n]);
  }

  // One list changed around one node, the others are as before.
  lemma SpellsWith(v: map<Node, Links>, kids: map<Node, seq<Node>>, w: map<Node, Links>, p: Node, ks: seq<Node>, x: Node)
    requires Spells(v, kids) && p in v && x in v && p !in ks && Chain(w, p, ks) && OnlyAround(v, w, p, kids[p], x)
    requires x in kids[p] || v[x].parent == null
    requires w[x].parent == null || (w[x].parent == p && x in ks)
    requires forall y | y in kids[p] && y != x :: y in ks
    ensures Spells(w, kids[p := ks])
  {
    hide Chain, SameEnds, SamePlace;
    var kids' := kids[p := ks];
    forall n | n in w
      ensures Chain(w, n, kids'[n]) && n !in kids'[n]
    {
      if n != p {
        OtherChain(v, kids, w, p, x, n);
      }
    }
    forall y | y in w && w[y].parent != null
      ensures w[y].parent in v && y in kids'[w[y].parent]
    {
      assert y != x ==> w[y].parent == v[y].parent;
    }
  }

  lemma UnlinkSpells(v: map<Node, Links>, kids: map<Node, seq<Node>>, p: Node, k: nat)
    requires Spells(v, kids) && p in v && k < |kids[p]|
    ensures kids[p][k] in v && Spells(UnlinkLinks(v, p, kids[p][k]), kids[p := Without(kids[p], kids[p][k])])
  {
    var ks, child := kids[p], kids[p][k];
    assert child in ks && Chain(v, p, ks);
    WithoutAt(ks, k);
    UnlinkTouches(v, p, ks, k);
    UnlinkChain(v, p, ks, k);
    var w, rest := UnlinkLinks(v, p, child), Without(ks, child);
    SpellsWith(v, kids, w, p, rest, child) by {
      hide UnlinkLinks, Chain, Without, Distinct, SameEnds, SamePlace;
    }
  }

  /** `w` is `v` but for the parent of `x`, which became `p`, and for the order of siblings. */
  ghost predicate Adopted(v: map<Node, Links>, w: map<Node, Links>, x: Node, p: Node) {
    && w.Keys == v.Keys && x in v && w[x].parent == p
    && forall y | y in v && y != x :: w[y].parent == v[y].parent
  }

  lemma LastSpells(v: map<Node, Links>, kids: map<Node, seq<Node>>, p: Node, add: Node)
    requires Spells(v, kids) && p in v && add in v && add != p && v[add].parent == null
    ensures Spells(LastLinks(v, p, add), kids[p := kids[p] + [add]])
    ensures Adopted(v, LastLinks(v, p, add), add, p)
  {
    var ks := kids[p];
    assert Chain(v, p, ks);
    LastTouches(v, p, ks, add);
    LastChain(v, p, ks, add);
    SpellsWith(v, kids, LastLinks(v, p, add), p, ks + [add], add) by {
      hide LastLinks, Chain, Distinct, SameEnds, SamePlace;
    }
  }

  lemma FirstSpells(v: map<Node, Links>, kids: map<Node, seq<Node>>, p: Node, add: Node)
    requires Spells(v, kids) && p in v && add in v && add != p && v[add].parent == null
    ensures Spells(FirstLinks(v, p, add), kids[p := [add] + kids[p]])
    ensures Adopted(v, FirstLinks(v, p, add), add, p)
  {
    var ks := kids[p];
    assert Chain(v, p, ks);
    FirstTouches(v, p, ks, add);
    FirstChain(v, p, ks, add);
    SpellsWith(v, kids, FirstLinks(v, p, add), p, [add] + ks, add) by {
      hide FirstLinks, Chain, Distinct, SameEnds, SamePlace;
    }
  }

  lemma AfterSpells(v: map<Node, Links>, kids: map<Node, seq<Node>>, p: Node, k: nat, add: Node)
    requires Spells(v, kids) && p in v && add in v && add != p && v[add].parent == null && k < |kids[p]| - 1
    ensures kids[p][k] in v
    ensures Spells(AfterLinks(v, p, kids[p][k], add), kids[p := InsertedAfter(kids[p], kids[p][k], add)])
    ensures Adopted(v, AfterLinks(v, p, kids[p][k], add), add, p)
  {
    var ks := kids[p];
    assert Chain(v, p, ks) && ks[k] in ks;
    AfterTouches(v, p, ks, k, add);
    AfterChain(v, p, ks, k, add);
    InsertedAt(ks, k, add);
    SpellsWith(v, kids, AfterLinks(v, p, ks[k], add), p, ks[..k + 1] + [add] + ks[k + 1..], add) by {
      hide AfterLinks, Chain, Distinct, SameEnds, SamePlace;
    }
  }

  /** The list with `x` put after `a`. */
  ghost function InsertedAfter(s: seq<Node>, a: Node, x: Node): seq<Node> {
    if s == [] then [] else if s[0] == a then [a, x] + s[1..] else [s[0]] + InsertedAfter(s[1..], a, x)
  }

  lemma {:induction false} InsertedAt(s: seq<Node>, k: nat, x: Node)
    requires k < |s| && Distinct(s)
    ensures InsertedAfter(s, s[k], x) == s[..k + 1] + [x] + s[k + 1..]
  {
    if k > 0 {
      InsertedAt(s[1..], k - 1, x);
      assert s[..k + 1] + [x] + s[k + 1..] == [s[0]] + (s[1..][..k] + [x] + s[1..][k..]);
    }
  }

  // ----- XMLNode::InsertChildPreamble, and when InsertAfterChild works

  /** The links once `add` is out of the list it was in. */
  ghost function FreedLinks(v: map<Node, Links>, add: Node): map<Node, Links>
    requires add in v
  {
    if v[add].parent == null || v[add].parent !in v then v else UnlinkLinks(v, v[add].parent, add)
  }

  ghost function FreedKids(kids: map<Node, seq<Node>>, parent: Node?, add: Node): map<Node, seq<Node>> {
    if parent == null || parent !in kids then kids else kids[parent := Without(kids[parent], add)]
  }

  // A node is at one place in the list of its parent.
  lemma PlaceOf(v: map<Node, Links>, kids: map<Node, seq<Node>>, x: Node) returns (q: Node, k: nat)
    requires Spells(v, kids) && x in v && v[x].parent != null
    ensures q == v[x].parent && q in v && q in kids && k < |kids[q]| && kids[q][k] == x && x != q
    ensures Chain(v, q, kids[q]) && q !in kids[q]
    ensures forall y | y in v && y in kids[q] :: v[y].parent == q
  {
    q := v[x].parent;
    k :| k < |kids[q]| && kids[q][k] == x;
    assert Chain(v, q, kids[q]);
  }

  // What Unlink follows for a linked node is live.
  lemma FreedIs(nodes: set<Node>, kids: map<Node, seq<Node>>, x: Node)
    requires Spells(View(nodes), kids) && x in nodes
    ensures x.parent == null ==> FreedLinks(View(nodes), x) == View(nodes)
    ensures x.parent != null ==> x.parent in nodes && Around(nodes, x)
    ensures x.parent != null ==> FreedLinks(View(nodes), x) == UnlinkLinks(View(nodes), x.parent, x)
  {
    var v := View(nodes);
    if x.parent != null {
      assert v[x].parent == x.parent;
      var p, k := PlaceOf(v, kids, x);
      AroundAt(v, p, kids[p], k);
    }
  }

  lemma AroundAt(v: map<Node, Links>, p: Node, ks: seq<Node>, k: nat)
    requires Chain(v, p, ks) && k < |ks|
    ensures ks[k] in v && (v[ks[k]].prev != null ==> v[ks[k]].prev in v)
    ensures v[ks[k]].next != null ==> v[ks[k]].next in v
  {
    assert ks[k] in ks;
    assert k > 0 ==> ks[k - 1] in ks;
    assert k + 1 < |ks| ==> ks[k + 1] in ks;
  }

  lemma FreedSpells(v: map<Node, Links>, kids: map<Node, seq<Node>>, add: Node)
    requires Spells(v, kids) && add in v
    ensures Spells(FreedLinks(v, add), FreedKids(kids, v[add].parent, add))
    ensures FreedLinks(v, add).Keys == v.Keys
    ensures forall x | x in v :: FreedLinks(v, add)[x].parent == if x == add then null else v[x].parent
  {
    if v[add].parent != null {
      var p, k := PlaceOf(v, kids, add);
      UnlinkSpells(v, kids, p, k);
      UnlinkTouches(v, p, kids[p], k);
      hide Spells, UnlinkLinks, Chain, Without;
    }
  }

  /** The guard of InsertAfterChild: what `after` is followed by stays there when `add` is taken out. */
  ghost predicate SafeAfter(v: map<Node, Links>, after: Node, add: Node)
    requires after in v && add in v
  {
    v[after].next == null || (add != after && (v[after].next == add ==> v[add].next != null))
  }

  // A node's successor is itself linked to the same parent, at the next place.
  lemma NextOf(v: map<Node, Links>, p: Node, ks: seq<Node>, k: nat)
    requires Chain(v, p, ks) && k < |ks|
    ensures ks[k] in v
    ensures if k + 1 < |ks| then v[ks[k]].next == ks[k + 1] && ks[k + 1] in v && v[ks[k + 1]].parent == p
            else v[ks[k]].next == null
    ensures forall j | 0 <= j < |ks| && v[ks[k]].next == ks[j] :: j == k + 1
  {
    assert ks[k] in ks;
    assert k + 1 < |ks| ==> ks[k + 1] in ks;
  }

  lemma FreedNext(v: map<Node, Links>, kids: map<Node, seq<Node>>, after: Node, add: Node)
    requires Spells(v, kids) && after in v && v[after].parent != null && add in v
    ensures after in FreedLinks(v, add)
    ensures FreedLinks(v, add)[after].next == if v[after].next == add then v[add].next else v[after].next
  {
    hide Spells, Chain, UnlinkLinks, SameEnds;
    var p, k := PlaceOf(v, kids, after);
    NextOf(v, p, kids[p], k);
    if v[add].parent != null {
      var q, j := PlaceOf(v, kids, add);
      UnlinkFields(v, q, kids[q], j);
      UnlinkTouches(v, q, kids[q], j);
    }
  }

  // The list is intact, with `add` in it once.
  lemma SafeAfterWorks(v: map<Node, Links>, kids: map<Node, seq<Node>>, p: Node, after: Node, add: Node)
    requires Spells(v, kids) && p in v && after in v && v[after].parent == p && add in v && add != p
    requires v[after].next != null && SafeAfter(v, after, add)
    ensures var w, freed := FreedLinks(v, add), FreedKids(kids, v[add].parent, add);
            && p in w && after in w && add in w && p in freed && w[after].next != null && w[after].parent == p
            && Spells(AfterLinks(w, p, after, add), freed[p := InsertedAfter(freed[p], after, add)])
            && Adopted(w, AfterLinks(w, p, after, add), add, p)
  {
    hide Chain, UnlinkLinks, FreedLinks, AfterLinks, InsertedAfter;
    FreedNext(v, kids, after, add);
    FreedSpells(v, kids, add);
    var w, freed := FreedLinks(v, add), FreedKids(kids, v[add].parent, add);
    var q, j := PlaceOf(w, freed, after);
    NextOf(w, p, freed[p], j);
    AfterSpells(w, freed, p, j, add);
  }

  // A node that is its own successor spoils its list.
  lemma SelfLoop(v: map<Node, Links>, kids: map<Node, seq<Node>>, x: Node)
    requires x in v && v[x].parent != null && v[x].next == x
    ensures !Spells(v, kids)
  {
    if Spells(v, kids) {
      var p, k := PlaceOf(v, kids, x);
      NextOf(v, p, kids[p], k);
    }
  }

  // Inserting after a child that has a successor gives intact lists exactly when the guard holds;
  // otherwise a null pointer is followed or the added node becomes its own successor.
  lemma InsertAfterExact(v: map<Node, Links>, kids: map<Node, seq<Node>>, p: Node, after: Node, add: Node)
    requires Spells(v, kids) && p in v && after in v && v[after].parent == p && add in v && add != p
    requires v[after].next != null
    ensures FreedLinks(v, add).Keys == v.Keys
    ensures SafeAfter(v, after, add) <==>
              (&& FreedLinks(v, add)[after].next != null
               && exists ks :: Spells(AfterLinks(FreedLinks(v, add), p, after, add), ks))
  {
    hide Spells, Chain, UnlinkLinks, FreedLinks, AfterLinks, InsertedAfter;
    FreedSpells(v, kids, add);
    FreedNext(v, kids, after, add);
    if SafeAfter(v, after, add) {
      SafeAfterWorks(v, kids, p, after, add);
    } else if add == after {
      var x := AfterLinks(FreedLinks(v, add), p, after, add);
      SelfLink(FreedLinks(v, add), p, add);
      forall ks
        ensures !Spells(x, ks)
      {
        SelfLoop(x, ks, add);
      }
    }
  }

  lemma SelfLink(v: map<Node, Links>, p: Node, x: Node)
    requires p in v && x in v
    ensures var w := AfterLinks(v, p, x, x); x in w && w[x].next == x && w[x].parent == p
  {
  }
}
