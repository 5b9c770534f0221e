/**
  Which trees come back from their printed text unchanged.
 */
module Fidelity {
  import opened XmlChars
  import opened XmlTree
  import opened EntityDecoding
  import opened Escaping
  import opened Rendering
  import opened Denotation

  /** The tree with the closing types that are printed: an element without children is a single tag. */
  function Sealed(node: Node): Node
    decreases node, 0
  {
    match node
    case Element(name, attributes, children, _) => Element(name, attributes, SealedAll(children), children == [])
    case _ => node
  }

  function SealedAll(nodes: seq<Node>): (r: seq<Node>)
    ensures |r| == |nodes|
    decreases nodes, 1
  {
    if nodes == [] then [] else [Sealed(nodes[0])] + SealedAll(nodes[1..])
  }

  /** A first text that stays apart: not blank, and no other text behind it, nor the indentation of an element. */
  predicate Apart(nodes: seq<Node>, compact: bool) {
    nodes != [] && PlainText(nodes[0]) ==>
      !Blank(nodes[0].value) && (|nodes| > 1 ==> !PlainText(nodes[1]) && (compact || !nodes[1].Element?))
  }

  predicate Settled(node: Node, compact: bool)
    decreases node, 0
  {
    node.Element? ==> SettledAll(node.children, compact)
  }

  /** Every plain text in the tree stays apart. */
  predicate SettledAll(nodes: seq<Node>, compact: bool)
    decreases nodes, 1
  {
    nodes != [] ==> Apart(nodes, compact) && Settled(nodes[0], compact) && SettledAll(nodes[1..], compact)
  }

  predicate HasPlainText(nodes: seq<Node>) {
    exists i | 0 <= i < |nodes| :: PlainText(nodes[i])
  }

  /** Line ends are printed between nodes at depth 0; plain text is for the inside of elements there. */
  predicate AtDepth(nodes: seq<Node>, depth: nat, compact: bool) {
    compact || depth >= 1 || !HasPlainText(nodes)
  }

  // ----- the list that a printed list denotes

  function Whole(pending: string, nodes: seq<Node>, depth: int, first: bool, compact: bool): seq<Node> {
    Front(pending, nodes, depth, first, compact) + Run(LastRun(pending, nodes, depth, compact))
  }

  lemma WholeStep(pending: string, nodes: seq<Node>, depth: int, first: bool, compact: bool)
    ensures nodes == [] ==> Whole(pending, nodes, depth, first, compact) == Run(pending)
    ensures nodes != [] && PlainText(nodes[0]) ==>
              Whole(pending, nodes, depth, first, compact) == Whole(pending + nodes[0].value, nodes[1..], depth, first, compact)
    ensures nodes != [] && !PlainText(nodes[0]) ==>
              Whole(pending, nodes, depth, first, compact)
              == Run(pending + Lead(nodes[0], depth, first, depth - 1, compact)) + [Denoted(nodes[0], depth, compact)]
                 + Whole(Trail(nodes[0], depth, compact), nodes[1..], depth, first && nodes[0].Text?, compact)
  {
    hide Run, Lead, Trail, Denoted;
    if nodes != [] && !PlainText(nodes[0]) {
      var n := nodes[0];
      var head := Run(pending + Lead(n, depth, first, depth - 1, compact)) + [Denoted(n, depth, compact)];
      var front := Front(Trail(n, depth, compact), nodes[1..], depth, first && n.Text?, compact);
      var last := Run(LastRun(pending, nodes, depth, compact));
      assert head + front + last == head + (front + last);
    }
  }

  lemma RunSizes(a: string, b: string)
    ensures |Run(a + b)| <= |Run(a)| + |Run(b)| && (Blank(b) ==> |Run(a + b)| == |Run(a)|)
    ensures |Run(b)| <= 1 && |Run(a + b)| <= 1
  {
    BlankBoth(a, b);
  }

  // Texts are joined or dropped, never split.
  lemma {:induction false} NotLonger(pending: string, nodes: seq<Node>, depth: int, first: bool, compact: bool)
    ensures |Whole(pending, nodes, depth, first, compact)| <= |Run(pending)| + |nodes|
    decreases |nodes|
  {
    WholeStep(pending, nodes, depth, first, compact);
    hide Whole, Run, Lead, Trail, Denoted;
    if nodes != [] {
      var n, more := nodes[0], nodes[1..];
      if PlainText(n) {
        RunSizes(pending, n.value);
        NotLonger(pending + n.value, more, depth, first, compact);
      } else {
        LeadsAreBlank(n, depth, first, depth - 1, compact);
        RunSizes(pending, Lead(n, depth, first, depth - 1, compact));
        RunOfBlank(Trail(n, depth, compact));
        NotLonger(Trail(n, depth, compact), more, depth, first && n.Text?, compact);
      }
    }
  }

  lemma RunOfBlank(w: string)
    requires Blank(w)
    ensures Run(w) == []
  {
  }

  // ----- normal forms of lists

  lemma {:induction false} NormalJoins(a: seq<Node>, b: seq<Node>)
    ensures NormalAll(a + b) == NormalAll(a) + NormalAll(b)
    decreases |a|
  {
    hide Normal;
    if a == [] {
      assert a + b == b;
      assert [] + NormalAll(b) == NormalAll(b);
    } else {
      assert (a + b)[0] == a[0] && (a + b)[1..] == a[1..] + b;
      NormalJoins(a[1..], b);
      assert [Normal(a[0])] + (NormalAll(a[1..]) + NormalAll(b)) == [Normal(a[0])] + NormalAll(a[1..]) + NormalAll(b);
    }
  }

  lemma NormalSplit(a: seq<Node>, b: seq<Node>, c: seq<Node>, d: seq<Node>)
    requires |a| == |c|
    ensures NormalAll(a + b) == NormalAll(c + d) <==> NormalAll(a) == NormalAll(c) && NormalAll(b) == NormalAll(d)
  {
    NormalJoins(a, b);
    NormalJoins(c, d);
    hide NormalAll;
    var w, x, y, z := NormalAll(a), NormalAll(b), NormalAll(c), NormalAll(d);
    if w + x == y + z {
      assert w == (w + x)[..|w|] && x == (w + x)[|w|..];
    }
  }

  lemma NormalSingle(node: Node)
    ensures NormalAll([node]) == [Normal(node)]
  {
    hide Normal;
    assert [node][1..] == [];
  }

  // Spaces at the end of a text are normalised to themselves.
  lemma {:induction false} NormalizeBehind(s: string, w: string)
    requires forall c <- w :: c == ' '
    ensures Normalize(s + w) == Normalize(s) + w
    decreases |s|
  {
    if s == [] {
      assert s + w == w && CR !in w;
      NormalFormOf(w);
    } else {
      var n := if s[0] == CR || s[0] == LF then LineEnd(s) else 1;
      SameLineEnd(s, w);
      hide LineEnd;
      NormalizeBehind(s[n..], w);
      var c := if s[0] == CR || s[0] == LF then LF else s[0];
      assert [c] + (Normalize(s[n..]) + w) == [c] + Normalize(s[n..]) + w;
    }
  }

  lemma SameLineEnd(s: string, w: string)
    requires s != [] && forall c <- w :: c == ' '
    ensures (s + w)[0] == s[0] && (s + w)[1..] == s[1..] + w
    ensures s[0] == CR || s[0] == LF ==> LineEnd(s + w) == LineEnd(s) && (s + w)[LineEnd(s)..] == s[LineEnd(s)..] + w
  {
    if |s| == 1 && w != [] {
      assert w[0] in w && (s + w)[1] == w[0];
    }
  }

  // ----- when it is the same list

  /** Behind `pending`, which is a text or nothing, all stays apart. */
  predicate Joined(pending: string, nodes: seq<Node>, compact: bool) {
    && (!Blank(pending) && nodes != [] ==> !PlainText(nodes[0]) && (compact || !nodes[0].Element?))
    && SettledAll(nodes, compact)
  }

  lemma {:induction false} DenotedSame(node: Node, depth: nat, compact: bool)
    ensures Normal(Denoted(node, depth, compact)) == Normal(Sealed(node)) <==> Settled(node, compact)
    ensures Settled(node, compact) ==> Denoted(node, depth, compact) == Sealed(node)
    decreases node, 0
  {
    if node.Element? {
      WholeSame("", node.children, depth + 1, false, compact);
      ElementSame(node, depth, compact);
      assert [] + SealedAll(node.children) == SealedAll(node.children);
    }
  }

  lemma ElementSame(node: Node, depth: nat, compact: bool)
    requires node.Element?
    ensures var d, s := Denoted(node, depth, compact), Sealed(node);
            && d == s.(children := Whole("", node.children, depth + 1, false, compact))
            && (Normal(d) == Normal(s) <==> NormalAll(d.children) == NormalAll(SealedAll(node.children)))
  {
    hide NormalAll, Front, LastRun, Run, SealedAll, NormalAttributes;
  }

  lemma {:induction false} WholeSame(pending: string, nodes: seq<Node>, depth: nat, first: bool, compact: bool)
    requires AtDepth(nodes, depth, compact) && (Blank(pending) || compact || depth >= 1)
    requires Blank(pending) ==> pending == "" || !HasPlainText(nodes)
    ensures NormalAll(Whole(pending, nodes, depth, first, compact)) == NormalAll(Run(pending) + SealedAll(nodes))
            <==> Joined(pending, nodes, compact)
    ensures Joined(pending, nodes, compact) ==> Whole(pending, nodes, depth, first, compact) == Run(pending) + SealedAll(nodes)
    decreases nodes, 1
  {
    hide *;
    WholeStep(pending, nodes, depth, first, compact);
    if nodes == [] {
      NothingSealed(pending, compact);
      return;
    }
    var n, more := nodes[0], nodes[1..];
    RestAtDepth(nodes, depth, compact);
    if PlainText(n) {
      TextIsText(n);
      if Blank(pending) && !Blank(n.value) {
        assert pending + n.value == n.value;
        WholeSame(n.value, more, depth, first, compact);
        TextSealed(pending, nodes, compact);
      } else {
        NotLonger(pending + n.value, more, depth, first, compact);
        Shorter(pending, nodes, Whole(pending, nodes, depth, first, compact), compact);
      }
      NoRun(pending, SealedAll(nodes));
    } else {
      DenotedSame(n, depth, compact);
      WholeSame(Trail(n, depth, compact), more, depth, first && n.Text?, compact);
      TagSame(pending, nodes, depth, first, compact, Whole(Trail(n, depth, compact), more, depth, first && n.Text?, compact));
    }
  }

  lemma NothingSealed(pending: string, compact: bool)
    ensures Run(pending) + SealedAll([]) == Run(pending) && Joined(pending, [], compact)
  {
  }

  lemma TextIsText(n: Node)
    requires PlainText(n)
    ensures n.Text? && n == Text(n.value, false)
  {
  }

  lemma NoRun(pending: string, nodes: seq<Node>)
    ensures Blank(pending) ==> Run(pending) + nodes == nodes
  {
  }

  lemma RestAtDepth(nodes: seq<Node>, depth: nat, compact: bool)
    requires nodes != [] && AtDepth(nodes, depth, compact)
    ensures AtDepth(nodes[1..], depth, compact) && (PlainText(nodes[0]) ==> compact || depth >= 1)
    ensures HasPlainText(nodes[1..]) || PlainText(nodes[0]) ==> HasPlainText(nodes)
    ensures var w := Trail(nodes[0], depth, compact); Blank(w) && (w == "" || !HasPlainText(nodes[1..]))
  {
    if HasPlainText(nodes[1..]) {
      var i :| 0 <= i < |nodes[1..]| && PlainText(nodes[1..][i]);
      assert PlainText(nodes[i + 1]);
    }
  }

  lemma TextSealed(pending: string, nodes: seq<Node>, compact: bool)
    requires Blank(pending) && nodes != [] && PlainText(nodes[0]) && !Blank(nodes[0].value)
    ensures SealedAll(nodes) == Run(nodes[0].value) + SealedAll(nodes[1..])
    ensures Joined(pending, nodes, compact) <==> Joined(nodes[0].value, nodes[1..], compact)
  {
    SealedHead(nodes);
    hide SealedAll;
    assert Settled(nodes[0], compact);
    assert |nodes| > 1 ==> nodes[1..][0] == nodes[1];
  }

  lemma SealedHead(nodes: seq<Node>)
    requires nodes != []
    ensures SealedAll(nodes) == [Sealed(nodes[0])] + SealedAll(nodes[1..])
    ensures !nodes[0].Element? ==> Sealed(nodes[0]) == nodes[0]
  {
  }

  // A text that is blank, or that follows another text, leaves too few nodes.
  lemma Shorter(pending: string, nodes: seq<Node>, whole: seq<Node>, compact: bool)
    requires nodes != [] && PlainText(nodes[0]) && (Blank(pending) ==> Blank(nodes[0].value))
    requires |whole| <= |Run(pending + nodes[0].value)| + |nodes| - 1
    ensures NormalAll(whole) != NormalAll(Run(pending) + SealedAll(nodes)) && !Joined(pending, nodes, compact)
  {
    BlankBoth(pending, nodes[0].value);
    hide SealedAll, NormalAll, Blank;
    assert |whole| < |Run(pending) + SealedAll(nodes)|;
  }

  lemma TagSame(pending: string, nodes: seq<Node>, depth: nat, first: bool, compact: bool, behind: seq<Node>)
    requires nodes != [] && !PlainText(nodes[0]) && (Blank(pending) || compact || depth >= 1)
    requires var d, s := Denoted(nodes[0], depth, compact), Sealed(nodes[0]);
             && (Normal(d) == Normal(s) <==> Settled(nodes[0], compact)) && (Settled(nodes[0], compact) ==> d == s)
    requires var trail, more := Trail(nodes[0], depth, compact), nodes[1..];
             && Blank(trail) && (NormalAll(behind) == NormalAll(Run(trail) + SealedAll(more)) <==> Joined(trail, more, compact))
             && (Joined(trail, more, compact) ==> behind == Run(trail) + SealedAll(more))
    ensures var whole := Run(pending + Lead(nodes[0], depth, first, depth - 1, compact)) + [Denoted(nodes[0], depth, compact)] + behind;
            && (NormalAll(whole) == NormalAll(Run(pending) + SealedAll(nodes)) <==> Joined(pending, nodes, compact))
            && (Joined(pending, nodes, compact) ==> whole == Run(pending) + SealedAll(nodes))
  {
    hide *;
    var n, more := nodes[0], nodes[1..];
    var d, s := Denoted(n, depth, compact), Sealed(n);
    var lead, trail := Lead(n, depth, first, depth - 1, compact), Trail(n, depth, compact);
    var run := Run(pending + lead);
    LeadSame(pending, n, depth, first, compact);
    SealedHead(nodes);
    TagJoined(pending, nodes, compact, trail);
    NoRun(trail, SealedAll(more));
    assert Run(pending) + ([s] + SealedAll(more)) == Run(pending) + [s] + SealedAll(more);
    NormalSplit(run + [d], behind, Run(pending) + [s], SealedAll(more));
    NormalSplit(run, [d], Run(pending), [s]);
    NormalSingle(d);
    NormalSingle(s);
  }

  lemma TagJoined(pending: string, nodes: seq<Node>, compact: bool, trail: string)
    requires nodes != [] && !PlainText(nodes[0]) && Blank(trail)
    ensures Joined(pending, nodes, compact) <==>
              (Blank(pending) || compact || !nodes[0].Element?) && Settled(nodes[0], compact) && Joined(trail, nodes[1..], compact)
  {
    hide Settled;
  }

  lemma LeadIs(n: Node, depth: nat, first: bool, compact: bool)
    requires !PlainText(n) && (compact || depth >= 1)
    ensures Lead(n, depth, first, depth - 1, compact) == if compact || !n.Element? then "" else Indent(depth)
  {
    assert "" + Indent(depth) == Indent(depth);
  }

  lemma LeadSame(pending: string, n: Node, depth: nat, first: bool, compact: bool)
    requires !PlainText(n) && (Blank(pending) || compact || depth >= 1)
    ensures var run := Run(pending + Lead(n, depth, first, depth - 1, compact));
            && |run| == |Run(pending)|
            && (NormalAll(run) == NormalAll(Run(pending)) <==> Blank(pending) || compact || !n.Element?)
            && (Blank(pending) || compact || !n.Element? ==> run == Run(pending))
  {
    var lead := Lead(n, depth, first, depth - 1, compact);
    LeadsAreBlank(n, depth, first, depth - 1, compact);
    BlankBoth(pending, lead);
    if !Blank(pending) {
      LeadIs(n, depth, first, compact);
      IndentBlank(depth);
      hide Lead, Indent, Normalize;
      if lead == "" {
        assert pending + lead == pending;
      } else {
        NormalizeBehind(pending, lead);
        NormalSingle(Text(pending + lead, false));
        NormalSingle(Text(pending, false));
      }
    }
  }

  // ----- documents

  /** Reading the printed document gives the tree back, line ends normalised, and the byte order mark. */
  predicate ComesBack(nodes: seq<Node>, bom: bool, depth: nat, compact: bool) {
    var r := ReadBack(nodes, bom, depth, compact);
    r.Read? && r.writeBOM == bom && NormalAll(r.nodes) == NormalAll(SealedAll(nodes))
  }

  /** A text in front of everything shows neither blanks nor a byte order mark where Parse looks for them. */
  predicate PlainStart(nodes: seq<Node>, bom: bool) {
    nodes != [] && PlainText(nodes[0]) && !bom ==> !IsWhiteSpace(Peek(nodes[0].value, 0)) && !(BOM <= nodes[0].value)
  }

  lemma {:induction false} WholeFrom(pending: string, nodes: seq<Node>, depth: nat, first: bool, compact: bool)
    ensures Whole(pending + Opening(nodes), Body(nodes), depth, first, compact) == Whole(pending, nodes, depth, first, compact)
    ensures LastRun(pending + Opening(nodes), Body(nodes), depth, compact) == LastRun(pending, nodes, depth, compact)
    decreases |nodes|
  {
    if nodes == [] || !PlainText(nodes[0]) {
      assert pending + "" == pending;
    } else {
      var value := nodes[0].value;
      WholeFrom(pending + value, nodes[1..], depth, first, compact);
      Assoc(pending, value, Opening(nodes[1..]));
      WholeStep(pending, nodes, depth, first, compact);
    }
  }

  lemma ReadIsWhole(nodes: seq<Node>, bom: bool, depth: nat, compact: bool)
    ensures var (text, mark) := Start(Opening(nodes), bom);
            var r := ReadBack(nodes, bom, depth, compact);
            && (r.Read? <==> (text != "" || Body(nodes) != []) && Blank(LastRun(text, Body(nodes), depth, compact)))
            && (r.Read? ==> r == Read(Whole(text, Body(nodes), depth, true, compact), mark))
  {
    hide Start, Front, LastRun, Body, Opening;
  }

  // The last node tells what the last run is.
  lemma {:induction false} LastTells(pending: string, nodes: seq<Node>, depth: nat, compact: bool)
    requires nodes != []
    ensures var n, last := nodes[|nodes| - 1], LastRun(pending, nodes, depth, compact);
            if PlainText(n) then Blank(last) ==> Blank(n.value) else Blank(last)
    decreases |nodes|
  {
    var n, more := nodes[0], nodes[1..];
    LeadsAreBlank(n, depth, false, 0, compact);
    var next := if PlainText(n) then pending + n.value else Trail(n, depth, compact);
    if PlainText(n) {
      BlankBoth(pending, n.value);
    }
    if more == [] {
      assert LastRun(next, more, depth, compact) == next;
    } else {
      LastTells(next, more, depth, compact);
      assert more[|more| - 1] == nodes[|nodes| - 1];
    }
  }

  lemma {:induction false} LastStays(nodes: seq<Node>, compact: bool)
    requires nodes != [] && SettledAll(nodes, compact) && PlainText(nodes[|nodes| - 1])
    ensures !Blank(nodes[|nodes| - 1].value)
    decreases |nodes|
  {
    hide Settled;
    if |nodes| > 1 {
      assert nodes[1..][|nodes| - 2] == nodes[|nodes| - 1];
      LastStays(nodes[1..], compact);
    }
  }

  // A body that is empty leaves nothing but text.
  lemma {:induction false} OnlyText(nodes: seq<Node>)
    requires nodes != [] && Body(nodes) == []
    ensures PlainText(nodes[|nodes| - 1])
    decreases |nodes|
  {
    if |nodes| > 1 {
      assert nodes[1..][|nodes| - 2] == nodes[|nodes| - 1];
      OnlyText(nodes[1..]);
    }
  }

  // Where Parse leaves the first text alone, the tree comes back exactly if everything stays apart in front of a tag.
  lemma UntouchedIff(nodes: seq<Node>, bom: bool, depth: nat, compact: bool)
    requires AtDepth(nodes, depth, compact) && Start(Opening(nodes), bom) == (Opening(nodes), bom)
    ensures ComesBack(nodes, bom, depth, compact) <==>
              nodes != [] && SettledAll(nodes, compact) && !PlainText(nodes[|nodes| - 1])
  {
    ReadIsWhole(nodes, bom, depth, compact);
    WholeFrom("", nodes, depth, true, compact);
    assert "" + Opening(nodes) == Opening(nodes);
    WholeSame("", nodes, depth, true, compact);
    NoRun("", SealedAll(nodes));
    NothingJoined(nodes, compact);
    if nodes != [] {
      LastTells("", nodes, depth, compact);
      if Body(nodes) == [] {
        OnlyText(nodes);
      }
      if SettledAll(nodes, compact) && PlainText(nodes[|nodes| - 1]) {
        LastStays(nodes, compact);
      }
    }
    hide ReadBack, Start, Whole, LastRun, SettledAll, NormalAll, SealedAll, AtDepth, Joined, Blank;
  }

  lemma NothingJoined(nodes: seq<Node>, compact: bool)
    ensures Joined("", nodes, compact) <==> SettledAll(nodes, compact)
    ensures nodes == [] ==> Opening(nodes) == "" && Body(nodes) == []
  {
  }

  // Where it takes blanks off the first text, the first node differs.
  lemma StrippedDiffers(nodes: seq<Node>, depth: nat, compact: bool)
    requires var open := Opening(nodes); open != [] && IsWhiteSpace(open[0])
    ensures !ComesBack(nodes, false, depth, compact)
  {
    var (text, mark) := Start(Opening(nodes), false);
    var more := Body(nodes);
    ReadIsWhole(nodes, false, depth, compact);
    if !mark && ReadBack(nodes, false, depth, compact).Read? {
      WholeStep(text, more, depth, true, compact);
      var whole := Whole(text, more, depth, true, compact);
      FirstRead(text, more, depth, compact);
      FirstSealed(nodes);
      FirstDiffers(text, whole[0], nodes[0].value);
      hide *;
      FirstNormal(whole, SealedAll(nodes));
    }
  }

  lemma FirstSealed(nodes: seq<Node>)
    requires Opening(nodes) != [] && IsWhiteSpace(Opening(nodes)[0])
    ensures nodes != [] && PlainText(nodes[0]) && SealedAll(nodes) != [] && SealedAll(nodes)[0] == Text(nodes[0].value, false)
    ensures nodes[0].value == [] || IsWhiteSpace(nodes[0].value[0])
  {
  }

  lemma FirstRead(text: string, more: seq<Node>, depth: nat, compact: bool)
    requires text == SkipWhiteSpace(text) && (text != [] || more != []) && (more != [] ==> !PlainText(more[0]))
    ensures var whole := Whole(text, more, depth, true, compact);
            whole != [] && (PlainText(whole[0]) ==> text != [] && text <= whole[0].value)
  {
    WholeStep(text, more, depth, true, compact);
    if text != [] {
      assert text[0] in text;
      assert !Blank(text);
      if more != [] {
        var lead := Lead(more[0], depth, true, depth - 1, compact);
        BlankBoth(text, lead);
      }
    } else {
      LeadsAreBlank(more[0], depth, true, depth - 1, compact);
      assert "" + Lead(more[0], depth, true, depth - 1, compact) == Lead(more[0], depth, true, depth - 1, compact);
    }
  }

  lemma FirstDiffers(text: string, node: Node, value: string)
    requires PlainText(node) ==> text != [] && !IsWhiteSpace(text[0]) && text <= node.value
    requires value == [] || IsWhiteSpace(value[0])
    ensures Normal(node) != Normal(Text(value, false))
  {
    if PlainText(node) {
      assert node.value[0] == text[0];
      BlankHead(node.value);
      BlankHead(value);
    }
  }

  lemma BlankHead(s: string)
    ensures s == [] <==> Normalize(s) == []
    ensures s != [] ==> (IsWhiteSpace(Normalize(s)[0]) <==> IsWhiteSpace(s[0]))
  {
  }

  lemma FirstNormal(a: seq<Node>, b: seq<Node>)
    requires a != [] && b != [] && Normal(a[0]) != Normal(b[0])
    ensures NormalAll(a) != NormalAll(b)
  {
    hide Normal;
    assert NormalAll(a)[0] == Normal(a[0]) && NormalAll(b)[0] == Normal(b[0]);
  }

  // In a settled list, the first characters are the first text.
  lemma SettledOpening(nodes: seq<Node>, compact: bool)
    requires SettledAll(nodes, compact)
    ensures Opening(nodes) == if nodes != [] && PlainText(nodes[0]) then nodes[0].value else ""
  {
    if nodes != [] && PlainText(nodes[0]) {
      assert |nodes| > 1 ==> nodes[1..][0] == nodes[1];
      assert Opening(nodes[1..]) == "";
      assert nodes[0].value + "" == nodes[0].value;
    }
  }

  // A printed document comes back exactly if it has a node, every plain text stays apart, the last node is not
  // plain text, and the first one does not look like what Parse skips.
  lemma ComesBackIff(nodes: seq<Node>, bom: bool, depth: nat, compact: bool)
    requires AtDepth(nodes, depth, compact)
    ensures ComesBack(nodes, bom, depth, compact) <==>
              && nodes != [] && SettledAll(nodes, compact) && !PlainText(nodes[|nodes| - 1])
              && PlainStart(nodes, bom)
  {
    var open := Opening(nodes);
    if SettledAll(nodes, compact) {
      SettledOpening(nodes, compact);
    }
    if bom {
      UntouchedIff(nodes, bom, depth, compact);
    } else if open != [] && IsWhiteSpace(open[0]) {
      StrippedDiffers(nodes, depth, compact);
    } else if BOM <= open {
      ReadIsWhole(nodes, bom, depth, compact);
    } else {
      UntouchedIff(nodes, bom, depth, compact);
      if nodes != [] && PlainText(nodes[0]) {
        OpeningStarts(nodes);
      }
    }
  }

  lemma OpeningStarts(nodes: seq<Node>)
    requires nodes != [] && PlainText(nodes[0])
    ensures nodes[0].value <= Opening(nodes)
  {
  }
}
