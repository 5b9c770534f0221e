/**
  The tree that a printed text denotes, for any printed tree: what stands between two tags is read as one
  text, or as nothing if it is blank.
 */
module Denotation {
  import opened XmlChars
  import opened XmlTree
  import opened Escaping
  import opened Rendering

  /** The nodes that the characters between two tags are read as. */
  function Run(text: string): seq<Node> {
    if Blank(text) then [] else [Text(text, false)]
  }

  /** The node that its text denotes; `closed` tells the single tag. */
  function Denoted(node: Node, depth: int, compact: bool): Node
    decreases node, 0
  {
    match node
    case Element(name, attributes, children, _) =>
      Element(name, attributes,
              Front("", children, depth + 1, false, compact) + Run(LastRun("", children, depth + 1, compact)), children == [])
    case _ => node
  }

  /**
    The nodes up to the last tag, with the characters `pending` in front. Behind text, the printer's text
    depth is the depth of the element around it.
   */
  function Front(pending: string, nodes: seq<Node>, depth: int, first: bool, compact: bool): seq<Node>
    decreases nodes, 1
  {
    if nodes == [] then []
    else if PlainText(nodes[0]) then Front(pending + nodes[0].value, nodes[1..], depth, first, compact)
    else
      Run(pending + Lead(nodes[0], depth, first, depth - 1, compact)) + [Denoted(nodes[0], depth, compact)]
      + Front(Trail(nodes[0], depth, compact), nodes[1..], depth, first && nodes[0].Text?, compact)
  }

  /** The characters behind the last tag. */
  function LastRun(pending: string, nodes: seq<Node>, depth: int, compact: bool): string
    decreases |nodes|
  {
    if nodes == [] then pending
    else
      LastRun(if PlainText(nodes[0]) then pending + nodes[0].value else Trail(nodes[0], depth, compact), nodes[1..], depth, compact)
  }

  // ----- documents

  /** The characters in front of the first tag, and the nodes from there on. */
  function Opening(nodes: seq<Node>): string {
    if nodes == [] || !PlainText(nodes[0]) then "" else nodes[0].value + Opening(nodes[1..])
  }

  function Body(nodes: seq<Node>): (r: seq<Node>)
    ensures r != [] ==> !PlainText(r[0])
  {
    if nodes == [] || !PlainText(nodes[0]) then nodes else Body(nodes[1..])
  }

  /** What XMLDocument::Parse makes of them, in a document written without byte order mark: blanks are skipped, and a mark is taken. */
  function Start(text: string, bom: bool): (string, bool) {
    var t := SkipWhiteSpace(text);
    if bom then (text, true) else if BOM <= t then (t[3..], true) else (t, false)
  }

  datatype Reading = Refused(error: XmlError) | Read(nodes: seq<Node>, writeBOM: bool)

  /** What a printed document is read back as. */
  function ReadBack(nodes: seq<Node>, bom: bool, depth: nat, compact: bool): Reading {
    var (text, mark) := Start(Opening(nodes), bom);
    if text == "" && Body(nodes) == [] then Refused(XML_ERROR_EMPTY_DOCUMENT)
    else if !Blank(LastRun(text, Body(nodes), depth, compact)) then Refused(XML_ERROR_PARSING_TEXT)
    else Read(Front(text, Body(nodes), depth, true, compact), mark)
  }

  // ----- blanks

  lemma {:induction false} IndentBlank(depth: int)
    ensures Blank(Indent(depth)) && NUL !in Indent(depth) && (depth >= 1 ==> Indent(depth) != [])
    ensures forall c <- Indent(depth) :: c == ' '
    decreases if depth < 0 then 0 else depth
  {
    if depth > 0 {
      IndentBlank(depth - 1);
    }
  }

  lemma LeadsAreBlank(node: Node, depth: int, first: bool, textDepth: int, compact: bool)
    ensures Blank(Lead(node, depth, first, textDepth, compact)) && Blank(CloseLead(depth, textDepth, compact))
    ensures Blank(Trail(node, depth, compact))
  {
    IndentBlank(depth);
  }

  lemma LeadsNoNul(node: Node, depth: int, first: bool, textDepth: int, compact: bool)
    ensures NUL !in Lead(node, depth, first, textDepth, compact) && NUL !in CloseLead(depth, textDepth, compact)
    ensures NUL !in Trail(node, depth, compact)
  {
    IndentBlank(depth);
  }

  lemma BlankBoth(a: string, b: string)
    ensures Blank(a + b) <==> Blank(a) && Blank(b)
    ensures NUL !in a + b <==> NUL !in a && NUL !in b
  {
    if Blank(a + b) {
      assert forall c <- a :: c in a + b;
      assert forall c <- b :: c in a + b;
    }
  }

  // ----- the denoted tree is printable, too

  lemma RunPrintable(text: string)
    requires NUL !in text
    ensures PrintableAll(Run(text))
  {
  }

  lemma PrintableJoin(a: seq<Node>, b: seq<Node>)
    ensures PrintableAll(a + b) <==> PrintableAll(a) && PrintableAll(b)
  {
    hide Printable;
    if PrintableAll(a + b) {
      assert forall i | 0 <= i < |a| :: (a + b)[i] == a[i];
      assert forall i | 0 <= i < |b| :: (a + b)[|a| + i] == b[i];
    }
  }

  lemma PrintableParts(nodes: seq<Node>)
    requires nodes != [] && PrintableAll(nodes)
    ensures Printable(nodes[0]) && PrintableAll(nodes[1..])
    ensures PlainText(nodes[0]) ==> NUL !in nodes[0].value
  {
  }

  lemma {:induction false} DenotedPrintable(node: Node, depth: int, compact: bool)
    requires Printable(node)
    ensures Printable(Denoted(node, depth, compact))
    decreases node, 0
  {
    if node.Element? {
      var children := node.children;
      FrontPrintable("", children, depth + 1, false, compact);
      hide Front, LastRun, Run;
      RunPrintable(LastRun("", children, depth + 1, compact));
      PrintableJoin(Front("", children, depth + 1, false, compact), Run(LastRun("", children, depth + 1, compact)));
    }
  }

  lemma {:induction false} FrontPrintable(pending: string, nodes: seq<Node>, depth: int, first: bool, compact: bool)
    requires PrintableAll(nodes) && NUL !in pending
    ensures PrintableAll(Front(pending, nodes, depth, first, compact)) && NUL !in LastRun(pending, nodes, depth, compact)
    decreases nodes, 1
  {
    if nodes != [] {
      var n, more := nodes[0], nodes[1..];
      PrintableParts(nodes);
      hide Printable, PrintableAll, Denoted, Run, Lead, Trail;
      if PlainText(n) {
        BlankBoth(pending, n.value);
        FrontPrintable(pending + n.value, more, depth, first, compact);
      } else {
        LeadsNoNul(n, depth, first, depth - 1, compact);
        BlankBoth(pending, Lead(n, depth, first, depth - 1, compact));
        RunPrintable(pending + Lead(n, depth, first, depth - 1, compact));
        DenotedPrintable(n, depth, compact);
        FrontPrintable(Trail(n, depth, compact), more, depth, first && n.Text?, compact);
        SingletonPrintable(Denoted(n, depth, compact));
        PrintableJoin(Run(pending + Lead(n, depth, first, depth - 1, compact)), [Denoted(n, depth, compact)]);
        PrintableJoin(Run(pending + Lead(n, depth, first, depth - 1, compact)) + [Denoted(n, depth, compact)],
                      Front(Trail(n, depth, compact), more, depth, first && n.Text?, compact));
      }
    }
  }

  lemma SingletonPrintable(node: Node)
    requires Printable(node)
    ensures PrintableAll([node])
  {
  }
}
