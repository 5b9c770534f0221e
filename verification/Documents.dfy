/**
  The printer and the parser together.
 */
module Documents {
  import opened XmlChars
  import opened XmlTree
  import opened Grammar
  import opened Escaping
  import opened Rendering
  import opened Denotation
  import opened Fidelity
  import opened RoundTrip
  import P = Printer

  // A visit of any document leaves its text, behind the byte order mark if there is one.
  lemma VisitRendersDocument(nodes: seq<Node>, bom: bool, depth: nat, compact: bool)
    ensures P.VisitDocument(P.Start(depth), nodes, bom, true, compact).out == RenderDocument(nodes, bom, depth, compact)
  {
    hide RenderAll, P.VisitNodes, Printable;
    var start := P.PushHeader(P.Start(depth), bom, false, compact);
    assert "" + BOM == BOM;
    P.VisitNodesRenders(start, nodes, compact);
    var text := RenderAll(nodes, depth, true, -1, compact);
    assert "" + text == text;
  }

  // Printing a document and parsing what was printed gives what the printed text denotes, with text, comment and
  // attribute values newline-normalised, whatever texts the tree has.
  lemma ParsingUndoesPrinting(nodes: seq<Node>, bom: bool, depth: nat, compact: bool)
    requires PrintableAll(nodes)
    ensures ParseDocument(P.VisitDocument(P.Start(depth), nodes, bom, true, compact).out)
         == Kept(ReadBack(nodes, bom, depth, compact))
    ensures var r := ReadBack(nodes, bom, depth, compact); r.Read? ==> AllShowAs(RawAll(r.nodes), NormalAll(r.nodes))
  {
    VisitRendersDocument(nodes, bom, depth, compact);
    ParseUndoesPrint(nodes, bom, depth, compact);
    if ReadBack(nodes, bom, depth, compact).Read? {
      ReadPrintable(nodes, bom, depth, compact);
      hide *;
      RawAllShowNormal(ReadBack(nodes, bom, depth, compact).nodes);
    }
  }

  lemma ReadPrintable(nodes: seq<Node>, bom: bool, depth: nat, compact: bool)
    requires PrintableAll(nodes) && ReadBack(nodes, bom, depth, compact).Read?
    ensures PrintableAll(ReadBack(nodes, bom, depth, compact).nodes)
  {
    Openings(nodes);
    StartText(nodes, bom, depth);
    hide Printable, Front, LastRun, Start, Opening, Body;
    FrontPrintable(Start(Opening(nodes), bom).0, Body(nodes), depth, true, compact);
  }

  // A tree that comes back is read without error, and shows the values that were printed.
  lemma ComesBackUnchanged(nodes: seq<Node>, bom: bool, depth: nat, compact: bool)
    requires PrintableAll(nodes) && AtDepth(nodes, depth, compact)
    requires nodes != [] && SettledAll(nodes, compact) && !PlainText(nodes[|nodes| - 1]) && PlainStart(nodes, bom)
    ensures ParseDocument(P.VisitDocument(P.Start(depth), nodes, bom, true, compact).out)
         == Kept(ReadBack(nodes, bom, depth, compact))
    ensures var r := ReadBack(nodes, bom, depth, compact);
            r.Read? && r.writeBOM == bom && AllShowAs(RawAll(r.nodes), NormalAll(SealedAll(nodes)))
  {
    ParsingUndoesPrinting(nodes, bom, depth, compact);
    ComesBackIff(nodes, bom, depth, compact);
  }

  lemma PairDenotes(name: string, x: string, n: Node, depth: nat, compact: bool)
    ensures Denoted(Element(name, [], [Text(x, false), n], false), depth, compact).children
         == if PlainText(n) then Run(x + n.value)
            else Run(x + Lead(n, depth + 1, false, depth, compact)) + [Denoted(n, depth + 1, compact)]
  {
    var text := Text(x, false);
    var node := Element(name, [], [text, n], false);
    assert [text, n][1..] == [n] && [n][1..] == [];
    WholeStep("", [text, n], depth + 1, false, compact);
    assert "" + x == x;
    WholeStep(x, [n], depth + 1, false, compact);
    if PlainText(n) {
      WholeStep(x + n.value, [], depth + 1, false, compact);
    } else {
      LeadsAreBlank(n, depth + 1, false, depth, compact);
      WholeStep(Trail(n, depth + 1, compact), [], depth + 1, false, compact);
    }
    ElementSame(node, depth, compact);
    hide *;
  }

  // Printed with indentation, a text in front of an element grows by it.
  lemma MixedExample()
    ensures var element := Element("b", [], [], true);
            Denoted(Element("a", [], [Text("x", false), element], false), 0, false).children == [Text("x    ", false), element]
  {
    var element := Element("b", [], [], true);
    PairDenotes("a", "x", element, 0, false);
    FourBlanks(element);
    NothingInside("b");
    hide Denoted, Lead;
    assert "x    "[0] in "x    ";
  }

  lemma FourBlanks(element: Node)
    requires element.Element?
    ensures "x" + Lead(element, 1, false, 0, false) == "x    "
  {
  }

  lemma NothingInside(name: string)
    ensures Denoted(Element(name, [], [], true), 1, false) == Element(name, [], [], true)
  {
  }

  // Two texts become one.
  lemma JoinedExample()
    ensures Denoted(Element("a", [], [Text("x", false), Text("y", false)], false), 0, true).children == [Text("xy", false)]
  {
    PairDenotes("a", "x", Text("y", false), 0, true);
    hide Denoted;
    assert "x" + "y" == "xy" && "xy"[0] in "xy";
  }

  // Blank texts go.
  lemma BlankExample()
    ensures Denoted(Element("a", [], [Text(" ", false), Text("", false)], false), 0, true).children == []
  {
    PairDenotes("a", " ", Text("", false), 0, true);
    hide Denoted;
    assert " " + "" == " ";
  }
}
