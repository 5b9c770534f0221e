/**
  XMLPrinter: the streaming printer as a state machine, the class that runs it,
  and the text it leaves behind when it visits a tree.
 */
module Printer {
  import opened XmlChars
  import opened XmlTree
  import opened EntityDecoding
  import opened Escaping
  import opened Rendering

  /** The fields of XMLPrinter, with the printed characters in place of the file or buffer. */
  datatype State = State(out: string, stack: seq<string>, justOpened: bool, first: bool,
                         depth: int, textDepth: int, entities: bool)

  function Start(depth: int): State {
    State("", [], false, true, depth, -1, true)
  }

  function Put(st: State, s: string): State {
    st.(out := st.out + s)
  }

  function Written(st: State, s: string, restricted: bool): string {
    if st.entities then Escape(s, restricted) else s
  }

  function Seal(st: State): State {
    if st.justOpened then Put(st, ">").(justOpened := false) else st
  }

  function OpenElement(st: State, name: string, compact: bool): State {
    var sealed := Seal(st);
    var broken := if sealed.textDepth < 0 && !sealed.first && !compact then Put(sealed, "\n") else sealed;
    var spaced := if compact then broken else Put(broken, Indent(st.depth));
    Put(spaced, "<" + name).(stack := st.stack + [name], justOpened := true, first := false, depth := st.depth + 1)
  }

  function PushAttribute(st: State, name: string, value: string): State {
    Put(st, " " + name + "=\"" + Written(st, value, false) + "\"")
  }

  function CloseElement(st: State, compact: bool): State
    requires st.stack != []
  {
    var depth := st.depth - 1;
    var name := st.stack[|st.stack| - 1];
    var lead := if st.textDepth < 0 && !compact then "\n" + Indent(depth) else "";
    var closed := Put(st, if st.justOpened then "/>" else lead + "</" + name + ">");
    var ended := if depth == 0 && !compact then Put(closed, "\n") else closed;
    ended.(stack := st.stack[..|st.stack| - 1], justOpened := false, depth := depth,
           textDepth := if st.textDepth == depth then -1 else st.textDepth)
  }

  function PushText(st: State, text: string, cdata: bool): State {
    var sealed := Seal(st.(textDepth := st.depth - 1));
    Put(sealed, if cdata then "<![CDATA[" + text + "]]>" else Written(st, text, true))
  }

  /** PushComment, PushDeclaration and PushUnknown: a tag on a line of its own. */
  function PushTag(st: State, tag: string, compact: bool): State {
    var sealed := Seal(st);
    var lead := if sealed.textDepth < 0 && !sealed.first && !compact then "\n" + Indent(st.depth) else "";
    Put(sealed, lead + tag).(first := false)
  }

  function PushHeader(st: State, bom: bool, declaration: bool, compact: bool): State {
    var marked := if bom then Put(st, BOM) else st;
    if declaration then PushTag(marked, "<?" + "xml version=\"1.0\"" + "?>", compact) else marked
  }

  // ----- visiting a tree

  function PushAttributes(st: State, attributes: seq<Attribute>): State
    decreases |attributes|
  {
    if attributes == [] then st
    else PushAttributes(PushAttribute(st, attributes[0].name, attributes[0].value), attributes[1..])
  }

  lemma {:induction false} AttributesAppend(st: State, attributes: seq<Attribute>)
    requires st.entities
    ensures PushAttributes(st, attributes) == Put(st, RenderAttributes(attributes))
    decreases |attributes|
  {
    if attributes == [] {
      assert st.out + "" == st.out;
    } else {
      var head := " " + attributes[0].name + "=\"" + Escape(attributes[0].value, false) + "\"";
      AttributesAppend(PushAttribute(st, attributes[0].name, attributes[0].value), attributes[1..]);
      Assoc(st.out, head, RenderAttributes(attributes[1..]));
    }
  }

  lemma {:induction false} AttributesKeep(st: State, attributes: seq<Attribute>)
    ensures PushAttributes(st, attributes).stack == st.stack
    ensures PushAttributes(st, attributes).depth == st.depth
    decreases |attributes|
  {
    if attributes != [] {
      AttributesKeep(PushAttribute(st, attributes[0].name, attributes[0].value), attributes[1..]);
    }
  }

  /** What visiting a node leaves: the stack of open names and the depth are as before. */
  function VisitNode(st: State, node: Node, compact: bool): (r: State)
    ensures r.stack == st.stack && r.depth == st.depth
    decreases node, 0
  {
    match node
    case Element(name, attributes, children, _) =>
      var inside := OpenElement(st, name, compact);
      AttributesKeep(inside, attributes);
      CloseElement(VisitNodes(PushAttributes(inside, attributes), children, compact), compact)
    case Text(value, cdata) => PushText(st, value, cdata)
    case Comment(value) => PushTag(st, "<!--" + value + "-->", compact)
    case Declaration(value) => PushTag(st, "<?" + value + "?>", compact)
    case Unknown(value) => PushTag(st, "<!" + value + ">", compact)
  }

  function VisitNodes(st: State, nodes: seq<Node>, compact: bool): (r: State)
    ensures r.stack == st.stack && r.depth == st.depth
    decreases nodes, 1
  {
    if nodes == [] then st else VisitNodes(VisitNode(st, nodes[0], compact), nodes[1..], compact)
  }

  function VisitDocument(st: State, nodes: seq<Node>, bom: bool, entities: bool, compact: bool): State {
    VisitNodes(PushHeader(st.(entities := entities), bom, false, compact), nodes, compact)
  }

  // ----- the text that a visit leaves

  /** The printer behind `nodes`. */
  predicate Behind(st: State, nodes: seq<Node>, r: State, compact: bool) {
    && r.out == st.out + ((if st.justOpened && nodes != [] then ">" else "")
                          + RenderAll(nodes, st.depth, st.first, st.textDepth, compact))
    && r.justOpened == (st.justOpened && nodes == [])
    && r.entities
    && r.textDepth == TextDepthBehind(nodes, st.depth, st.textDepth)
    && r.first == (st.first && forall i | 0 <= i < |nodes| :: nodes[i].Text?)
  }

  /** The printer behind one node. */
  predicate BehindOne(st: State, node: Node, r: State, compact: bool) {
    && r.out == st.out + ((if st.justOpened then ">" else "") + Lead(node, st.depth, st.first, st.textDepth, compact)
                          + Render(node, st.depth, st.textDepth, compact) + Trail(node, st.depth, compact))
    && !r.justOpened && r.entities
    && r.textDepth == TextDepthAfter(node, st.depth, st.textDepth)
    && r.first == (st.first && node.Text?)
  }

  // Whatever the tree, visiting it appends its rendering.
  lemma {:induction false} VisitRenders(st: State, node: Node, compact: bool)
    requires st.entities
    ensures BehindOne(st, node, VisitNode(st, node, compact), compact)
    decreases node, 0
  {
    if node.Element? {
      ElementRenders(st, node, compact);
    } else if node.Text? {
      TextRenders(st, node, compact);
    } else {
      TagNodeRenders(st, node, compact);
    }
  }

  lemma TextRenders(st: State, node: Node, compact: bool)
    requires node.Text? && st.entities
    ensures BehindOne(st, node, VisitNode(st, node, compact), compact)
  {
    var seal := if st.justOpened then ">" else "";
    var core := Render(node, st.depth, st.textDepth, compact);
    assert core == if node.cdata then "<![CDATA[" + node.value + "]]>" else Written(st, node.value, true);
    hide Render, Escape;
    assert seal + "" + core + "" == seal + core;
    Assoc(st.out, seal, core);
    if !st.justOpened {
      assert st.out + "" == st.out;
    }
  }

  lemma TagNodeRenders(st: State, node: Node, compact: bool)
    requires !node.Element? && !node.Text? && st.entities
    ensures BehindOne(st, node, VisitNode(st, node, compact), compact)
  {
    var seal := if st.justOpened then ">" else "";
    var lead, core := Lead(node, st.depth, st.first, st.textDepth, compact), Render(node, st.depth, st.textDepth, compact);
    assert VisitNode(st, node, compact) == PushTag(st, core, compact);
    assert lead == if st.textDepth < 0 && !st.first && !compact then "\n" + Indent(st.depth) else "";
    TagRenders(st, core, lead, compact);
    hide Render, Lead, VisitNode;
    Assoc(seal, lead, core);
    assert seal + lead + core + "" == seal + lead + core;
  }

  lemma TagRenders(st: State, tag: string, lead: string, compact: bool)
    requires lead == if st.textDepth < 0 && !st.first && !compact then "\n" + Indent(st.depth) else ""
    ensures PushTag(st, tag, compact).out == st.out + ((if st.justOpened then ">" else "") + (lead + tag))
  {
    var seal := if st.justOpened then ">" else "";
    Assoc(st.out, seal, lead + tag);
    if !st.justOpened {
      assert st.out + "" == st.out;
    }
  }

  lemma {:induction false} ElementRenders(st: State, node: Node, compact: bool)
    requires node.Element? && st.entities
    ensures BehindOne(st, node, VisitNode(st, node, compact), compact)
    decreases node.children, 3
  {
    ElementVisits(st, node, compact);
    ElementOpens(st, node, compact);
    var text := Body(node, st.depth, st.textDepth, compact);
    assert Render(node, st.depth, st.textDepth, compact) == "<" + node.name + RenderAttributes(node.attributes) + text;
    hide VisitNode, Render, OpenElement, RenderAttributes, Body, Lead, TextDepthAfter;
    var lead := (if st.justOpened then ">" else "") + Lead(node, st.depth, st.first, st.textDepth, compact);
    ElementJoins(st.out, lead, "<" + node.name, RenderAttributes(node.attributes), text,
                 Trail(node, st.depth, compact));
  }

  lemma {:induction false} ElementVisits(st: State, node: Node, compact: bool)
    requires node.Element? && st.entities
    ensures var r := VisitNode(st, node, compact);
            && r.out == OpenElement(st, node.name, compact).out + RenderAttributes(node.attributes)
                        + Body(node, st.depth, st.textDepth, compact) + Trail(node, st.depth, compact)
            && !r.justOpened && r.entities && !r.first && r.textDepth == TextDepthAfter(node, st.depth, st.textDepth)
    decreases node.children, 2
  {
    hide *;
    var before := Entered(st, node, compact);
    EnteredState(st, node, compact);
    VisitNodesRenders(before, node.children, compact);
    ElementLeft(st, node, compact);
    ElementCloses(before, node, VisitNodes(before, node.children, compact), compact);
  }

  /** The printer behind the attributes of an element. */
  function Entered(st: State, node: Node, compact: bool): State
    requires node.Element?
  {
    Put(OpenElement(st, node.name, compact), RenderAttributes(node.attributes))
  }

  lemma EnteredState(st: State, node: Node, compact: bool)
    requires node.Element? && st.entities
    ensures var before := Entered(st, node, compact);
            && before.out == OpenElement(st, node.name, compact).out + RenderAttributes(node.attributes)
            && before.depth == st.depth + 1 && before.textDepth == st.textDepth && before.entities
            && before.justOpened && !before.first && before.stack == st.stack + [node.name]
  {
    hide RenderAttributes, Indent;
  }

  lemma ElementLeft(st: State, node: Node, compact: bool)
    requires node.Element? && st.entities
    ensures var after := VisitNodes(Entered(st, node, compact), node.children, compact);
            after.stack == st.stack + [node.name] && VisitNode(st, node, compact) == CloseElement(after, compact)
  {
    var inside := OpenElement(st, node.name, compact);
    AttributesAppend(inside, node.attributes);
    EnteredState(st, node, compact);
    hide VisitNodes, RenderAttributes, PushAttributes, OpenElement, CloseElement;
  }

  /** What follows the attributes of an element. */
  function Body(node: Node, depth: int, textDepth: int, compact: bool): string
    requires node.Element?
  {
    if node.children == [] then "/>"
    else ">" + RenderAll(node.children, depth + 1, false, textDepth, compact)
         + CloseLead(depth, TextDepthBehind(node.children, depth + 1, textDepth), compact) + "</" + node.name + ">"
  }

  lemma ElementOpens(st: State, node: Node, compact: bool)
    requires node.Element?
    ensures OpenElement(st, node.name, compact).out
         == st.out + ((if st.justOpened then ">" else "") + Lead(node, st.depth, st.first, st.textDepth, compact)) + ("<" + node.name)
  {
    var seal := if st.justOpened then ">" else "";
    var line := if st.textDepth < 0 && !st.first && !compact then "\n" else "";
    var space := if compact then "" else Indent(st.depth);
    assert Lead(node, st.depth, st.first, st.textDepth, compact) == line + space;
    Assoc(st.out, seal, line + space);
    Assoc(st.out + seal, line, space);
    if !st.justOpened {
      assert st.out + "" == st.out;
    }
    assert st.out + seal + "" == st.out + seal;
    assert st.out + seal + line + "" == st.out + seal + line;
  }

  lemma ElementCloses(before: State, node: Node, after: State, compact: bool)
    requires node.Element? && before.stack != [] && before.stack[|before.stack| - 1] == node.name
    requires before.justOpened && !before.first
    requires Behind(before, node.children, after, compact) && after.stack == before.stack && after.depth == before.depth
    ensures var r, depth := CloseElement(after, compact), before.depth - 1;
            && r.out == before.out + Body(node, depth, before.textDepth, compact) + Trail(node, depth, compact)
            && !r.justOpened && r.entities && !r.first
            && r.textDepth == TextDepthAfter(node, depth, before.textDepth)
  {
    var depth := before.depth - 1;
    var lead := CloseLead(depth, after.textDepth, compact);
    var kids := RenderAll(node.children, before.depth, false, before.textDepth, compact);
    var body, out := Body(node, depth, before.textDepth, compact), before.out;
    var close := "</" + node.name + ">";
    if node.children == [] {
      assert out + ("" + kids) + "/>" == out + "/>";
    } else {
      assert lead + "</" + node.name + ">" == lead + close;
      BodyJoins(out, kids, lead, node.name);
    }
    assert out + body + "" == out + body;
  }

  lemma BodyJoins(out: string, kids: string, lead: string, name: string)
    ensures out + (">" + kids) + (lead + "</" + name + ">") == out + (">" + kids + lead + "</" + name + ">")
  {
    var close := "</" + name + ">";
    assert ">" + kids + lead + "</" + name + ">" == ">" + kids + lead + close;
    assert lead + "</" + name + ">" == lead + close;
    Assoc(out, ">" + kids, lead + close);
    Assoc(">" + kids, lead, close);
  }

  lemma ElementJoins(out: string, lead: string, tag: string, attributes: string, text: string, trail: string)
    ensures out + lead + tag + attributes + text + trail == out + (lead + (tag + attributes + text) + trail)
  {
    Assoc(out + lead, tag, attributes);
    Assoc(out + lead, tag + attributes, text);
    Assoc(out, lead, tag + attributes + text);
    Assoc(out, lead + (tag + attributes + text), trail);
  }

  lemma {:induction false} VisitNodesRenders(st: State, nodes: seq<Node>, compact: bool)
    requires st.entities
    ensures Behind(st, nodes, VisitNodes(st, nodes, compact), compact)
    decreases nodes, 1
  {
    if nodes == [] {
      assert st.out + ("" + "") == st.out;
    } else {
      var n, more := nodes[0], nodes[1..];
      var mid := VisitNode(st, n, compact);
      VisitRenders(st, n, compact);
      VisitNodesRenders(mid, more, compact);
      ListRenders(st, nodes, mid, VisitNodes(mid, more, compact), compact);
    }
  }

  lemma ListRenders(st: State, nodes: seq<Node>, mid: State, r: State, compact: bool)
    requires nodes != [] && BehindOne(st, nodes[0], mid, compact) && Behind(mid, nodes[1..], r, compact)
    requires mid.depth == st.depth
    ensures Behind(st, nodes, r, compact)
  {
    var n, more := nodes[0], nodes[1..];
    hide Lead, Render, Trail;
    ListJoins(st.out, if st.justOpened then ">" else "", Lead(n, st.depth, st.first, st.textDepth, compact),
              Render(n, st.depth, st.textDepth, compact), Trail(n, st.depth, compact),
              RenderAll(more, st.depth, mid.first, mid.textDepth, compact));
    assert (forall i | 0 <= i < |nodes| :: nodes[i].Text?) <==> n.Text? && forall i | 0 <= i < |more| :: more[i].Text? by {
      assert forall i | 0 <= i < |more| :: more[i] == nodes[i + 1];
      assert forall i | 1 <= i < |nodes| :: nodes[i] == more[i - 1];
    }
  }

  lemma ListJoins(out: string, seal: string, lead: string, core: string, trail: string, more: string)
    ensures out + (seal + lead + core + trail) + ("" + more) == out + (seal + (lead + core + trail + more))
  {
    Assoc(seal, lead, core);
    Assoc(seal, lead + core, trail);
    assert "" + more == more;
    Assoc(out, seal + (lead + core + trail), more);
    Assoc(seal, lead + core + trail, more);
  }
}
