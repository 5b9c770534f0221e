/**
  How an indented document is laid out: one line for each tag that has markup inside, and for each other node,
  indented by four blanks for each level.
 */
module Layout {
  import opened XmlChars
  import opened XmlTree
  import opened Escaping
  import opened Rendering

  function Margin(depth: nat): string {
    seq(4 * depth, _ => ' ')
  }

  /** Text, and behind it text and leaves without elements. */
  predicate Inline(nodes: seq<Node>) {
    nodes != [] && nodes[0].Text? && NoElements(nodes)
  }

  predicate NoElements(nodes: seq<Node>) {
    forall i | 0 <= i < |nodes| :: !nodes[i].Element?
  }

  /** No text stands beside elements, and none behind a leaf that starts a line. */
  predicate Unmixed(node: Node)
    decreases node, 0
  {
    !node.Text? && (node.Element? ==> Inline(node.children) || UnmixedAll(node.children))
  }

  predicate UnmixedAll(nodes: seq<Node>)
    decreases nodes, 1
  {
    nodes != [] ==> Unmixed(nodes[0]) && UnmixedAll(nodes[1..])
  }

  /** The text of a comment, declaration or unknown. */
  function Leaf(node: Node): string
    requires !node.Element? && !node.Text?
  {
    if node.Comment? then "<!--" + node.value + "-->"
    else if node.Declaration? then "<?" + node.value + "?>"
    else "<!" + node.value + ">"
  }

  /** The tags and texts of a tree, with nothing between them. */
  function Tight(node: Node): string
    decreases node, 0
  {
    match node
    case Element(name, attributes, children, _) =>
      if children == [] then "<" + name + RenderAttributes(attributes) + "/>"
      else "<" + name + RenderAttributes(attributes) + ">" + TightAll(children) + "</" + name + ">"
    case Text(value, cdata) => if cdata then "<![CDATA[" + value + "]]>" else Escape(value, true)
    case _ => Leaf(node)
  }

  function TightAll(nodes: seq<Node>): string
    decreases nodes, 1
  {
    if nodes == [] then "" else Tight(nodes[0]) + TightAll(nodes[1..])
  }

  /**
    The lines of a node. What stands first in the file and is no element has no margin, and behind an element at
    depth 0 comes an empty line.
   */
  function Lines(node: Node, depth: nat, first: bool): (lines: seq<string>)
    requires Unmixed(node)
    ensures lines != []
    decreases node, 0
  {
    if !node.Element? then [(if first then "" else Margin(depth)) + Leaf(node)]
    else
      var tag := node.name + RenderAttributes(node.attributes);
      var inside :=
        if node.children == [] then [Margin(depth) + "<" + tag + "/>"]
        else if Inline(node.children) then [Margin(depth) + "<" + tag + ">" + TightAll(node.children) + "</" + node.name + ">"]
        else [Margin(depth) + "<" + tag + ">"] + LinesAll(node.children, depth + 1, false) + [Margin(depth) + "</" + node.name + ">"];
      inside + if depth == 0 then [""] else []
  }

  function LinesAll(nodes: seq<Node>, depth: nat, first: bool): seq<string>
    requires UnmixedAll(nodes)
    decreases nodes, 1
  {
    if nodes == [] then [] else Lines(nodes[0], depth, first) + LinesAll(nodes[1..], depth, false)
  }

  /** Each line behind a line feed. */
  function Below(lines: seq<string>): string {
    if lines == [] then "" else "\n" + lines[0] + Below(lines[1..])
  }

  function Joined(lines: seq<string>): string {
    if lines == [] then "" else lines[0] + Below(lines[1..])
  }

  lemma {:induction false} BelowJoins(a: seq<string>, b: seq<string>)
    ensures Below(a + b) == Below(a) + Below(b)
    decreases |a|
  {
    if a == [] {
      assert a + b == b;
      assert "" + Below(b) == Below(b);
    } else {
      assert (a + b)[0] == a[0] && (a + b)[1..] == a[1..] + b;
      BelowJoins(a[1..], b);
      Assoc("\n" + a[0], Below(a[1..]), Below(b));
    }
  }

  lemma BelowOne(line: string)
    ensures Below([line]) == "\n" + line
  {
    assert [line][1..] == [];
    assert "\n" + line + "" == "\n" + line;
  }

  lemma {:induction false} MarginIsIndent(depth: nat)
    ensures Margin(depth) == Indent(depth)
    decreases depth
  {
    if depth > 0 {
      MarginIsIndent(depth - 1);
      assert Margin(depth) == "    " + Margin(depth - 1);
    }
  }

  // ----- elements with text

  lemma {:induction false} InlineRenders(nodes: seq<Node>, depth: nat, textDepth: int)
    requires NoElements(nodes) && depth >= 1 && (textDepth == depth - 1 || (nodes != [] && nodes[0].Text?))
    ensures RenderAll(nodes, depth, false, textDepth, false) == TightAll(nodes)
    ensures nodes != [] ==> TextDepthBehind(nodes, depth, textDepth) == depth - 1
    decreases |nodes|
  {
    if nodes != [] {
      InlineRenders(nodes[1..], depth, depth - 1);
      OneInline(nodes[0], depth, textDepth);
      hide Lead, Render, Trail, Tight;
      if nodes[1..] == [] {
        assert TextDepthBehind(nodes[1..], depth, depth - 1) == depth - 1;
      }
    }
  }

  lemma OneInline(node: Node, depth: nat, textDepth: int)
    requires !node.Element? && depth >= 1 && (textDepth == depth - 1 || node.Text?)
    ensures Lead(node, depth, false, textDepth, false) + Render(node, depth, textDepth, false) + Trail(node, depth, false) == Tight(node)
    ensures TextDepthAfter(node, depth, textDepth) == depth - 1
  {
    var s := Render(node, depth, textDepth, false);
    assert s == Tight(node);
    assert "" + "" + s + "" == s && "" + s + "" == s;
  }

  // ----- any node

  // Outside of text: the node is printed as its lines, and the printer is outside of text again.
  lemma {:induction false} NodeIsLines(node: Node, depth: nat, first: bool)
    requires Unmixed(node)
    ensures Lead(node, depth, first, -1, false) + Render(node, depth, -1, false) + Trail(node, depth, false)
         == if first then Joined(Lines(node, depth, first)) else Below(Lines(node, depth, first))
    ensures TextDepthAfter(node, depth, -1) == -1
    decreases node, 0
  {
    hide *;
    MarginIsIndent(depth);
    UnmixedKids(node);
    if !node.Element? {
      LeafIsLine(node, depth, first);
    } else if node.children == [] {
      EmptyElement(node, depth, first);
    } else if Inline(node.children) {
      InlineRenders(node.children, depth + 1, -1);
      TextElement(node, depth, first);
    } else {
      AllAreLines(node.children, depth + 1);
      MarkupElement(node, depth, first);
    }
  }

  lemma UnmixedKids(node: Node)
    requires Unmixed(node)
    ensures !node.Text? && (node.Element? && !Inline(node.children) ==> UnmixedAll(node.children))
    ensures node.Element? && Inline(node.children) ==> NoElements(node.children) && node.children != [] && node.children[0].Text?
  {
  }

  lemma LeafIsLine(node: Node, depth: nat, first: bool)
    requires !node.Element? && !node.Text? && Margin(depth) == Indent(depth)
    ensures Lead(node, depth, first, -1, false) + Render(node, depth, -1, false) + Trail(node, depth, false)
         == if first then Joined(Lines(node, depth, first)) else Below(Lines(node, depth, first))
    ensures TextDepthAfter(node, depth, -1) == -1
  {
    hide Margin, Indent;
    var text := Leaf(node);
    assert Render(node, depth, -1, false) == text;
    BelowOne(Margin(depth) + text);
    assert "" + "" + text + "" == "" + text + "";
    assert "\n" + Indent(depth) + text + "" == "\n" + (Indent(depth) + text);
  }

  /** What the printer does around the text of an element. */
  lemma AroundElement(node: Node, depth: nat, first: bool, body: string, lines: seq<string>)
    requires node.Element? && Margin(depth) == Indent(depth) && Render(node, depth, -1, false) == body && lines != []
    requires Indent(depth) + body == Joined(lines)
    ensures var all := lines + (if depth == 0 then [""] else []);
            Lead(node, depth, first, -1, false) + body + Trail(node, depth, false)
            == if first then Joined(all) else Below(all)
  {
    hide Margin, Indent, Render;
    var all := lines + (if depth == 0 then [""] else []);
    BelowOne("");
    BelowJoins(lines[1..], if depth == 0 then [""] else []);
    assert all[0] == lines[0] && all[1..] == lines[1..] + (if depth == 0 then [""] else []);
    var trail := if depth == 0 then "\n" else "";
    assert "\n" + "" == "\n";
    assert Trail(node, depth, false) == trail == Below(if depth == 0 then [""] else []);
    Assoc(lines[0], Below(lines[1..]), trail);
    assert Joined(all) == Joined(lines) + trail;
    Assoc("\n", lines[0], Below(all[1..]));
    assert Below(all) == "\n" + Joined(all);
    assert "" + Indent(depth) == Indent(depth);
    Assoc("\n", Indent(depth), body);
    Assoc("\n", Indent(depth) + body, trail);
  }

  lemma EmptyElement(node: Node, depth: nat, first: bool)
    requires node.Element? && node.children == [] && Margin(depth) == Indent(depth)
    ensures Lead(node, depth, first, -1, false) + Render(node, depth, -1, false) + Trail(node, depth, false)
         == if first then Joined(Lines(node, depth, first)) else Below(Lines(node, depth, first))
    ensures TextDepthAfter(node, depth, -1) == -1
  {
    var tag := node.name + RenderAttributes(node.attributes);
    var body := Render(node, depth, -1, false);
    var line := Margin(depth) + "<" + tag + "/>";
    hide Margin, Indent, RenderAttributes;
    assert body == "<" + tag + "/>";
    assert Joined([line]) == line by { assert [line][1..] == []; }
    assert Indent(depth) + ("<" + tag + "/>") == line;
    AroundElement(node, depth, first, body, [line]);
  }

  lemma TextElement(node: Node, depth: nat, first: bool)
    requires node.Element? && node.children != [] && Inline(node.children) && Margin(depth) == Indent(depth)
    requires RenderAll(node.children, depth + 1, false, -1, false) == TightAll(node.children)
    requires TextDepthBehind(node.children, depth + 1, -1) == depth
    ensures Lead(node, depth, first, -1, false) + Render(node, depth, -1, false) + Trail(node, depth, false)
         == if first then Joined(Lines(node, depth, first)) else Below(Lines(node, depth, first))
    ensures TextDepthAfter(node, depth, -1) == -1
  {
    var tag, text := node.name + RenderAttributes(node.attributes), TightAll(node.children);
    var line := Margin(depth) + "<" + tag + ">" + text + "</" + node.name + ">";
    TextRenders(node, depth);
    TextLines(node, depth, first);
    hide *;
    OneLine(line);
    StartTag(Margin(depth), tag, text, "</" + node.name + ">");
    AroundElement(node, depth, first, Render(node, depth, -1, false), [line]);
  }

  lemma OneLine(line: string)
    ensures Joined([line]) == line
  {
    assert [line][1..] == [];
    assert line + "" == line;
  }

  lemma StartTag(margin: string, tag: string, body: string, end: string)
    ensures margin + ("<" + tag + (">" + body + end)) == margin + "<" + tag + ">" + body + end
  {
  }

  lemma TextRenders(node: Node, depth: nat)
    requires node.Element? && node.children != []
    requires TextDepthBehind(node.children, depth + 1, -1) == depth
    ensures Render(node, depth, -1, false)
         == "<" + (node.name + RenderAttributes(node.attributes))
            + (">" + RenderAll(node.children, depth + 1, false, -1, false) + ("</" + node.name + ">"))
    ensures TextDepthAfter(node, depth, -1) == -1
  {
    hide RenderAttributes, RenderAll, TextDepthBehind;
    var inner := RenderAll(node.children, depth + 1, false, -1, false);
    assert CloseLead(depth, depth, false) == "";
    assert ">" + inner + "" + "</" + node.name + ">" == ">" + inner + ("</" + node.name + ">");
    assert "<" + node.name + RenderAttributes(node.attributes) == "<" + (node.name + RenderAttributes(node.attributes));
  }

  lemma TextLines(node: Node, depth: nat, first: bool)
    requires node.Element? && node.children != [] && Inline(node.children)
    ensures Unmixed(node)
    ensures Lines(node, depth, first)
         == [Margin(depth) + "<" + (node.name + RenderAttributes(node.attributes)) + ">" + TightAll(node.children)
             + ("</" + node.name + ">")] + if depth == 0 then [""] else []
  {
    hide RenderAttributes, TightAll, Margin;
    var head := Margin(depth) + "<" + (node.name + RenderAttributes(node.attributes)) + ">" + TightAll(node.children);
    assert head + "</" + node.name + ">" == head + ("</" + node.name + ">");
  }

  lemma MarkupElement(node: Node, depth: nat, first: bool)
    requires node.Element? && node.children != [] && !Inline(node.children) && UnmixedAll(node.children)
    requires Margin(depth) == Indent(depth)
    requires RenderAll(node.children, depth + 1, false, -1, false) == Below(LinesAll(node.children, depth + 1, false))
    requires TextDepthBehind(node.children, depth + 1, -1) == -1
    ensures Lead(node, depth, first, -1, false) + Render(node, depth, -1, false) + Trail(node, depth, false)
         == if first then Joined(Lines(node, depth, first)) else Below(Lines(node, depth, first))
    ensures TextDepthAfter(node, depth, -1) == -1
  {
    var tag, inner := node.name + RenderAttributes(node.attributes), LinesAll(node.children, depth + 1, false);
    MarkupRenders(node, depth);
    MarkupLines(node, depth, first);
    hide *;
    TagsAround(Margin(depth), tag, inner, "</" + node.name + ">");
    AroundElement(node, depth, first, Render(node, depth, -1, false),
                  [Margin(depth) + "<" + tag + ">"] + inner + [Margin(depth) + ("</" + node.name + ">")]);
  }

  lemma TagsAround(margin: string, tag: string, inner: seq<string>, end: string)
    ensures margin + ("<" + tag + (">" + Below(inner) + ("\n" + margin + end)))
         == Joined([margin + "<" + tag + ">"] + inner + [margin + end])
  {
    var start := margin + "<" + tag + ">";
    BelowJoins(inner, [margin + end]);
    BelowOne(margin + end);
    JoinedFrom(start, inner + [margin + end]);
    assert [start] + (inner + [margin + end]) == [start] + inner + [margin + end];
    hide *;
    Assoc("\n", margin, end);
    LastTag(margin, tag, Below(inner), "\n" + margin + end);
  }

  lemma JoinedFrom(line: string, more: seq<string>)
    ensures Joined([line] + more) == line + Below(more)
  {
    assert ([line] + more)[1..] == more;
  }

  lemma LastTag(margin: string, tag: string, body: string, end: string)
    ensures margin + ("<" + tag + (">" + body + end)) == margin + "<" + tag + ">" + (body + end)
  {
  }

  lemma MarkupRenders(node: Node, depth: nat)
    requires node.Element? && node.children != [] && TextDepthBehind(node.children, depth + 1, -1) == -1
    requires Margin(depth) == Indent(depth)
    ensures Render(node, depth, -1, false)
         == "<" + (node.name + RenderAttributes(node.attributes))
            + (">" + RenderAll(node.children, depth + 1, false, -1, false) + ("\n" + Margin(depth) + ("</" + node.name + ">")))
    ensures TextDepthAfter(node, depth, -1) == -1
  {
    hide RenderAttributes, RenderAll, TextDepthBehind, Margin, Indent;
    var inner, lead := RenderAll(node.children, depth + 1, false, -1, false), "\n" + Indent(depth);
    assert CloseLead(depth, -1, false) == lead;
    assert ">" + inner + lead + "</" + node.name + ">" == ">" + inner + (lead + ("</" + node.name + ">"));
    assert "<" + node.name + RenderAttributes(node.attributes) == "<" + (node.name + RenderAttributes(node.attributes));
  }

  lemma MarkupLines(node: Node, depth: nat, first: bool)
    requires node.Element? && node.children != [] && !Inline(node.children) && UnmixedAll(node.children)
    ensures Unmixed(node)
    ensures Lines(node, depth, first)
         == [Margin(depth) + "<" + (node.name + RenderAttributes(node.attributes)) + ">"] + LinesAll(node.children, depth + 1, false)
            + [Margin(depth) + ("</" + node.name + ">")] + if depth == 0 then [""] else []
  {
    hide RenderAttributes, LinesAll, Margin, Inline, UnmixedAll;
    assert Margin(depth) + "</" + node.name + ">" == Margin(depth) + ("</" + node.name + ">");
  }

  lemma {:induction false} AllAreLines(nodes: seq<Node>, depth: nat)
    requires UnmixedAll(nodes)
    ensures RenderAll(nodes, depth, false, -1, false) == Below(LinesAll(nodes, depth, false))
    ensures TextDepthBehind(nodes, depth, -1) == -1
    decreases nodes, 1
  {
    if nodes != [] {
      NodeIsLines(nodes[0], depth, false);
      AllAreLines(nodes[1..], depth);
      BelowJoins(Lines(nodes[0], depth, false), LinesAll(nodes[1..], depth, false));
      hide Lead, Render, Trail, Below, Lines;
    }
  }

  // ----- documents

  // An indented document without mixed content is its lines, joined by line feeds.
  lemma IndentedIsLines(nodes: seq<Node>, depth: nat)
    requires UnmixedAll(nodes)
    ensures RenderAll(nodes, depth, true, -1, false) == Joined(LinesAll(nodes, depth, true))
  {
    if nodes != [] {
      var a, b := Lines(nodes[0], depth, true), LinesAll(nodes[1..], depth, false);
      NodeIsLines(nodes[0], depth, true);
      AllAreLines(nodes[1..], depth);
      NotText(nodes[0]);
      JoinedMore(a, b);
      hide Lead, Render, Trail, Below, Lines, Joined, TextDepthAfter, Unmixed, UnmixedAll;
      assert LinesAll(nodes, depth, true) == a + b;
    }
  }

  lemma JoinedMore(a: seq<string>, b: seq<string>)
    requires a != []
    ensures Joined(a + b) == Joined(a) + Below(b)
  {
    BelowJoins(a[1..], b);
    assert (a + b)[0] == a[0] && (a + b)[1..] == a[1..] + b;
    Assoc(a[0], Below(a[1..]), Below(b));
    hide Below;
  }

  lemma NotText(node: Node)
    requires Unmixed(node)
    ensures !node.Text?
  {
  }

  // ----- compact documents

  lemma {:induction false} CompactNode(node: Node, depth: int, textDepth: int)
    ensures Render(node, depth, textDepth, true) == Tight(node)
    decreases node, 0
  {
    if node.Element? && node.children != [] {
      CompactAll(node.children, depth + 1, false, textDepth);
      var head, inner, end := "<" + node.name + RenderAttributes(node.attributes), TightAll(node.children), "</" + node.name + ">";
      assert head + (">" + inner + "" + "</" + node.name + ">") == head + ">" + inner + "</" + node.name + ">";
    }
  }

  // A compact document is its tags and texts one after the other.
  lemma {:induction false} CompactAll(nodes: seq<Node>, depth: int, first: bool, textDepth: int)
    ensures RenderAll(nodes, depth, first, textDepth, true) == TightAll(nodes)
    decreases nodes, 1
  {
    if nodes != [] {
      CompactNode(nodes[0], depth, textDepth);
      CompactAll(nodes[1..], depth, first && nodes[0].Text?, TextDepthAfter(nodes[0], depth, textDepth));
      NothingAround(nodes[0], depth, first, textDepth);
      hide Render, Lead, Trail, Tight, TextDepthAfter;
      assert "" + Tight(nodes[0]) + "" == Tight(nodes[0]);
    }
  }

  lemma NothingAround(node: Node, depth: int, first: bool, textDepth: int)
    ensures Lead(node, depth, first, textDepth, true) == "" && Trail(node, depth, true) == ""
  {
  }
}
