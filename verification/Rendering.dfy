/**
  The text of a document, compact or indented, as a function of its tree.
 */
module Rendering {
  import opened XmlChars
  import opened XmlTree
  import opened EntityDecoding
  import opened Escaping

  function Indent(depth: int): string {
    if depth <= 0 then "" else "    " + Indent(depth - 1)
  }

  function RenderAttributes(attributes: seq<Attribute>): string {
    if attributes == [] then ""
    else " " + attributes[0].name + "=\"" + Escape(attributes[0].value, false) + "\"" + RenderAttributes(attributes[1..])
  }

  /**
    The printer's text depth behind a node: the depth of the element whose text it was last in, or -1
    outside of text. Closing an element inside ends the text of the element around it too.
   */
  function TextDepthAfter(node: Node, depth: int, textDepth: int): int
    decreases node, 0
  {
    match node
    case Element(_, _, children, _) =>
      var inside := TextDepthBehind(children, depth + 1, textDepth);
      if inside == depth then -1 else inside
    case Text(_, _) => depth - 1
    case _ => textDepth
  }

  function TextDepthBehind(nodes: seq<Node>, depth: int, textDepth: int): int
    decreases nodes, 1
  {
    if nodes == [] then textDepth else TextDepthBehind(nodes[1..], depth, TextDepthAfter(nodes[0], depth, textDepth))
  }

  /** The white space in front of a node; `first` while nothing but text was written. Elements are indented inside text, too. */
  function Lead(node: Node, depth: int, first: bool, textDepth: int, compact: bool): string {
    if compact || node.Text? then ""
    else (if textDepth < 0 && !first then "\n" else "")
         + (if node.Element? || (textDepth < 0 && !first) then Indent(depth) else "")
  }

  /** The white space in front of a closing tag. */
  function CloseLead(depth: int, textDepth: int, compact: bool): string {
    if compact || textDepth >= 0 then "" else "\n" + Indent(depth)
  }

  function Render(node: Node, depth: int, textDepth: int, compact: bool): string
    decreases node, 0
  {
    match node
    case Element(name, attributes, children, _) =>
      "<" + name + RenderAttributes(attributes)
      + (if children == [] then "/>"
         else ">" + RenderAll(children, depth + 1, false, textDepth, compact)
              + CloseLead(depth, TextDepthBehind(children, depth + 1, textDepth), compact) + "</" + name + ">")
    case Text(value, cdata) => if cdata then "<![CDATA[" + value + "]]>" else Escape(value, true)
    case Comment(value) => "<!--" + value + "-->"
    case Declaration(value) => "<?" + value + "?>"
    case Unknown(value) => "<!" + value + ">"
  }

  /** The line end behind an element at depth 0. */
  function Trail(node: Node, depth: int, compact: bool): string {
    if node.Element? && depth == 0 && !compact then "\n" else ""
  }

  function RenderAll(nodes: seq<Node>, depth: int, first: bool, textDepth: int, compact: bool): string
    decreases nodes, 1
  {
    if nodes == [] then ""
    else
      Lead(nodes[0], depth, first, textDepth, compact) + Render(nodes[0], depth, textDepth, compact)
      + Trail(nodes[0], depth, compact)
      + RenderAll(nodes[1..], depth, first && nodes[0].Text?, TextDepthAfter(nodes[0], depth, textDepth), compact)
  }

  // ----- which trees are printed so that they can be read back

  predicate Occurs(tag: string, s: string) {
    exists i | 0 <= i <= |s| :: tag <= s[i..]
  }

  predicate PlainText(node: Node) {
    node.Text? && !node.cdata
  }

  predicate PrintableAttributes(attributes: seq<Attribute>) {
    && DistinctNames(attributes)
    && forall a <- attributes :: IsName(a.name) && NUL !in a.value
  }

  /** Its tags can be read: legal names, and no early end of what is printed as it is. Texts may be anything. */
  predicate Printable(node: Node)
    decreases node, 0
  {
    match node
    case Element(name, attributes, children, _) =>
      IsName(name) && PrintableAttributes(attributes) && PrintableAll(children)
    case Text(value, cdata) => NUL !in value && (cdata ==> !Occurs("]]>", value))
    case Comment(value) => NUL !in value && !Occurs("-->", value)
    case Declaration(value) => NUL !in value && !Occurs("?>", value)
    case Unknown(value) => NUL !in value && '>' !in value && !("--" <= value) && !("[CDATA[" <= value)
  }

  predicate PrintableAll(nodes: seq<Node>)
    decreases nodes, 1
  {
    forall i | 0 <= i < |nodes| :: Printable(nodes[i])
  }

  // ----- what reading back gives

  /** The tree as the parser keeps it: texts still escaped. */
  function Raw(node: Node): Node
    decreases node, 0
  {
    match node
    case Element(name, attributes, children, closed) =>
      Element(name, RawAttributes(attributes), RawAll(children), closed)
    case Text(value, cdata) => if cdata then node else Text(Escape(value, true), false)
    case _ => node
  }

  function RawAttributes(attributes: seq<Attribute>): (r: seq<Attribute>)
    ensures |r| == |attributes|
  {
    if attributes == [] then []
    else [Attribute(attributes[0].name, Escape(attributes[0].value, false))] + RawAttributes(attributes[1..])
  }

  function RawAll(nodes: seq<Node>): (r: seq<Node>)
    ensures |r| == |nodes|
    decreases nodes, 1
  {
    if nodes == [] then [] else [Raw(nodes[0])] + RawAll(nodes[1..])
  }

  /** The tree with every text's line ends normalised. */
  function Normal(node: Node): Node
    decreases node, 0
  {
    match node
    case Element(name, attributes, children, closed) =>
      Element(name, NormalAttributes(attributes), NormalAll(children), closed)
    case Text(value, cdata) => Text(Normalize(value), cdata)
    case Comment(value) => Comment(Normalize(value))
    case Declaration(value) => Declaration(Normalize(value))
    case Unknown(value) => Unknown(Normalize(value))
  }

  function NormalAttributes(attributes: seq<Attribute>): (r: seq<Attribute>)
    ensures |r| == |attributes|
  {
    if attributes == [] then []
    else [Attribute(attributes[0].name, Normalize(attributes[0].value))] + NormalAttributes(attributes[1..])
  }

  function NormalAll(nodes: seq<Node>): (r: seq<Node>)
    ensures |r| == |nodes|
    decreases nodes, 1
  {
    if nodes == [] then [] else [Normal(nodes[0])] + NormalAll(nodes[1..])
  }

  /** GetStr on the raw text shows `text`. */
  predicate Shows(raw: string, text: string, f: Flags) {
    Decode(raw, f) == Decoded(text) && NUL !in text
  }

  /** What the accessors of a parsed tree return, node by node. */
  predicate ShowsAs(raw: Node, seen: Node)
    decreases raw, 0
  {
    match raw
    case Element(name, attributes, children, closed) =>
      && seen.Element? && name == seen.name && closed == seen.closed
      && |attributes| == |seen.attributes|
      && (forall i | 0 <= i < |attributes| ::
            attributes[i].name == seen.attributes[i].name
            && Shows(attributes[i].value, seen.attributes[i].value, ATTRIBUTE_VALUE))
      && AllShowAs(children, seen.children)
    case Text(value, cdata) =>
      seen.Text? && cdata == seen.cdata && Shows(value, seen.value, if cdata then COMMENT else TEXT_ELEMENT)
    case Comment(value) => seen.Comment? && Shows(value, seen.value, COMMENT)
    case Declaration(value) => seen.Declaration? && Shows(value, seen.value, COMMENT)
    case Unknown(value) => seen.Unknown? && Shows(value, seen.value, COMMENT)
  }

  predicate AllShowAs(raws: seq<Node>, seen: seq<Node>)
    decreases raws, 1
  {
    |raws| == |seen| && forall i | 0 <= i < |raws| :: ShowsAs(raws[i], seen[i])
  }

  lemma ShowsEscaped(s: string, restricted: bool, f: Flags)
    requires NUL !in s && f.entities && f.newlines
    ensures Shows(Escape(s, restricted), Normalize(s), f)
  {
    DecodeEscape(s, restricted, f);
    NormalizeNoCR(s);
  }

  lemma ShowsPlain(s: string)
    requires NUL !in s
    ensures Shows(s, Normalize(s), COMMENT)
  {
    DecodeComment(s);
    NormalizeNoCR(s);
  }

  // The kept tree shows every value of the printed one, line ends normalised.
  lemma {:induction false} RawShowsNormal(node: Node)
    requires Printable(node)
    ensures ShowsAs(Raw(node), Normal(node))
    decreases node, 0
  {
    match node
    case Element(_, attributes, children, _) =>
      forall i | 0 <= i < |attributes|
        ensures var raw, seen := RawAttributes(attributes)[i], NormalAttributes(attributes)[i];
                raw.name == seen.name && Shows(raw.value, seen.value, ATTRIBUTE_VALUE)
      {
        assert attributes[i] in attributes;
        RawAttributesAt(attributes, i);
        NormalAttributesAt(attributes, i);
        ShowsEscaped(attributes[i].value, false, ATTRIBUTE_VALUE);
      }
      RawAllShowNormal(children);
    case Text(value, cdata) =>
      if cdata {
        ShowsPlain(value);
      } else {
        ShowsEscaped(value, true, TEXT_ELEMENT);
      }
    case _ => ShowsPlain(node.value);
  }

  lemma {:induction false} RawAllShowNormal(nodes: seq<Node>)
    requires forall i | 0 <= i < |nodes| :: Printable(nodes[i])
    ensures AllShowAs(RawAll(nodes), NormalAll(nodes))
    decreases nodes, 1
  {
    forall i | 0 <= i < |nodes|
      ensures ShowsAs(RawAll(nodes)[i], NormalAll(nodes)[i])
    {
      RawShowsNormal(nodes[i]);
      RawAllAt(nodes, i);
      NormalAllAt(nodes, i);
    }
  }

  lemma {:induction false} RawAttributesAt(attributes: seq<Attribute>, i: nat)
    requires i < |attributes|
    ensures RawAttributes(attributes)[i] == Attribute(attributes[i].name, Escape(attributes[i].value, false))
  {
    if i > 0 {
      RawAttributesAt(attributes[1..], i - 1);
    }
  }

  lemma {:induction false} RawAllAt(nodes: seq<Node>, i: nat)
    requires i < |nodes|
    ensures RawAll(nodes)[i] == Raw(nodes[i])
  {
    if i > 0 {
      RawAllAt(nodes[1..], i - 1);
    }
  }

  lemma {:induction false} NormalAttributesAt(attributes: seq<Attribute>, i: nat)
    requires i < |attributes|
    ensures NormalAttributes(attributes)[i] == Attribute(attributes[i].name, Normalize(attributes[i].value))
  {
    if i > 0 {
      NormalAttributesAt(attributes[1..], i - 1);
    }
  }

  lemma {:induction false} NormalAllAt(nodes: seq<Node>, i: nat)
    requires i < |nodes|
    ensures NormalAll(nodes)[i] == Normal(nodes[i])
  {
    if i > 0 {
      NormalAllAt(nodes[1..], i - 1);
    }
  }
}
