/**
  What the recursive parser accepts and builds, as functions of the remaining input.

  A parsed tree holds raw texts: decoding happens on first use (module StrPair).
  The functions terminate because every call works on strictly less input.
 */
module Grammar {
  import opened Options
  import opened XmlChars
  import opened XmlTree
  import EntityDecoding

  datatype Kind = NothingLeft | DeclarationTag | CommentTag | CDataTag | UnknownTag | ElementTag | TextRun

  /** XMLDocument::Identify: the kind of the next node, and the input behind its header. */
  function Identify(s: string): (r: (Kind, string))
    ensures r.0.NothingLeft? <==> SkipWhiteSpace(s) == []
    ensures r.0.TextRun? ==> r.1 == s && s != [] && s[0] != '<'
    ensures !r.0.NothingLeft? && !r.0.TextRun? ==> |r.1| < |s|
  {
    var t := SkipWhiteSpace(s);
    if t == [] then (NothingLeft, [])
    else if "<?" <= t then (DeclarationTag, t[2..])
    else if "<!--" <= t then (CommentTag, t[4..])
    else if "<![CDATA[" <= t then (CDataTag, t[9..])
    else if "<!" <= t then (UnknownTag, t[2..])
    else if "<" <= t then (ElementTag, t[1..])
    else
      assert t[..1] == [t[0]];
      assert !IsWhiteSpace(s[0]) ==> t == s;
      (TextRun, s)
  }

  /** One attribute: null, or the raw attribute and what follows its closing quote. */
  function ParseAttribute(s: string): (r: Option<(Attribute, string)>)
    ensures r.Some? ==> |r.value.1| < |s|
  {
    var name := ParseName(s);
    var t := SkipWhiteSpace(s[|name|..]);
    if name == [] || t == [] || t[0] != '=' then None
    else
      var u := SkipWhiteSpace(t[1..]);
      if u == [] || (u[0] != '"' && u[0] != '\'') then None
      else
        match ParseText(u[1..], [u[0]])
        case NoCut => None
        case Cut(value, rest) => Some((Attribute(name, value), rest))
  }

  datatype Head = BadHead(error: XmlError) | Head(attributes: seq<Attribute>, closed: bool, rest: string)

  /** The duplicate test asks for the value of the earlier attribute, which decodes it. */
  function RepeatedName(seen: seq<Attribute>, name: string): (error: XmlError)
    requires HasAttribute(seen, name)
    ensures error != XML_NO_ERROR
  {
    var earlier := seen[AttributeIndex(seen, name)];
    if EntityDecoding.Decode(earlier.value, EntityDecoding.ATTRIBUTE_VALUE).BadReference? then NULL_DEREFERENCE
    else XML_ERROR_PARSING_ATTRIBUTE
  }

  /** The attributes of a tag, behind the ones already `seen`. */
  function ParseAttributes(s: string, seen: seq<Attribute>): (r: Head)
    ensures r.Head? ==> |r.rest| < |s|
    ensures r.BadHead? ==> r.error != XML_NO_ERROR
    decreases |s|
  {
    var t := SkipWhiteSpace(s);
    if t == [] then BadHead(XML_ERROR_PARSING_ELEMENT)
    else if IsNameStartChar(t[0]) then
      match ParseAttribute(t)
      case None => BadHead(XML_ERROR_PARSING_ATTRIBUTE)
      case Some((attribute, rest)) =>
        if HasAttribute(seen, attribute.name) then BadHead(RepeatedName(seen, attribute.name))
        else ParseAttributes(rest, seen + [attribute])
    else if t[0] == '/' && Peek(t, 1) == '>' then Head(seen, true, t[2..])
    else if t[0] == '>' then Head(seen, false, t[1..])
    else BadHead(XML_ERROR_PARSING_ELEMENT)
  }

  lemma HeadBehindBlanks(s: string, seen: seq<Attribute>)
    ensures ParseAttributes(SkipWhiteSpace(s), seen) == ParseAttributes(s, seen)
  {
    hide ParseAttribute, HasAttribute;
    var t := SkipWhiteSpace(s);
    assert SkipWhiteSpace(t) == t;
  }

  /** A tag, behind its "<". */
  datatype Tag =
    | BadTag(error: XmlError)
    | ClosedTag(name: string, attributes: seq<Attribute>, rest: string)
    | OpenTag(name: string, attributes: seq<Attribute>, rest: string)
    | ClosingTag(name: string, rest: string)

  function ParseTag(s: string): (r: Tag)
    ensures !r.BadTag? ==> |r.rest| < |s| && r.name != []
    ensures r.BadTag? ==> r.error != XML_NO_ERROR
  {
    var t := SkipWhiteSpace(s);
    var closing := t != [] && t[0] == '/';
    var u := if closing then t[1..] else t;
    var name := ParseName(u);
    if name == [] then BadTag(XML_ERROR_PARSING)
    else
      match ParseAttributes(u[|name|..], [])
      case BadHead(error) => BadTag(error)
      case Head(attributes, closed, rest) =>
        // A closing tag that ends in "/>" is taken for an element of its own.
        if closed then ClosedTag(name, attributes, rest)
        else if closing then ClosingTag(name, rest)
        else OpenTag(name, attributes, rest)
  }

  /** One node: built, or the closing tag of the enclosing element, or an error. */
  datatype One = BadNode(error: XmlError) | One(node: Node, rest: string) | End(name: string, rest: string)

  /** The children up to the closing tag that ends them (None at the end of input). */
  datatype Nodes = BadNodes(error: XmlError) | Nodes(nodes: seq<Node>, end: Option<string>, rest: string)

  function ParseLeaf(body: string, terminator: string, error: XmlError, make: string -> Node): (r: One)
    requires terminator != [] && error != XML_NO_ERROR
    ensures r.One? ==> |r.rest| < |body|
    ensures !r.End? && (r.BadNode? ==> r.error != XML_NO_ERROR)
  {
    match ParseText(body, terminator)
    case NoCut => BadNode(error)
    case Cut(value, rest) => One(make(value), rest)
  }

  function ParseTextRun(s: string): (r: One)
    ensures !r.End? && (r.BadNode? ==> r.error != XML_NO_ERROR)
    ensures r.One? && s != [] && s[0] != '<' ==> |r.rest| < |s|
  {
    match ParseText(s, "<")
    case NoCut => BadNode(XML_ERROR_PARSING_TEXT)
    case Cut(value, rest) =>
      // The cursor goes back to the "<"; nothing behind it is an error.
      if rest == [] then BadNode(XML_ERROR_PARSING) else One(Text(value, false), "<" + rest)
  }

  function ParseLeafNode(kind: Kind, body: string): (r: One)
    requires !kind.NothingLeft? && !kind.ElementTag?
    requires kind.TextRun? ==> body != [] && body[0] != '<'
    ensures !r.End? && if r.BadNode? then r.error != XML_NO_ERROR else |r.rest| < |body|
  {
    match kind
    case DeclarationTag => ParseLeaf(body, "?>", XML_ERROR_PARSING_DECLARATION, value => Declaration(value))
    case CommentTag => ParseLeaf(body, "-->", XML_ERROR_PARSING_COMMENT, value => Comment(value))
    case CDataTag => ParseLeaf(body, "]]>", XML_ERROR_PARSING_CDATA, value => Text(value, true))
    case UnknownTag => ParseLeaf(body, ">", XML_ERROR_PARSING_UNKNOWN, value => Unknown(value))
    case TextRun => ParseTextRun(body)
  }

  function ParseOne(s: string): (r: One)
    requires SkipWhiteSpace(s) != []
    ensures if r.BadNode? then r.error != XML_NO_ERROR else |r.rest| < |s|
    decreases |s|, 0
  {
    var (kind, body) := Identify(s);
    if kind.ElementTag? then ParseElement(body) else ParseLeafNode(kind, body)
  }

  function ParseElement(s: string): (r: One)
    ensures if r.BadNode? then r.error != XML_NO_ERROR else |r.rest| < |s|
    decreases |s|, 2
  {
    match ParseTag(s)
    case BadTag(error) => BadNode(error)
    case ClosedTag(name, attributes, rest) => One(Element(name, attributes, [], true), rest)
    case ClosingTag(name, rest) => End(name, rest)
    case OpenTag(name, attributes, rest) =>
      if rest == [] then BadNode(XML_ERROR_MISMATCHED_ELEMENT)
      else
        match ParseNodes(rest)
        case BadNodes(error) => BadNode(error)
        case Nodes(children, None, _) => BadNode(XML_ERROR_PARSING)
        case Nodes(children, Some(end), rest') =>
          if end == name then One(Element(name, attributes, children, false), rest')
          else BadNode(XML_ERROR_MISMATCHED_ELEMENT)
  }

  function ParseNodes(s: string): (r: Nodes)
    ensures if r.BadNodes? then r.error != XML_NO_ERROR else |r.rest| <= |s|
    ensures r.Nodes? && r.end.None? ==> r.rest == []
    decreases |s|, 1
  {
    if SkipWhiteSpace(s) == [] then Nodes([], None, [])
    else
      match ParseOne(s)
      case BadNode(error) => BadNodes(error)
      case End(name, rest) => Nodes([], Some(name), rest)
      case One(node, rest) => Before(node, ParseNodes(rest))
  }

  function Before(node: Node, r: Nodes): Nodes {
    match r
    case BadNodes(_) => r
    case Nodes(nodes, end, rest) => Nodes([node] + nodes, end, rest)
  }

  /** The result for nodes read in front of others. */
  function Prepend(nodes: seq<Node>, r: Nodes): Nodes {
    match r
    case BadNodes(_) => r
    case Nodes(more, end, rest) => Nodes(nodes + more, end, rest)
  }

  lemma PrependNothing(r: Nodes)
    ensures Prepend([], r) == r
  {
    if r.Nodes? {
      assert [] + r.nodes == r.nodes;
    }
  }

  lemma PrependBefore(node: Node, nodes: seq<Node>, r: Nodes)
    ensures Before(node, Prepend(nodes, r)) == Prepend([node] + nodes, r)
  {
    if r.Nodes? {
      assert [node] + (nodes + r.nodes) == [node] + nodes + r.nodes;
    }
  }

  datatype Document = BadDocument(error: XmlError) | Document(children: seq<Node>, writeBOM: bool)

  /** XMLDocument::Parse; a closing tag at top level ends the document, and the rest is ignored. */
  function ParseDocument(input: string): Document {
    var s := CString(input);
    var t := SkipWhiteSpace(s);
    var bom := BOM <= t;
    var u := if bom then t[3..] else t;
    if u == [] then BadDocument(XML_ERROR_EMPTY_DOCUMENT)
    else
      match ParseNodes(u)
      case BadNodes(error) => BadDocument(error)
      case Nodes(nodes, _, _) => Document(nodes, bom)
  }
}
