/**
  The recursive parser over the character buffer. Each method stops where the functions
  of module Grammar say, with the same tree or the same error code.
 */
module XmlParser {
  import opened Options
  import opened XmlChars
  import opened XmlTree
  import opened Grammar
  import opened Buffer
  import opened RepeatedAttributes
  import EntityDecoding

  class XMLDocument {
    const charBuffer: array<char>
    var errorID: XmlError
    var writeBOM: bool
    var children: seq<Node>

    constructor (charBuffer: array<char>)
      ensures this.charBuffer == charBuffer && errorID == XML_NO_ERROR && children == [] && !writeBOM
    {
      this.charBuffer := charBuffer;
      errorID, writeBOM, children := XML_NO_ERROR, false, [];
    }

    predicate Error()
      reads this
    {
      errorID != XML_NO_ERROR
    }

    method SetError(error: XmlError)
      modifies this`errorID
      ensures errorID == error
    {
      errorID := error;
    }

    /** The cursor stands at `rest`, reached from `s` at `p`. */
    ghost predicate At(q: nat, rest: string)
      reads charBuffer
    {
      Holds(charBuffer, q, rest)
    }

    /** `StringEqual( p, header, len )`, and the cursor behind the header. */
    method MatchHeader(q: nat, header: string, ghost t: string) returns (matched: bool)
      requires At(q, t) && NUL !in header
      ensures matched <==> header <= t
      ensures matched ==> At(q + |header|, t[|header|..])
    {
      matched := StartsWith(charBuffer, q, header, t);
      if matched {
        HoldsFrom(charBuffer, q, t, |header|);
      }
    }

    method Identify(p: nat, ghost s: string) returns (kind: Kind, q: nat)
      requires At(p, s)
      ensures kind == Grammar.Identify(s).0
      ensures kind != NothingLeft ==> At(q, Grammar.Identify(s).1)
    {
      hide XmlChars.SkipWhiteSpace, Holds;
      ghost var t := XmlChars.SkipWhiteSpace(s);
      q := SkipBlanks(charBuffer, p, s);
      FirstRead(charBuffer, q, t);
      if charBuffer[q] == NUL {
        return NothingLeft, q;
      }
      var xml := MatchHeader(q, "<?", t);
      if xml {
        return DeclarationTag, q + 2;
      }
      var comment := MatchHeader(q, "<!--", t);
      if comment {
        return CommentTag, q + 4;
      }
      var cdata := MatchHeader(q, "<![CDATA[", t);
      if cdata {
        return CDataTag, q + 9;
      }
      var dtd := MatchHeader(q, "<!", t);
      if dtd {
        return UnknownTag, q + 2;
      }
      var element := MatchHeader(q, "<", t);
      if element {
        return ElementTag, q + 1;
      }
      return TextRun, p;
    }

    /** XMLAttribute::ParseDeep */
    method ParseAttribute(p: nat, ghost s: string) returns (r: Option<(Attribute, nat)>)
      requires At(p, s)
      ensures match Grammar.ParseAttribute(s)
              case None => r == None
              case Some((attribute, rest)) => r.Some? && r.value.0 == attribute && At(r.value.1, rest)
    {
      hide ParseName, XmlChars.SkipWhiteSpace, ParseText, Holds;
      var q := ScanName(charBuffer, p, s);
      ghost var name := ParseName(s);
      if q == p {
        return None;
      }
      var nameText := charBuffer[p..q];
      ghost var t := XmlChars.SkipWhiteSpace(s[|name|..]);
      q := SkipBlanks(charBuffer, q, s[|name|..]);
      FirstRead(charBuffer, q, t);
      if charBuffer[q] != '=' {
        return None;
      }
      var v := ParseQuoted(q + 1, t[1..]);
      if v == None {
        return None;
      }
      return Some((XmlTree.Attribute(nameText, v.value.0), v.value.1));
    }

    /** The quoted value behind the "=". */
    method ParseQuoted(p: nat, ghost t: string) returns (r: Option<(string, nat)>)
      requires At(p, t)
      ensures var u := XmlChars.SkipWhiteSpace(t);
              if u == [] || (u[0] != '"' && u[0] != '\'') then r == None
              else match ParseText(u[1..], [u[0]])
                   case NoCut => r == None
                   case Cut(value, rest) => r.Some? && r.value.0 == value && At(r.value.1, rest)
    {
      hide XmlChars.SkipWhiteSpace, ParseText, Holds;
      ghost var u := XmlChars.SkipWhiteSpace(t);
      var q := SkipBlanks(charBuffer, p, t);
      FirstRead(charBuffer, q, u);
      if charBuffer[q] != '"' && charBuffer[q] != '\'' {
        return None;
      }
      var endTag := [charBuffer[q]];
      var end := FindText(charBuffer, q + 1, endTag, u[1..]);
      if end == None {
        return None;
      }
      return Some((charBuffer[q + 1..end.value], end.value + 1));
    }

    /** XMLElement::FindAttribute */
    method FindAttribute(attributes: seq<Attribute>, name: string) returns (found: Option<nat>)
      ensures found == if HasAttribute(attributes, name) then Some(AttributeIndex(attributes, name)) else None
    {
      var i := 0;
      while i < |attributes|
        invariant 0 <= i <= |attributes|
        invariant forall j | 0 <= j < i :: attributes[j].name != name
      {
        if attributes[i].name == name {
          return Some(i);
        }
        i := i + 1;
      }
      return None;
    }

    /** XMLElement::Attribute: the value, decoded by GetStr. */
    method Attribute(attributes: seq<XmlTree.Attribute>, name: string) returns (value: Option<EntityDecoding.Decoded>)
      ensures value.Some? <==> HasAttribute(attributes, name)
      ensures value.Some? ==>
                value.value == EntityDecoding.Decode(attributes[AttributeIndex(attributes, name)].value, EntityDecoding.ATTRIBUTE_VALUE)
    {
      var a := FindAttribute(attributes, name);
      if a == None {
        return None;
      }
      return Some(EntityDecoding.Decode(attributes[a.value].value, EntityDecoding.ATTRIBUTE_VALUE));
    }

    method ParseAttributes(p: nat, ghost s: string) returns (r: Option<(seq<Attribute>, bool, nat)>)
      requires At(p, s)
      modifies this`errorID
      ensures match Grammar.ParseAttributes(s, [])
              case BadHead(error) => r == None && errorID == error
              case Head(attributes, closed, rest) =>
                r.Some? && r.value.0 == attributes && r.value.1 == closed && At(r.value.2, rest)
                && errorID == old(errorID)
    {
      hide XmlChars.SkipWhiteSpace, Grammar.ParseAttribute, HasAttribute, Holds;
      var q := p;
      var seen: seq<Attribute> := [];
      ghost var t := s;
      while true
        invariant At(q, t) && errorID == old(errorID)
        invariant Grammar.ParseAttributes(t, seen) == Grammar.ParseAttributes(s, [])
        decreases |t|
      {
        ghost var u := XmlChars.SkipWhiteSpace(t);
        q := SkipBlanks(charBuffer, q, t);
        FirstRead(charBuffer, q, u);
        if charBuffer[q] == NUL {
          SetError(XML_ERROR_PARSING_ELEMENT);
          return None;
        }
        if IsNameStartChar(charBuffer[q]) {
          var a := ParseAttribute(q, u);
          if a == None {
            SetError(XML_ERROR_PARSING_ATTRIBUTE);
            return None;
          }
          var double := Attribute(seen, a.value.0.name);
          if double.Some? {
            SetError(if double.value.BadReference? then NULL_DEREFERENCE else XML_ERROR_PARSING_ATTRIBUTE);
            return None;
          }
          seen, q, t := seen + [a.value.0], a.value.1, Grammar.ParseAttribute(u).value.1;
        } else {
          HeadBehindBlanks(t, seen);
          r := EndOfTag(q, seen, u);
          return;
        }
      }
    }

    /** The branches of the loop that end it: "/>", ">", or an error. */
    method EndOfTag(q: nat, seen: seq<Attribute>, ghost u: string) returns (r: Option<(seq<Attribute>, bool, nat)>)
      requires At(q, u) && u != [] && !IsWhiteSpace(u[0]) && !IsNameStartChar(u[0])
      modifies this`errorID
      ensures match Grammar.ParseAttributes(u, seen)
              case BadHead(error) => r == None && errorID == error
              case Head(attributes, closed, rest) =>
                r.Some? && r.value.0 == attributes && r.value.1 == closed && At(r.value.2, rest)
                && errorID == old(errorID)
    {
      FirstRead(charBuffer, q, u);
      HoldsFrom(charBuffer, q, u, 1);
      if charBuffer[q] == '/' && charBuffer[q + 1] == '>' {
        HoldsFrom(charBuffer, q, u, 2);
        return Some((seen, true, q + 2));
      }
      if charBuffer[q] == '>' {
        return Some((seen, false, q + 1));
      }
      SetError(XML_ERROR_PARSING_ELEMENT);
      return None;
    }

    /** ParseDeep of declarations, comments, CDATA and unknown tags. */
    method ParseLeaf(p: nat, terminator: string, error: XmlError, ghost body: string) returns (r: Option<(string, nat)>)
      requires At(p, body) && terminator != [] && NUL !in terminator && error != XML_NO_ERROR
      modifies this`errorID
      ensures match ParseText(body, terminator)
              case NoCut => r == None && errorID == error
              case Cut(value, rest) =>
                r.Some? && r.value.0 == value && At(r.value.1, rest) && errorID == old(errorID)
    {
      var end := FindText(charBuffer, p, terminator, body);
      if end == None {
        SetError(error);
        return None;
      }
      return Some((charBuffer[p..end.value], end.value + |terminator|));
    }

    /** XMLText::ParseDeep without CDATA: the cursor goes back to the "<". */
    method ParseTextRun(p: nat, ghost s: string) returns (r: Option<(string, nat)>)
      requires At(p, s) && errorID == XML_NO_ERROR
      modifies this`errorID
      ensures match Grammar.ParseTextRun(s)
              case BadNode(error) => r == None && (errorID == error || (errorID == XML_NO_ERROR && error == XML_ERROR_PARSING))
              case One(node, rest) =>
                r.Some? && node == Text(r.value.0, false) && At(r.value.1, rest) && errorID == XML_NO_ERROR
              case End(_, _) => false
    {
      hide ParseText;
      var end := FindText(charBuffer, p, "<", s);
      if end == None {
        SetError(XML_ERROR_PARSING_TEXT);
        return None;
      }
      ghost var Cut(text, rest) := ParseText(s, "<");
      FirstRead(charBuffer, end.value + 1, rest);
      if charBuffer[end.value + 1] == NUL {
        return None;
      }
      BackOne(end.value, rest, text, p, s);
      return Some((charBuffer[p..end.value], end.value));
    }

    lemma BackOne(q: nat, rest: string, text: string, p: nat, s: string)
      requires At(p, s) && q == p + |text| && ParseText(s, "<") == Cut(text, rest)
      ensures At(q, "<" + rest)
    {
      ParseTextIsFirst(s, "<");
      Assoc(text, "<", rest);
      HoldsFrom(charBuffer, p, s, |text|);
      assert s[|text|..] == "<" + rest;
    }

    /**
      XMLElement::ParseDeep: the tag, and for an open one the children with the name that
      came back in `endTag` ("" when none did).
     */
    method ParseElement(p: nat, ghost s: string)
      returns (q: Option<nat>, tag: Tag, children: seq<Node>, endTag: string)
      requires At(p, s) && errorID == XML_NO_ERROR
      modifies this`errorID
      ensures match Grammar.ParseElement(s)
              case One(node, rest) =>
                q.Some? && At(q.value, rest) && errorID == XML_NO_ERROR
                && (tag.OpenTag? || tag.ClosedTag?)
                && node == Element(tag.name, tag.attributes, children, tag.ClosedTag?)
                && endTag == (if tag.OpenTag? then tag.name else "")
              case End(name, rest) =>
                q.Some? && At(q.value, rest) && errorID == XML_NO_ERROR && tag.ClosingTag? && tag.name == name
              case BadNode(error) =>
                || (q == None && (errorID == error || (errorID == XML_NO_ERROR && error == XML_ERROR_PARSING)))
                || (q.Some? && errorID == XML_NO_ERROR && error == XML_ERROR_MISMATCHED_ELEMENT
                    && tag.OpenTag? && tag.name != endTag)
      decreases |s|, 2
    {
      children, endTag := [], "";
      q, tag := ParseTag(p, s);
      if q == None || !tag.OpenTag? {
        return;
      }
      ghost var rest := Grammar.ParseTag(s).rest;
      FirstRead(charBuffer, q.value, rest);
      if charBuffer[q.value] == NUL {
        return;
      }
      var end;
      q, children, end := ParseDeep(q.value, rest);
      endTag := if end.Some? then end.value else "";
    }

    /** The head of XMLElement::ParseDeep: name, attributes and closing type. */
    method ParseTag(p: nat, ghost s: string) returns (q: Option<nat>, tag: Tag)
      requires At(p, s) && errorID == XML_NO_ERROR
      modifies this`errorID
      ensures match Grammar.ParseTag(s)
              case BadTag(error) =>
                q == None && (errorID == error || (errorID == XML_NO_ERROR && error == XML_ERROR_PARSING))
              case ClosedTag(name, attributes, rest) =>
                q.Some? && At(q.value, rest) && errorID == XML_NO_ERROR && tag == ClosedTag(name, attributes, "")
              case OpenTag(name, attributes, rest) =>
                q.Some? && At(q.value, rest) && errorID == XML_NO_ERROR && tag == OpenTag(name, attributes, "")
              case ClosingTag(name, rest) =>
                q.Some? && At(q.value, rest) && errorID == XML_NO_ERROR && tag == ClosingTag(name, "")
    {
      hide XmlChars.SkipWhiteSpace, ParseName, Grammar.ParseAttributes, Holds;
      tag := BadTag(XML_ERROR_PARSING);
      ghost var t := XmlChars.SkipWhiteSpace(s);
      var i := SkipBlanks(charBuffer, p, s);
      FirstRead(charBuffer, i, t);
      var closing := charBuffer[i] == '/';
      if closing {
        i, t := i + 1, t[1..];
      }
      var j := ScanName(charBuffer, i, t);
      if j == i {
        return None, tag;
      }
      var name := charBuffer[i..j];
      var head := ParseAttributes(j, t[|name|..]);
      if head == None {
        return None, tag;
      }
      var (attributes, closed, k) := head.value;
      tag := if closed then ClosedTag(name, attributes, "") else if closing then ClosingTag(name, "")
             else OpenTag(name, attributes, "");
      return Some(k), tag;
    }

    /**
      XMLNode::ParseDeep: the children up to a closing tag, whose name goes to the parent.
      Null both at the end of input and after an error; the error code tells them apart.
     */
    method ParseDeep(p: nat, ghost s: string) returns (q: Option<nat>, nodes: seq<Node>, parentEnd: Option<string>)
      requires At(p, s) && errorID == XML_NO_ERROR
      modifies this`errorID
      ensures match ParseNodes(s)
              case BadNodes(error) => q == None && errorID == error
              case Nodes(expected, None, _) =>
                q == None && errorID == XML_NO_ERROR && nodes == expected && parentEnd == None
              case Nodes(expected, end, rest) =>
                q.Some? && At(q.value, rest) && errorID == XML_NO_ERROR && nodes == expected && parentEnd == end
      decreases |s|, 1
    {
      nodes, parentEnd := [], None;
      q := Some(p);
      ghost var t := s;
      PrependNothing(ParseNodes(s));
      while q.Some?
        invariant q.Some? && At(q.value, t) && errorID == XML_NO_ERROR && parentEnd == None && |t| <= |s|
        invariant ParseNodes(s) == Prepend(nodes, ParseNodes(t))
        decreases |t|
      {
        var one := ParseOne(q.value, t);
        match one {
          case Stopped =>
            assert nodes + [] == nodes;
            return None, nodes, None;
          case Closing(end, at) =>
            assert nodes + [] == nodes;
            return Some(at), nodes, Some(end);
          case Child(node, at) =>
            ghost var rest := Grammar.ParseOne(t).rest;
            PrependNext(nodes, node, ParseNodes(rest));
            nodes, q, t := nodes + [node], Some(at), rest;
        }
      }
    }

    lemma PrependNext(nodes: seq<Node>, node: Node, r: Nodes)
      ensures Prepend(nodes, Before(node, r)) == Prepend(nodes + [node], r)
    {
      if r.Nodes? {
        assert nodes + ([node] + r.nodes) == nodes + [node] + r.nodes;
      }
    }

    /** The body of the loop of XMLNode::ParseDeep. */
    method ParseOne(p: nat, ghost t: string) returns (one: Step)
      requires At(p, t) && errorID == XML_NO_ERROR
      modifies this`errorID
      ensures if XmlChars.SkipWhiteSpace(t) == [] then one == Stopped && errorID == XML_NO_ERROR
              else match Grammar.ParseOne(t)
                   case BadNode(error) => one == Stopped && errorID == error
                   case End(name, rest) =>
                     one.Closing? && one.end == name && At(one.at, rest) && errorID == XML_NO_ERROR
                   case One(node, rest) =>
                     one.Child? && one.node == node && At(one.at, rest) && errorID == XML_NO_ERROR
      decreases |t|, 0
    {
      hide Grammar.Identify, Grammar.ParseLeafNode, Grammar.ParseTag, Grammar.ParseNodes, XmlChars.SkipWhiteSpace, At;
      var kind, q := Identify(p, t);
      ghost var body := Grammar.Identify(t).1;
      match kind
      case NothingLeft => return Stopped;
      case ElementTag =>
        var end, tag, children, endTag := ParseElement(q, body);
        if end == None {
          if !Error() {
            SetError(XML_ERROR_PARSING);
          }
          return Stopped;
        }
        if tag.ClosingTag? {
          return Closing(tag.name, end.value);
        }
        var mismatch := if endTag == "" then tag.OpenTag? else !tag.OpenTag? || endTag != tag.name;
        if mismatch {
          SetError(XML_ERROR_MISMATCHED_ELEMENT);
          return Stopped;
        }
        return Child(Element(tag.name, tag.attributes, children, tag.ClosedTag?), end.value);
      case _ =>
        var node, at := ParseLeafNode(kind, q, body);
        if at == None {
          if !Error() {
            SetError(XML_ERROR_PARSING);
          }
          return Stopped;
        }
        return Child(node, at.value);
    }

    method ParseLeafNode(kind: Kind, p: nat, ghost body: string) returns (node: Node, q: Option<nat>)
      requires At(p, body) && errorID == XML_NO_ERROR
      requires !kind.NothingLeft? && !kind.ElementTag?
      requires kind.TextRun? ==> body != [] && body[0] != '<'
      modifies this`errorID
      ensures match Grammar.ParseLeafNode(kind, body)
              case BadNode(error) => q == None && (errorID == error || (errorID == XML_NO_ERROR && error == XML_ERROR_PARSING))
              case One(expected, rest) =>
                q.Some? && node == expected && At(q.value, rest) && errorID == XML_NO_ERROR
              case End(_, _) => false
    {
      hide ParseText, Holds;
      var r;
      node := Unknown("");
      match kind {
        case DeclarationTag => r := ParseLeaf(p, "?>", XML_ERROR_PARSING_DECLARATION, body);
        case CommentTag => r := ParseLeaf(p, "-->", XML_ERROR_PARSING_COMMENT, body);
        case CDataTag => r := ParseLeaf(p, "]]>", XML_ERROR_PARSING_CDATA, body);
        case UnknownTag => r := ParseLeaf(p, ">", XML_ERROR_PARSING_UNKNOWN, body);
        case TextRun => r := ParseTextRun(p, body);
      }
      if r == None {
        return node, None;
      }
      var (value, at) := r.value;
      node := match kind
        case DeclarationTag => Declaration(value)
        case CommentTag => Comment(value)
        case CDataTag => Text(value, true)
        case UnknownTag => Unknown(value)
        case TextRun => Text(value, false);
      return node, Some(at);
    }

    /**
      XMLDocument::Parse on a buffer of `len` characters with a NUL behind them. With NULL_DEREFERENCE the
      code does not come back.
     */
    method Parse(len: nat)
      requires len < charBuffer.Length && charBuffer[len] == NUL
      requires errorID == XML_NO_ERROR && children == []
      modifies this
      ensures match ParseDocument(charBuffer[..len])
              case BadDocument(error) => errorID == error != XML_NO_ERROR && children == []
              case Document(nodes, bom) => errorID == XML_NO_ERROR && children == nodes && writeBOM == bom
      ensures errorID == NULL_DEREFERENCE <==> ReachesFatalTag(Content(charBuffer[..len]), [])
    {
      ParseCrashesIff(charBuffer[..len]);
      hide ReachesFatalTag, Content;
      ghost var s := CString(charBuffer[..len]);
      TextHolds(len);
      ghost var t := XmlChars.SkipWhiteSpace(s);
      hide ParseNodes, XmlChars.SkipWhiteSpace, CString, Holds;
      var p := SkipBlanks(charBuffer, 0, s);
      var bom := MatchHeader(p, BOM, t);
      writeBOM := bom;
      if bom {
        p, t := p + 3, t[3..];
      }
      FirstRead(charBuffer, p, t);
      if charBuffer[p] == NUL {
        SetError(XML_ERROR_EMPTY_DOCUMENT);
        return;
      }
      var q, nodes, end := ParseDeep(p, t);
      if errorID == XML_NO_ERROR {
        children := nodes;
      }
    }

    lemma TextHolds(len: nat)
      requires len < charBuffer.Length && charBuffer[len] == NUL
      ensures At(0, CString(charBuffer[..len]))
    {
      var text := charBuffer[..len];
      CStringStops(text);
      hide CString;
      var c := CString(text);
      assert charBuffer[0..|c|] == text[..|c|];
      assert |c| < |text| ==> charBuffer[|c|] == text[|c|];
    }
  }

  datatype Step = Stopped | Closing(end: string, at: nat) | Child(node: Node, at: nat)
}
