/**
  Source documents written out, from the tags up: the parser accepts exactly these documents, with exactly the
  trees that they spell.
 */
module SourceDocument {
  import opened Options
  import opened XmlChars
  import opened XmlTree
  import opened Grammar
  import opened Rendering
  import opened RoundTrip
  import opened SourceText

  /**
    A node as it stands in a document, with the blanks in front of it; a text has its blanks itself. A single tag
    ends in "/>", an element has its closing tag.
   */
  datatype Written =
    | WrittenText(text: string)
    | WrittenLeaf(gap: string, leaf: Node)
    | WrittenSingle(gap: string, tag: WrittenTag)
    | WrittenElement(gap: string, tag: WrittenTag, children: seq<Written>, closeGap: string, close: WrittenTag)

  function Gap(w: Written): string {
    if w.WrittenText? then "" else w.gap
  }

  /** CDATA, comments, declarations and unknowns hold anything up to their end; what starts like another one is that. */
  predicate GoodLeaf(n: Node) {
    match n
    case Element(_, _, _, _) => false
    case Text(value, cdata) => cdata && !Occurs("]]>", value)
    case Comment(value) => !Occurs("-->", value)
    case Declaration(value) => !Occurs("?>", value)
    case Unknown(value) => '>' !in value && !("--" <= value) && !("[CDATA[" <= value)
  }

  function SpellLeaf(n: Node): string {
    match n
    case Element(_, _, _, _) => ""
    case Text(value, _) => "<![CDATA[" + value + "]]>"
    case Comment(value) => "<!--" + value + "-->"
    case Declaration(value) => "<?" + value + "?>"
    case Unknown(value) => "<!" + value + ">"
  }

  predicate EndsInText(ws: seq<Written>) {
    ws != [] && ws[|ws| - 1].WrittenText?
  }

  predicate Good(w: Written)
    decreases w, 0
  {
    match w
    case WrittenText(text) => '<' !in text && !Blank(text)
    case WrittenLeaf(gap, leaf) => Blank(gap) && GoodLeaf(leaf)
    case WrittenSingle(gap, tag) => Blank(gap) && GoodTag(tag) && tag.sealed
    case WrittenElement(gap, tag, children, closeGap, close) =>
      && Blank(gap) && GoodTag(tag) && !tag.sealed && !tag.closing && GoodAll(children)
      && Blank(closeGap) && GoodTag(close) && close.closing && !close.sealed && close.name == tag.name
      && (EndsInText(children) ==> closeGap == "")
  }

  /** No text stands beside another, and what follows a text follows at once. */
  predicate GoodAll(ws: seq<Written>)
    decreases ws, 1
  {
    ws != [] ==>
      && Good(ws[0]) && GoodAll(ws[1..])
      && (ws[0].WrittenText? && |ws| > 1 ==> !ws[1].WrittenText? && Gap(ws[1]) == "")
  }

  /** The text of a node from its "<" on. */
  function Core(w: Written): string
    decreases w, 0
  {
    match w
    case WrittenText(text) => text
    case WrittenLeaf(_, leaf) => SpellLeaf(leaf)
    case WrittenSingle(_, tag) => "<" + SpellTag(tag)
    case WrittenElement(_, tag, children, closeGap, close) =>
      "<" + (SpellTag(tag) + (SpellAll(children) + (closeGap + ("<" + SpellTag(close)))))
  }

  function SpellAll(ws: seq<Written>): string
    decreases ws, 1
  {
    if ws == [] then "" else Gap(ws[0]) + Core(ws[0]) + SpellAll(ws[1..])
  }

  function TreeOf(w: Written): Node
    decreases w, 0
  {
    match w
    case WrittenText(text) => Text(text, false)
    case WrittenLeaf(_, leaf) => leaf
    case WrittenSingle(_, tag) => Element(tag.name, AttributesOf(tag.attributes), [], true)
    case WrittenElement(_, tag, children, _, _) => Element(tag.name, AttributesOf(tag.attributes), TreesOf(children), false)
  }

  function TreesOf(ws: seq<Written>): (r: seq<Node>)
    ensures |r| == |ws|
    decreases ws, 1
  {
    if ws == [] then [] else [TreeOf(ws[0])] + TreesOf(ws[1..])
  }

  lemma GoodParts(ws: seq<Written>)
    requires ws != [] && GoodAll(ws)
    ensures Good(ws[0]) && GoodAll(ws[1..])
    ensures ws[0].WrittenText? && |ws| > 1 ==> !ws[1].WrittenText? && Gap(ws[1]) == ""
    ensures EndsInText(ws[1..]) ==> EndsInText(ws)
    ensures ws[0].WrittenText? && |ws| == 1 ==> EndsInText(ws)
    ensures SpellAll(ws) == Gap(ws[0]) + Core(ws[0]) + SpellAll(ws[1..])
  {
    hide Good, Core, Gap;
    assert |ws| > 1 ==> ws[1..][|ws| - 2] == ws[|ws| - 1];
  }

  // ----- every written document is read

  lemma TextReads(text: string, tail: string)
    requires '<' !in text && !Blank(text) && StartsTag(tail)
    ensures SkipWhiteSpace(text + tail) != [] && ParseOne(text + tail) == One(Text(text, false), tail)
  {
    var s := text + tail;
    SkipToText(text, tail);
    TextIs(s);
    hide SkipWhiteSpace, Identify, ParseOne, ParseText;
    if Occurs("<", text) {
      CharOccurs('<', text);
    }
    FirstCut(text, "<", tail[1..]);
    assert text + "<" + tail[1..] == s;
    assert "<" + tail[1..] == tail;
  }

  lemma LeafReads(leaf: Node, tail: string)
    requires GoodLeaf(leaf)
    ensures ParseOne(SpellLeaf(leaf) + tail) == One(leaf, tail) && StartsTag(SpellLeaf(leaf))
  {
    hide ParseOne;
    match leaf
    case Comment(value) => CommentParses(value, tail);
    case Declaration(value) => DeclarationParses(value, tail);
    case Text(value, _) => CDataParses(value, tail);
    case Unknown(value) => UnknownParses(value, tail);
  }

  lemma TagBegins(t: WrittenTag, tail: string)
    requires GoodTag(t)
    ensures var body := SpellTag(t) + tail;
            && body != [] && body[0] != '?' && body[0] != '!' && |"<" + body| >= 2
            && SkipWhiteSpace("<" + body) == "<" + body && ParseOne("<" + body) == ParseElement(body)
  {
    var body := SpellTag(t) + tail;
    TagStartsWith(t);
    assert body[0] == SpellTag(t)[0];
    ElementHeader(body);
    ElementIs("<" + body, body);
  }

  lemma TagStartsWith(t: WrittenTag)
    requires GoodTag(t)
    ensures SpellTag(t) != [] && SpellTag(t)[0] != '?' && SpellTag(t)[0] != '!'
  {
    if t.gap != "" {
      assert t.gap[0] in t.gap && SpellTag(t)[0] == t.gap[0];
    } else {
      assert SpellTag(t)[0] == if t.closing then '/' else t.name[0];
    }
  }

  lemma ClosingReads(gap: string, close: WrittenTag, tail: string)
    requires Blank(gap) && GoodTag(close) && close.closing && !close.sealed
    ensures ParseNodes(gap + ("<" + (SpellTag(close) + tail))) == Nodes([], Some(close.name), tail)
  {
    var body := SpellTag(close) + tail;
    TagBegins(close, tail);
    TagReads(close, tail);
    hide SpellTag, GoodTag, ParseTag, SkipWhiteSpace, Blank;
    assert ParseElement(body) == End(close.name, tail);
    assert ParseNodes("<" + body) == Nodes([], Some(close.name), tail);
    TagFirst("<" + body);
    BlanksIgnored(gap, "<" + body);
  }

  lemma SingleReads(tag: WrittenTag, tail: string)
    requires GoodTag(tag) && tag.sealed
    ensures ParseOne("<" + SpellTag(tag) + tail) == One(Element(tag.name, AttributesOf(tag.attributes), [], true), tail)
    ensures StartsTag("<" + SpellTag(tag))
  {
    TagBegins(tag, tail);
    TagBegins(tag, "");
    TagReads(tag, tail);
    hide SpellTag, GoodTag, ParseTag;
    assert "<" + SpellTag(tag) + tail == "<" + (SpellTag(tag) + tail);
    assert SpellTag(tag) + "" == SpellTag(tag);
  }

  lemma {:induction false} NodeReads(w: Written, tail: string)
    requires Good(w) && !w.WrittenText?
    ensures ParseOne(Core(w) + tail) == One(TreeOf(w), tail) && StartsTag(Core(w))
    decreases w, 0
  {
    hide ParseOne, SpellTag, GoodTag, SpellLeaf, GoodLeaf, Blank, AttributesOf;
    match w
    case WrittenLeaf(_, leaf) => LeafReads(leaf, tail);
    case WrittenSingle(_, tag) => SingleReads(tag, tail);
    case WrittenElement(_, tag, children, closeGap, close) =>
      ClosingReads(closeGap, close, tail);
      CloseBegins(children, closeGap, close, tail);
      AllRead(children, closeGap + ("<" + (SpellTag(close) + tail)));
      ElementReads(w, tail);
  }

  lemma CloseBegins(children: seq<Written>, closeGap: string, close: WrittenTag, tail: string)
    requires EndsInText(children) ==> closeGap == ""
    requires GoodTag(close)
    ensures EndsInText(children) ==> StartsTag(closeGap + ("<" + (SpellTag(close) + tail)))
  {
    TagBegins(close, tail);
    hide SpellTag;
    var s := "<" + (SpellTag(close) + tail);
    assert "" + s == s && s[0] == '<';
  }

  lemma ElementReads(w: Written, tail: string)
    requires w.WrittenElement? && GoodTag(w.tag) && !w.tag.sealed && !w.tag.closing
    requires w.close.name == w.tag.name
    requires var end := w.closeGap + ("<" + (SpellTag(w.close) + tail));
             && ParseNodes(SpellAll(w.children) + end) == Prepend(TreesOf(w.children), ParseNodes(end))
             && ParseNodes(end) == Nodes([], Some(w.close.name), tail)
    ensures ParseOne(Core(w) + tail) == One(TreeOf(w), tail) && StartsTag(Core(w))
  {
    hide *;
    var end := w.closeGap + ("<" + (SpellTag(w.close) + tail));
    var rest := SpellAll(w.children) + end;
    CoreAlgebra(SpellTag(w.tag), SpellAll(w.children), w.closeGap, SpellTag(w.close), tail);
    TagBegins(w.tag, rest);
    TagReads(w.tag, rest);
    CoreStarts(w);
    ElementIsWritten(w);
    PrependEnd(TreesOf(w.children), w.tag.name, tail);
    OpenReads(w.tag, rest, TreesOf(w.children), tail);
  }

  lemma ElementIsWritten(w: Written)
    requires w.WrittenElement?
    ensures Core(w) == "<" + (SpellTag(w.tag) + (SpellAll(w.children) + (w.closeGap + ("<" + SpellTag(w.close)))))
    ensures TreeOf(w) == Element(w.tag.name, AttributesOf(w.tag.attributes), TreesOf(w.children), false)
  {
    hide SpellTag, SpellAll, AttributesOf, TreesOf;
  }

  lemma PrependEnd(nodes: seq<Node>, name: string, tail: string)
    ensures Prepend(nodes, Nodes([], Some(name), tail)) == Nodes(nodes, Some(name), tail)
  {
    assert nodes + [] == nodes;
  }

  lemma OpenReads(tag: WrittenTag, rest: string, children: seq<Node>, tail: string)
    requires !tag.sealed && !tag.closing && ParseTag(SpellTag(tag) + rest) == TagOf(tag, rest)
    requires ParseNodes(rest) == Nodes(children, Some(tag.name), tail)
    ensures ParseElement(SpellTag(tag) + rest) == One(Element(tag.name, AttributesOf(tag.attributes), children, false), tail)
  {
    NothingToParse();
    hide SpellTag, ParseTag, ParseNodes, AttributesOf;
    assert rest != [] by { assert ParseNodes(rest) != ParseNodes([]); }
  }

  lemma CoreStarts(w: Written)
    requires w.WrittenElement? && GoodTag(w.tag)
    ensures StartsTag(Core(w))
  {
    TagStartsWith(w.tag);
    hide SpellTag, SpellAll;
    assert Core(w)[0] == '<';
  }

  lemma CoreAlgebra(tag: string, kids: string, gap: string, close: string, tail: string)
    ensures "<" + (tag + (kids + (gap + ("<" + close)))) + tail == "<" + (tag + (kids + (gap + ("<" + (close + tail)))))
  {
    Assoc("<", close, tail);
    Assoc(gap, "<" + close, tail);
    Assoc(kids, gap + ("<" + close), tail);
    Assoc(tag, kids + (gap + ("<" + close)), tail);
    Assoc("<", tag + (kids + (gap + ("<" + close))), tail);
  }

  // Written nodes are read as their trees, one after the other, in front of anything that does not run into a last text.
  lemma {:induction false} AllRead(ws: seq<Written>, tail: string)
    requires GoodAll(ws) && (EndsInText(ws) ==> StartsTag(tail))
    ensures ParseNodes(SpellAll(ws) + tail) == Prepend(TreesOf(ws), ParseNodes(tail))
    decreases ws, 1
  {
    hide ParseNodes, ParseOne, Core, Good, TreeOf;
    if ws == [] {
      PrependNothing(ParseNodes(tail));
      assert "" + tail == tail;
      return;
    }
    var w, more := ws[0], ws[1..];
    GoodParts(ws);
    AllRead(more, tail);
    var rest := SpellAll(more) + tail;
    if w.WrittenText? {
      BehindText(ws, tail);
      TextWritten(w);
      TextReads(w.text, rest);
      FirstOf(w.text + rest, TreeOf(w), rest);
    } else {
      NodeReads(w, rest);
      GapBefore(w, rest);
    }
    AllAlgebra(Gap(w), Core(w), SpellAll(more), tail);
    hide SpellAll, GoodAll;
    PrependBefore(TreeOf(w), TreesOf(more), ParseNodes(tail));
  }

  lemma TextWritten(w: Written)
    requires w.WrittenText? && Good(w)
    ensures '<' !in w.text && !Blank(w.text) && TreeOf(w) == Text(w.text, false) && Gap(w) == "" && Core(w) == w.text
  {
  }

  lemma AllAlgebra(gap: string, core: string, more: string, tail: string)
    ensures gap + core + more + tail == gap + (core + (more + tail))
    ensures "" + (core + (more + tail)) == core + (more + tail)
  {
    Assoc(gap + core, more, tail);
    Assoc(gap, core, more + tail);
  }

  lemma GapBefore(w: Written, rest: string)
    requires Good(w) && !w.WrittenText? && StartsTag(Core(w)) && ParseOne(Core(w) + rest) == One(TreeOf(w), rest)
    ensures ParseNodes(Gap(w) + (Core(w) + rest)) == Before(TreeOf(w), ParseNodes(rest))
  {
    var s := Core(w) + rest;
    GapBlank(w);
    StartsBehind(Core(w), rest);
    hide *;
    TagFirst(s);
    FirstOf(s, TreeOf(w), rest);
    BlanksIgnored(Gap(w), s);
  }

  lemma GapBlank(w: Written)
    requires Good(w)
    ensures Blank(Gap(w))
  {
    hide GoodTag, GoodLeaf;
  }

  lemma TagFirst(s: string)
    requires StartsTag(s)
    ensures SkipWhiteSpace(s) == s && s != [] && Quiet(s)
  {
    NoBlanks(s);
  }

  lemma CoreBegins(w: Written)
    requires Good(w) && !w.WrittenText?
    ensures StartsTag(Core(w))
  {
    match w
    case WrittenLeaf(_, leaf) => LeafReads(leaf, "");
    case WrittenSingle(_, tag) => SingleReads(tag, "");
    case WrittenElement(_, tag, _, _, _) => CoreStarts(w);
  }

  // What follows a text follows at once, and is a tag.
  lemma BehindText(ws: seq<Written>, tail: string)
    requires ws != [] && GoodAll(ws) && ws[0].WrittenText? && (EndsInText(ws) ==> StartsTag(tail))
    ensures StartsTag(SpellAll(ws[1..]) + tail)
  {
    var more := ws[1..];
    GoodParts(ws);
    if more == [] {
      assert SpellAll(more) + tail == tail;
    } else {
      GoodParts(more);
      CoreBegins(more[0]);
      hide *;
      assert "" + Core(more[0]) == Core(more[0]);
      StartsBehind(Core(more[0]), SpellAll(more[1..]));
      StartsBehind(Core(more[0]) + SpellAll(more[1..]), tail);
    }
  }

  // ----- nothing else is read

  lemma IdentifiedAs(s: string)
    requires SkipWhiteSpace(s) != []
    ensures var t := SkipWhiteSpace(s);
            var (kind, body) := Identify(s);
            && !kind.NothingLeft?
            && (kind.DeclarationTag? ==> "<?" <= t && body == t[2..])
            && (kind.CommentTag? ==> "<!--" <= t && body == t[4..])
            && (kind.CDataTag? ==> "<![CDATA[" <= t && body == t[9..])
            && (kind.UnknownTag? ==> "<!" <= t && !("<!--" <= t) && !("<![CDATA[" <= t) && body == t[2..])
            && (kind.ElementTag? ==> "<" <= t && body == t[1..])
            && (kind.TextRun? ==> !("<" <= t) && body == s)
  {
    hide SkipWhiteSpace;
  }

  lemma NotOccurs(value: string, terminator: string, rest: string)
    requires terminator != [] && forall i | 0 <= i < |value| :: !(terminator <= (value + terminator + rest)[i..])
    ensures !Occurs(terminator, value)
  {
    var s := value + terminator + rest;
    forall i | 0 <= i <= |value|
      ensures !(terminator <= value[i..])
    {
      if i < |value| {
        PrefixStays(terminator, value[i..], s[i..]);
        assert value[i..] <= s[i..] by { assert s[i..] == value[i..] + (terminator + rest); }
      }
    }
  }

  lemma PrefixStays(a: string, b: string, c: string)
    ensures a <= b <= c ==> a <= c
  {
  }

  /** A leaf's body: its value, cut at the first terminator. */
  lemma BodyCut(body: string, terminator: string, error: XmlError, make: string -> Node) returns (value: string)
    requires terminator != [] && error != XML_NO_ERROR && ParseLeaf(body, terminator, error, make).One?
    ensures var r := ParseLeaf(body, terminator, error, make);
            r.node == make(value) && body == value + terminator + r.rest && !Occurs(terminator, value)
  {
    ParseTextIsFirst(body, terminator);
    value := ParseText(body, terminator).text;
    NotOccurs(value, terminator, ParseText(body, terminator).rest);
  }

  lemma LeafIsWritten(s: string) returns (w: Written)
    requires SkipWhiteSpace(s) != [] && !Identify(s).0.ElementTag? && !Identify(s).0.TextRun? && ParseOne(s).One?
    ensures w.WrittenLeaf? && Good(w) && ParseOne(s).node == TreeOf(w) && s == Gap(w) + Core(w) + ParseOne(s).rest
  {
    var gap := Skipped(s);
    IdentifiedAs(s);
    var t := SkipWhiteSpace(s);
    var (kind, body) := Identify(s);
    var leaf := LeafFrom(kind, body, t);
    w := WrittenLeaf(gap, leaf);
    var rest := ParseLeafNode(kind, body).rest;
    IsLeafNode(s, kind, body);
    hide SkipWhiteSpace, ParseOne, ParseLeafNode, Identify, SpellLeaf, GoodLeaf, Blank;
    Assoc(gap, SpellLeaf(leaf), rest);
  }

  lemma IsLeafNode(s: string, kind: Kind, body: string)
    requires SkipWhiteSpace(s) != [] && Identify(s) == (kind, body) && !kind.ElementTag?
    ensures !kind.NothingLeft? && (kind.TextRun? ==> body != [] && body[0] != '<')
    ensures ParseOne(s) == ParseLeafNode(kind, body)
  {
    hide SkipWhiteSpace, Identify, ParseLeafNode;
  }

  lemma LeafFrom(kind: Kind, body: string, t: string) returns (leaf: Node)
    requires !kind.NothingLeft? && !kind.ElementTag? && !kind.TextRun? && ParseLeafNode(kind, body).One?
    requires kind.DeclarationTag? ==> "<?" <= t && body == t[2..]
    requires kind.CommentTag? ==> "<!--" <= t && body == t[4..]
    requires kind.CDataTag? ==> "<![CDATA[" <= t && body == t[9..]
    requires kind.UnknownTag? ==> "<!" <= t && !("<!--" <= t) && !("<![CDATA[" <= t) && body == t[2..]
    ensures leaf == ParseLeafNode(kind, body).node && GoodLeaf(leaf) && t == SpellLeaf(leaf) + ParseLeafNode(kind, body).rest
  {
    var r := ParseLeafNode(kind, body);
    leaf := r.node;
    match kind {
      case DeclarationTag =>
        var value := BodyCut(body, "?>", XML_ERROR_PARSING_DECLARATION, v => Declaration(v));
        Headed(t, "<?", value, "?>", r.rest);
      case CommentTag =>
        var value := BodyCut(body, "-->", XML_ERROR_PARSING_COMMENT, v => Comment(v));
        Headed(t, "<!--", value, "-->", r.rest);
      case CDataTag =>
        var value := BodyCut(body, "]]>", XML_ERROR_PARSING_CDATA, v => Text(v, true));
        Headed(t, "<![CDATA[", value, "]]>", r.rest);
      case UnknownTag =>
        var value := BodyCut(body, ">", XML_ERROR_PARSING_UNKNOWN, v => Unknown(v));
        Headed(t, "<!", value, ">", r.rest);
        UnknownValue(value, r.rest);
    }
  }

  lemma Headed(t: string, head: string, value: string, terminator: string, rest: string)
    requires head <= t && t[|head|..] == value + terminator + rest
    ensures t == head + value + terminator + rest
  {
    assert t == head + t[|head|..];
  }

  lemma UnknownValue(value: string, rest: string)
    requires var t := "<!" + value + ">" + rest; !("<!--" <= t) && !("<![CDATA[" <= t)
    requires !Occurs(">", value)
    ensures '>' !in value && !("--" <= value) && !("[CDATA[" <= value)
  {
    var t := "<!" + value + ">" + rest;
    assert t == "<!" + (value + (">" + rest));
    NoChar(value);
    StartsWithin("--", value, rest);
    StartsWithin("[CDATA[", value, rest);
    assert "<!" + "--" == "<!--" && "<!" + "[CDATA[" == "<![CDATA[";
  }

  lemma NoChar(value: string)
    requires !Occurs(">", value)
    ensures '>' !in value
  {
    forall i | 0 <= i < |value|
      ensures value[i] != '>'
    {
      OneAt(value, i, '>');
    }
  }

  lemma StartsWithin(more: string, value: string, rest: string)
    ensures more <= value ==> "<!" + more <= "<!" + (value + (">" + rest))
  {
    if more <= value {
      assert value == more + value[|more|..];
      assert "<!" + (value + (">" + rest)) == "<!" + more + (value[|more|..] + (">" + rest));
    }
  }

  lemma TextIsWritten(s: string) returns (w: Written)
    requires SkipWhiteSpace(s) != [] && Identify(s).0.TextRun? && ParseOne(s).One?
    ensures w.WrittenText? && Good(w) && ParseOne(s).node == TreeOf(w) && s == Gap(w) + Core(w) + ParseOne(s).rest
    ensures StartsTag(ParseOne(s).rest)
  {
    IdentifiedAs(s);
    IsLeafNode(s, Identify(s).0, s);
    ParseTextIsFirst(s, "<");
    var cut := ParseText(s, "<");
    NotInside(cut.text, '<', cut.rest, s);
    NotBlank(s, cut.text, cut.rest);
    w := WrittenText(cut.text);
    hide SkipWhiteSpace, Identify, ParseText, ParseOne, Blank;
    assert ParseTextRun(s) == One(Text(cut.text, false), "<" + cut.rest);
    assert cut.text + "<" + cut.rest == "" + cut.text + ("<" + cut.rest);
  }

  lemma NotBlank(s: string, text: string, rest: string)
    requires s == text + "<" + rest && SkipWhiteSpace(s) != [] && !("<" <= SkipWhiteSpace(s))
    ensures !Blank(text)
  {
    if Blank(text) {
      assert s == text + ("<" + rest);
      SkipBlanksExactly(text, "<" + rest);
    }
  }

  /** What ends a list: nothing, or the closing tag of the element around it. */
  ghost predicate Closed(behind: string, r: Nodes, close: WrittenTag)
    requires r.Nodes?
  {
    match r.end
    case None => behind == ""
    case Some(name) =>
      GoodTag(close) && close.closing && !close.sealed && close.name == name && behind == "<" + (SpellTag(close) + r.rest)
  }

  lemma ElementTagOf(s: string) returns (gap: string, body: string, tag: WrittenTag)
    requires SkipWhiteSpace(s) != [] && Identify(s).0.ElementTag? && !ParseOne(s).BadNode?
    ensures Blank(gap) && GoodTag(tag) && !ParseTag(body).BadTag? && ParseTag(body) == TagOf(tag, ParseTag(body).rest)
    ensures ParseOne(s) == ParseElement(body) && |body| < |s|
    ensures s == gap + ("<" + (SpellTag(tag) + ParseTag(body).rest))
  {
    IdentifiedAs(s);
    gap := Skipped(s);
    var t := SkipWhiteSpace(s);
    body := Identify(s).1;
    ElementIs(s, body);
    TagIsRead(body);
    hide SkipWhiteSpace, Identify, ParseOne, ParseElement, ParseTag;
    tag := TagIsWritten(body);
    assert t == "<" + body;
  }

  lemma TagIsRead(body: string)
    requires !ParseElement(body).BadNode?
    ensures !ParseTag(body).BadTag?
  {
    hide ParseTag, ParseNodes;
  }

  lemma {:induction false} NodeIsWritten(s: string) returns (w: Written)
    requires SkipWhiteSpace(s) != [] && ParseOne(s).One?
    ensures Good(w) && ParseOne(s).node == TreeOf(w) && s == Gap(w) + Core(w) + ParseOne(s).rest
    ensures w.WrittenText? ==> StartsTag(ParseOne(s).rest)
    decreases |s|, 0
  {
    hide SkipWhiteSpace, Identify, ParseOne, ParseTag, SpellTag, GoodTag;
    if Identify(s).0.TextRun? {
      w := TextIsWritten(s);
    } else if !Identify(s).0.ElementTag? {
      w := LeafIsWritten(s);
    } else {
      var gap, body, tag := ElementTagOf(s);
      var rest := ParseTag(body).rest;
      TagShorter(body);
      if tag.sealed {
        w := WrittenSingle(gap, tag);
        SingleAlgebra(gap, SpellTag(tag), rest);
      } else {
        OpenElement(body, tag);
        var ws, closeGap, close := AllAreWritten(rest);
        w := WrittenElement(gap, tag, ws, closeGap, close);
        ElementWritten(body, tag, w, s);
      }
    }
  }

  lemma TagShorter(body: string)
    requires !ParseTag(body).BadTag?
    ensures |ParseTag(body).rest| < |body|
  {
  }

  lemma SingleAlgebra(gap: string, tag: string, rest: string)
    ensures gap + ("<" + (tag + rest)) == gap + ("<" + tag) + rest
  {
  }

  lemma OpenElement(body: string, tag: WrittenTag)
    requires ParseElement(body).One? && !ParseTag(body).BadTag? && ParseTag(body) == TagOf(tag, ParseTag(body).rest) && !tag.sealed
    ensures !tag.closing
    ensures var r := ParseNodes(ParseTag(body).rest);
            && r.Nodes? && r.end == Some(tag.name)
            && ParseElement(body) == One(Element(tag.name, AttributesOf(tag.attributes), r.nodes, false), r.rest)
  {
    hide ParseTag, ParseNodes, AttributesOf;
  }

  lemma ElementWritten(body: string, tag: WrittenTag, w: Written, s: string)
    requires w.WrittenElement? && w.tag == tag && GoodTag(tag) && !tag.sealed && !tag.closing && !ParseTag(body).BadTag? && Blank(w.gap)
    requires SkipWhiteSpace(s) != []
    requires var rest := ParseTag(body).rest;
             var r := ParseNodes(rest);
             && r.Nodes? && r.end == Some(tag.name) && GoodAll(w.children) && r.nodes == TreesOf(w.children) && Blank(w.closeGap)
             && (EndsInText(w.children) ==> w.closeGap == "") && Closed("<" + (SpellTag(w.close) + r.rest), r, w.close)
             && rest == SpellAll(w.children) + (w.closeGap + ("<" + (SpellTag(w.close) + r.rest)))
             && s == w.gap + ("<" + (SpellTag(tag) + rest))
             && ParseOne(s) == One(Element(tag.name, AttributesOf(tag.attributes), r.nodes, false), r.rest)
    ensures Good(w) && ParseOne(s).node == TreeOf(w) && s == Gap(w) + Core(w) + ParseOne(s).rest
  {
    var r := ParseNodes(ParseTag(body).rest);
    CoreAlgebra(SpellTag(tag), SpellAll(w.children), w.closeGap, SpellTag(w.close), r.rest);
    hide ParseTag, ParseNodes, ParseOne, SpellTag, GoodTag, SpellAll, TreesOf, GoodAll, AttributesOf;
    Assoc(w.gap, Core(w), r.rest);
  }

  lemma EndTagOf(s: string) returns (gap: string, close: WrittenTag)
    requires SkipWhiteSpace(s) != [] && ParseOne(s).End?
    ensures Blank(gap) && GoodTag(close) && close.closing && !close.sealed && close.name == ParseOne(s).name
    ensures s == gap + ("<" + (SpellTag(close) + ParseOne(s).rest))
  {
    hide SkipWhiteSpace, Identify, ParseTag, SpellTag, GoodTag, AttributesOf;
    EndIsElement(s);
    var body;
    gap, body, close := ElementTagOf(s);
    EndFrom(body, close);
  }

  lemma EndIsElement(s: string)
    requires SkipWhiteSpace(s) != [] && ParseOne(s).End?
    ensures Identify(s).0.ElementTag?
  {
    hide SkipWhiteSpace, Identify, ParseElement;
  }

  lemma EndFrom(body: string, close: WrittenTag)
    requires ParseElement(body).End? && !ParseTag(body).BadTag? && ParseTag(body) == TagOf(close, ParseTag(body).rest)
    ensures close.closing && !close.sealed && close.name == ParseElement(body).name && ParseElement(body).rest == ParseTag(body).rest
  {
    hide ParseTag, ParseNodes, AttributesOf;
  }

  // Whatever is read as nodes was written, up to the closing tag or the end of the input.
  lemma {:induction false} AllAreWritten(s: string) returns (ws: seq<Written>, gap: string, close: WrittenTag)
    requires ParseNodes(s).Nodes?
    ensures GoodAll(ws) && ParseNodes(s).nodes == TreesOf(ws) && Blank(gap) && (EndsInText(ws) ==> gap == "")
    ensures var r := ParseNodes(s);
            if r.end.None? then s == SpellAll(ws) + gap && !EndsInText(ws)
            else Closed("<" + (SpellTag(close) + r.rest), r, close) && s == SpellAll(ws) + (gap + ("<" + (SpellTag(close) + r.rest)))
    decreases |s|, 1
  {
    hide ParseOne, Good, GoodAll, SpellAll, SkipWhiteSpace, SpellTag, GoodTag, Blank;
    ws, close := [], WrittenTag("", false, "", [], "", false);
    NothingWritten();
    if SkipWhiteSpace(s) == [] {
      gap := Skipped(s);
      assert s == gap && "" + gap == gap;
    } else if ParseOne(s).End? {
      gap, close := EndTagOf(s);
      assert "" + s == s;
    } else {
      ReadMore(s);
      var w := NodeIsWritten(s);
      var rest := ParseOne(s).rest;
      var more;
      more, gap, close := AllAreWritten(rest);
      ws := [w] + more;
      Written1(w, more, s, rest, gap, close);
    }
  }

  lemma NothingWritten()
    ensures GoodAll([]) && TreesOf([]) == [] && SpellAll([]) == "" && !EndsInText([]) && Blank("")
  {
  }

  lemma ReadMore(s: string)
    requires ParseNodes(s).Nodes? && SkipWhiteSpace(s) != [] && !ParseOne(s).End?
    ensures ParseOne(s).One? && ParseNodes(ParseOne(s).rest).Nodes?
    ensures var r := ParseNodes(ParseOne(s).rest);
            ParseNodes(s) == Nodes([ParseOne(s).node] + r.nodes, r.end, r.rest)
  {
    hide ParseOne, SkipWhiteSpace;
  }

  lemma Written1(w: Written, more: seq<Written>, s: string, rest: string, gap: string, close: WrittenTag)
    requires Good(w) && GoodAll(more) && (w.WrittenText? ==> StartsTag(rest)) && (EndsInText(more) ==> gap == "") && Blank(gap)
    requires s == Gap(w) + Core(w) + rest
    requires ParseNodes(rest).Nodes?
    requires var r := ParseNodes(rest);
             if r.end.None? then rest == SpellAll(more) + gap && !EndsInText(more)
             else Closed("<" + (SpellTag(close) + r.rest), r, close)
                  && rest == SpellAll(more) + (gap + ("<" + (SpellTag(close) + r.rest)))
    ensures var ws := [w] + more;
            && GoodAll(ws) && TreesOf(ws) == [TreeOf(w)] + TreesOf(more) && (EndsInText(ws) ==> gap == "")
            && var r := ParseNodes(rest);
               if r.end.None? then s == SpellAll(ws) + gap && !EndsInText(ws)
               else s == SpellAll(ws) + (gap + ("<" + (SpellTag(close) + r.rest)))
  {
    var ws := [w] + more;
    var r := ParseNodes(rest);
    var tail := if r.end.None? then gap else gap + ("<" + (SpellTag(close) + r.rest));
    hide ParseNodes, Core, Good, SpellTag, GoodTag, TreeOf;
    assert ws[1..] == more && ws[0] == w;
    SpellMore(w, more);
    Assoc(Gap(w) + Core(w), SpellAll(more), tail);
    assert rest == SpellAll(more) + tail;
    if w.WrittenText? {
      AfterText(more, tail, gap);
    }
    assert more != [] ==> ws[|ws| - 1] == more[|more| - 1];
    hide SpellAll;
  }

  lemma SpellMore(w: Written, more: seq<Written>)
    ensures SpellAll([w] + more) == Gap(w) + Core(w) + SpellAll(more) && TreesOf([w] + more) == [TreeOf(w)] + TreesOf(more)
  {
    hide Core, TreeOf;
    assert ([w] + more)[1..] == more;
  }

  // What is read behind a text starts with a tag, so no text and no blanks follow.
  lemma AfterText(more: seq<Written>, tail: string, gap: string)
    requires GoodAll(more) && StartsTag(SpellAll(more) + tail) && Blank(gap) && gap <= tail
    ensures more != [] ==> !more[0].WrittenText? && Gap(more[0]) == ""
    ensures more == [] ==> gap == "" && tail != ""
  {
    if more == [] {
      assert "" + tail == tail;
      BlankStarts(gap, tail);
    } else {
      GoodParts(more);
      StartsBlank(more[0], SpellAll(more[1..]) + tail);
      Assoc(Gap(more[0]) + Core(more[0]), SpellAll(more[1..]), tail);
    }
  }

  lemma BlankStarts(gap: string, s: string)
    requires Blank(gap) && gap <= s
    ensures gap != "" ==> s != "" && s[0] != '<'
  {
    if gap != "" {
      assert gap[0] in gap && s[0] == gap[0];
    }
  }

  lemma StartsBlank(w: Written, rest: string)
    requires Good(w) && StartsTag(Gap(w) + Core(w) + rest)
    ensures !w.WrittenText? && Gap(w) == ""
  {
    GapBlank(w);
    BlankStarts(Gap(w), Gap(w) + Core(w) + rest);
    if w.WrittenText? {
      TextBegins(w, rest);
    }
  }

  lemma TextBegins(w: Written, rest: string)
    requires Good(w) && w.WrittenText?
    ensures var s := Gap(w) + Core(w) + rest; s != "" && s[0] != '<'
  {
    TextWritten(w);
    assert w.text != "" && w.text[0] in w.text;
    assert (Gap(w) + Core(w) + rest)[0] == w.text[0];
  }
}
