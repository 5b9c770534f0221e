/**
  Whole documents: which inputs are accepted, and which error each kind of broken input is reported with.
 */
module SourceErrors {
  import opened Options
  import opened XmlChars
  import opened XmlTree
  import opened Grammar
  import opened Rendering
  import opened RoundTrip
  import opened SourceText
  import opened SourceDocument
  import EntityDecoding

  // ----- accepted documents

  /** `u` is these written nodes up to its end, or up to a closing tag that ends the reading, with anything behind it. */
  predicate SpelledBy(u: string, ws: seq<Written>, gap: string, close: WrittenTag, rest: string) {
    && GoodAll(ws) && Blank(gap) && (EndsInText(ws) ==> gap == "")
    && (|| (u == SpellAll(ws) + gap && !EndsInText(ws))
        || (GoodTag(close) && close.closing && !close.sealed && u == SpellAll(ws) + (gap + ("<" + (SpellTag(close) + rest)))))
  }

  ghost predicate Spells(u: string, nodes: seq<Node>) {
    exists ws, gap, close, rest :: SpelledBy(u, ws, gap, close, rest) && nodes == TreesOf(ws)
  }

  lemma SpelledReads(ws: seq<Written>, gap: string, close: WrittenTag, rest: string)
    requires GoodAll(ws) && Blank(gap) && (EndsInText(ws) ==> gap == "")
    ensures !EndsInText(ws) ==> ParseNodes(SpellAll(ws) + gap) == Nodes(TreesOf(ws), None, [])
    ensures GoodTag(close) && close.closing && !close.sealed ==>
              ParseNodes(SpellAll(ws) + (gap + ("<" + (SpellTag(close) + rest)))) == Nodes(TreesOf(ws), Some(close.name), rest)
  {
    hide ParseNodes, GoodTag, SpellTag, GoodAll, SpellAll;
    assert TreesOf(ws) + [] == TreesOf(ws);
    if !EndsInText(ws) {
      AllRead(ws, gap);
      BlankReads(gap);
    }
    if GoodTag(close) && close.closing && !close.sealed {
      CloseBegins(ws, gap, close, rest);
      AllRead(ws, gap + ("<" + (SpellTag(close) + rest)));
      ClosingReads(gap, close, rest);
    }
  }

  lemma BlankReads(gap: string)
    requires Blank(gap)
    ensures ParseNodes(gap) == Nodes([], None, [])
  {
    NothingToParse();
    BlanksIgnored(gap, []);
    assert gap + [] == gap;
  }

  // The parser reads nodes from a text exactly if it spells them.
  lemma NodesIff(u: string, nodes: seq<Node>)
    ensures ParseNodes(u).Nodes? && ParseNodes(u).nodes == nodes <==> Spells(u, nodes)
  {
    hide ParseNodes, GoodTag, SpellTag, GoodAll, SpellAll, TreesOf, Blank;
    if Spells(u, nodes) {
      var ws, gap, close, rest :| SpelledBy(u, ws, gap, close, rest) && nodes == TreesOf(ws);
      SpelledReads(ws, gap, close, rest);
    }
    if ParseNodes(u).Nodes? && ParseNodes(u).nodes == nodes {
      var ws, gap, close := AllAreWritten(u);
      assert SpelledBy(u, ws, gap, close, ParseNodes(u).rest);
    }
  }

  /** Blanks, the byte order mark or none, and something else. */
  predicate Starts(s: string, lead: string, mark: bool, u: string) {
    && Blank(lead) && u != ""
    && if mark then s == lead + (BOM + u) else s == lead + u && !IsWhiteSpace(u[0]) && !(BOM <= u)
  }

  // A document is accepted, with these nodes and this byte order mark, exactly if it spells them.
  lemma AcceptedIff(input: string, nodes: seq<Node>, mark: bool)
    ensures ParseDocument(input) == Document(nodes, mark)
            <==> exists lead, u :: Starts(CString(input), lead, mark, u) && Spells(u, nodes)
  {
    hide ParseNodes, Spells, CString, SkipWhiteSpace, Blank, ParseDocument, Starts;
    var s := CString(input);
    var t := SkipWhiteSpace(s);
    var u := if BOM <= t then t[3..] else t;
    NodesIff(u, nodes);
    DocumentOf(input, nodes, mark);
    if ParseDocument(input) == Document(nodes, mark) {
      var lead := Skipped(s);
      StartsFrom(s, lead, t, mark, u);
      assert Starts(s, lead, mark, u) && Spells(u, nodes);
    }
    if lead, v :| Starts(s, lead, mark, v) && Spells(v, nodes) {
      StartIs(s, lead, mark, v);
    }
  }

  lemma DocumentOf(input: string, nodes: seq<Node>, mark: bool)
    ensures var t := SkipWhiteSpace(CString(input));
            var u := if BOM <= t then t[3..] else t;
            ParseDocument(input) == Document(nodes, mark)
            <==> mark == (BOM <= t) && u != "" && ParseNodes(u).Nodes? && ParseNodes(u).nodes == nodes
  {
    hide ParseNodes, CString, SkipWhiteSpace;
  }

  lemma StartsFrom(s: string, lead: string, t: string, mark: bool, u: string)
    requires Blank(lead) && s == lead + t && t == SkipWhiteSpace(s) && mark == (BOM <= t) && u == (if mark then t[3..] else t) && u != ""
    ensures Starts(s, lead, mark, u)
  {
    if mark {
      assert t == BOM + t[3..];
    }
  }

  lemma StartIs(s: string, lead: string, mark: bool, u: string)
    requires Starts(s, lead, mark, u)
    ensures var t := SkipWhiteSpace(s); mark == (BOM <= t) && u != "" && u == if mark then t[3..] else t
  {
    var t := if mark then BOM + u else u;
    assert t[0] == if mark then BOM[0] else u[0];
    SkipBlanksExactly(lead, t);
  }

  // ----- errors

  // What goes wrong behind nodes that can be read is reported for the whole list.
  lemma ErrorBehind(ws: seq<Written>, bad: string, error: XmlError)
    requires GoodAll(ws) && !EndsInText(ws) && ParseNodes(bad) == BadNodes(error)
    ensures ParseNodes(SpellAll(ws) + bad) == BadNodes(error)
  {
    AllRead(ws, bad);
    hide *;
  }

  // An error inside an element is reported for the element.
  lemma ErrorInside(tag: WrittenTag, bad: string, error: XmlError)
    requires GoodTag(tag) && !tag.sealed && !tag.closing && bad != "" && ParseNodes(bad) == BadNodes(error)
    ensures ParseNodes("<" + (SpellTag(tag) + bad)) == BadNodes(error)
  {
    TagBegins(tag, bad);
    TagReads(tag, bad);
    hide SpellTag, ParseTag, GoodTag;
  }

  lemma Uncut(value: string, terminator: string)
    requires terminator != [] && !Occurs(terminator, value)
    ensures ParseText(value, terminator) == NoCut
  {
    ParseTextIsFirst(value, terminator);
    var r := ParseText(value, terminator);
    if r.Cut? {
      OccursAt(value, terminator, |r.text|, r);
    }
  }

  lemma OccursAt(value: string, terminator: string, i: nat, r: Cut)
    requires r.Cut? && value == r.text + terminator + r.rest && i == |r.text|
    ensures Occurs(terminator, value)
  {
    assert value[i..] == terminator + r.rest;
    assert terminator <= value[i..];
  }

  // A comment, CDATA section, declaration or unknown that does not end.
  lemma UnfinishedLeaves(value: string)
    ensures !Occurs("-->", value) ==> ParseNodes("<!--" + value) == BadNodes(XML_ERROR_PARSING_COMMENT)
    ensures !Occurs("]]>", value) ==> ParseNodes("<![CDATA[" + value) == BadNodes(XML_ERROR_PARSING_CDATA)
    ensures !Occurs("?>", value) ==> ParseNodes("<?" + value) == BadNodes(XML_ERROR_PARSING_DECLARATION)
    ensures '>' !in value && !("--" <= value) && !("[CDATA[" <= value) ==> ParseNodes("<!" + value) == BadNodes(XML_ERROR_PARSING_UNKNOWN)
  {
    if !Occurs("-->", value) {
      Uncut(value, "-->");
      LeafFails("<!--" + value, CommentTag, value, XML_ERROR_PARSING_COMMENT);
    }
    if !Occurs("]]>", value) {
      Uncut(value, "]]>");
      LeafFails("<![CDATA[" + value, CDataTag, value, XML_ERROR_PARSING_CDATA);
    }
    if !Occurs("?>", value) {
      Uncut(value, "?>");
      LeafFails("<?" + value, DeclarationTag, value, XML_ERROR_PARSING_DECLARATION);
    }
    if '>' !in value && !("--" <= value) && !("[CDATA[" <= value) {
      if Occurs(">", value) {
        CharOccurs('>', value);
      }
      Uncut(value, ">");
      UnknownIs(value);
      LeafFails("<!" + value, UnknownTag, value, XML_ERROR_PARSING_UNKNOWN);
    }
  }

  lemma UnknownIs(value: string)
    requires !("--" <= value) && !("[CDATA[" <= value)
    ensures !("<!--" <= "<!" + value) && !("<![CDATA[" <= "<!" + value)
  {
    BehindHead("<!", "--", value);
    BehindHead("<!", "[CDATA[", value);
    assert "<!" + "--" == "<!--" && "<!" + "[CDATA[" == "<![CDATA[";
  }

  function Head(kind: Kind): string {
    if kind.CommentTag? then "<!--" else if kind.CDataTag? then "<![CDATA[" else if kind.DeclarationTag? then "<?" else "<!"
  }

  lemma LeafFails(s: string, kind: Kind, body: string, error: XmlError)
    requires kind.CommentTag? || kind.CDataTag? || kind.DeclarationTag? || kind.UnknownTag?
    requires s == Head(kind) + body && (kind.UnknownTag? ==> !("<!--" <= s) && !("<![CDATA[" <= s))
    requires ParseLeafNode(kind, body) == BadNode(error)
    ensures ParseNodes(s) == BadNodes(error)
  {
    assert s[0] == '<' && Head(kind) <= s && s[|Head(kind)|..] == body;
    TagStarts(s);
    IsLeafNode(s, kind, body);
    hide ParseLeafNode, Identify, SkipWhiteSpace, ParseOne;
  }

  lemma ElementFails(body: string, error: XmlError)
    requires body != [] && body[0] != '?' && body[0] != '!' && ParseElement(body) == BadNode(error)
    ensures ParseNodes("<" + body) == BadNodes(error)
  {
    ElementHeader(body);
    ElementIs("<" + body, body);
    hide ParseElement, Identify, SkipWhiteSpace, ParseOne;
  }

  // A closing tag of another name.
  lemma Mismatched(tag: WrittenTag, ws: seq<Written>, gap: string, close: WrittenTag, rest: string)
    requires GoodTag(tag) && !tag.sealed && !tag.closing && GoodAll(ws) && Blank(gap) && (EndsInText(ws) ==> gap == "")
    requires GoodTag(close) && close.closing && !close.sealed && close.name != tag.name
    ensures ParseNodes("<" + (SpellTag(tag) + (SpellAll(ws) + (gap + ("<" + (SpellTag(close) + rest))))))
         == BadNodes(XML_ERROR_MISMATCHED_ELEMENT)
  {
    var tail := SpellAll(ws) + (gap + ("<" + (SpellTag(close) + rest)));
    SpelledReads(ws, gap, close, rest);
    NothingToParse();
    TagBegins(tag, tail);
    TagReads(tag, tail);
    hide SpellTag, ParseTag, GoodTag, SpellAll, GoodAll, ParseNodes, ParseOne;
    assert tail != [] by { assert ParseNodes(tail) != ParseNodes([]); }
    ElementFails(SpellTag(tag) + tail, XML_ERROR_MISMATCHED_ELEMENT);
  }

  // A start tag at the very end of the input.
  lemma OpenAtEnd(tag: WrittenTag)
    requires GoodTag(tag) && !tag.sealed && !tag.closing
    ensures ParseNodes("<" + SpellTag(tag)) == BadNodes(XML_ERROR_MISMATCHED_ELEMENT)
  {
    TagBegins(tag, "");
    TagReads(tag, "");
    hide SpellTag, ParseTag, GoodTag, ParseNodes, ParseOne;
    assert SpellTag(tag) + "" == SpellTag(tag);
    ElementFails(SpellTag(tag), XML_ERROR_MISMATCHED_ELEMENT);
  }

  // An element whose content comes to the end of the input.
  lemma Unclosed(tag: WrittenTag, ws: seq<Written>, gap: string)
    requires GoodTag(tag) && !tag.sealed && !tag.closing && GoodAll(ws) && Blank(gap) && !EndsInText(ws) && SpellAll(ws) + gap != ""
    ensures ParseNodes("<" + (SpellTag(tag) + (SpellAll(ws) + gap))) == BadNodes(XML_ERROR_PARSING)
  {
    var tail := SpellAll(ws) + gap;
    SpelledReads(ws, gap, tag, "");
    TagBegins(tag, tail);
    TagReads(tag, tail);
    hide SpellTag, ParseTag, GoodTag, SpellAll, GoodAll, ParseNodes, ParseOne;
    ElementFails(SpellTag(tag) + tail, XML_ERROR_PARSING);
  }

  // Behind a name, attributes and blanks there must be another attribute or the end of the tag.
  lemma BadTail(attributes: seq<WrittenAttribute>, gap: string, bad: string)
    requires GoodAttributes(attributes) && Blank(gap) && (bad != "" ==> !IsWhiteSpace(bad[0]))
    ensures var r := ParseAttributes(SpellAttributes(attributes) + (gap + bad), []);
            && (bad == "" ==> r == BadHead(XML_ERROR_PARSING_ELEMENT))
            && (bad != "" && !IsNameStartChar(bad[0]) && bad[0] != '>' && !("/>" <= bad) ==> r == BadHead(XML_ERROR_PARSING_ELEMENT))
            && (bad != "" && IsNameStartChar(bad[0]) && ParseAttribute(bad) == None ==> r == BadHead(XML_ERROR_PARSING_ATTRIBUTE))
  {
    NothingSeen(attributes);
    AttributesThen(attributes, [], gap + bad);
    SkipBlanksExactly(gap, bad);
    assert "/>" <= bad <==> bad != "" && bad[0] == '/' && Peek(bad, 1) == '>' by {
      if bad != "" && bad[0] == '/' && Peek(bad, 1) == '>' {
        assert bad[..2] == "/>";
      }
    }
    hide SkipWhiteSpace, ParseAttribute;
  }

  lemma {:induction false} AttributesThen(attributes: seq<WrittenAttribute>, seen: seq<Attribute>, tail: string)
    requires GoodAttributes(attributes) && Unseen(attributes, seen)
    ensures ParseAttributes(SpellAttributes(attributes) + tail, seen) == ParseAttributes(tail, seen + AttributesOf(attributes))
    decreases |attributes|
  {
    hide ParseAttributes, GoodAttributes, Unseen, SpellAttribute;
    if attributes == [] {
      assert "" + tail == tail && seen + AttributesOf(attributes) == seen;
    } else {
      var a, more := attributes[0], attributes[1..];
      OneMoreSeen(attributes, seen);
      AttributesThen(more, seen + [Attribute(a.name, a.value)], tail);
      Assoc(SpellAttribute(a), SpellAttributes(more), tail);
      AttributeTaken(a, SpellAttributes(more) + tail, seen);
    }
  }

  // A second attribute of a name is an error, unless decoding the first one's value crashes.
  lemma RepeatedAttribute(attributes: seq<WrittenAttribute>, k: nat, again: WrittenAttribute, tail: string)
    requires GoodAttributes(attributes) && k < |attributes| && GoodAttribute(again) && again.name == attributes[k].name
    requires EntityDecoding.Decode(attributes[k].value, EntityDecoding.ATTRIBUTE_VALUE).Decoded?
    ensures ParseAttributes(SpellAttributes(attributes) + (SpellAttribute(again) + tail), []) == BadHead(XML_ERROR_PARSING_ATTRIBUTE)
  {
    hide ParseAttributes, SpellAttribute, SpellAttributes, GoodAttribute, Unseen;
    NothingSeen(attributes);
    AttributesThen(attributes, [], SpellAttribute(again) + tail);
    var seen := AttributesOf(attributes);
    assert [] + seen == seen;
    EarlierIs(attributes, k, again.name);
    RepeatFails(again, tail, seen);
  }

  lemma EarlierIs(attributes: seq<WrittenAttribute>, k: nat, name: string)
    requires GoodAttributes(attributes) && k < |attributes| && attributes[k].name == name
    requires EntityDecoding.Decode(attributes[k].value, EntityDecoding.ATTRIBUTE_VALUE).Decoded?
    ensures HasAttribute(AttributesOf(attributes), name)
    ensures RepeatedName(AttributesOf(attributes), name) == XML_ERROR_PARSING_ATTRIBUTE
  {
    hide EntityDecoding.Decode, GoodAttribute;
    var seen := AttributesOf(attributes);
    assert seen[k].name == name;
    assert AttributeIndex(seen, name) == k;
  }

  lemma RepeatFails(a: WrittenAttribute, tail: string, seen: seq<Attribute>)
    requires GoodAttribute(a) && HasAttribute(seen, a.name)
    ensures ParseAttributes(SpellAttribute(a) + tail, seen) == BadHead(RepeatedName(seen, a.name))
  {
    var body := a.name + (a.before + ("=" + (a.after + ([a.quote] + (a.value + [a.quote])))));
    AttributeReads(a, tail);
    Assoc(a.gap, body, tail);
    assert (body + tail)[0] == a.name[0];
    NameNotBlank(a.name[0]);
    SkipBlanksExactly(a.gap, body + tail);
    hide SkipWhiteSpace, ParseAttribute, HasAttribute, IsName, Blank, RepeatedName;
  }

  // A broken tag makes the node, and what it stands in, fail with its error; a tag without a name is an error of its own.
  lemma TagFails(gap: string, closing: bool, name: string, tail: string, error: XmlError)
    requires Blank(gap) && IsName(name) && tail != [] && !IsNameChar(tail[0]) && ParseAttributes(tail, []) == BadHead(error)
    ensures ParseNodes("<" + (gap + ((if closing then "/" else "") + (name + tail)))) == BadNodes(error)
  {
    var body := gap + ((if closing then "/" else "") + (name + tail));
    TagNamed(gap, closing, name, tail);
    if gap != "" {
      assert gap[0] in gap && body[0] == gap[0];
    } else {
      assert body[0] == if closing then '/' else name[0];
    }
    hide ParseTag, ParseAttributes, Blank;
    ElementFails(body, error);
  }

  lemma NamelessTag(gap: string, body: string)
    requires Blank(gap) && (body == "" || (!IsNameStartChar(body[0]) && !IsWhiteSpace(body[0]) && body[0] !in "/?!"))
    ensures gap != "" || body != "" ==> ParseNodes("<" + (gap + body)) == BadNodes(XML_ERROR_PARSING)
  {
    SkipBlanksExactly(gap, body);
    assert "/?!"[0] == '/' && "/?!"[1] == '?' && "/?!"[2] == '!';
    if gap != "" {
      assert gap[0] in gap && (gap + body)[0] == gap[0];
    } else {
      assert gap + body == body;
    }
    hide SkipWhiteSpace, ParseAttributes, ParseNodes, Blank;
    if gap != "" || body != "" {
      assert ParseTag(gap + body) == BadTag(XML_ERROR_PARSING);
      ElementFails(gap + body, XML_ERROR_PARSING);
    }
  }

  // An empty document, and one whose nodes cannot be read.
  lemma DocumentFails(input: string, lead: string, mark: bool, u: string, error: XmlError)
    ensures Blank(CString(input)) ==> ParseDocument(input) == BadDocument(XML_ERROR_EMPTY_DOCUMENT)
    ensures Starts(CString(input), lead, mark, u) && ParseNodes(u) == BadNodes(error) ==> ParseDocument(input) == BadDocument(error)
  {
    var s := CString(input);
    if Blank(s) {
      SkipBlanksExactly(s, []);
      assert s + [] == s;
    }
    if Starts(s, lead, mark, u) {
      StartIs(s, lead, mark, u);
    }
    hide ParseNodes, CString, SkipWhiteSpace;
  }
}
