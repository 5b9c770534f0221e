/**
  Parsing undoes printing, in compact and in indented form.
 */
module RoundTrip {
  import opened Options
  import opened XmlChars
  import opened XmlTree
  import opened Grammar
  import opened EntityDecoding
  import opened Escaping
  import opened Rendering
  import opened Denotation

  // ----- tags

  lemma FirstCut(value: string, tag: string, rest: string)
    requires tag != [] && !Occurs(tag, value)
    requires forall i | 0 <= i < |tag| - 1 :: tag[i] != tag[|tag| - 1]
    ensures ParseText(value + tag + rest, tag) == Cut(value, rest)
  {
    var s := value + tag + rest;
    forall i | 0 <= i < |value|
      ensures !(tag <= s[i..])
    {
      EarlierIsInside(value, tag, rest, i);
    }
    ParseTextFinds(value, tag, rest);
  }

  // An occurrence that starts inside the text ends inside it: the last character of the tag is unique.
  lemma EarlierIsInside(value: string, tag: string, rest: string, i: nat)
    requires tag != [] && i < |value|
    requires forall j | 0 <= j < |tag| - 1 :: tag[j] != tag[|tag| - 1]
    ensures tag <= (value + tag + rest)[i..] ==> tag <= value[i..]
  {
    var s := value + tag + rest;
    var last := i + |tag| - 1;
    assert last < |s| && s[i..][|tag| - 1] == s[last];
    assert last >= |value| ==> s[last] == tag[last - |value|] && last - |value| < |tag| - 1;
    if tag <= s[i..] && last < |value| {
      assert tag == s[i..][..|tag|] == value[i..][..|tag|];
    }
  }

  lemma CharOccurs(c: char, s: string)
    requires Occurs([c], s)
    ensures c in s
  {
    var i :| 0 <= i <= |s| && [c] <= s[i..];
    assert s[i..][0] == c;
  }

  lemma NoBlanks(s: string)
    requires s == [] || !IsWhiteSpace(s[0])
    ensures SkipWhiteSpace(s) == s
  {
  }

  lemma AttributeParses(name: string, value: string, tail: string)
    requires IsName(name) && '"' !in value
    ensures ParseAttribute(name + ("=\"" + value + "\"" + tail)) == Some((Attribute(name, value), tail))
  {
    hide SkipWhiteSpace, ParseText, ParseName, Occurs;
    var quoted := "\"" + (value + "\"" + tail);
    var t := "=" + quoted;
    assert "=\"" + value + "\"" + tail == t;
    ParseNameStops(name, t);
    NoBlanks(t);
    NoBlanks(quoted);
    assert t[1..] == quoted && quoted[1..] == value + "\"" + tail && [quoted[0]] == "\"";
    QuoteEnds(value, tail);
  }

  lemma QuoteEnds(value: string, tail: string)
    requires '"' !in value
    ensures ParseText(value + "\"" + tail, "\"") == Cut(value, tail)
  {
    if Occurs("\"", value) {
      CharOccurs('"', value);
    }
    FirstCut(value, "\"", tail);
  }

  /** A tag's end as the printer writes it. */
  predicate TagEnd(s: string) {
    s == "/>" || s == ">"
  }

  lemma EndParses(end: string, tail: string, seen: seq<Attribute>)
    requires TagEnd(end)
    ensures ParseAttributes(end + tail, seen) == Head(seen, end == "/>", tail)
  {
    var s := end + tail;
    NoBlanks(s);
    assert end == "/>" ==> s[0] == '/' && Peek(s, 1) == '>' && s[2..] == tail;
    assert end == ">" ==> s[0] == '>' && s[1..] == tail;
  }

  lemma AttributeStep(name: string, value: string, tail: string, seen: seq<Attribute>)
    requires IsName(name) && '"' !in value && !HasAttribute(seen, name)
    ensures ParseAttributes(" " + name + "=\"" + value + "\"" + tail, seen)
         == ParseAttributes(tail, seen + [Attribute(name, value)])
  {
    hide SkipWhiteSpace, ParseAttribute, HasAttribute;
    var t := name + ("=\"" + value + "\"" + tail);
    assert " " + name + "=\"" + value + "\"" + tail == " " + t;
    assert t[0] == name[0];
    SkipBlanksExactly(" ", t);
    AttributeParses(name, value, tail);
  }

  lemma {:induction false} AttributesParse(attributes: seq<Attribute>, seen: seq<Attribute>, end: string, tail: string)
    requires PrintableAttributes(attributes) && TagEnd(end)
    requires forall i | 0 <= i < |attributes| :: !HasAttribute(seen, attributes[i].name)
    ensures ParseAttributes(RenderAttributes(attributes) + (end + tail), seen)
         == Head(seen + RawAttributes(attributes), end == "/>", tail)
    decreases |attributes|
  {
    hide ParseAttributes, Escape, IsName, HasAttribute;
    if attributes == [] {
      EndParses(end, tail, seen);
      assert RenderAttributes(attributes) + (end + tail) == end + tail;
      assert seen + RawAttributes(attributes) == seen;
    } else {
      var a, more := attributes[0], attributes[1..];
      var value := Escape(a.value, false);
      var rest := RenderAttributes(more) + (end + tail);
      EscapeAvoids(a.value, false);
      Assoc(" " + a.name + "=\"" + value + "\"", RenderAttributes(more), end + tail);
      AttributeStep(a.name, value, rest, seen);
      SeenGrows(attributes, seen, value);
      AttributesParse(more, seen + [Attribute(a.name, value)], end, tail);
      assert seen + [Attribute(a.name, value)] + RawAttributes(more) == seen + RawAttributes(attributes);
    }
  }

  lemma SeenGrows(attributes: seq<Attribute>, seen: seq<Attribute>, value: string)
    requires attributes != [] && DistinctNames(attributes)
    requires forall i | 0 <= i < |attributes| :: !HasAttribute(seen, attributes[i].name)
    ensures forall i | 0 <= i < |attributes[1..]| ::
              !HasAttribute(seen + [Attribute(attributes[0].name, value)], attributes[1..][i].name)
  {
    forall i | 0 <= i < |attributes[1..]|
      ensures !HasAttribute(seen + [Attribute(attributes[0].name, value)], attributes[1..][i].name)
    {
      assert attributes[1..][i] == attributes[i + 1];
      assert !HasAttribute(seen, attributes[i + 1].name);
    }
  }

  lemma TagParses(name: string, attributes: seq<Attribute>, end: string, tail: string)
    requires IsName(name) && PrintableAttributes(attributes) && TagEnd(end)
    ensures ParseTag(name + RenderAttributes(attributes) + end + tail)
         == if end == "/>" then ClosedTag(name, RawAttributes(attributes), tail)
            else OpenTag(name, RawAttributes(attributes), tail)
  {
    hide *;
    BehindName(attributes, end, tail);
    AttributesParse(attributes, [], end, tail);
    var rendered, raws := RenderAttributes(attributes), RawAttributes(attributes);
    Assoc(name + rendered, end, tail);
    Assoc(name, rendered, end + tail);
    assert [] + raws == raws;
    NameThenHead(name, rendered + (end + tail), raws, end == "/>", tail);
  }

  lemma BehindName(attributes: seq<Attribute>, end: string, tail: string)
    requires TagEnd(end)
    ensures var rest := RenderAttributes(attributes) + (end + tail); rest != [] && !IsNameChar(rest[0])
    ensures forall i | 0 <= i < |attributes| :: !HasAttribute([], attributes[i].name)
  {
    RenderAttributesHead(attributes);
    hide RenderAttributes;
    var rendered := RenderAttributes(attributes);
    assert (rendered + (end + tail))[0] == if rendered == [] then end[0] else rendered[0];
  }

  lemma NameThenHead(name: string, rest: string, attributes: seq<Attribute>, closed: bool, tail: string)
    requires IsName(name) && rest != [] && !IsNameChar(rest[0])
    requires ParseAttributes(rest, []) == Head(attributes, closed, tail)
    ensures ParseTag(name + rest)
         == if closed then ClosedTag(name, attributes, tail) else OpenTag(name, attributes, tail)
  {
    hide ParseAttributes, SkipWhiteSpace, ParseName;
    assert (name + rest)[0] == name[0];
    NoBlanks(name + rest);
    ParseNameStops(name, rest);
  }

  lemma RenderAttributesHead(attributes: seq<Attribute>)
    ensures attributes == [] ==> RenderAttributes(attributes) == []
    ensures attributes != [] ==> RenderAttributes(attributes) != [] && RenderAttributes(attributes)[0] == ' '
  {
  }

  lemma ClosingTagParses(name: string, tail: string)
    requires IsName(name)
    ensures ParseTag("/" + name + ">" + tail) == ClosingTag(name, tail)
  {
    var s := "/" + name + ">" + tail;
    assert s[0] == '/' && SkipWhiteSpace(s) == s;
    assert s[1..] == name + (">" + tail);
    ParseNameStops(name, ">" + tail);
    assert SkipWhiteSpace(">" + tail) == ">" + tail && (">" + tail)[1..] == tail;
  }

  // ----- white space between nodes

  /** Only blanks before the next tag or the end. */
  predicate Quiet(s: string) {
    SkipWhiteSpace(s) == [] || SkipWhiteSpace(s)[0] == '<'
  }

  predicate StartsTag(s: string) {
    |s| >= 2 && s[0] == '<'
  }

  lemma {:induction false} SkipThrough(w: string, s: string)
    requires Blank(w)
    ensures SkipWhiteSpace(w + s) == SkipWhiteSpace(s)
  {
    if w == [] {
      assert w + s == s;
    } else {
      assert (w + s)[1..] == w[1..] + s;
      SkipThrough(w[1..], s);
    }
  }

  lemma BlanksIgnored(w: string, s: string)
    requires Blank(w) && Quiet(s)
    ensures ParseNodes(w + s) == ParseNodes(s)
    ensures Quiet(w + s)
  {
    SkipThrough(w, s);
    hide ParseElement, ParseLeaf, SkipWhiteSpace;
    if SkipWhiteSpace(s) != [] {
      assert Identify(w + s) == Identify(s);
      assert ParseOne(w + s) == ParseOne(s);
    }
  }

  // ----- one node

  lemma TagStarts(s: string)
    requires s != [] && s[0] == '<'
    ensures SkipWhiteSpace(s) == s
    ensures "<?" <= s ==> Identify(s) == (DeclarationTag, s[2..])
    ensures "<!--" <= s ==> Identify(s) == (CommentTag, s[4..])
    ensures "<![CDATA[" <= s ==> Identify(s) == (CDataTag, s[9..])
    ensures "<!" <= s && !("<!--" <= s) && !("<![CDATA[" <= s) ==> Identify(s) == (UnknownTag, s[2..])
    ensures |s| > 1 && s[1] != '?' && s[1] != '!' ==> Identify(s) == (ElementTag, s[1..])
  {
    assert "<?"[1] == '?' && "<!--"[1] == '!' && "<![CDATA["[1] == '!' && "<!"[1] == '!';
    assert "<!--"[2] == '-' && "<![CDATA["[2] == '[';
    assert s[..1] == "<";
  }

  lemma CommentParses(value: string, tail: string)
    requires !Occurs("-->", value)
    ensures ParseOne("<!--" + value + "-->" + tail) == One(Comment(value), tail)
  {
    var s := "<!--" + value + "-->" + tail;
    FirstCut(value, "-->", tail);
    Behind("<!--", value + "-->", tail, s);
    TagStarts(s);
    hide ParseText, SkipWhiteSpace, Identify, ParseElement;
    assert ParseOne(s) == ParseLeaf(value + "-->" + tail, "-->", XML_ERROR_PARSING_COMMENT, v => Comment(v));
  }

  lemma DeclarationParses(value: string, tail: string)
    requires !Occurs("?>", value)
    ensures ParseOne("<?" + value + "?>" + tail) == One(Declaration(value), tail)
  {
    var s := "<?" + value + "?>" + tail;
    FirstCut(value, "?>", tail);
    Behind("<?", value + "?>", tail, s);
    TagStarts(s);
    hide ParseText, SkipWhiteSpace, Identify, ParseElement;
    assert ParseOne(s) == ParseLeaf(value + "?>" + tail, "?>", XML_ERROR_PARSING_DECLARATION, v => Declaration(v));
  }

  lemma CDataParses(value: string, tail: string)
    requires !Occurs("]]>", value)
    ensures ParseOne("<![CDATA[" + value + "]]>" + tail) == One(Text(value, true), tail)
  {
    var s := "<![CDATA[" + value + "]]>" + tail;
    FirstCut(value, "]]>", tail);
    Behind("<![CDATA[", value + "]]>", tail, s);
    TagStarts(s);
    hide ParseText, SkipWhiteSpace, Identify, ParseElement;
    assert ParseOne(s) == ParseLeaf(value + "]]>" + tail, "]]>", XML_ERROR_PARSING_CDATA, v => Text(v, true));
  }

  lemma UnknownParses(value: string, tail: string)
    requires '>' !in value && !("--" <= value) && !("[CDATA[" <= value)
    ensures ParseOne("<!" + value + ">" + tail) == One(Unknown(value), tail)
  {
    var s := "<!" + value + ">" + tail;
    if Occurs(">", value) {
      CharOccurs('>', value);
    }
    UnknownHeader(value, tail);
    FirstCut(value, ">", tail);
    Behind("<!", value + ">", tail, s);
    TagStarts(s);
    hide ParseText, SkipWhiteSpace, Identify, ParseElement;
    assert ParseOne(s) == ParseLeaf(value + ">" + tail, ">", XML_ERROR_PARSING_UNKNOWN, v => Unknown(v));
  }

  lemma LeafParses(node: Node, tail: string, depth: int, textDepth: int, compact: bool)
    requires Printable(node) && !node.Element? && !PlainText(node)
    ensures StartsTag(Render(node, depth, textDepth, compact))
    ensures ParseOne(Render(node, depth, textDepth, compact) + tail) == One(node, tail)
  {
    hide ParseOne;
    match node
    case Comment(value) => CommentParses(value, tail);
    case Declaration(value) => DeclarationParses(value, tail);
    case Text(value, _) => CDataParses(value, tail);
    case Unknown(value) => UnknownParses(value, tail);
  }

  lemma Behind(head: string, body: string, tail: string, s: string)
    requires s == head + body + tail
    ensures head <= s && s[|head|..] == body + tail
  {
  }

  lemma UnknownHeader(value: string, tail: string)
    requires '>' !in value && !("--" <= value) && !("[CDATA[" <= value)
    ensures var s := "<!" + value + ">" + tail;
            !("<!--" <= s) && !("<![CDATA[" <= s)
  {
    NotPrefix("--", value, tail);
    NotPrefix("[CDATA[", value, tail);
    BehindHead("<!", "--", value + ">" + tail);
    BehindHead("<!", "[CDATA[", value + ">" + tail);
    assert "<!" + "--" == "<!--" && "<!" + "[CDATA[" == "<![CDATA[";
    assert "<!" + value + ">" + tail == "<!" + (value + ">" + tail);
  }

  lemma BehindHead(head: string, more: string, s: string)
    ensures head + more <= head + s ==> more <= s
  {
    if head + more <= head + s {
      assert more == (head + more)[|head|..] == (head + s)[|head|..][..|more|] == s[..|more|];
    }
  }

  // What a text does not start with, it does not start with when closed by ">" either.
  lemma {:induction false} NotPrefix(more: string, value: string, tail: string)
    requires !(more <= value) && '>' !in more
    ensures !(more <= value + ">" + tail)
  {
    var s := value + ">" + tail;
    assert s[0] == if value == [] then '>' else value[0];
    if value != [] && more[0] == value[0] {
      assert more == [more[0]] + more[1..] && value == [value[0]] + value[1..];
      NotPrefix(more[1..], value[1..], tail);
      assert s[1..] == value[1..] + ">" + tail;
      PrefixTails(more, s);
    }
  }

  lemma PrefixTails(a: string, b: string)
    requires a != [] && b != []
    ensures a <= b ==> a[1..] <= b[1..]
  {
    if a <= b {
      assert a[1..] == b[..|a|][1..] == b[1..][..|a| - 1];
    }
  }

  lemma TextParses(value: string, tail: string)
    requires NUL !in value && !Blank(value) && StartsTag(tail)
    ensures var s := Escape(value, true) + tail;
            SkipWhiteSpace(s) != [] && ParseOne(s) == One(Text(Escape(value, true), false), tail)
  {
    EscapeKeepsBlank(value, true);
    EscapeAvoids(value, true);
    hide Escape;
    var text := Escape(value, true);
    var s := text + tail;
    SkipToText(text, tail);
    TextIs(s);
    hide SkipWhiteSpace, Identify, ParseOne, ParseText;
    if Occurs("<", text) {
      CharOccurs('<', text);
    }
    FirstCut(text, "<", tail[1..]);
    assert text + "<" + tail[1..] == s;
    assert "<" + tail[1..] == tail;
  }

  lemma TextIs(s: string)
    requires SkipWhiteSpace(s) != [] && SkipWhiteSpace(s)[0] != '<'
    ensures ParseOne(s) == ParseTextRun(s)
  {
    hide SkipWhiteSpace, ParseTextRun;
    var t := SkipWhiteSpace(s);
    assert "<?"[0] == '<' && "<!--"[0] == '<' && "<![CDATA["[0] == '<' && "<!"[0] == '<' && "<"[0] == '<';
    assert Identify(s) == (TextRun, s);
  }

  lemma {:induction false} SkipToText(text: string, tail: string)
    requires !Blank(text) && '<' !in text
    ensures var t := SkipWhiteSpace(text + tail);
            t != [] && t[0] in text && t[0] != '<'
  {
    var s := text + tail;
    if IsWhiteSpace(text[0]) {
      assert s[1..] == text[1..] + tail;
      assert text == [text[0]] + text[1..];
      SkipToText(text[1..], tail);
    }
  }

  // ----- the characters between two tags

  lemma {:induction false} EscapeJoins(a: string, b: string)
    ensures Escape(a + b, true) == Escape(a, true) + Escape(b, true)
    decreases |a|
  {
    if a == [] {
      assert a + b == b;
      assert "" + Escape(b, true) == Escape(b, true);
    } else {
      assert (a + b)[0] == a[0] && (a + b)[1..] == a[1..] + b;
      EscapeJoins(a[1..], b);
      hide EscapeChar;
      Assoc(EscapeChar(a[0], true), Escape(a[1..], true), Escape(b, true));
    }
  }

  lemma {:induction false} EscapeBlank(w: string)
    requires Blank(w)
    ensures Escape(w, true) == w
  {
    if w != [] {
      assert w[0] in w && forall c <- w[1..] :: c in w;
      EscapeBlank(w[1..]);
      EscapeCharForms(w[0], true);
    }
  }

  // In front of a tag they are one text, or nothing.
  lemma RunParses(text: string, tail: string)
    requires NUL !in text && StartsTag(tail)
    ensures ParseNodes(Escape(text, true) + tail) == Prepend(RawAll(Run(text)), ParseNodes(tail))
  {
    var s := Escape(text, true) + tail;
    if Blank(text) {
      EscapeBlank(text);
      NoBlanks(tail);
      BlanksIgnored(text, tail);
      PrependNothing(ParseNodes(tail));
    } else {
      TextParses(text, tail);
      OneRun(text);
      hide *;
      FirstOf(s, Text(Escape(text, true), false), tail);
      PrependBefore(Text(Escape(text, true), false), [], ParseNodes(tail));
      PrependNothing(ParseNodes(tail));
    }
  }

  lemma OneRun(text: string)
    requires !Blank(text)
    ensures RawAll(Run(text)) == [Text(Escape(text, true), false)] + []
  {
    hide Escape;
    assert [Text(text, false)][1..] == [];
  }

  lemma FirstOf(s: string, raw: Node, rest: string)
    requires SkipWhiteSpace(s) != [] && ParseOne(s) == One(raw, rest)
    ensures ParseNodes(s) == Before(raw, ParseNodes(rest))
  {
  }

  // ----- elements and node lists

  lemma RenderStarts(node: Node, depth: int, textDepth: int, compact: bool)
    requires Printable(node) && !PlainText(node)
    ensures StartsTag(Render(node, depth, textDepth, compact))
  {
    if !node.Element? {
      LeafParses(node, "", depth, textDepth, compact);
    }
  }

  lemma ElementHeader(body: string)
    requires body != [] && body[0] != '?' && body[0] != '!'
    ensures Identify("<" + body) == (ElementTag, body) && SkipWhiteSpace("<" + body) == "<" + body
  {
    var s := "<" + body;
    assert s[1..] == body && s[1] == body[0];
    TagStarts(s);
  }

  lemma ClosingParses(lead: string, name: string, tail: string)
    requires IsName(name) && Blank(lead)
    ensures ParseNodes(lead + ("</" + name + ">" + tail)) == Nodes([], Some(name), tail)
    ensures Quiet(lead + ("</" + name + ">" + tail))
  {
    var body := "/" + name + ">" + tail;
    var s := "</" + name + ">" + tail;
    assert s == "<" + body by { assert "</" == "<" + "/"; }
    ElementHeader(body);
    ClosingTagParses(name, tail);
    BlanksIgnored(lead, s);
    hide ParseTag, SkipWhiteSpace, Identify;
    assert ParseElement(body) == End(name, tail);
    assert ParseOne(s) == End(name, tail);
  }

  /** The white space in front of the closing tag of an element. */
  function EndLead(node: Node, depth: int, textDepth: int, compact: bool): string
    requires node.Element?
  {
    CloseLead(depth, TextDepthBehind(node.children, depth + 1, textDepth), compact)
  }

  /** What follows the start tag of an element with children. */
  function AfterStart(node: Node, depth: int, textDepth: int, compact: bool, tail: string): string
    requires node.Element?
  {
    RenderAll(node.children, depth + 1, false, textDepth, compact)
    + (EndLead(node, depth, textDepth, compact) + ("</" + node.name + ">" + tail))
  }

  lemma ElementText(node: Node, depth: int, textDepth: int, compact: bool, tail: string)
    requires node.Element?
    ensures Render(node, depth, textDepth, compact) + tail
         == "<" + (node.name + RenderAttributes(node.attributes)
                   + (if node.children == [] then "/>" else ">")
                   + (if node.children == [] then tail else AfterStart(node, depth, textDepth, compact, tail)))
  {
    var a := node.name + RenderAttributes(node.attributes);
    assert "<" + node.name + RenderAttributes(node.attributes) == "<" + a;
    if node.children == [] {
      Assoc("<" + a, "/>", tail);
      Assoc("<", a, "/>" + tail);
      Assoc(a, "/>", tail);
    } else {
      var kids := RenderAll(node.children, depth + 1, false, textDepth, compact);
      var lead := EndLead(node, depth, textDepth, compact);
      ElementAlgebra(a, kids, lead, node.name, tail);
    }
  }

  lemma ElementAlgebra(a: string, kids: string, lead: string, name: string, tail: string)
    ensures "<" + a + (">" + kids + lead + "</" + name + ">") + tail
         == "<" + (a + ">" + (kids + (lead + ("</" + name + ">" + tail))))
  {
    var close := "</" + name + ">";
    assert ">" + kids + lead + "</" + name + ">" == ">" + kids + lead + close;
    Assoc("<" + a, ">" + kids + lead + close, tail);
    Assoc(">" + kids + lead, close, tail);
    Assoc(">" + kids, lead, close + tail);
    Assoc(">", kids, lead + (close + tail));
    Assoc("<", a, ">" + (kids + (lead + (close + tail))));
    Assoc(a, ">", kids + (lead + (close + tail)));
  }

  lemma {:induction false} NodeParses(node: Node, depth: nat, textDepth: int, compact: bool, tail: string)
    requires Printable(node) && !PlainText(node)
    ensures SkipWhiteSpace(Render(node, depth, textDepth, compact) + tail) != []
    ensures ParseOne(Render(node, depth, textDepth, compact) + tail) == One(Raw(Denoted(node, depth, compact)), tail)
    decreases node, 0
  {
    if !node.Element? {
      LeafParses(node, tail, depth, textDepth, compact);
      NoBlanks(Render(node, depth, textDepth, compact) + tail);
      LeafDenoted(node, depth, compact);
    } else {
      var rest := if node.children == [] then tail else AfterStart(node, depth, textDepth, compact, tail);
      if node.children != [] {
        ChildrenParse(node, depth, textDepth, compact, tail);
        NothingToParse();
      }
      ElementText(node, depth, textDepth, compact, tail);
      RawElement(node, depth, compact);
      ElementParses(node, Raw(Denoted(node, depth, compact)), rest, tail);
    }
  }

  lemma LeafDenoted(node: Node, depth: int, compact: bool)
    requires !node.Element? && !PlainText(node)
    ensures Raw(Denoted(node, depth, compact)) == node
  {
  }

  lemma RawElement(node: Node, depth: int, compact: bool)
    requires node.Element?
    ensures var raw := Raw(Denoted(node, depth, compact));
            && raw.Element? && raw == Element(node.name, RawAttributes(node.attributes), raw.children, node.children == [])
            && raw.children == RawAll(Front("", node.children, depth + 1, false, compact)
                                      + Run(LastRun("", node.children, depth + 1, compact)))
            && (node.children == [] ==> raw.children == [])
  {
    hide RawAttributes;
  }

  lemma ElementParses(node: Node, raw: Node, rest: string, tail: string)
    requires node.Element? && Printable(node)
    requires raw.Element? && raw == Element(node.name, RawAttributes(node.attributes), raw.children, node.children == [])
    requires if node.children == [] then rest == tail && raw.children == []
             else rest != [] && ParseNodes(rest) == Nodes(raw.children, Some(node.name), tail)
    ensures var s := "<" + (node.name + RenderAttributes(node.attributes) + (if node.children == [] then "/>" else ">") + rest);
            SkipWhiteSpace(s) != [] && ParseOne(s) == One(raw, tail)
  {
    hide ParseTag, ParseNodes, Identify, SkipWhiteSpace, RenderAttributes, RawAttributes, ParseOne;
    var end := if node.children == [] then "/>" else ">";
    var body := node.name + RenderAttributes(node.attributes) + end + rest;
    TagParses(node.name, node.attributes, end, rest);
    assert body[0] == node.name[0];
    ElementHeader(body);
    ElementIs("<" + body, body);
    if node.children == [] {
      assert ParseElement(body) == One(raw, tail);
      return;
    }
    assert ParseElement(body) == One(raw, tail);
  }

  lemma ElementIs(s: string, body: string)
    requires SkipWhiteSpace(s) != [] && Identify(s) == (ElementTag, body)
    ensures ParseOne(s) == ParseElement(body)
  {
    hide SkipWhiteSpace, Identify, ParseElement;
  }

  lemma {:induction false} ChildrenParse(node: Node, depth: nat, textDepth: int, compact: bool, tail: string)
    requires node.Element? && Printable(node)
    ensures ParseNodes(AfterStart(node, depth, textDepth, compact, tail))
         == Nodes(Raw(Denoted(node, depth, compact)).children, Some(node.name), tail)
    decreases node.children, 2
  {
    hide *;
    var children, lead := node.children, EndLead(node, depth, textDepth, compact);
    var close := "</" + node.name + ">" + tail;
    ElementParts(node, depth, textDepth, compact, tail);
    NothingPending(RenderAll(children, depth + 1, false, textDepth, compact) + (lead + close), depth + 1, textDepth);
    AllParse("", children, depth + 1, false, textDepth, compact, lead + close);
    NothingBefore(close);
    ClosingParses("", node.name, tail);
    CloseStarts(node.name, tail);
    var last := LastRun("", children, depth + 1, compact);
    LastBeforeClose(node, depth, textDepth, compact, close);
    ChildrenEnd(node, depth, compact, last, close, tail);
  }

  lemma NothingPending(s: string, depth: int, textDepth: int)
    ensures Escape("", true) + s == s && NUL !in "" && InText("", depth, textDepth)
  {
  }

  lemma NothingBefore(s: string)
    ensures "" + s == s && Blank("")
  {
  }

  lemma CloseStarts(name: string, tail: string)
    ensures StartsTag("</" + name + ">" + tail)
  {
    assert ("</" + name + ">" + tail)[0] == '<';
  }

  lemma ElementParts(node: Node, depth: nat, textDepth: int, compact: bool, tail: string)
    requires node.Element? && Printable(node)
    ensures IsName(node.name) && PrintableAll(node.children)
    ensures AfterStart(node, depth, textDepth, compact, tail)
         == RenderAll(node.children, depth + 1, false, textDepth, compact)
            + (EndLead(node, depth, textDepth, compact) + ("</" + node.name + ">" + tail))
  {
    hide RenderAll, CloseLead, TextDepthBehind;
  }

  // Text at the end of the children ends where the closing tag starts.
  lemma LastBeforeClose(node: Node, depth: nat, textDepth: int, compact: bool, close: string)
    requires node.Element? && PrintableAll(node.children) && StartsTag(close)
    ensures var last := LastRun("", node.children, depth + 1, compact);
            ParseNodes(Escape(last, true) + (EndLead(node, depth, textDepth, compact) + close))
            == Prepend(RawAll(Run(last)), ParseNodes(close))
  {
    hide ParseNodes, Escape, RawAll, Printable, LastRun, TextDepthBehind, StartsTag, CloseLead;
    var last, lead := LastRun("", node.children, depth + 1, compact), EndLead(node, depth, textDepth, compact);
    FrontPrintable("", node.children, depth + 1, false, compact);
    TextIsLast("", node.children, depth + 1, textDepth, compact);
    LeadsAreBlank(node, depth, false, TextDepthBehind(node.children, depth + 1, textDepth), compact);
    LeadsNoNul(node, depth, false, TextDepthBehind(node.children, depth + 1, textDepth), compact);
    if Blank(last) {
      EscapeJoins(last, lead);
      EscapeBlank(lead);
      BlankBoth(last, lead);
      RunParses(last + lead, close);
      Assoc(Escape(last, true), lead, close);
    } else {
      NoCloseLead(depth, compact);
      assert lead + close == close;
      RunParses(last, close);
    }
  }

  lemma NoCloseLead(depth: nat, compact: bool)
    ensures CloseLead(depth, depth, compact) == ""
  {
  }

  lemma ChildrenEnd(node: Node, depth: nat, compact: bool, last: string, rest: string, tail: string)
    requires node.Element? && last == LastRun("", node.children, depth + 1, compact)
    requires ParseNodes(rest) == Nodes([], Some(node.name), tail)
    ensures Prepend(RawAll(Front("", node.children, depth + 1, false, compact)), Prepend(RawAll(Run(last)), ParseNodes(rest)))
         == Nodes(Raw(Denoted(node, depth, compact)).children, Some(node.name), tail)
  {
    hide ParseNodes, RawAll, Raw, Denoted, Front, LastRun, Run;
    RawElement(node, depth, compact);
    var front := Front("", node.children, depth + 1, false, compact);
    RawJoins(front, Run(last));
    assert RawAll(Run(last)) + [] == RawAll(Run(last));
  }

  lemma {:induction false} RawJoins(a: seq<Node>, b: seq<Node>)
    ensures RawAll(a + b) == RawAll(a) + RawAll(b)
    decreases |a|
  {
    hide Raw;
    if a == [] {
      assert a + b == b;
      assert [] + RawAll(b) == RawAll(b);
    } else {
      assert (a + b)[0] == a[0] && (a + b)[1..] == a[1..] + b;
      RawJoins(a[1..], b);
      assert [Raw(a[0])] + (RawAll(a[1..]) + RawAll(b)) == [Raw(a[0])] + RawAll(a[1..]) + RawAll(b);
    }
  }

  lemma NothingToParse()
    ensures ParseNodes([]) == Nodes([], None, [])
  {
  }

  /** Where text is pending, the printer is in the text of the element around it. */
  predicate InText(pending: string, depth: int, textDepth: int) {
    Blank(pending) || textDepth == depth - 1
  }

  lemma InTextBehind(pending: string, node: Node, depth: int, textDepth: int, compact: bool)
    ensures InText(if PlainText(node) then pending + node.value else Trail(node, depth, compact), depth,
                   TextDepthAfter(node, depth, textDepth))
  {
    LeadsAreBlank(node, depth, false, textDepth, compact);
  }

  lemma {:induction false} TextIsLast(pending: string, nodes: seq<Node>, depth: int, textDepth: int, compact: bool)
    requires InText(pending, depth, textDepth)
    ensures InText(LastRun(pending, nodes, depth, compact), depth, TextDepthBehind(nodes, depth, textDepth))
    decreases |nodes|
  {
    if nodes != [] {
      InTextBehind(pending, nodes[0], depth, textDepth, compact);
      TextIsLast(if PlainText(nodes[0]) then pending + nodes[0].value else Trail(nodes[0], depth, compact), nodes[1..], depth,
                 TextDepthAfter(nodes[0], depth, textDepth), compact);
    }
  }

  lemma ListText(nodes: seq<Node>, depth: int, first: bool, textDepth: int, compact: bool, tail: string)
    requires nodes != []
    ensures RenderAll(nodes, depth, first, textDepth, compact) + tail
         == Lead(nodes[0], depth, first, textDepth, compact)
            + (Render(nodes[0], depth, textDepth, compact)
               + (Trail(nodes[0], depth, compact)
                  + (RenderAll(nodes[1..], depth, first && nodes[0].Text?, TextDepthAfter(nodes[0], depth, textDepth), compact)
                     + tail)))
  {
    hide Lead, Render, Trail, TextDepthAfter;
    var n := nodes[0];
    var lead, core, trail := Lead(n, depth, first, textDepth, compact), Render(n, depth, textDepth, compact), Trail(n, depth, compact);
    var more := RenderAll(nodes[1..], depth, first && n.Text?, TextDepthAfter(n, depth, textDepth), compact);
    assert RenderAll(nodes, depth, first, textDepth, compact) == lead + core + trail + more;
    hide RenderAll;
    Assoc(lead + core + trail, more, tail);
    Assoc(lead + core, trail, more + tail);
    Assoc(lead, core, trail + (more + tail));
  }

  // A printed list is read back as the list that the text denotes, behind pending text and whatever follows.
  lemma {:induction false} AllParse(pending: string, nodes: seq<Node>, depth: nat, first: bool, textDepth: int, compact: bool,
                                    tail: string)
    requires PrintableAll(nodes) && NUL !in pending && InText(pending, depth, textDepth)
    ensures ParseNodes(Escape(pending, true) + (RenderAll(nodes, depth, first, textDepth, compact) + tail))
         == Prepend(RawAll(Front(pending, nodes, depth, first, compact)),
                    ParseNodes(Escape(LastRun(pending, nodes, depth, compact), true) + tail))
    decreases nodes, 1
  {
    hide *;
    if nodes == [] {
      EmptyParses(pending, depth, first, textDepth, compact, tail);
      return;
    }
    var n, more := nodes[0], nodes[1..];
    var first', behind := first && n.Text?, TextDepthAfter(n, depth, textDepth);
    var rest := RenderAll(more, depth, first', behind, compact) + tail;
    PrintableParts(nodes);
    InTextBehind(pending, n, depth, textDepth, compact);
    ListText(nodes, depth, first, textDepth, compact, tail);
    if PlainText(n) {
      PendingText(pending, nodes, depth, first, textDepth, compact, rest);
      BlankBoth(pending, n.value);
      AllParse(pending + n.value, more, depth, first', behind, compact, tail);
    } else {
      LeadsNoNul(n, depth, first, textDepth, compact);
      AllParse(Trail(n, depth, compact), more, depth, first', behind, compact, tail);
      NodeParses(n, depth, textDepth, compact, Trail(n, depth, compact) + rest);
      TagBehindText(pending, n, depth, first, textDepth, compact, rest);
      FrontStep(pending, nodes, depth, first, compact, ParseNodes(Escape(LastRun(pending, nodes, depth, compact), true) + tail));
    }
  }

  lemma EmptyParses(pending: string, depth: nat, first: bool, textDepth: int, compact: bool, tail: string)
    ensures ParseNodes(Escape(pending, true) + (RenderAll([], depth, first, textDepth, compact) + tail))
         == Prepend(RawAll(Front(pending, [], depth, first, compact)),
                    ParseNodes(Escape(LastRun(pending, [], depth, compact), true) + tail))
  {
    hide ParseNodes, Escape;
    assert RenderAll([], depth, first, textDepth, compact) + tail == tail;
    PrependNothing(ParseNodes(Escape(pending, true) + tail));
  }

  // A plain text joins what is pending.
  lemma PendingText(pending: string, nodes: seq<Node>, depth: nat, first: bool, textDepth: int, compact: bool, rest: string)
    requires nodes != [] && PlainText(nodes[0])
    ensures var n := nodes[0];
            && n.Text?
            && Escape(pending, true) + (Lead(n, depth, first, textDepth, compact)
                                        + (Render(n, depth, textDepth, compact) + (Trail(n, depth, compact) + rest)))
               == Escape(pending + n.value, true) + rest
            && Front(pending, nodes, depth, first, compact) == Front(pending + n.value, nodes[1..], depth, first && n.Text?, compact)
            && LastRun(pending, nodes, depth, compact) == LastRun(pending + n.value, nodes[1..], depth, compact)
  {
    hide Escape;
    var value := nodes[0].value;
    EscapeJoins(pending, value);
    assert "" + rest == rest;
    assert "" + (Escape(value, true) + rest) == Escape(value, true) + rest;
    Assoc(Escape(pending, true), Escape(value, true), rest);
  }

  // What is pending in front of a tag, with the white space printed there, is one run.
  lemma TagBehindText(pending: string, n: Node, depth: nat, first: bool, textDepth: int, compact: bool, rest: string)
    requires Printable(n) && !PlainText(n) && NUL !in pending && InText(pending, depth, textDepth)
    requires var s := Render(n, depth, textDepth, compact) + (Trail(n, depth, compact) + rest);
             SkipWhiteSpace(s) != [] && ParseOne(s) == One(Raw(Denoted(n, depth, compact)), Trail(n, depth, compact) + rest)
    ensures var s := Render(n, depth, textDepth, compact) + (Trail(n, depth, compact) + rest);
            ParseNodes(Escape(pending, true) + (Lead(n, depth, first, textDepth, compact) + s))
            == Prepend(RawAll(Run(pending + Lead(n, depth, first, depth - 1, compact))),
                       Before(Raw(Denoted(n, depth, compact)), ParseNodes(Escape(Trail(n, depth, compact), true) + rest)))
  {
    hide *;
    var lead, trail := Lead(n, depth, first, textDepth, compact), Trail(n, depth, compact);
    var s := Render(n, depth, textDepth, compact) + (trail + rest);
    RenderStarts(n, depth, textDepth, compact);
    StartsBehind(Render(n, depth, textDepth, compact), trail + rest);
    LeadsAreBlank(n, depth, first, textDepth, compact);
    LeadsNoNul(n, depth, first, textDepth, compact);
    EscapeBlank(trail);
    EscapeBlank(lead);
    EscapeJoins(pending, lead);
    BlankBoth(pending, lead);
    Assoc(Escape(pending, true), lead, s);
    RunParses(pending + lead, s);
    FirstOf(s, Raw(Denoted(n, depth, compact)), trail + rest);
    SameRun(pending, n, depth, first, textDepth, compact);
  }

  lemma StartsBehind(core: string, s: string)
    requires StartsTag(core)
    ensures StartsTag(core + s)
  {
    assert (core + s)[0] == core[0];
  }

  lemma SameRun(pending: string, n: Node, depth: nat, first: bool, textDepth: int, compact: bool)
    requires InText(pending, depth, textDepth)
    ensures Run(pending + Lead(n, depth, first, textDepth, compact)) == Run(pending + Lead(n, depth, first, depth - 1, compact))
  {
    if Blank(pending) {
      LeadsAreBlank(n, depth, first, textDepth, compact);
      LeadsAreBlank(n, depth, first, depth - 1, compact);
      hide Lead;
      BlankBoth(pending, Lead(n, depth, first, textDepth, compact));
      BlankBoth(pending, Lead(n, depth, first, depth - 1, compact));
    }
  }

  lemma FrontStep(pending: string, nodes: seq<Node>, depth: nat, first: bool, compact: bool, end: Nodes)
    requires nodes != [] && !PlainText(nodes[0])
    ensures var n, more := nodes[0], nodes[1..];
            var trail := Trail(n, depth, compact);
            && Prepend(RawAll(Run(pending + Lead(n, depth, first, depth - 1, compact))),
                       Before(Raw(Denoted(n, depth, compact)),
                              Prepend(RawAll(Front(trail, more, depth, first && n.Text?, compact)), end)))
               == Prepend(RawAll(Front(pending, nodes, depth, first, compact)), end)
            && LastRun(pending, nodes, depth, compact) == LastRun(trail, more, depth, compact)
  {
    hide RawAll, Raw, Denoted, Run, Lead, Trail;
    var n := nodes[0];
    var run := Run(pending + Lead(n, depth, first, depth - 1, compact));
    var node := Denoted(n, depth, compact);
    var behind := Front(Trail(n, depth, compact), nodes[1..], depth, first && n.Text?, compact);
    assert Front(pending, nodes, depth, first, compact) == run + [node] + behind;
    hide Front, LastRun;
    RawJoins(run + [node], behind);
    RawJoins(run, [node]);
    RawSingle(node);
    if end.Nodes? {
      assert RawAll(run) + ([Raw(node)] + (RawAll(behind) + end.nodes)) == RawAll(run) + [Raw(node)] + RawAll(behind) + end.nodes;
    }
  }

  lemma RawSingle(node: Node)
    ensures RawAll([node]) == [Raw(node)]
  {
    hide Raw;
    assert [node][1..] == [];
  }
  // ----- documents

  lemma {:induction false} RenderNoNul(node: Node, depth: int, textDepth: int, compact: bool)
    requires Printable(node)
    ensures NUL !in Render(node, depth, textDepth, compact)
    decreases node, 0
  {
    match node
    case Element(name, attributes, children, _) =>
      AttributesNoNul(attributes);
      RenderAllNoNul(children, depth + 1, false, textDepth, compact);
      var behind := TextDepthBehind(children, depth + 1, textDepth);
      LeadsNoNul(node, depth, false, behind, compact);
      var kids, lead := RenderAll(children, depth + 1, false, textDepth, compact), CloseLead(depth, behind, compact);
      PartsNoNul(name, RenderAttributes(attributes), kids, lead);
    case Text(value, _) => EscapeAvoids(value, true);
    case _ =>
  }

  lemma PartsNoNul(name: string, attributes: string, kids: string, lead: string)
    requires NUL !in name && NUL !in attributes && NUL !in kids && NUL !in lead
    ensures NUL !in "<" + name + attributes + "/>"
    ensures NUL !in "<" + name + attributes + (">" + kids + lead + "</" + name + ">")
  {
    var head, body := "<" + name + attributes, ">" + kids + lead;
    assert NUL !in head;
    assert NUL !in body;
    var whole := body + "</" + name + ">";
    assert NUL !in whole;
    assert NUL !in head + whole;
  }

  lemma {:induction false} AttributesNoNul(attributes: seq<Attribute>)
    requires forall a <- attributes :: IsName(a.name) && NUL !in a.value
    ensures NUL !in RenderAttributes(attributes)
  {
    if attributes != [] {
      AttributesNoNul(attributes[1..]);
      EscapeAvoids(attributes[0].value, false);
      assert IsName(attributes[0].name);
    }
  }

  lemma {:induction false} RenderAllNoNul(nodes: seq<Node>, depth: int, first: bool, textDepth: int, compact: bool)
    requires forall i | 0 <= i < |nodes| :: Printable(nodes[i])
    ensures NUL !in RenderAll(nodes, depth, first, textDepth, compact)
    decreases nodes, 1
  {
    if nodes != [] {
      RenderNoNul(nodes[0], depth, textDepth, compact);
      LeadsNoNul(nodes[0], depth, first, textDepth, compact);
      RenderAllNoNul(nodes[1..], depth, first && nodes[0].Text?, TextDepthAfter(nodes[0], depth, textDepth), compact);
      hide Render, Lead, Trail, TextDepthAfter;
    }
  }

  /** The printed document: the byte order mark if the document has one, then its nodes. */
  function RenderDocument(nodes: seq<Node>, bom: bool, depth: nat, compact: bool): string {
    (if bom then BOM else "") + RenderAll(nodes, depth, true, -1, compact)
  }

  // Bytes of 128 and above in front of an escaped text are the text's own.
  lemma {:induction false} EscapePrefix(bytes: string, s: string, tail: string)
    requires bytes <= Escape(s, true) + tail && (tail == [] || tail[0] as int < 128)
    requires forall c <- bytes :: c as int >= 128
    ensures bytes <= s
  {
    if bytes != [] {
      var e := Escape(s, true) + tail;
      assert bytes[0] in bytes;
      EmptyEscape(tail);
      EscapeStart(s, tail);
      PrefixTails(bytes, e);
      hide Escape;
      assert e[1..] == Escape(s[1..], true) + tail;
      HighTail(bytes);
      EscapePrefix(bytes[1..], s[1..], tail);
      PrefixCons(bytes, s);
    }
  }

  lemma EmptyEscape(tail: string)
    ensures Escape([], true) + tail == tail
  {
  }

  lemma HighTail(bytes: string)
    requires bytes != [] && forall c <- bytes :: c as int >= 128
    ensures forall c <- bytes[1..] :: c as int >= 128
  {
    assert forall c <- bytes[1..] :: c in bytes;
  }

  lemma PrefixCons(a: string, b: string)
    requires a != [] && b != [] && a[0] == b[0] && a[1..] <= b[1..]
    ensures a <= b
  {
    forall i | 1 <= i < |a|
      ensures a[i] == b[i]
    {
      assert a[1..][i - 1] == b[1..][i - 1];
    }
  }

  // An escaped text that starts with a byte of 128 or more starts with that byte.
  lemma EscapeStart(s: string, tail: string)
    requires s != []
    ensures var e := Escape(s, true) + tail;
            e != [] && (e[0] as int >= 128 ==> e[0] == s[0] && e == [s[0]] + (Escape(s[1..], true) + tail))
  {
    EscapeCharForms(s[0], true);
    Assoc(EscapeChar(s[0], true), Escape(s[1..], true), tail);
    hide EscapeChar;
    var c := EscapeChar(s[0], true);
    assert (Escape(s, true) + tail)[0] == c[0];
  }

  /** The printed list starts with blanks and a tag, unless it starts with text. */
  lemma RenderedQuiet(nodes: seq<Node>, depth: int, first: bool, textDepth: int, compact: bool, tail: string)
    requires PrintableAll(nodes)
    requires nodes != [] ==> !PlainText(nodes[0])
    requires nodes == [] ==> Quiet(tail)
    ensures Quiet(RenderAll(nodes, depth, first, textDepth, compact) + tail)
    ensures nodes != [] ==> RenderAll(nodes, depth, first, textDepth, compact) + tail != []
    ensures nodes != [] ==> SkipWhiteSpace(RenderAll(nodes, depth, first, textDepth, compact) + tail) != []
  {
    var s := RenderAll(nodes, depth, first, textDepth, compact) + tail;
    if nodes == [] {
      assert s == tail;
    } else {
      var n := nodes[0];
      var lead, core := Lead(n, depth, first, textDepth, compact), Render(n, depth, textDepth, compact);
      var behind := TextDepthAfter(n, depth, textDepth);
      var more := Trail(n, depth, compact) + (RenderAll(nodes[1..], depth, first && n.Text?, behind, compact) + tail);
      RenderStarts(n, depth, textDepth, compact);
      LeadsAreBlank(n, depth, first, textDepth, compact);
      ListText(nodes, depth, first, textDepth, compact, tail);
      hide Render, Lead, RenderAll, Printable, TextDepthAfter;
      NoBlanks(core + more);
      SkipThrough(lead, core + more);
    }
  }

  lemma QuietHead(s: string)
    requires Quiet(s) && s != []
    ensures s[0] as int < 128
  {
  }

  // The first characters are printed one text after the other.
  lemma {:induction false} RenderSplits(nodes: seq<Node>, depth: nat, textDepth: int, compact: bool)
    ensures RenderAll(nodes, depth, true, textDepth, compact)
         == Escape(Opening(nodes), true) + RenderAll(Body(nodes), depth, true, BodyDepth(nodes, depth, textDepth), compact)
    decreases |nodes|
  {
    if nodes == [] || !PlainText(nodes[0]) {
      EmptyEscape(RenderAll(nodes, depth, true, textDepth, compact));
    } else {
      var text, more := Escape(nodes[0].value, true), nodes[1..];
      RenderSplits(more, depth, depth - 1, compact);
      EscapeJoins(nodes[0].value, Opening(more));
      hide Escape, Body;
      assert "" + text + "" == text;
      Assoc(text, Escape(Opening(more), true), RenderAll(Body(more), depth, true, depth - 1, compact));
    }
  }

  /** The printer's text depth behind the first characters. */
  function BodyDepth(nodes: seq<Node>, depth: nat, textDepth: int): int {
    if nodes != [] && PlainText(nodes[0]) then depth - 1 else textDepth
  }

  lemma {:induction false} Openings(nodes: seq<Node>)
    requires PrintableAll(nodes)
    ensures NUL !in Opening(nodes) && PrintableAll(Body(nodes))
  {
    if nodes != [] {
      PrintableParts(nodes);
      Openings(nodes[1..]);
    }
  }

  // Text that no tag follows is an error, unless it is blank.
  lemma TextAtEnd(last: string)
    requires NUL !in last
    ensures ParseNodes(Escape(last, true) + [])
         == if Blank(last) then Nodes([], None, []) else BadNodes(XML_ERROR_PARSING_TEXT)
  {
    var s := Escape(last, true);
    assert s + [] == s;
    if Blank(last) {
      EscapeBlank(last);
      NothingToParse();
      BlanksIgnored(last, []);
    } else {
      EscapeKeepsBlank(last, true);
      EscapeAvoids(last, true);
      hide Escape;
      SkipToText(s, []);
      TextIs(s);
      CutHasTag(s);
      hide SkipWhiteSpace, ParseOne, ParseText;
      assert ParseTextRun(s) == BadNode(XML_ERROR_PARSING_TEXT);
    }
  }

  lemma CutHasTag(s: string)
    ensures ParseText(s, "<").Cut? ==> '<' in s
  {
    ParseTextIsFirst(s, "<");
    var r := ParseText(s, "<");
    if r.Cut? {
      assert s[|r.text|] == '<';
    }
  }

  // The document behind what Parse takes off its start.
  lemma BodyParses(text: string, more: seq<Node>, depth: nat, textDepth: int, compact: bool)
    requires NUL !in text && PrintableAll(more) && InText(text, depth, textDepth) && (more != [] ==> !PlainText(more[0]))
    ensures var s := Escape(text, true) + RenderAll(more, depth, true, textDepth, compact);
            && (s == [] <==> text == "" && more == [])
            && ParseNodes(s) == if Blank(LastRun(text, more, depth, compact))
                                then Nodes(RawAll(Front(text, more, depth, true, compact)), None, [])
                                else BadNodes(XML_ERROR_PARSING_TEXT)
  {
    var rest, last := RenderAll(more, depth, true, textDepth, compact), LastRun(text, more, depth, compact);
    var raws := RawAll(Front(text, more, depth, true, compact));
    EscapeHead(text, true);
    RenderedQuiet(more, depth, true, textDepth, compact, []);
    AllParse(text, more, depth, true, textDepth, compact, []);
    FrontPrintable(text, more, depth, true, compact);
    TextAtEnd(last);
    assert rest + [] == rest;
    assert raws + [] == raws;
    if more == [] {
      assert rest == "";
    }
    hide *;
  }

  // In a document without byte order mark, blanks are skipped first, and a text may look like the mark.
  lemma StartParses(open: string, rest: string)
    requires rest == [] || (Quiet(rest) && SkipWhiteSpace(rest) != [])
    ensures var t := SkipWhiteSpace(Escape(open, true) + rest);
            var (text, mark) := Start(open, false);
            && (BOM <= t <==> mark)
            && (mark ==> t[3..] == Escape(text, true) + rest)
            && (!mark && text != [] ==> t == Escape(text, true) + rest)
            && (!mark && text == [] ==> t == SkipWhiteSpace(rest))
  {
    var text := SkipWhiteSpace(open);
    SkippedIsBlank(open);
    var w := open[..|open| - |text|];
    EscapeJoins(w, text);
    EscapeBlank(w);
    Assoc(w, Escape(text, true), rest);
    var s := Escape(text, true) + rest;
    SkipThrough(w, s);
    if text == [] {
      EmptyEscape(rest);
      NoMark(rest);
      return;
    }
    EscapeHead(text, true);
    hide Escape;
    NoBlanks(s);
    SeemsMarked(text, rest);
  }

  lemma NoMark(rest: string)
    requires rest == [] || (Quiet(rest) && SkipWhiteSpace(rest) != [])
    ensures !(BOM <= SkipWhiteSpace(rest)) && Start("", false) == ("", false)
  {
  }

  lemma SeemsMarked(text: string, rest: string)
    requires rest == [] || Quiet(rest)
    ensures BOM <= Escape(text, true) + rest <==> BOM <= text
    ensures BOM <= text ==> (Escape(text, true) + rest)[3..] == Escape(text[3..], true) + rest
  {
    var s := Escape(text, true) + rest;
    if rest != [] {
      QuietHead(rest);
    }
    if BOM <= s {
      EscapePrefix(BOM, text, rest);
    }
    if BOM <= text {
      assert text == BOM + text[3..];
      EscapeJoins(BOM, text[3..]);
      MarkEscapes();
      hide Escape;
      Assoc(BOM, Escape(text[3..], true), rest);
    }
  }

  lemma MarkEscapes()
    ensures Escape(BOM, true) == BOM
  {
    EscapeCharForms(BOM[0], true);
    EscapeCharForms(BOM[1], true);
    EscapeCharForms(BOM[2], true);
    assert BOM[1..][1..] == [BOM[2]] && BOM[1..][1..][1..] == [];
    hide EscapeChar;
    assert [BOM[0]] + ([BOM[1]] + ([BOM[2]] + [])) == BOM;
  }

  /** The document that the parser keeps for a reading: its texts still escaped. */
  function Kept(r: Reading): Document {
    match r
    case Refused(error) => BadDocument(error)
    case Read(nodes, writeBOM) => Document(RawAll(nodes), writeBOM)
  }

  /** The outcome of XMLDocument::Parse, from its top-level nodes. */
  function Outcome(u: string, mark: bool): Document {
    if u == [] then BadDocument(XML_ERROR_EMPTY_DOCUMENT)
    else
      match ParseNodes(u)
      case BadNodes(error) => BadDocument(error)
      case Nodes(nodes, _, _) => Document(nodes, mark)
  }

  lemma OutcomeIs(s: string, u: string, mark: bool)
    requires NUL !in s
    requires var t := SkipWhiteSpace(s); (BOM <= t <==> mark) && (mark ==> u == t[3..]) && (!mark ==> u == t)
    ensures ParseDocument(s) == Outcome(u, mark)
  {
    hide ParseNodes, SkipWhiteSpace;
  }

  lemma OutcomeKept(nodes: seq<Node>, bom: bool, depth: nat, compact: bool)
    requires PrintableAll(nodes)
    ensures var (text, mark) := Start(Opening(nodes), bom);
            var rest := RenderAll(Body(nodes), depth, true, BodyDepth(nodes, depth, -1), compact);
            && Outcome(Escape(text, true) + rest, mark) == Kept(ReadBack(nodes, bom, depth, compact))
            && (rest == [] || (Quiet(rest) && SkipWhiteSpace(rest) != []))
  {
    var (text, mark) := Start(Opening(nodes), bom);
    Openings(nodes);
    StartText(nodes, bom, depth);
    BodyParses(text, Body(nodes), depth, BodyDepth(nodes, depth, -1), compact);
    BodyQuiet(Body(nodes), depth, BodyDepth(nodes, depth, -1), compact);
    hide RenderAll, ParseNodes, RawAll, Front, LastRun, Body, Opening, Escape, Start, Printable, BodyDepth, Quiet, SkipWhiteSpace;
  }

  lemma BodyQuiet(more: seq<Node>, depth: nat, textDepth: int, compact: bool)
    requires PrintableAll(more) && (more != [] ==> !PlainText(more[0]))
    ensures var rest := RenderAll(more, depth, true, textDepth, compact);
            rest == [] || (Quiet(rest) && SkipWhiteSpace(rest) != [])
  {
    var rest := RenderAll(more, depth, true, textDepth, compact);
    RenderedQuiet(more, depth, true, textDepth, compact, []);
    assert rest + [] == rest;
  }

  lemma SkippedOutcome(rest: string)
    requires rest == [] || (Quiet(rest) && SkipWhiteSpace(rest) != [])
    ensures Outcome(SkipWhiteSpace(rest), false) == Outcome(rest, false)
  {
    var t := SkipWhiteSpace(rest);
    if t != [] {
      SkippedIsBlank(rest);
      NoBlanks(t);
      BlanksIgnored(rest[..|rest| - |t|], t);
      hide ParseNodes, SkipWhiteSpace;
    }
  }

  // The central law: printing a document and parsing the result gives what the printed text denotes.
  lemma ParseUndoesPrint(nodes: seq<Node>, bom: bool, depth: nat, compact: bool)
    requires PrintableAll(nodes)
    ensures ParseDocument(RenderDocument(nodes, bom, depth, compact)) == Kept(ReadBack(nodes, bom, depth, compact))
  {
    hide *;
    var rest := RenderAll(Body(nodes), depth, true, BodyDepth(nodes, depth, -1), compact);
    var s, open := RenderDocument(nodes, bom, depth, compact), Opening(nodes);
    var (text, mark) := Start(open, bom);
    DocumentNoNul(nodes, bom, depth, compact);
    OutcomeKept(nodes, bom, depth, compact);
    if bom {
      Marked(Escape(open, true) + rest);
      StartMarked(open);
      OutcomeIs(s, Escape(open, true) + rest, true);
    } else if mark || text != [] {
      StartParses(open, rest);
      OutcomeIs(s, Escape(text, true) + rest, mark);
    } else {
      StartParses(open, rest);
      SkippedOutcome(rest);
      EmptyEscape(rest);
      OutcomeIs(s, SkipWhiteSpace(rest), false);
    }
  }

  lemma StartMarked(text: string)
    ensures Start(text, true) == (text, true)
  {
  }

  lemma Marked(s: string)
    ensures var t := SkipWhiteSpace(BOM + s); BOM <= t && t[3..] == s
  {
    assert (BOM + s)[0] == BOM[0];
    NoBlanks(BOM + s);
  }

  lemma DocumentNoNul(nodes: seq<Node>, bom: bool, depth: nat, compact: bool)
    requires PrintableAll(nodes)
    ensures var s := Escape(Opening(nodes), true) + RenderAll(Body(nodes), depth, true, BodyDepth(nodes, depth, -1), compact);
            RenderDocument(nodes, bom, depth, compact) == if bom then BOM + s else s
    ensures NUL !in RenderDocument(nodes, bom, depth, compact)
  {
    RenderSplits(nodes, depth, -1, compact);
    RenderAllNoNul(nodes, depth, true, -1, compact);
    assert NUL !in BOM;
    hide RenderAll, Escape, Printable;
    var s := RenderAll(nodes, depth, true, -1, compact);
    BlankBoth(BOM, s);
    EmptyEscape(s);
    assert "" + s == s;
  }

  lemma StartText(nodes: seq<Node>, bom: bool, depth: nat)
    requires NUL !in Opening(nodes)
    ensures var text := Start(Opening(nodes), bom).0;
            NUL !in text && InText(text, depth, BodyDepth(nodes, depth, -1))
  {
    var open := Opening(nodes);
    SkippedIsBlank(open);
  }
}
