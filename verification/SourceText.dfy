/**
  Source documents written out: which blanks, quotes and tags a text may consist of. The parser accepts exactly
  these texts, and gives the trees that they spell.
 */
module SourceText {
  import opened Options
  import opened XmlChars
  import opened XmlTree
  import opened Grammar
  import opened RoundTrip

  // ----- attributes

  /** An attribute as it stands in a tag: the blanks in front of it and around the equals sign, and its quote. */
  datatype WrittenAttribute =
    WrittenAttribute(gap: string, name: string, before: string, after: string, quote: char, value: string)

  function SpellAttribute(a: WrittenAttribute): string {
    a.gap + (a.name + (a.before + ("=" + (a.after + ([a.quote] + (a.value + [a.quote]))))))
  }

  predicate GoodAttribute(a: WrittenAttribute) {
    && Blank(a.gap) && IsName(a.name) && Blank(a.before) && Blank(a.after)
    && (a.quote == '"' || a.quote == '\'') && a.quote !in a.value
  }

  function SpellAttributes(attributes: seq<WrittenAttribute>): string {
    if attributes == [] then "" else SpellAttribute(attributes[0]) + SpellAttributes(attributes[1..])
  }

  function AttributesOf(attributes: seq<WrittenAttribute>): (r: seq<Attribute>)
    ensures |r| == |attributes|
    ensures forall i | 0 <= i < |r| :: r[i] == Attribute(attributes[i].name, attributes[i].value)
  {
    seq(|attributes|, i requires 0 <= i < |attributes| => Attribute(attributes[i].name, attributes[i].value))
  }

  predicate GoodAttributes(attributes: seq<WrittenAttribute>) {
    && (forall i | 0 <= i < |attributes| :: GoodAttribute(attributes[i]))
    && forall i, j | 0 <= i < j < |attributes| :: attributes[i].name != attributes[j].name
  }

  lemma SkipTo(gap: string, c: char, more: string)
    requires Blank(gap) && !IsWhiteSpace(c)
    ensures SkipWhiteSpace(gap + ([c] + more)) == [c] + more
  {
    assert ([c] + more)[0] == c;
    SkipBlanksExactly(gap, [c] + more);
  }

  // Any blanks around the equals sign, and either quote.
  lemma AttributeReads(a: WrittenAttribute, rest: string)
    requires GoodAttribute(a)
    ensures var s := a.name + (a.before + ("=" + (a.after + ([a.quote] + (a.value + [a.quote]))))) + rest;
            ParseAttribute(s) == Some((Attribute(a.name, a.value), rest))
  {
    var v := a.value + ([a.quote] + rest);
    var u := [a.quote] + v;
    var t := "=" + (a.after + u);
    var s := a.name + (a.before + t);
    AttributeAlgebra(a, rest);
    SkipTo(a.before, '=', a.after + u);
    SkipTo(a.after, a.quote, v);
    NameEnds(a.before, a.after + u);
    ParseNameStops(a.name, a.before + t);
    QuoteCuts(a.value, a.quote, rest);
    hide SkipWhiteSpace, ParseText, ParseName, IsName, Blank;
    assert ParseName(s) == a.name && s[|a.name|..] == a.before + t;
    assert (['='] + (a.after + u))[1..] == a.after + u && ([a.quote] + v)[1..] == v;
    assert ['='] + (a.after + u) == t;
  }

  lemma AttributeAlgebra(a: WrittenAttribute, rest: string)
    ensures a.name + (a.before + ("=" + (a.after + ([a.quote] + (a.value + [a.quote]))))) + rest
         == a.name + (a.before + ("=" + (a.after + ([a.quote] + (a.value + ([a.quote] + rest))))))
  {
    var q := [a.quote];
    Assoc(a.value, q, rest);
    Assoc(q, a.value + q, rest);
    Assoc(a.after, q + (a.value + q), rest);
    Assoc("=", a.after + (q + (a.value + q)), rest);
    Assoc(a.before, "=" + (a.after + (q + (a.value + q))), rest);
    Assoc(a.name, a.before + ("=" + (a.after + (q + (a.value + q)))), rest);
  }

  lemma NameEnds(before: string, more: string)
    requires Blank(before)
    ensures var s := before + ("=" + more); s != [] && !IsNameChar(s[0])
  {
    if before != "" {
      assert before[0] in before;
    }
  }

  lemma QuoteCuts(value: string, quote: char, rest: string)
    requires quote !in value
    ensures ParseText(value + ([quote] + rest), [quote]) == Cut(value, rest)
  {
    var s := value + [quote] + rest;
    assert s == value + ([quote] + rest);
    forall i | 0 <= i < |value|
      ensures !([quote] <= s[i..])
    {
      assert s[i..][0] == value[i];
    }
    ParseTextFinds(value, [quote], rest);
  }

  /** What follows a name in an attribute, from the outside in. */
  predicate Parts(s: string, a: WrittenAttribute, rest: string) {
    s == a.name + (a.before + ("=" + (a.after + ([a.quote] + (a.value + ([a.quote] + rest))))))
  }

  lemma AttributeParts(s: string) returns (a: WrittenAttribute)
    requires ParseAttribute(s).Some?
    ensures GoodAttribute(a) && a.gap == "" && ParseAttribute(s).value.0 == Attribute(a.name, a.value)
    ensures Parts(s, a, ParseAttribute(s).value.1)
  {
    var name, rest := ParseName(s), ParseAttribute(s).value.1;
    var s1 := s[|name|..];
    var t := SkipWhiteSpace(s1);
    var u := SkipWhiteSpace(t[1..]);
    var value := ParseText(u[1..], [u[0]]).text;
    NameIsName(s);
    var before := Skipped(s1);
    var after := Skipped(t[1..]);
    ParseTextIsFirst(u[1..], [u[0]]);
    NotInside(value, u[0], rest, u[1..]);
    a := WrittenAttribute("", name, before, after, u[0], value);
    hide SkipWhiteSpace, ParseText, ParseName, IsName, Blank;
    assert s == name + s1 && t == "=" + t[1..] && u == [u[0]] + u[1..];
    assert u[1..] == value + ([u[0]] + rest) by { Assoc(value, [u[0]], rest); }
  }

  lemma Skipped(s: string) returns (gap: string)
    ensures Blank(gap) && s == gap + SkipWhiteSpace(s)
  {
    SkippedIsBlank(s);
    gap := s[..|s| - |SkipWhiteSpace(s)|];
  }

  // Nothing else is read as an attribute.
  lemma AttributeIsWritten(s: string) returns (a: WrittenAttribute)
    requires ParseAttribute(s).Some?
    ensures GoodAttribute(a) && a.gap == "" && ParseAttribute(s).value.0 == Attribute(a.name, a.value)
    ensures s == SpellAttribute(a) + ParseAttribute(s).value.1
  {
    a := AttributeParts(s);
    var rest := ParseAttribute(s).value.1;
    hide ParseAttribute, GoodAttribute;
    AttributeAlgebra(a, rest);
    var body := a.name + (a.before + ("=" + (a.after + ([a.quote] + (a.value + [a.quote])))));
    assert SpellAttribute(a) == "" + body == body;
  }

  lemma NameIsName(s: string)
    requires ParseName(s) != []
    ensures IsName(ParseName(s)) && ParseName(s) <= s
  {
    NameCharsAreLongest(s);
    var r := NameChars(s);
    assert r[0] == s[0];
  }

  lemma NotInside(value: string, c: char, rest: string, s: string)
    requires s == value + [c] + rest && forall i | 0 <= i < |value| :: !([c] <= s[i..])
    ensures c !in value
  {
    forall i | 0 <= i < |value|
      ensures value[i] != c
    {
      OneAt(s, i, c);
      assert s[i] == value[i];
    }
  }

  lemma OneAt(s: string, i: nat, c: char)
    requires i < |s|
    ensures [c] <= s[i..] <==> s[i] == c
  {
    assert s[i..][0] == s[i] && s[i..][..1] == [s[i]];
  }

  // ----- tags

  /** A tag behind its "<": the blanks in it, a slash in front of its name or at its end. */
  datatype WrittenTag =
    WrittenTag(gap: string, closing: bool, name: string, attributes: seq<WrittenAttribute>, end: string, sealed: bool)

  function TagEnds(t: WrittenTag): string {
    t.end + if t.sealed then "/>" else ">"
  }

  function SpellTag(t: WrittenTag): string {
    t.gap + ((if t.closing then "/" else "") + (t.name + (SpellAttributes(t.attributes) + TagEnds(t))))
  }

  predicate GoodTag(t: WrittenTag) {
    && Blank(t.gap) && IsName(t.name) && GoodAttributes(t.attributes) && Blank(t.end)
    && (t.attributes != [] ==> t.attributes[0].gap != "")
  }

  /** What it is read as. */
  function TagOf(t: WrittenTag, rest: string): Tag {
    if t.sealed then ClosedTag(t.name, AttributesOf(t.attributes), rest)
    else if t.closing then ClosingTag(t.name, rest)
    else OpenTag(t.name, AttributesOf(t.attributes), rest)
  }

  predicate Unseen(attributes: seq<WrittenAttribute>, seen: seq<Attribute>) {
    forall i | 0 <= i < |attributes| :: !HasAttribute(seen, attributes[i].name)
  }

  lemma OneMoreSeen(attributes: seq<WrittenAttribute>, seen: seq<Attribute>)
    requires attributes != [] && GoodAttributes(attributes) && Unseen(attributes, seen)
    ensures var a := attributes[0];
            && GoodAttribute(a) && !HasAttribute(seen, a.name) && GoodAttributes(attributes[1..])
            && Unseen(attributes[1..], seen + [Attribute(a.name, a.value)])
            && seen + [Attribute(a.name, a.value)] + AttributesOf(attributes[1..]) == seen + AttributesOf(attributes)
  {
    hide GoodAttribute;
    var a, more := attributes[0], attributes[1..];
    forall i | 0 <= i < |more|
      ensures !HasAttribute(seen + [Attribute(a.name, a.value)], more[i].name)
    {
      assert more[i] == attributes[i + 1];
      assert !HasAttribute(seen, attributes[i + 1].name);
    }
  }

  lemma AttributeTaken(a: WrittenAttribute, tail: string, seen: seq<Attribute>)
    requires GoodAttribute(a) && !HasAttribute(seen, a.name)
    ensures ParseAttributes(SpellAttribute(a) + tail, seen) == ParseAttributes(tail, seen + [Attribute(a.name, a.value)])
  {
    var body := a.name + (a.before + ("=" + (a.after + ([a.quote] + (a.value + [a.quote])))));
    AttributeReads(a, tail);
    Assoc(a.gap, body, tail);
    assert (body + tail)[0] == a.name[0];
    NameNotBlank(a.name[0]);
    SkipBlanksExactly(a.gap, body + tail);
    hide SkipWhiteSpace, ParseAttribute, HasAttribute, IsName, Blank;
  }

  lemma NameNotBlank(c: char)
    requires IsNameStartChar(c)
    ensures !IsWhiteSpace(c)
  {
  }

  lemma EndReads(end: string, sealed: bool, rest: string, seen: seq<Attribute>)
    requires Blank(end)
    ensures ParseAttributes(end + (if sealed then "/>" else ">") + rest, seen) == Head(seen, sealed, rest)
  {
    var e := if sealed then "/>" else ">";
    Assoc(end, e, rest);
    EndParses(e, rest, seen);
    assert (e + rest)[0] == e[0];
    SkipBlanksExactly(end, e + rest);
    HeadBehindBlanks(end + (e + rest), seen);
    HeadBehindBlanks(e + rest, seen);
    hide ParseAttributes, SkipWhiteSpace;
  }

  lemma {:induction false} AttributesRead(attributes: seq<WrittenAttribute>, seen: seq<Attribute>, end: string, sealed: bool, rest: string)
    requires GoodAttributes(attributes) && Unseen(attributes, seen) && Blank(end)
    ensures ParseAttributes(SpellAttributes(attributes) + (end + (if sealed then "/>" else ">") + rest), seen)
         == Head(seen + AttributesOf(attributes), sealed, rest)
    decreases |attributes|
  {
    hide ParseAttributes, GoodAttributes, Unseen, SpellAttribute;
    var tail := end + (if sealed then "/>" else ">") + rest;
    if attributes == [] {
      EndReads(end, sealed, rest, seen);
      assert "" + tail == tail && seen + AttributesOf(attributes) == seen;
    } else {
      var a, more := attributes[0], attributes[1..];
      OneMoreSeen(attributes, seen);
      AttributesRead(more, seen + [Attribute(a.name, a.value)], end, sealed, rest);
      Assoc(SpellAttribute(a), SpellAttributes(more), tail);
      AttributeTaken(a, SpellAttributes(more) + tail, seen);
    }
  }

  // Every written tag is read as what it is, whatever blanks and quotes it has.
  lemma TagReads(t: WrittenTag, rest: string)
    requires GoodTag(t)
    ensures ParseTag(SpellTag(t) + rest) == TagOf(t, rest)
  {
    var tail := SpellAttributes(t.attributes) + (TagEnds(t) + rest);
    NothingSeen(t.attributes);
    AttributesRead(t.attributes, [], t.end, t.sealed, rest);
    assert [] + AttributesOf(t.attributes) == AttributesOf(t.attributes);
    TagAlgebra(t, rest);
    TailStarts(t, rest);
    hide SpellAttributes, TagEnds, AttributesOf, ParseAttributes, GoodAttributes;
    TagNamed(t.gap, t.closing, t.name, tail);
  }

  lemma NothingSeen(attributes: seq<WrittenAttribute>)
    ensures Unseen(attributes, [])
  {
  }

  lemma TagAlgebra(t: WrittenTag, rest: string)
    ensures SpellTag(t) + rest
         == t.gap + ((if t.closing then "/" else "") + (t.name + (SpellAttributes(t.attributes) + (TagEnds(t) + rest))))
  {
    var slash, a, e := if t.closing then "/" else "", SpellAttributes(t.attributes), TagEnds(t);
    hide SpellAttributes, TagEnds;
    Assoc(a, e, rest);
    Assoc(t.name, a + e, rest);
    Assoc(slash, t.name + (a + e), rest);
    Assoc(t.gap, slash + (t.name + (a + e)), rest);
  }

  lemma TailStarts(t: WrittenTag, rest: string)
    requires GoodTag(t)
    ensures var tail := SpellAttributes(t.attributes) + (TagEnds(t) + rest); tail != [] && !IsNameChar(tail[0])
  {
    var e := TagEnds(t) + rest;
    var tail := SpellAttributes(t.attributes) + e;
    if t.attributes == [] {
      assert tail == e;
      if t.end != "" {
        assert t.end[0] in t.end && e[0] == t.end[0];
      } else {
        assert e[0] == '/' || e[0] == '>';
      }
    } else {
      var gap := t.attributes[0].gap;
      assert GoodAttribute(t.attributes[0]);
      assert gap[0] in gap && tail[0] == gap[0];
    }
  }

  lemma TagNamed(gap: string, closing: bool, name: string, tail: string)
    requires Blank(gap) && IsName(name) && tail != [] && !IsNameChar(tail[0])
    ensures var s := gap + ((if closing then "/" else "") + (name + tail));
            ParseTag(s) == match ParseAttributes(tail, [])
                           case BadHead(error) => BadTag(error)
                           case Head(attributes, closed, rest) =>
                             if closed then ClosedTag(name, attributes, rest)
                             else if closing then ClosingTag(name, rest) else OpenTag(name, attributes, rest)
  {
    var slash := if closing then "/" else "";
    var body := slash + (name + tail);
    ParseNameStops(name, tail);
    NameNotBlank(name[0]);
    assert !closing ==> body == name + tail;
    assert body[0] == if closing then '/' else name[0];
    SkipBlanksExactly(gap, body);
    assert closing ==> body[1..] == name + tail;
    hide SkipWhiteSpace, ParseAttributes, ParseName, Blank;
  }

  // ----- nothing else is read as a tag

  lemma {:induction false} AttributesAreWritten(s: string, seen: seq<Attribute>) returns (attributes: seq<WrittenAttribute>, end: string)
    requires ParseAttributes(s, seen).Head?
    ensures GoodAttributes(attributes) && Unseen(attributes, seen) && Blank(end)
    ensures var r := ParseAttributes(s, seen);
            && r.attributes == seen + AttributesOf(attributes)
            && s == SpellAttributes(attributes) + (end + (if r.closed then "/>" else ">") + r.rest)
    decreases |s|
  {
    hide GoodAttributes, Unseen;
    var t := SkipWhiteSpace(s);
    var gap := Skipped(s);
    if IsNameStartChar(t[0]) {
      var a := AttributeIsWritten(t);
      var rest := ParseAttribute(t).value.1;
      var node := Attribute(a.name, a.value);
      NextHead(s, seen, t, node, rest);
      var more;
      more, end := AttributesAreWritten(rest, seen + [node]);
      var first := a.(gap := gap);
      attributes := [first] + more;
      WithOneMore(first, more, seen);
      SpellGap(a, gap);
      var r := ParseAttributes(s, seen);
      var tail := end + (if r.closed then "/>" else ">") + r.rest;
      hide ParseAttributes, SpellAttribute, SkipWhiteSpace, ParseAttribute;
      assert s == gap + (SpellAttribute(a) + rest);
      Assoc(gap, SpellAttribute(a), rest);
      Assoc(SpellAttribute(first), SpellAttributes(more), tail);
      assert attributes[1..] == more;
    } else {
      attributes, end := [], gap;
      EndIsWritten(s, seen, t, gap);
      NoneGood(seen);
    }
  }

  lemma NoneGood(seen: seq<Attribute>)
    ensures GoodAttributes([]) && Unseen([], seen) && seen + AttributesOf([]) == seen
  {
  }

  lemma NextHead(s: string, seen: seq<Attribute>, t: string, a: Attribute, rest: string)
    requires t == SkipWhiteSpace(s) && t != [] && IsNameStartChar(t[0]) && ParseAttribute(t) == Some((a, rest))
    requires ParseAttributes(s, seen).Head?
    ensures !HasAttribute(seen, a.name) && ParseAttributes(s, seen) == ParseAttributes(rest, seen + [a])
  {
    hide SkipWhiteSpace, ParseAttribute, HasAttribute;
  }

  lemma WithOneMore(a: WrittenAttribute, more: seq<WrittenAttribute>, seen: seq<Attribute>)
    requires GoodAttribute(a) && !HasAttribute(seen, a.name) && GoodAttributes(more)
    requires Unseen(more, seen + [Attribute(a.name, a.value)])
    ensures GoodAttributes([a] + more) && Unseen([a] + more, seen)
    ensures seen + [Attribute(a.name, a.value)] + AttributesOf(more) == seen + AttributesOf([a] + more)
  {
    hide GoodAttribute;
    var all := [a] + more;
    var longer := seen + [Attribute(a.name, a.value)];
    forall i | 0 <= i < |more|
      ensures !HasAttribute(seen, more[i].name) && more[i].name != a.name
    {
      assert !HasAttribute(longer, more[i].name);
      assert longer[|seen|].name == a.name;
      assert forall j | 0 <= j < |seen| :: longer[j] == seen[j];
    }
  }

  lemma SpellGap(a: WrittenAttribute, gap: string)
    requires a.gap == ""
    ensures SpellAttribute(a.(gap := gap)) == gap + SpellAttribute(a)
  {
    var body := a.name + (a.before + ("=" + (a.after + ([a.quote] + (a.value + [a.quote])))));
    assert "" + body == body;
  }

  lemma EndIsWritten(s: string, seen: seq<Attribute>, t: string, gap: string)
    requires ParseAttributes(s, seen).Head? && t == SkipWhiteSpace(s) && t != [] && !IsNameStartChar(t[0]) && s == gap + t
    ensures var r := ParseAttributes(s, seen);
            r.attributes == seen && s == SpellAttributes([]) + (gap + (if r.closed then "/>" else ">") + r.rest)
  {
    hide SkipWhiteSpace;
    var r := ParseAttributes(s, seen);
    var e := if r.closed then "/>" else ">";
    assert t == e + r.rest;
    Assoc(gap, e, r.rest);
  }

  lemma TagIsWritten(s: string) returns (t: WrittenTag)
    requires !ParseTag(s).BadTag?
    ensures GoodTag(t) && ParseTag(s) == TagOf(t, ParseTag(s).rest) && s == SpellTag(t) + ParseTag(s).rest
  {
    var v := SkipWhiteSpace(s);
    var gap := Skipped(s);
    var closing := v != [] && v[0] == '/';
    var u := if closing then v[1..] else v;
    var name := ParseName(u);
    TagFrom(s, v, closing, u, name, u[|name|..]);
    hide ParseTag, ParseAttributes, SkipWhiteSpace;
    t := NamedTag(gap, closing, u, name);
    var r := ParseAttributes(u[|name|..], []);
    TagAlgebra(t, r.rest);
    hide SpellTag, GoodTag, SpellAttributes, TagEnds, AttributesOf, ParseName;
    assert v == (if closing then "/" else "") + u;
  }

  lemma NamedTag(gap: string, closing: bool, u: string, name: string) returns (t: WrittenTag)
    requires Blank(gap) && name == ParseName(u) != [] && ParseAttributes(u[|name|..], []).Head?
    ensures var r := ParseAttributes(u[|name|..], []);
            && GoodTag(t) && t.gap == gap && t.closing == closing && t.name == name && t.sealed == r.closed
            && AttributesOf(t.attributes) == r.attributes
            && u == name + (SpellAttributes(t.attributes) + (TagEnds(t) + r.rest))
  {
    hide ParseAttributes, GoodAttributes, SpellAttributes, AttributesOf;
    NameIsName(u);
    var attributes, end := AttributesAreWritten(u[|name|..], []);
    var r := ParseAttributes(u[|name|..], []);
    t := WrittenTag(gap, closing, name, attributes, end, r.closed);
    FirstGap(u, attributes, end + (if r.closed then "/>" else ">") + r.rest);
    assert [] + AttributesOf(attributes) == AttributesOf(attributes);
    hide ParseName, IsName;
    assert u == name + u[|name|..];
  }

  lemma TagFrom(s: string, v: string, closing: bool, u: string, name: string, tail: string)
    requires !ParseTag(s).BadTag? && v == SkipWhiteSpace(s) && (closing <==> v != [] && v[0] == '/')
    requires u == (if closing then v[1..] else v) && name == ParseName(u) && tail == u[|name|..]
    ensures name != [] && ParseAttributes(tail, []).Head?
    ensures var r := ParseAttributes(tail, []);
            ParseTag(s) == if r.closed then ClosedTag(name, r.attributes, r.rest)
                           else if closing then ClosingTag(name, r.rest) else OpenTag(name, r.attributes, r.rest)
  {
    hide SkipWhiteSpace, ParseAttributes, ParseName;
  }

  // The name was taken as long as it was, so the first attribute stands apart.
  lemma FirstGap(u: string, attributes: seq<WrittenAttribute>, tail: string)
    requires ParseName(u) != [] && u[|ParseName(u)|..] == SpellAttributes(attributes) + tail && GoodAttributes(attributes)
    ensures attributes != [] ==> attributes[0].gap != ""
  {
    NameCharsAreLongest(u);
    if attributes != [] {
      FirstChar(attributes, tail);
      var s := SpellAttributes(attributes) + tail;
      hide SpellAttributes;
      assert u[|ParseName(u)|] == s[0];
    }
  }

  lemma FirstChar(attributes: seq<WrittenAttribute>, tail: string)
    requires attributes != [] && GoodAttributes(attributes)
    ensures var s := SpellAttributes(attributes) + tail; s != [] && (attributes[0].gap == "" ==> IsNameChar(s[0]))
  {
    var a := attributes[0];
    assert GoodAttribute(a);
    assert a.gap == "" ==> SpellAttribute(a)[0] == a.name[0];
  }
}
