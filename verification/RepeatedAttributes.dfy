/**
  Where the parser follows a null pointer: the test for a repeated attribute name decodes the value
  of the earlier attribute.
 */
module RepeatedAttributes {
  import opened Options
  import opened XmlChars
  import opened XmlTree
  import opened Grammar
  import opened Nesting
  import opened NullReferences
  import EntityDecoding
  import RoundTrip

  // ----- one tag

  /** All attributes from here to the end of the tag, or to the first thing that is none, repeated names included. */
  function AttributesRead(s: string): seq<Attribute>
    decreases |s|
  {
    var t := SkipWhiteSpace(s);
    if t == [] || !IsNameStartChar(t[0]) then []
    else
      match ParseAttribute(t)
      case None => []
      case Some((attribute, rest)) => [attribute] + AttributesRead(rest)
  }

  /** Number `j` is the first that repeats a name, and the value that number `i` has under it cannot be decoded. */
  predicate FatalRepeat(attributes: seq<Attribute>, i: nat, j: nat) {
    && i < j < |attributes| && attributes[i].name == attributes[j].name && DistinctNames(attributes[..j])
    && MeetsUndelimited(attributes[i].value)
  }

  predicate Fatal(attributes: seq<Attribute>) {
    exists i, j | 0 <= i < j < |attributes| :: FatalRepeat(attributes, i, j)
  }

  lemma RepeatIsFatal(seen: seq<Attribute>, attribute: Attribute, more: seq<Attribute>)
    requires DistinctNames(seen) && HasAttribute(seen, attribute.name)
    ensures RepeatedName(seen, attribute.name) == NULL_DEREFERENCE <==> Fatal(seen + ([attribute] + more))
  {
    var all, n := seen + ([attribute] + more), |seen|;
    var i := AttributeIndex(seen, attribute.name);
    CrashesIff(seen[i].value, EntityDecoding.ATTRIBUTE_VALUE);
    hide MeetsUndelimited, RepeatedName;
    assert all[..n] == seen && all[i] == seen[i] && all[n] == attribute;
    if RepeatedName(seen, attribute.name) == NULL_DEREFERENCE {
      RepeatedIs(seen, attribute.name);
      assert FatalRepeat(all, i, n);
    }
    if Fatal(all) {
      var i', j :| 0 <= i' < j < |all| && FatalRepeat(all, i', j);
      OnlyRepeat(all, i', j, i, n);
      RepeatedIs(seen, attribute.name);
    }
  }

  lemma RepeatedIs(seen: seq<Attribute>, name: string)
    requires HasAttribute(seen, name)
    ensures RepeatedName(seen, name) == NULL_DEREFERENCE
       <==> EntityDecoding.Decode(seen[AttributeIndex(seen, name)].value, EntityDecoding.ATTRIBUTE_VALUE) == EntityDecoding.BadReference
  {
  }

  lemma OnlyRepeat(all: seq<Attribute>, i: nat, j: nat, i': nat, j': nat)
    requires i < j < |all| && all[i].name == all[j].name && DistinctNames(all[..j])
    requires i' < j' < |all| && all[i'].name == all[j'].name && DistinctNames(all[..j'])
    ensures i == i' && j == j'
  {
    RepeatSpoils(all, i, j, j');
    RepeatSpoils(all, i', j', j);
    assert all[..j][i] == all[i] && all[..j][i'] == all[i'];
  }

  lemma RepeatSpoils(all: seq<Attribute>, i: nat, j: nat, n: nat)
    requires i < j < |all| && all[i].name == all[j].name && n <= |all|
    ensures j < n ==> !DistinctNames(all[..n])
  {
    if j < n {
      assert all[..n][i].name == all[..n][j].name;
    }
  }

  lemma DistinctNotFatal(seen: seq<Attribute>)
    requires DistinctNames(seen)
    ensures !Fatal(seen)
  {
  }

  lemma {:induction false} HeadFatal(s: string, seen: seq<Attribute>)
    requires DistinctNames(seen)
    ensures ParseAttributes(s, seen) == BadHead(NULL_DEREFERENCE) <==> Fatal(seen + AttributesRead(s))
    decreases |s|
  {
    hide ParseAttribute, RepeatedName, Fatal;
    var t := SkipWhiteSpace(s);
    if t == [] || !IsNameStartChar(t[0]) || ParseAttribute(t) == None {
      assert seen + [] == seen;
      DistinctNotFatal(seen);
      return;
    }
    var (attribute, rest) := ParseAttribute(t).value;
    if HasAttribute(seen, attribute.name) {
      RepeatIsFatal(seen, attribute, AttributesRead(rest));
    } else {
      assert seen + ([attribute] + AttributesRead(rest)) == seen + [attribute] + AttributesRead(rest);
      HeadFatal(rest, seen + [attribute]);
    }
  }

  /** The tag behind a "<", closing or not, has such a repetition. */
  predicate FatalTag(s: string) {
    var t := SkipWhiteSpace(s);
    var u := if t != [] && t[0] == '/' then t[1..] else t;
    var name := ParseName(u);
    name != [] && Fatal(AttributesRead(u[|name|..]))
  }

  lemma TagFatal(s: string)
    ensures ParseTag(s) == BadTag(NULL_DEREFERENCE) <==> FatalTag(s)
  {
    hide SkipWhiteSpace, ParseName, ParseAttributes, AttributesRead, Fatal;
    var t := SkipWhiteSpace(s);
    var u := if t != [] && t[0] == '/' then t[1..] else t;
    var name := ParseName(u);
    if name != [] {
      HeadFatal(u[|name|..], []);
      assert [] + AttributesRead(u[|name|..]) == AttributesRead(u[|name|..]);
    }
  }

  // ----- the whole input

  /**
    The flat reader comes to a fatal tag: it goes on behind every tag and leaf it can read, closing tags
    must name the innermost open element, and a stray one at top level ends the reading.
   */
  predicate ReachesFatalTag(s: string, stack: seq<string>)
    decreases |s|
  {
    match NextEvent(s)
    case Finished => false
    case Unreadable => Identify(s).0.ElementTag? && FatalTag(Identify(s).1)
    case Next(Leaf(_), rest) => ReachesFatalTag(rest, stack)
    case Next(Sealed(_, _), rest) => ReachesFatalTag(rest, stack)
    case Next(Opens(name, _), rest) => ReachesFatalTag(rest, [name] + stack)
    case Next(Closes(name), rest) => stack != [] && name == stack[0] && ReachesFatalTag(rest, stack[1..])
  }

  /** What the result of the recursive parser means for a reader that still has `stack` open. */
  predicate Crashes(r: Nodes, stack: seq<string>) {
    match r
    case BadNodes(error) => error == NULL_DEREFERENCE
    case Nodes(_, None, _) => false
    case Nodes(_, Some(name), rest) => stack != [] && name == stack[0] && ReachesFatalTag(rest, stack[1..])
  }

  lemma LeafNeverCrashes(s: string)
    requires SkipWhiteSpace(s) != [] && !Identify(s).0.ElementTag?
    ensures ParseOne(s).BadNode? ==> ParseOne(s).error != NULL_DEREFERENCE
  {
    hide ParseText;
  }

  // What the recursive parser makes of one event.
  lemma EventParsed(s: string)
    requires NextEvent(s).Next?
    ensures SkipWhiteSpace(s) != []
    ensures NextEvent(s).event.Leaf? || NextEvent(s).event.Sealed? ==> ParseOne(s).One? && ParseOne(s).rest == NextEvent(s).rest
    ensures NextEvent(s).event.Closes? ==> ParseOne(s) == End(NextEvent(s).event.name, NextEvent(s).rest)
    ensures NextEvent(s).event.Opens? ==> ParseOne(s) == Opened(NextEvent(s).event.name, NextEvent(s).event.attributes, NextEvent(s).rest)
  {
    hide ParseTag, ParseLeafNode, SkipWhiteSpace, ParseNodes;
  }

  /** An element that stays open, up to its closing tag. */
  function Opened(name: string, attributes: seq<Attribute>, rest: string): One {
    if rest == [] then BadNode(XML_ERROR_MISMATCHED_ELEMENT)
    else
      match ParseNodes(rest)
      case BadNodes(error) => BadNode(error)
      case Nodes(children, None, _) => BadNode(XML_ERROR_PARSING)
      case Nodes(children, Some(end), rest') =>
        if end == name then One(Element(name, attributes, children, false), rest') else BadNode(XML_ERROR_MISMATCHED_ELEMENT)
  }

  lemma UnreadableParsed(s: string)
    requires NextEvent(s) == Unreadable
    ensures SkipWhiteSpace(s) != [] && ParseOne(s).BadNode?
    ensures ParseOne(s).error == NULL_DEREFERENCE <==> Identify(s).0.ElementTag? && FatalTag(Identify(s).1)
  {
    hide ParseTag, ParseLeafNode, SkipWhiteSpace, ParseNodes, FatalTag;
    if Identify(s).0.ElementTag? {
      TagFatal(Identify(s).1);
    } else {
      LeafIsNoElement(s);
      LeafNeverCrashes(s);
    }
  }

  lemma {:induction false} CrashesFlat(s: string, stack: seq<string>)
    ensures ReachesFatalTag(s, stack) <==> Crashes(ParseNodes(s), stack)
    decreases |s|
  {
    hide NextEvent, ParseOne, Identify, SkipWhiteSpace, FatalTag;
    match NextEvent(s)
    case Finished => FinishedParsed(s);
    case Unreadable => UnreadableParsed(s);
    case Next(event, rest) =>
      EventParsed(s);
      match event {
        case Leaf(_) => CrashesFlat(rest, stack);
        case Sealed(_, _) => CrashesFlat(rest, stack);
        case Closes(_) =>
        case Opens(name, _) =>
          CrashesFlat(rest, [name] + stack);
          NothingToRead();
          assert ([name] + stack)[1..] == stack;
          if ParseOne(s).One? {
            CrashesFlat(ParseOne(s).rest, stack);
          }
      }
  }

  lemma FinishedParsed(s: string)
    requires NextEvent(s) == Finished
    ensures ParseNodes(s) == Nodes([], None, [])
  {
    hide ParseTag, ParseOne;
  }

  /** The text of a document behind leading blanks and the byte order mark. */
  function Content(input: string): string {
    var t := SkipWhiteSpace(CString(input));
    if BOM <= t then t[3..] else t
  }

  // The parser follows a null pointer exactly if a tag that is read repeats an attribute name whose
  // earlier value holds a numeric reference that is not delimited.
  lemma ParseCrashesIff(input: string)
    ensures ParseDocument(input) == BadDocument(NULL_DEREFERENCE) <==> ReachesFatalTag(Content(input), [])
  {
    CrashesFlat(Content(input), []);
    hide ParseNodes, SkipWhiteSpace, ReachesFatalTag, CString;
    if Content(input) == [] {
      NothingToRead();
    }
  }

  lemma NothingToRead()
    ensures ParseNodes([]) == Nodes([], None, []) && !ReachesFatalTag([], [])
  {
    assert SkipWhiteSpace([]) == [];
  }

  // ----- inputs that crash

  function Quoted(name: string, value: string, tail: string): string {
    " " + name + "=\"" + value + "\"" + tail
  }

  lemma RepeatParses(x: string, v: string, w: string, tail: string)
    requires IsName(x) && '"' !in v && '"' !in w && MeetsUndelimited(v)
    ensures ParseAttributes(Quoted(x, v, Quoted(x, w, tail)), []) == BadHead(NULL_DEREFERENCE)
  {
    hide MeetsUndelimited, ParseAttributes, IsName;
    var seen := [Attribute(x, v)];
    RoundTrip.AttributeStep(x, v, Quoted(x, w, tail), []);
    assert [] + seen == seen;
    SecondParses(x, w, tail, seen);
    CrashesIff(v, EntityDecoding.ATTRIBUTE_VALUE);
    RepeatedIs(seen, x);
  }

  lemma SecondParses(x: string, w: string, tail: string, seen: seq<Attribute>)
    requires IsName(x) && '"' !in w && seen != [] && seen[0].name == x
    ensures HasAttribute(seen, x) && ParseAttributes(Quoted(x, w, tail), seen) == BadHead(RepeatedName(seen, x))
  {
    hide SkipWhiteSpace, ParseAttribute, RepeatedName;
    var t := x + ("=\"" + w + "\"" + tail);
    assert Quoted(x, w, tail) == " " + t;
    assert t[0] == x[0];
    SkipBlanksExactly(" ", t);
    RoundTrip.AttributeParses(x, w, tail);
  }

  // Any element that repeats an attribute whose first value holds such a reference.
  lemma RepeatCrashes(name: string, x: string, v: string, w: string, tail: string)
    requires IsName(name) && IsName(x) && '"' !in v && '"' !in w && MeetsUndelimited(v)
    requires NUL !in name + Quoted(x, v, Quoted(x, w, tail))
    ensures ParseDocument("<" + (name + Quoted(x, v, Quoted(x, w, tail)))) == BadDocument(NULL_DEREFERENCE)
  {
    hide MeetsUndelimited, ParseAttributes, CString;
    var rest := Quoted(x, v, Quoted(x, w, tail));
    RepeatParses(x, v, w, tail);
    assert rest[0] == ' ';
    TagCrashes(name, rest);
    var body := name + rest;
    assert body[0] == name[0];
    RoundTrip.ElementHeader(body);
    hide Quoted, IsName, SkipWhiteSpace, ParseTag, Identify;
    assert ParseElement(body) == BadNode(NULL_DEREFERENCE);
    assert ParseOne("<" + body) == BadNode(NULL_DEREFERENCE);
    assert ("<" + body)[0] != BOM[0];
  }

  lemma TagCrashes(name: string, rest: string)
    requires IsName(name) && rest != [] && !IsNameChar(rest[0])
    requires ParseAttributes(rest, []) == BadHead(NULL_DEREFERENCE)
    ensures ParseTag(name + rest) == BadTag(NULL_DEREFERENCE)
  {
    hide ParseAttributes, SkipWhiteSpace, ParseName;
    assert (name + rest)[0] == name[0];
    RoundTrip.NoBlanks(name + rest);
    ParseNameStops(name, rest);
  }

  lemma RepeatCrashExample()
    ensures ParseDocument("<a x=\"&#z;\" x=\"\">") == BadDocument(NULL_DEREFERENCE)
  {
    var v := "&#z;";
    CrashExample();
    CrashesIff(v, EntityDecoding.ATTRIBUTE_VALUE);
    hide MeetsUndelimited, EntityDecoding.Decode, ParseDocument;
    var text := "<" + ("a" + Quoted("x", v, Quoted("x", "", ">")));
    assert text == "<a x=\"&#z;\" x=\"\">";
    RepeatCrashes("a", "x", v, "", ">");
  }
}
