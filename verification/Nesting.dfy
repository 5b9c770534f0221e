/**
  The recursive parser against a flat reading of the same input: one tag after the
  other, with a stack of open names instead of recursion.
 */
module Nesting {
  import opened Options
  import opened XmlChars
  import opened XmlTree
  import opened Grammar

  datatype Event =
    | Leaf(node: Node)
    | Sealed(name: string, attributes: seq<Attribute>)
    | Opens(name: string, attributes: seq<Attribute>)
    | Closes(name: string)

  datatype Next = Finished | Unreadable | Next(event: Event, rest: string)

  /** The next tag or leaf of the input, whatever element it belongs to. */
  function NextEvent(s: string): (r: Next)
    ensures r.Next? ==> |r.rest| < |s|
  {
    if SkipWhiteSpace(s) == [] then Finished
    else if Identify(s).0.ElementTag? then
      match ParseTag(Identify(s).1)
      case BadTag(_) => Unreadable
      case ClosedTag(name, attributes, rest) => Next(Sealed(name, attributes), rest)
      case OpenTag(name, attributes, rest) => Next(Opens(name, attributes), rest)
      case ClosingTag(name, rest) => Next(Closes(name), rest)
    else
      match ParseOne(s)
      case One(node, rest) => Next(Leaf(node), rest)
      case _ => Unreadable
  }

  lemma LeafIsNoElement(s: string)
    requires SkipWhiteSpace(s) != [] && !Identify(s).0.ElementTag?
    ensures !ParseOne(s).End?
    ensures ParseOne(s).One? ==> !ParseOne(s).node.Element?
  {
  }

  /** The flat reader: every closing tag must name the innermost open element, except a stray one at top level. */
  predicate WellNested(s: string, stack: seq<string>)
    decreases |s|
  {
    match NextEvent(s)
    case Unreadable => false
    case Finished => stack == []
    case Next(Leaf(_), rest) => WellNested(rest, stack)
    case Next(Sealed(_, _), rest) => WellNested(rest, stack)
    case Next(Opens(name, _), rest) => WellNested(rest, [name] + stack)
    case Next(Closes(name), rest) => stack == [] || (name == stack[0] && WellNested(rest, stack[1..]))
  }

  /** What the result of the recursive parser means for a reader that still has `stack` open. */
  predicate Continues(r: Nodes, stack: seq<string>) {
    match r
    case BadNodes(_) => false
    case Nodes(_, None, _) => stack == []
    case Nodes(_, Some(name), rest) => stack == [] || (name == stack[0] && WellNested(rest, stack[1..]))
  }

  lemma {:induction false} NestingAgrees(s: string, stack: seq<string>)
    ensures WellNested(s, stack) <==> Continues(ParseNodes(s), stack)
    decreases |s|
  {
    hide ParseTag, ParseLeaf, ParseTextRun, SkipWhiteSpace;
    match NextEvent(s)
    case Finished =>
    case Unreadable =>
      if Identify(s).0.ElementTag? {
        assert ParseElement(Identify(s).1).BadNode?;
      } else {
        LeafIsNoElement(s);
      }
      assert ParseOne(s).BadNode?;
    case Next(Leaf(_), rest) => NestingAgrees(rest, stack);
    case Next(Sealed(_, _), rest) => NestingAgrees(rest, stack);
    case Next(Closes(_), _) =>
    case Next(Opens(name, _), rest) =>
      NestingAgrees(rest, [name] + stack);
      assert ([name] + stack)[1..] == stack;
      match ParseNodes(rest)
      case BadNodes(_) =>
      case Nodes(_, None, _) =>
      case Nodes(_, Some(end), rest') =>
        if end == name {
          NestingAgrees(rest', stack);
        }
  }

  // The parser reports no error exactly on input whose tags are well nested.
  lemma ParsesIffWellNested(s: string)
    ensures ParseNodes(s).Nodes? <==> WellNested(s, [])
  {
    NestingAgrees(s, []);
  }

  // ----- what is kept of the tags

  function EventsOf(node: Node): seq<Event>
    decreases node, 0
  {
    match node
    case Element(name, attributes, children, closed) =>
      if closed then [Sealed(name, attributes)]
      else [Opens(name, attributes)] + Events(children) + [Closes(name)]
    case _ => [Leaf(node)]
  }

  function Events(nodes: seq<Node>): seq<Event>
    decreases nodes, 1
  {
    if nodes == [] then [] else EventsOf(nodes[0]) + Events(nodes[1..])
  }

  /** Reading `s` yields exactly `events` and leaves `rest`. */
  predicate Reads(s: string, events: seq<Event>, rest: string)
    decreases |events|
  {
    if events == [] then s == rest
    else NextEvent(s).Next? && NextEvent(s).event == events[0] && Reads(NextEvent(s).rest, events[1..], rest)
  }

  lemma {:induction false} ReadsTwice(s: string, a: seq<Event>, mid: string, b: seq<Event>, rest: string)
    requires Reads(s, a, mid) && Reads(mid, b, rest)
    ensures Reads(s, a + b, rest)
    decreases |a|
  {
    hide NextEvent;
    if a == [] {
      assert a + b == b;
    } else {
      ReadsTwice(NextEvent(s).rest, a[1..], mid, b, rest);
      assert (a + b)[1..] == a[1..] + b;
    }
  }

  // Every element kept open was closed by a tag of its own name, and the tree lists the
  // tags in the order in which they were read.
  lemma {:induction false} ParsedTagsMatch(s: string)
    requires ParseNodes(s).Nodes?
    ensures var Nodes(nodes, end, rest) := ParseNodes(s);
            match end
            case Some(name) => Reads(s, Events(nodes) + [Closes(name)], rest)
            case None => exists blank :: Reads(s, Events(nodes), blank) && Blank(blank)
    decreases |s|
  {
    hide ParseTag, ParseLeaf, ParseTextRun, SkipWhiteSpace;
    if SkipWhiteSpace(s) == [] {
      SkippedIsBlank(s);
      assert s[..|s|] + [] == s;
      assert Reads(s, [], s) && Blank(s);
    } else {
      match ParseOne(s)
      case End(name, rest) =>
        assert Reads(rest, [], rest);
        assert Events([]) + [Closes(name)] == [Closes(name)];
        assert [Closes(name)][1..] == [];
      case One(node, rest) =>
        ParsedNodeMatches(s, node, rest);
        ParsedTagsMatch(rest);
        var Nodes(nodes, end, rest') := ParseNodes(rest);
        assert ([node] + nodes)[1..] == nodes;
        match end {
          case Some(name) =>
            ReadsTwice(s, EventsOf(node), rest, Events(nodes) + [Closes(name)], rest');
            assert EventsOf(node) + (Events(nodes) + [Closes(name)]) == Events([node] + nodes) + [Closes(name)];
          case None =>
            var blank :| Reads(rest, Events(nodes), blank) && Blank(blank);
            ReadsTwice(s, EventsOf(node), rest, Events(nodes), blank);
        }
    }
  }

  lemma {:induction false} ParsedNodeMatches(s: string, node: Node, rest: string)
    requires SkipWhiteSpace(s) != [] && ParseOne(s) == One(node, rest)
    ensures Reads(s, EventsOf(node), rest)
    decreases |s|, 0
  {
    hide ParseTag, ParseLeaf, ParseTextRun, SkipWhiteSpace;
    var e := NextEvent(s).event;
    if e.Opens? {
      var name, inner := e.name, NextEvent(s).rest;
      ParsedTagsMatch(inner);
      var events := Events(node.children) + [Closes(name)];
      assert [e] + events == EventsOf(node);
      assert ([e] + events)[1..] == events;
    } else {
      if !Identify(s).0.ElementTag? {
        LeafIsNoElement(s);
      }
      assert [e][1..] == [];
      assert EventsOf(node) == [e];
    }
  }
}
