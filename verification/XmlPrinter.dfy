/**
  XMLPrinter itself. Every method leaves the state that module Printer computes.
 */
module XmlPrinter {
  import opened XmlChars
  import opened XmlTree
  import opened EntityDecoding
  import opened Escaping
  import opened Rendering
  import P = Printer

  lemma {:induction false} EscapeAppend(a: string, c: char, restricted: bool)
    ensures Escape(a + [c], restricted) == Escape(a, restricted) + EscapeChar(c, restricted)
  {
    if a == [] {
      assert a + [c] == [c] && [c][1..] == [];
      assert EscapeChar(c, restricted) + [] == EscapeChar(c, restricted);
      assert [] + EscapeChar(c, restricted) == EscapeChar(c, restricted);
    } else {
      assert (a + [c])[1..] == a[1..] + [c];
      EscapeAppend(a[1..], c, restricted);
      Assoc(EscapeChar(a[0], restricted), Escape(a[1..], restricted), EscapeChar(c, restricted));
    }
  }

  class XMLPrinter {
    var out: string             // what the file or the buffer holds
    var stack: seq<string>      // _stack
    var elementJustOpened: bool
    var firstElement: bool
    var depth: int
    var textDepth: int
    var processEntities: bool
    const compactMode: bool

    function State(): P.State
      reads this
    {
      P.State(out, stack, elementJustOpened, firstElement, depth, textDepth, processEntities)
    }

    constructor (compact: bool, depth: int)
      ensures State() == P.Start(depth) && compactMode == compact
    {
      out, stack := "", [];
      elementJustOpened, firstElement := false, true;
      this.depth, textDepth := depth, -1;
      processEntities := true;
      compactMode := compact;
    }

    method Print(s: string)
      modifies this`out
      ensures State() == P.Put(old(State()), s)
    {
      out := out + s;
    }

    method PrintSpace(depth: int)
      modifies this`out
      ensures State() == P.Put(old(State()), Indent(depth))
    {
      var i := 0;
      while i < depth
        invariant 0 <= i && (i <= depth || i == 0)
        invariant out + Indent(depth - i) == old(out) + Indent(depth)
      {
        Assoc(out, "    ", Indent(depth - i - 1));
        Print("    ");
        i := i + 1;
      }
      assert out + "" == out;
    }

    /** Writes runs of plain characters, and an entity for each flagged one. */
    method PrintString(s: string, restricted: bool)
      requires NUL !in s
      modifies this`out
      ensures State() == P.Put(old(State()), P.Written(old(State()), s, restricted))
    {
      hide Flagged;
      var p, q := 0, 0;
      if processEntities {
        assert s[..0] == [] && Escape([], restricted) == [];
        hide Escape;
        while q < |s|
          invariant 0 <= p <= q <= |s|
          invariant out + s[p..q] == old(out) + Escape(s[..q], restricted)
        {
          if Flagged(s[q], restricted) {
            PrintEntity(s, p, q, restricted, old(out));
            p := q + 1;
            assert s[p..q + 1] == [] && out + [] == out;
          } else {
            PlainRun(s, p, q, restricted, out, old(out));
          }
          q := q + 1;
        }
        assert s[..q] == s && s[p..q] == s[p..];
      }
      if !processEntities || q > p {
        Print(s[p..]);
      } else {
        assert out + s[p..q] == out;
      }
    }

    /** Flushes the run s[p..q] and writes the entity of the flagged character behind it. */
    method PrintEntity(s: string, p: nat, q: nat, restricted: bool, ghost before: string)
      requires p <= q < |s| && processEntities && Flagged(s[q], restricted)
      requires out + s[p..q] == before + Escape(s[..q], restricted)
      modifies this`out
      ensures out == before + Escape(s[..q + 1], restricted)
    {
      hide Escape, EscapeChar;
      ghost var start := out;
      var k := p;
      while k < q
        invariant p <= k <= q && out == start + s[p..k]
      {
        assert start + s[p..k] + [s[k]] == start + s[p..k + 1];
        Print([s[k]]);
        k := k + 1;
      }
      FlaggedEntity(s[q], restricted);
      var i := 0;
      while ENTITIES[i].value != s[q]
        invariant 0 <= i < NUM_ENTITIES && EntityOf(s[q], i) == EntityOf(s[q], 0) < NUM_ENTITIES
        decreases NUM_ENTITIES - i
      {
        i := i + 1;
      }
      EscapedRun(s, q, restricted, before);
      Print("&" + ENTITIES[i].pattern + ";");
    }

    lemma FlaggedEntity(c: char, restricted: bool)
      requires Flagged(c, restricted)
      ensures EntityOf(c, 0) < NUM_ENTITIES && EscapeChar(c, restricted) == "&" + ENTITIES[EntityOf(c, 0)].pattern + ";"
    {
      assert ENTITIES[0].value == '"' && ENTITIES[1].value == '&' && ENTITIES[2].value == '\''
        && ENTITIES[3].value == '<' && ENTITIES[4].value == '>';
    }

    lemma PlainRun(s: string, p: nat, q: nat, restricted: bool, now: string, before: string)
      requires p <= q < |s| && !Flagged(s[q], restricted)
      requires now + s[p..q] == before + Escape(s[..q], restricted)
      ensures now + s[p..q + 1] == before + Escape(s[..q + 1], restricted)
    {
      hide Escape, EscapeChar, Flagged;
      EscapedRun(s, q, restricted, before);
      PlainChar(s[q], restricted);
      assert s[p..q + 1] == s[p..q] + [s[q]];
      Assoc(now, s[p..q], [s[q]]);
    }

    lemma PlainChar(c: char, restricted: bool)
      requires !Flagged(c, restricted)
      ensures EscapeChar(c, restricted) == [c]
    {
    }

    lemma EscapedRun(s: string, q: nat, restricted: bool, before: string)
      requires q < |s|
      ensures before + Escape(s[..q], restricted) + EscapeChar(s[q], restricted)
           == before + Escape(s[..q + 1], restricted)
    {
      EscapeAppend(s[..q], s[q], restricted);
      assert s[..q + 1] == s[..q] + [s[q]];
      Assoc(before, Escape(s[..q], restricted), EscapeChar(s[q], restricted));
    }

    method SealElementIfJustOpened()
      modifies this`out, this`elementJustOpened
      ensures State() == P.Seal(old(State()))
    {
      if !elementJustOpened {
        return;
      }
      elementJustOpened := false;
      Print(">");
    }

    method OpenElement(name: string, compact: bool)
      modifies this`out, this`stack, this`elementJustOpened, this`firstElement, this`depth
      ensures State() == P.OpenElement(old(State()), name, compact)
    {
      SealElementIfJustOpened();
      stack := stack + [name];
      if textDepth < 0 && !firstElement && !compact {
        Print("\n");
      }
      if !compact {
        PrintSpace(depth);
      }
      Print("<" + name);
      elementJustOpened := true;
      firstElement := false;
      depth := depth + 1;
    }

    method PushAttribute(name: string, value: string)
      requires elementJustOpened && NUL !in value
      modifies this`out
      ensures State() == P.PushAttribute(old(State()), name, value)
    {
      Print(" " + name + "=\"");
      PrintString(value, false);
      Print("\"");
      Assoc(old(out), " " + name + "=\"", P.Written(old(State()), value, false));
      Assoc(old(out), " " + name + "=\"" + P.Written(old(State()), value, false), "\"");
    }

    method CloseElement(compact: bool)
      requires stack != []
      modifies this`out, this`stack, this`elementJustOpened, this`depth, this`textDepth
      ensures State() == P.CloseElement(old(State()), compact)
    {
      depth := depth - 1;
      var name := stack[|stack| - 1];
      stack := stack[..|stack| - 1];
      if elementJustOpened {
        Print("/>");
      } else {
        ghost var start := out;
        if textDepth < 0 && !compact {
          Print("\n");
          PrintSpace(depth);
          Assoc(start, "\n", Indent(depth));
        }
        ghost var lead := if textDepth < 0 && !compact then "\n" + Indent(depth) else "";
        assert lead == "" ==> start + lead == start;
        Print("</" + name + ">");
        assert lead + "</" + name + ">" == lead + ("</" + name + ">");
        Assoc(start, lead, "</" + name + ">");
      }
      if textDepth == depth {
        textDepth := -1;
      }
      if depth == 0 && !compact {
        Print("\n");
      }
      elementJustOpened := false;
    }

    method PushText(text: string, cdata: bool)
      requires NUL !in text
      modifies this`out, this`elementJustOpened, this`textDepth
      ensures State() == P.PushText(old(State()), text, cdata)
    {
      textDepth := depth - 1;
      SealElementIfJustOpened();
      if cdata {
        ghost var start := out;
        Print("<![CDATA[");
        Print(text);
        Print("]]>");
        Assoc(start, "<![CDATA[", text);
        Assoc(start, "<![CDATA[" + text, "]]>");
      } else {
        PrintString(text, true);
      }
    }

    /** The common part of PushComment, PushDeclaration and PushUnknown. */
    method PushTag(tag: string)
      modifies this`out, this`elementJustOpened, this`firstElement
      ensures State() == P.PushTag(old(State()), tag, compactMode)
    {
      SealElementIfJustOpened();
      ghost var start := out;
      ghost var lead := if textDepth < 0 && !firstElement && !compactMode then "\n" + Indent(depth) else "";
      if textDepth < 0 && !firstElement && !compactMode {
        Print("\n");
        PrintSpace(depth);
        Assoc(start, "\n", Indent(depth));
      }
      assert lead == "" ==> start + lead == start;
      firstElement := false;
      Assoc(start, lead, tag);
      Print(tag);
    }

    method PushHeader(writeBOM: bool, writeDec: bool)
      modifies this`out, this`elementJustOpened, this`firstElement
      ensures State() == P.PushHeader(old(State()), writeBOM, writeDec, compactMode)
    {
      if writeBOM {
        Print(BOM);
      }
      if writeDec {
        PushTag("<?" + "xml version=\"1.0\"" + "?>");
      }
    }

    // ----- the visitor

    method VisitEnter(name: string, attributes: seq<Attribute>)
      requires forall a <- attributes :: NUL !in a.value
      modifies this`out, this`stack, this`elementJustOpened, this`firstElement, this`depth
      ensures State() == P.PushAttributes(P.OpenElement(old(State()), name, compactMode), attributes)
    {
      OpenElement(name, compactMode);
      ghost var start := State();
      var i := 0;
      while i < |attributes|
        invariant 0 <= i <= |attributes| && elementJustOpened
        invariant P.PushAttributes(State(), attributes[i..]) == P.PushAttributes(start, attributes)
      {
        assert attributes[i..][1..] == attributes[i + 1..];
        PushAttribute(attributes[i].name, attributes[i].value);
        i := i + 1;
      }
      assert attributes[i..] == [];
    }

    /** Accept: the depth-first walk over a node. */
    method Accept(node: Node)
      requires NulFree(node)
      modifies this
      ensures State() == P.VisitNode(old(State()), node, compactMode)
      decreases node, 0
    {
      match node
      case Element(name, attributes, children, _) =>
        VisitEnter(name, attributes);
        AcceptAll(children);
        P.AttributesKeep(P.OpenElement(old(State()), name, compactMode), attributes);
        CloseElement(compactMode);
      case Text(value, cdata) => PushText(value, cdata);
      case Comment(value) => PushTag("<!--" + value + "-->");
      case Declaration(value) => PushTag("<?" + value + "?>");
      case Unknown(value) => PushTag("<!" + value + ">");
    }

    method AcceptAll(nodes: seq<Node>)
      requires forall i | 0 <= i < |nodes| :: NulFree(nodes[i])
      modifies this
      ensures State() == P.VisitNodes(old(State()), nodes, compactMode)
      decreases nodes, 1
    {
      var i := 0;
      while i < |nodes|
        invariant 0 <= i <= |nodes|
        invariant P.VisitNodes(State(), nodes[i..], compactMode) == P.VisitNodes(old(State()), nodes, compactMode)
      {
        assert nodes[i..][1..] == nodes[i + 1..];
        Accept(nodes[i]);
        i := i + 1;
      }
      assert nodes[i..] == [];
    }

    /** XMLDocument::Print on this printer. */
    method PrintDocument(nodes: seq<Node>, bom: bool, entities: bool)
      requires forall i | 0 <= i < |nodes| :: NulFree(nodes[i])
      modifies this
      ensures State() == P.VisitDocument(old(State()), nodes, bom, entities, compactMode)
    {
      processEntities := entities;
      if bom {
        PushHeader(true, false);
      }
      AcceptAll(nodes);
    }
  }

  /** C strings: no value of the tree holds a NUL. */
  predicate NulFree(node: Node)
    decreases node
  {
    match node
    case Element(_, attributes, children, _) =>
      (forall a <- attributes :: NUL !in a.value) && (forall i | 0 <= i < |children| :: NulFree(children[i]))
    case _ => NUL !in node.value
  }
}
