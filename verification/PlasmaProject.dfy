/**
  The Plasma project file that MAG writes: the printer calls of generate_plasma_file, and
  that reading the file gives back exactly the project.
 */
module PlasmaProject {
  import opened Options
  import opened XmlChars
  import opened XmlTree
  import opened Grammar
  import opened Escaping
  import opened Rendering
  import opened Denotation
  import opened Fidelity
  import Layout
  import opened RoundTrip
  import opened Documents
  import opened XmlPrinter
  import P = Printer

  datatype Requirement = Requirement(name: string, formula: string)

  /** What global_params and the monitors provide. */
  datatype Project = Project(name: string, modelName: string, modelType: string, modelContent: string,
                             requirementType: string, requirements: seq<Requirement>)

  predicate CStrings(p: Project) {
    && NUL !in p.name && NUL !in p.modelName && NUL !in p.modelType && NUL !in p.modelContent && NUL !in p.requirementType
    && forall r <- p.requirements :: NUL !in r.name && NUL !in r.formula
  }

  // ----- the tree that the file denotes

  function Content(text: string): Node {
    Element("content", [], [Text(text, false)], false)
  }

  function Model(p: Project): Node {
    Element("model", [Attribute("name", p.modelName), Attribute("type", p.modelType)], [Content(p.modelContent)], false)
  }

  function RequirementNode(r: Requirement, kind: string): Node {
    Element("requirement", [Attribute("name", r.name), Attribute("type", kind)], [Content(r.formula)], false)
  }

  function RequirementNodes(rs: seq<Requirement>, kind: string): (nodes: seq<Node>)
    ensures |nodes| == |rs|
    ensures forall i | 0 <= i < |rs| :: nodes[i] == RequirementNode(rs[i], kind)
  {
    seq(|rs|, i requires 0 <= i < |rs| => RequirementNode(rs[i], kind))
  }

  function Root(p: Project): Node {
    Element("PlasmaProject", [Attribute("name", p.name)],
            [Element("models", [], [Model(p)], false),
             Element("requirements", [], RequirementNodes(p.requirements, p.requirementType), false),
             Element("resources", [], [], false)],
            false)
  }

  function Tree(p: Project): seq<Node> {
    [Declaration("xml version=\"1.0\""), Root(p)]
  }

  // ----- reading the file

  /** An element with a name, a type and a content. */
  datatype Item = Item(name: string, kind: string, content: string)

  /** A content element: its text, or nothing. */
  function ReadContent(node: Node): Option<string> {
    if !node.Element? || node.name != "content" || node.attributes != [] then None
    else if node.children == [] then Some("")
    else if |node.children| == 1 && node.children[0].Text? then Some(node.children[0].value)
    else None
  }

  function ReadItem(node: Node, element: string): Option<Item> {
    if !node.Element? || node.name != element || |node.attributes| != 2 || |node.children| != 1 then None
    else if node.attributes[0].name != "name" || node.attributes[1].name != "type" then None
    else
      match ReadContent(node.children[0])
      case None => None
      case Some(content) => Some(Item(node.attributes[0].value, node.attributes[1].value, content))
  }

  /** The children of an element without attributes. */
  function ReadGroup(node: Node, element: string): Option<seq<Node>> {
    if node.Element? && node.name == element && node.attributes == [] then Some(node.children) else None
  }

  /** Requirements, all of one type. */
  function ReadRequirements(nodes: seq<Node>, kind: string): Option<seq<Requirement>> {
    if nodes == [] then Some([])
    else
      match (ReadItem(nodes[0], "requirement"), ReadRequirements(nodes[1..], kind))
      case (Some(item), Some(more)) =>
        if item.kind == kind then Some([Requirement(item.name, item.content)] + more) else None
      case _ => None
  }

  /** A reader of the decoded tree: it goes by the names of elements and attributes, and refuses whatever it does not know. */
  function ReadProject(nodes: seq<Node>): Option<Project> {
    if |nodes| != 2 || nodes[0] != Declaration("xml version=\"1.0\"") || !nodes[1].Element? then None
    else
      var root := nodes[1];
      if root.name != "PlasmaProject" || |root.attributes| != 1 || root.attributes[0].name != "name" || |root.children| != 3 then None
      else
        match (ReadGroup(root.children[0], "models"), ReadGroup(root.children[1], "requirements"),
               ReadGroup(root.children[2], "resources"))
        case (Some(models), Some(list), Some(resources)) =>
          if |models| != 1 || resources != [] then None
          else
            var kind := if list == [] || ReadItem(list[0], "requirement").None? then "" else ReadItem(list[0], "requirement").value.kind;
            (match (ReadItem(models[0], "model"), ReadRequirements(list, kind))
             case (Some(model), Some(rs)) =>
               Some(Project(root.attributes[0].value, model.name, model.kind, model.content, kind, rs))
             case _ => None)
        case _ => None
  }

  // ----- writing the file

  lemma {:induction false} VisitOneMore(st: P.State, nodes: seq<Node>, node: Node)
    ensures P.VisitNodes(st, nodes + [node], false) == P.VisitNode(P.VisitNodes(st, nodes, false), node, false)
    decreases |nodes|
  {
    if nodes == [] {
      assert [] + [node] == [node];
      VisitSingle(st, node);
    } else {
      assert (nodes + [node])[0] == nodes[0] && (nodes + [node])[1..] == nodes[1..] + [node];
      VisitOneMore(P.VisitNode(st, nodes[0], false), nodes[1..], node);
    }
  }

  lemma VisitSingle(st: P.State, node: Node)
    ensures P.VisitNodes(st, [node], false) == P.VisitNode(st, node, false)
  {
    var next := P.VisitNode(st, node, false);
    assert [node][1..] == [] && [node][0] == node;
    assert P.VisitNodes(next, [], false) == next;
    assert P.VisitNodes(st, [node], false) == P.VisitNodes(next, [node][1..], false);
  }

  lemma TwoAttributes(st: P.State, a: Attribute, b: Attribute)
    ensures P.PushAttributes(st, [a, b]) == P.PushAttribute(P.PushAttribute(st, a.name, a.value), b.name, b.value)
    ensures P.PushAttributes(st, [a]) == P.PushAttribute(st, a.name, a.value)
  {
    OneAttribute(st, a);
    OneAttribute(P.PushAttribute(st, a.name, a.value), b);
    assert [a, b][1..] == [b];
  }

  lemma OneAttribute(st: P.State, a: Attribute)
    ensures P.PushAttributes(st, [a]) == P.PushAttribute(st, a.name, a.value)
  {
    var next := P.PushAttribute(st, a.name, a.value);
    assert [a][1..] == [];
    assert P.PushAttributes(next, []) == next;
  }

  method PrintContent(printer: XMLPrinter, text: string)
    requires NUL !in text && !printer.compactMode
    modifies printer
    ensures printer.State() == P.VisitNode(old(printer.State()), Content(text), false)
  {
    printer.OpenElement("content", false);
    VisitSingle(printer.State(), Text(text, false));
    printer.PushText(text, false);
    printer.CloseElement(false);
  }

  method PrintModel(printer: XMLPrinter, p: Project)
    requires CStrings(p) && !printer.compactMode
    modifies printer
    ensures printer.State() == P.VisitNode(old(printer.State()), Model(p), false)
  {
    printer.OpenElement("model", false);
    TwoAttributes(printer.State(), Attribute("name", p.modelName), Attribute("type", p.modelType));
    printer.PushAttribute("name", p.modelName);
    printer.PushAttribute("type", p.modelType);
    VisitSingle(printer.State(), Content(p.modelContent));
    PrintContent(printer, p.modelContent);
    printer.CloseElement(false);
  }

  method PrintRequirement(printer: XMLPrinter, r: Requirement, kind: string)
    requires NUL !in r.name && NUL !in r.formula && NUL !in kind && !printer.compactMode
    modifies printer
    ensures printer.State() == P.VisitNode(old(printer.State()), RequirementNode(r, kind), false)
  {
    printer.OpenElement("requirement", false);
    TwoAttributes(printer.State(), Attribute("name", r.name), Attribute("type", kind));
    printer.PushAttribute("name", r.name);
    printer.PushAttribute("type", kind);
    VisitSingle(printer.State(), Content(r.formula));
    PrintContent(printer, r.formula);
    printer.CloseElement(false);
  }

  /** The loop through all monitors, inside the requirements element. */
  method PrintRequirements(printer: XMLPrinter, p: Project)
    requires CStrings(p) && !printer.compactMode
    modifies printer
    ensures printer.State()
         == P.VisitNode(old(printer.State()), Root(p).children[1], false)
  {
    printer.OpenElement("requirements", false);
    ghost var start := printer.State();
    ghost var nodes := RequirementNodes(p.requirements, p.requirementType);
    var i := 0;
    while i < |p.requirements|
      invariant 0 <= i <= |p.requirements|
      invariant printer.State() == P.VisitNodes(start, nodes[..i], false)
    {
      assert p.requirements[i] in p.requirements;
      assert nodes[..i + 1] == nodes[..i] + [nodes[i]];
      VisitOneMore(start, nodes[..i], nodes[i]);
      PrintRequirement(printer, p.requirements[i], p.requirementType);
      i := i + 1;
    }
    assert nodes[..i] == nodes;
    printer.CloseElement(false);
  }

  method PrintModels(printer: XMLPrinter, p: Project)
    requires CStrings(p) && !printer.compactMode
    modifies printer
    ensures printer.State() == P.VisitNode(old(printer.State()), Root(p).children[0], false)
  {
    printer.OpenElement("models", false);
    VisitSingle(printer.State(), Model(p));
    PrintModel(printer, p);
    printer.CloseElement(false);
  }

  method PrintResources(printer: XMLPrinter)
    requires !printer.compactMode
    modifies printer
    ensures printer.State() == P.VisitNode(old(printer.State()), Element("resources", [], [], false), false)
  {
    printer.OpenElement("resources", false);
    printer.CloseElement(false);
  }

  method GeneratePlasmaFile(p: Project) returns (file: string)
    requires CStrings(p)
    ensures file == P.VisitDocument(P.Start(1), Tree(p), true, true, false).out
    ensures file == BOM + Layout.Joined(FileRows(p))
  {
    hide P.VisitNode, P.VisitNodes, P.OpenElement, P.PushAttribute, P.PushHeader, P.CloseElement;
    var printer := new XMLPrinter(false, 1);
    printer.PushHeader(true, true);
    ghost var header := printer.State();
    printer.OpenElement("PlasmaProject", false);
    ElementOpened(header, "PlasmaProject");
    printer.PushAttribute("name", p.name);
    ghost var root := printer.State();
    PrintModels(printer, p);
    PrintRequirements(printer, p);
    PrintResources(printer);
    VisitChildren(root, p);
    RootVisit(header, p);
    HeaderVisit(p);
    printer.CloseElement(false);
    file := printer.out;
    FileIsRows(p);
    hide *;
  }

  lemma ElementOpened(st: P.State, name: string)
    ensures P.OpenElement(st, name, false).justOpened
  {
  }

  lemma VisitChildren(root: P.State, p: Project)
    ensures var kids := Root(p).children;
            P.VisitNodes(root, kids, false)
            == P.VisitNode(P.VisitNode(P.VisitNode(root, kids[0], false), kids[1], false), kids[2], false)
  {
    hide P.VisitNode, P.VisitNodes;
    var kids := Root(p).children;
    VisitSingle(root, kids[0]);
    VisitOneMore(root, [kids[0]], kids[1]);
    VisitOneMore(root, [kids[0], kids[1]], kids[2]);
    assert [kids[0]] + [kids[1]] == [kids[0], kids[1]];
    assert [kids[0], kids[1]] + [kids[2]] == kids;
  }

  lemma RootVisit(header: P.State, p: Project)
    ensures var inside := P.PushAttribute(P.OpenElement(header, "PlasmaProject", false), "name", p.name);
            inside.stack == header.stack + ["PlasmaProject"]
            && P.VisitNode(header, Root(p), false) == P.CloseElement(P.VisitNodes(inside, Root(p).children, false), false)
  {
    var inside := P.OpenElement(header, "PlasmaProject", false);
    TwoAttributes(inside, Attribute("name", p.name), Attribute("name", p.name));
    P.AttributesKeep(inside, Root(p).attributes);
  }

  lemma HeaderVisit(p: Project)
    ensures P.VisitNodes(P.PushHeader(P.Start(1), true, false, false), Tree(p), false)
         == P.VisitNode(P.PushHeader(P.Start(1), true, true, false), Root(p), false)
  {
    var tree := Tree(p);
    var start := P.PushHeader(P.Start(1), true, false, false);
    VisitSingle(start, tree[0]);
    VisitOneMore(start, [tree[0]], tree[1]);
    assert [tree[0]] + [tree[1]] == tree;
  }

  // ----- the theorem

  lemma NamesAreLegal()
    ensures IsName("PlasmaProject") && IsName("models") && IsName("model") && IsName("content")
    ensures IsName("requirements") && IsName("requirement") && IsName("resources")
    ensures IsName("name") && IsName("type")
  {
  }

  lemma ContentPrintable(text: string)
    requires NUL !in text
    ensures Printable(Content(text))
  {
    NamesAreLegal();
    SingletonPrintable(Text(text, false));
  }

  lemma ItemPrintable(name: string, a: string, b: string, text: string)
    requires IsName(name) && NUL !in a && NUL !in b && NUL !in text
    ensures Printable(Element(name, [Attribute("name", a), Attribute("type", b)], [Content(text)], false))
  {
    NamesAreLegal();
    ContentPrintable(text);
    assert "name"[0] != "type"[0];
    SingletonPrintable(Content(text));
  }

  lemma RootPrintable(p: Project)
    requires CStrings(p)
    ensures Printable(Root(p))
  {
    NamesAreLegal();
    ItemPrintable("model", p.modelName, p.modelType, p.modelContent);
    var items := RequirementNodes(p.requirements, p.requirementType);
    forall i | 0 <= i < |items|
      ensures Printable(items[i])
    {
      var r := p.requirements[i];
      assert r in p.requirements;
      ItemPrintable("requirement", r.name, p.requirementType, r.formula);
    }
    assert PrintableAll([Model(p)]);
    assert PrintableAll(items);
    var kids := Root(p).children;
    assert Printable(kids[0]) && Printable(kids[1]) && Printable(kids[2]);
    assert PrintableAll(kids);
  }

  lemma TreePrintable(p: Project)
    requires CStrings(p)
    ensures PrintableAll(Tree(p))
  {
    RootPrintable(p);
    DeclarationPrintable();
    hide Printable;
    var tree := Tree(p);
    assert PrintableAll(tree);
  }

  lemma DeclarationPrintable()
    ensures Printable(Declaration("xml version=\"1.0\""))
  {
    NoTagInside("xml version=\"1.0\"");
  }

  lemma NoTagInside(v: string)
    requires '>' !in v
    ensures !Occurs("?>", v)
  {
    forall i | 0 <= i <= |v|
      ensures !("?>" <= v[i..])
    {
      assert "?>"[1] == '>' && (i + 1 < |v| ==> v[i..][1] == v[i + 1] && v[i + 1] in v);
    }
  }

  // ----- what the printed text denotes

  function DenotedAll(nodes: seq<Node>, depth: nat): (r: seq<Node>)
    ensures |r| == |nodes|
    ensures forall i | 0 <= i < |nodes| :: r[i] == Denoted(nodes[i], depth, false)
  {
    seq(|nodes|, i requires 0 <= i < |nodes| => Denoted(nodes[i], depth, false))
  }

  // Without plain text among them, nodes are read back one by one.
  lemma {:induction false} MarkupDenotes(pending: string, nodes: seq<Node>, depth: nat, first: bool)
    requires Blank(pending) && forall i | 0 <= i < |nodes| :: !PlainText(nodes[i])
    ensures Front(pending, nodes, depth, first, false) == DenotedAll(nodes, depth)
    ensures Blank(LastRun(pending, nodes, depth, false))
    decreases |nodes|
  {
    hide Denoted, Lead, Trail, Blank;
    if nodes != [] {
      var n, more := nodes[0], nodes[1..];
      LeadsAreBlank(n, depth, first, depth - 1, false);
      BlankBoth(pending, Lead(n, depth, first, depth - 1, false));
      assert forall i | 0 <= i < |more| :: more[i] == nodes[i + 1];
      MarkupDenotes(Trail(n, depth, false), more, depth, first && n.Text?);
      assert DenotedAll(nodes, depth) == [Denoted(n, depth, false)] + DenotedAll(more, depth);
    }
  }

  lemma ListDenotes(name: string, attributes: seq<Attribute>, kids: seq<Node>, depth: nat)
    requires forall i | 0 <= i < |kids| :: !PlainText(kids[i])
    ensures Denoted(Element(name, attributes, kids, false), depth, false)
         == Element(name, attributes, DenotedAll(kids, depth + 1), kids == [])
  {
    MarkupDenotes("", kids, depth + 1, false);
    hide Front, LastRun;
    assert DenotedAll(kids, depth + 1) + [] == DenotedAll(kids, depth + 1);
  }

  lemma ContentDenotes(text: string, depth: nat)
    ensures Denoted(Content(text), depth, false) == Element("content", [], Run(text), false)
  {
    var kids := [Text(text, false)];
    assert kids[1..] == [];
    WholeStep("", kids, depth + 1, false, false);
    assert "" + text == text;
    WholeStep(text, [], depth + 1, false, false);
    ElementSame(Content(text), depth, false);
    hide Front, LastRun, Run;
  }

  lemma TreeReads(p: Project)
    ensures ReadBack(Tree(p), true, 1, false) == Read([Tree(p)[0], Denoted(Root(p), 1, false)], true)
  {
    hide Denoted;
    var tree := Tree(p);
    assert Opening(tree) == "" && Body(tree) == tree;
    MarkupDenotes("", tree, 1, true);
    hide Front, LastRun, Root;
    assert DenotedAll(tree, 1)[0] == Denoted(tree[0], 1, false);
    DeclarationDenotes(tree[0]);
    assert DenotedAll(tree, 1) == [tree[0], Denoted(Root(p), 1, false)];
  }

  lemma DeclarationDenotes(node: Node)
    requires node.Declaration?
    ensures Denoted(node, 1, false) == node
  {
  }

  // ----- what a reader of the tree finds

  /** How a content is read back: line ends normalised, and a blank one as if it were empty. */
  function ContentShown(text: string): string {
    if Blank(text) then "" else Normalize(text)
  }

  function NormalProject(p: Project): Project {
    Project(Normalize(p.name), Normalize(p.modelName), Normalize(p.modelType), ContentShown(p.modelContent),
            if p.requirements == [] then "" else Normalize(p.requirementType), NormalRequirements(p.requirements))
  }

  function NormalRequirements(rs: seq<Requirement>): seq<Requirement> {
    if rs == [] then []
    else [Requirement(Normalize(rs[0].name), ContentShown(rs[0].formula))] + NormalRequirements(rs[1..])
  }

  lemma ContentReads(text: string, depth: nat)
    ensures ReadContent(Normal(Denoted(Content(text), depth, false))) == Some(ContentShown(text))
  {
    ContentDenotes(text, depth);
    if !Blank(text) {
      NormalAllAt([Text(text, false)], 0);
    }
  }

  lemma ItemReads(name: string, a: string, b: string, text: string, depth: nat)
    ensures ReadItem(Normal(Denoted(Element(name, [Attribute("name", a), Attribute("type", b)], [Content(text)], false), depth, false)), name)
         == Some(Item(Normalize(a), Normalize(b), ContentShown(text)))
  {
    var attributes, kids := [Attribute("name", a), Attribute("type", b)], [Content(text)];
    ListReads(name, attributes, kids, depth);
    ContentReads(text, depth + 1);
    NormalAttributesAt(attributes, 0);
    NormalAttributesAt(attributes, 1);
    hide Normal, Denoted, NormalAttributes, ReadContent, Normalize, ContentShown;
  }

  lemma ElementReads(name: string, attributes: seq<Attribute>, kids: seq<Node>)
    ensures forall closed :: var n := Normal(Element(name, attributes, kids, closed));
                             && n.Element? && n.name == name && n.attributes == NormalAttributes(attributes) && |n.children| == |kids|
                             && forall i | 0 <= i < |kids| :: n.children[i] == Normal(kids[i])
  {
    forall i | 0 <= i < |kids|
      ensures NormalAll(kids)[i] == Normal(kids[i])
    {
      NormalAllAt(kids, i);
    }
  }

  // The children of an element are those of the list, each read by itself.
  lemma ListReads(name: string, attributes: seq<Attribute>, kids: seq<Node>, depth: nat)
    requires forall i | 0 <= i < |kids| :: kids[i].Element?
    ensures var n := Normal(Denoted(Element(name, attributes, kids, false), depth, false));
            && n.Element? && n.name == name && n.attributes == NormalAttributes(attributes) && |n.children| == |kids|
            && forall i | 0 <= i < |kids| :: n.children[i] == Normal(Denoted(kids[i], depth + 1, false))
  {
    ListDenotes(name, attributes, kids, depth);
    hide Denoted, Normal, NormalAttributes;
    ElementReads(name, attributes, DenotedAll(kids, depth + 1));
  }

  lemma ModelsRead(p: Project)
    ensures var models := ReadGroup(Normal(Denoted(Element("models", [], [Model(p)], false), 2, false)), "models");
            models.Some? && |models.value| == 1
            && ReadItem(models.value[0], "model")
               == Some(Item(Normalize(p.modelName), Normalize(p.modelType), ContentShown(p.modelContent)))
  {
    ListReads("models", [], [Model(p)], 2);
    ItemReads("model", p.modelName, p.modelType, p.modelContent, 3);
    hide Normal, Denoted, Normalize, ContentShown, ReadItem;
  }

  lemma {:induction false} RequirementsRead(nodes: seq<Node>, rs: seq<Requirement>, kind: string)
    requires |nodes| == |rs|
    requires forall i | 0 <= i < |rs| :: nodes[i] == Normal(Denoted(RequirementNode(rs[i], kind), 3, false))
    ensures ReadRequirements(nodes, Normalize(kind)) == Some(NormalRequirements(rs))
    ensures rs != [] ==> ReadItem(nodes[0], "requirement").Some? && ReadItem(nodes[0], "requirement").value.kind == Normalize(kind)
    decreases |rs|
  {
    if rs != [] {
      ItemReads("requirement", rs[0].name, kind, rs[0].formula, 3);
      assert nodes[0] == Normal(Denoted(RequirementNode(rs[0], kind), 3, false));
      hide Normal, Denoted, Normalize, ContentShown, ReadItem;
      assert forall i | 0 <= i < |rs[1..]| :: nodes[1..][i] == nodes[i + 1] && rs[1..][i] == rs[i + 1];
      RequirementsRead(nodes[1..], rs[1..], kind);
    }
  }

  lemma ListIsRead(p: Project)
    ensures var kind := if p.requirements == [] then "" else Normalize(p.requirementType);
            var list := ReadGroup(Normal(Denoted(Root(p).children[1], 2, false)), "requirements");
            && list.Some? && |list.value| == |p.requirements|
            && ReadRequirements(list.value, kind) == Some(NormalRequirements(p.requirements))
            && (list.value != [] ==> ReadItem(list.value[0], "requirement").Some? && ReadItem(list.value[0], "requirement").value.kind == kind)
  {
    var items := RequirementNodes(p.requirements, p.requirementType);
    ListReads("requirements", [], items, 2);
    var list := Normal(Denoted(Root(p).children[1], 2, false));
    RequirementsRead(list.children, p.requirements, p.requirementType);
    hide Normal, Denoted, Normalize, ContentShown, ReadItem;
  }

  lemma RootRead(p: Project)
    ensures var root, kids := Normal(Denoted(Root(p), 1, false)), Root(p).children;
            && root.Element? && root.name == "PlasmaProject" && root.attributes == [Attribute("name", Normalize(p.name))]
            && |root.children| == 3 && forall i | 0 <= i < 3 :: root.children[i] == Normal(Denoted(kids[i], 2, false))
  {
    ListReads("PlasmaProject", [Attribute("name", p.name)], Root(p).children, 1);
    NormalAttributesAt([Attribute("name", p.name)], 0);
    hide Normal, NormalAll, NormalAttributes, Denoted, Normalize, RequirementNodes, Model;
  }

  lemma ReadsBack(p: Project)
    ensures ReadProject(NormalAll(ReadNodes(p))) == Some(NormalProject(p))
  {
    NormalTop(p);
    RootRead(p);
    ModelsRead(p);
    ListIsRead(p);
    ListReads("resources", [], [], 2);
    hide Normal, NormalAll, NormalAttributes, Denoted, Normalize, ContentShown, ReadItem, ReadRequirements, NormalRequirements,
         RequirementNodes, Model;
  }

  lemma NormalTop(p: Project)
    ensures NormalAll(ReadNodes(p)) == [Tree(p)[0], Normal(Denoted(Root(p), 1, false))]
  {
    NormalAllAt(ReadNodes(p), 0);
    NormalAllAt(ReadNodes(p), 1);
    HeaderNormal(p);
    hide NormalAll, Denoted, Normal, Root, Tree;
  }

  lemma HeaderNormal(p: Project)
    ensures Normal(Tree(p)[0]) == Tree(p)[0]
  {
    DeclarationNormal(Tree(p)[0].value);
  }

  lemma DeclarationNormal(value: string)
    requires CR !in value
    ensures Normal(Declaration(value)) == Declaration(value)
  {
    NormalFormOf(value);
  }

  /** The decoded top level of the file. */
  function ReadNodes(p: Project): seq<Node> {
    [Tree(p)[0], Denoted(Root(p), 1, false)]
  }

  // The project file parses without error, to a tree that shows the project's values.
  lemma ProjectFileParses(p: Project)
    requires CStrings(p)
    ensures var file := P.VisitDocument(P.Start(1), Tree(p), true, true, false).out;
            ParseDocument(file) == Document(RawAll(ReadNodes(p)), true)
    ensures AllShowAs(RawAll(ReadNodes(p)), NormalAll(ReadNodes(p)))
    ensures ReadProject(NormalAll(ReadNodes(p))) == Some(NormalProject(p))
  {
    TreePrintable(p);
    TreeReads(p);
    ParsingUndoesPrinting(Tree(p), true, 1, false);
    ReadsBack(p);
    hide *;
    DocumentKept(ReadNodes(p));
  }

  lemma DocumentKept(nodes: seq<Node>)
    ensures Kept(Read(nodes, true)) == Document(RawAll(nodes), true)
  {
  }

  // ----- the text of the file

  function Quoted(value: string): string {
    "\"" + Escape(value, false) + "\""
  }

  /** A line, four blanks in for each level. */
  function Row(depth: nat, text: string): string {
    Layout.Margin(depth) + text
  }

  /** An element with a name, a type and a content, over three lines. */
  function ItemRows(element: string, name: string, kind: string, content: string): seq<string> {
    [Row(3, "<" + element + " name=" + Quoted(name) + " type=" + Quoted(kind) + ">"),
     Row(4, "<content>" + Escape(content, true) + "</content>"),
     Row(3, "</" + element + ">")]
  }

  function RequirementRows(rs: seq<Requirement>, kind: string): seq<string> {
    if rs == [] then [] else ItemRows("requirement", rs[0].name, kind, rs[0].formula) + RequirementRows(rs[1..], kind)
  }

  function GroupRows(p: Project): seq<string> {
    if p.requirements == [] then [Row(2, "<requirements/>")]
    else [Row(2, "<requirements>")] + RequirementRows(p.requirements, p.requirementType) + [Row(2, "</requirements>")]
  }

  /** The file, line by line. */
  function FileRows(p: Project): seq<string> {
    [Row(0, "<?xml version=\"1.0\"?>"), Row(1, "<PlasmaProject name=" + Quoted(p.name) + ">"), Row(2, "<models>")]
    + ItemRows("model", p.modelName, p.modelType, p.modelContent)
    + [Row(2, "</models>")]
    + GroupRows(p)
    + [Row(2, "<resources/>"), Row(1, "</PlasmaProject>")]
  }

  lemma ContentLines(text: string, depth: nat)
    requires depth >= 1
    ensures Layout.Unmixed(Content(text))
    ensures Layout.Lines(Content(text), depth, false) == [Row(depth, "<content>" + Escape(text, true) + "</content>")]
  {
    var kids := [Text(text, false)];
    assert Layout.Inline(kids) && kids[1..] == [] && kids[0].Text?;
    hide Layout.Margin, Escape;
    assert Layout.TightAll(kids) == Escape(text, true) + "" == Escape(text, true);
    assert RenderAttributes([]) == "";
    hide Layout.TightAll, RenderAttributes;
    ContentTags(Layout.Margin(depth), Escape(text, true));
    assert "content" + "" == "content";
  }

  lemma ContentTags(m: string, body: string)
    ensures m + "<" + "content" + ">" + body + "</" + "content" + ">" == m + ("<content>" + body + "</content>")
  {
    assert "<" + "content" + ">" == "<content>" && "</" + "content" + ">" == "</content>";
    assert m + "<" + "content" + ">" == m + ("<" + "content" + ">");
    assert m + "<" + "content" + ">" + body + "</" + "content" + ">" == m + "<" + "content" + ">" + body + ("</" + "content" + ">");
  }

  lemma GroupLines(name: string, attributes: seq<Attribute>, kids: seq<Node>, depth: nat)
    requires depth >= 1 && Layout.UnmixedAll(kids)
    ensures Layout.Unmixed(Element(name, attributes, kids, false))
    ensures Layout.Lines(Element(name, attributes, kids, false), depth, false)
         == if kids == [] then [Layout.Margin(depth) + "<" + (name + RenderAttributes(attributes)) + "/>"]
            else [Layout.Margin(depth) + "<" + (name + RenderAttributes(attributes)) + ">"] + Layout.LinesAll(kids, depth + 1, false)
                 + [Layout.Margin(depth) + "</" + name + ">"]
  {
    if kids != [] {
      assert !kids[0].Text?;
    }
    hide Layout.Margin, RenderAttributes, Layout.LinesAll;
  }

  lemma OneKid(node: Node, depth: nat)
    requires Layout.Unmixed(node)
    ensures Layout.UnmixedAll([node]) && Layout.LinesAll([node], depth, false) == Layout.Lines(node, depth, false)
  {
    assert [node][1..] == [];
  }

  lemma NameAndType(a: string, b: string)
    ensures RenderAttributes([Attribute("name", a), Attribute("type", b)]) == " name=" + Quoted(a) + " type=" + Quoted(b)
    ensures RenderAttributes([Attribute("name", a)]) == " name=" + Quoted(a) && RenderAttributes([]) == ""
  {
    var x, y := Attribute("name", a), Attribute("type", b);
    hide Escape;
    assert [x, y][1..] == [y] && [y][1..] == [] && [x][1..] == [];
    assert RenderAttributes([y]) == " " + "type" + "=\"" + Escape(b, false) + "\"" + "";
    assert " " + "type" + "=\"" + Escape(b, false) + "\"" + "" == " type=" + Quoted(b);
    assert " " + "name" + "=\"" + Escape(a, false) + "\"" == " name=" + Quoted(a);
  }

  lemma ItemLines(name: string, a: string, b: string, text: string)
    ensures var item := Element(name, [Attribute("name", a), Attribute("type", b)], [Content(text)], false);
            Layout.Unmixed(item) && Layout.Lines(item, 3, false) == ItemRows(name, a, b, text)
  {
    hide *;
    var attributes := [Attribute("name", a), Attribute("type", b)];
    ContentLines(text, 4);
    OneKid(Content(text), 4);
    GroupLines(name, attributes, [Content(text)], 3);
    NameAndType(a, b);
    TagRow(3, name, " name=" + Quoted(a) + " type=" + Quoted(b), ">");
    EndRow(3, name);
    assert "<" + name + (" name=" + Quoted(a) + " type=" + Quoted(b)) + ">" == "<" + name + " name=" + Quoted(a) + " type=" + Quoted(b) + ">";
    ItemIs(name, a, b, text);
  }

  lemma ItemIs(name: string, a: string, b: string, text: string)
    ensures ItemRows(name, a, b, text)
         == [Row(3, "<" + name + " name=" + Quoted(a) + " type=" + Quoted(b) + ">")]
            + [Row(4, "<content>" + Escape(text, true) + "</content>")] + [Row(3, "</" + name + ">")]
  {
  }

  lemma TagRow(depth: nat, name: string, attributes: string, end: string)
    ensures Layout.Margin(depth) + "<" + (name + attributes) + end == Row(depth, "<" + name + attributes + end)
  {
  }

  lemma EndRow(depth: nat, name: string)
    ensures Layout.Margin(depth) + "</" + name + ">" == Row(depth, "</" + name + ">")
  {
  }

  lemma {:induction false} RequirementsAreLines(nodes: seq<Node>, rs: seq<Requirement>, kind: string)
    requires |nodes| == |rs| && forall i | 0 <= i < |rs| :: nodes[i] == RequirementNode(rs[i], kind)
    ensures Layout.UnmixedAll(nodes) && Layout.LinesAll(nodes, 3, false) == RequirementRows(rs, kind)
    decreases |rs|
  {
    if rs != [] {
      ItemLines("requirement", rs[0].name, kind, rs[0].formula);
      assert forall i | 0 <= i < |rs[1..]| :: nodes[1..][i] == nodes[i + 1] && rs[1..][i] == rs[i + 1];
      RequirementsAreLines(nodes[1..], rs[1..], kind);
      assert nodes[0] == RequirementNode(rs[0], kind);
      hide Layout.Lines, Layout.Unmixed, ItemRows;
    }
  }

  lemma ModelsAreLines(p: Project)
    ensures var models := Root(p).children[0];
            && Layout.Unmixed(models)
            && Layout.Lines(models, 2, false)
               == [Row(2, "<models>")] + ItemRows("model", p.modelName, p.modelType, p.modelContent) + [Row(2, "</models>")]
  {
    ItemLines("model", p.modelName, p.modelType, p.modelContent);
    OneKid(Model(p), 3);
    NameAndType("", "");
    GroupLines("models", [], [Model(p)], 2);
    BareTag(2, "models", ">");
    EndRow(2, "models");
    ModelsTags();
    hide Layout.Lines, Layout.LinesAll, Layout.Unmixed, Layout.UnmixedAll, ItemRows, Row, Layout.Margin, RenderAttributes;
  }

  lemma BareTag(depth: nat, name: string, end: string)
    ensures Layout.Margin(depth) + "<" + (name + "") + end == Row(depth, "<" + name + end)
  {
    TagRow(depth, name, "", end);
    assert "<" + name + "" + end == "<" + name + end;
  }

  lemma ModelsTags()
    ensures "<" + "models" + ">" == "<models>" && "</" + "models" + ">" == "</models>"
    ensures "<" + "resources" + "/>" == "<resources/>"
  {
  }

  lemma RequirementsTags()
    ensures "<" + "requirements" + "/>" == "<requirements/>" && "<" + "requirements" + ">" == "<requirements>"
    ensures "</" + "requirements" + ">" == "</requirements>"
  {
  }

  lemma ProjectTags()
    ensures "</" + "PlasmaProject" + ">" == "</PlasmaProject>" && "<" + "resources" + "/>" == "<resources/>"
  {
  }

  lemma RequirementsGrouped(p: Project)
    ensures var list := Root(p).children[1]; Layout.Unmixed(list) && Layout.Lines(list, 2, false) == GroupRows(p)
  {
    var items := RequirementNodes(p.requirements, p.requirementType);
    RequirementsAreLines(items, p.requirements, p.requirementType);
    NameAndType("", "");
    GroupLines("requirements", [], items, 2);
    BareTag(2, "requirements", ">");
    BareTag(2, "requirements", "/>");
    EndRow(2, "requirements");
    RequirementsTags();
    hide Layout.Lines, Layout.LinesAll, Layout.Unmixed, Layout.UnmixedAll, RequirementRows, Row, Layout.Margin, RenderAttributes,
         RequirementNodes;
  }

  lemma ThreeKids(a: Node, b: Node, c: Node, depth: nat)
    requires Layout.Unmixed(a) && Layout.Unmixed(b) && Layout.Unmixed(c)
    ensures Layout.UnmixedAll([a, b, c])
    ensures Layout.LinesAll([a, b, c], depth, false)
         == Layout.Lines(a, depth, false) + (Layout.Lines(b, depth, false) + Layout.Lines(c, depth, false))
  {
    hide Layout.Lines, Layout.Unmixed;
    assert [a, b, c][1..] == [b, c] && [b, c][1..] == [c];
    OneKid(c, depth);
  }

  lemma RootIsLines(p: Project)
    ensures Layout.Unmixed(Root(p))
    ensures Layout.Lines(Root(p), 1, false) == FileRows(p)[1..]
  {
    var kids := Root(p).children;
    ModelsAreLines(p);
    RequirementsGrouped(p);
    NameAndType(p.name, "");
    NameAndType("", "");
    GroupLines("resources", [], [], 2);
    BareTag(2, "resources", "/>");
    ThreeKids(kids[0], kids[1], kids[2], 2);
    GroupLines("PlasmaProject", [Attribute("name", p.name)], kids, 1);
    TagRow(1, "PlasmaProject", " name=" + Quoted(p.name), ">");
    EndRow(1, "PlasmaProject");
    ProjectTags();
    RootTag(p.name);
    FileFrom(p);
    hide Layout.Lines, Layout.LinesAll, Layout.Unmixed, Layout.UnmixedAll, ItemRows, GroupRows, FileRows, Row, Layout.Margin,
         RenderAttributes, RequirementNodes, Model, Quoted;
  }

  lemma RootTag(name: string)
    ensures "<" + "PlasmaProject" + (" name=" + Quoted(name)) + ">" == "<PlasmaProject name=" + Quoted(name) + ">"
  {
    hide Quoted;
    assert "<" + "PlasmaProject" + " name=" == "<PlasmaProject name=";
    assert "<" + "PlasmaProject" + (" name=" + Quoted(name)) == "<" + "PlasmaProject" + " name=" + Quoted(name);
  }

  lemma FileFrom(p: Project)
    ensures FileRows(p)[1..]
         == [Row(1, "<PlasmaProject name=" + Quoted(p.name) + ">")]
            + ([Row(2, "<models>")] + ItemRows("model", p.modelName, p.modelType, p.modelContent) + [Row(2, "</models>")]
               + (GroupRows(p) + [Row(2, "<resources/>")]))
            + [Row(1, "</PlasmaProject>")]
  {
    hide Row, Quoted, ItemRows, GroupRows;
  }

  // The file that is written, byte for byte: a byte order mark and these lines.
  lemma FileIsRows(p: Project)
    ensures P.VisitDocument(P.Start(1), Tree(p), true, true, false).out == BOM + Layout.Joined(FileRows(p))
  {
    VisitRendersDocument(Tree(p), true, 1, false);
    TreeIsLines(p);
    hide *;
    Layout.IndentedIsLines(Tree(p), 1);
    RenderedIs(p);
  }

  lemma RenderedIs(p: Project)
    ensures RenderDocument(Tree(p), true, 1, false) == BOM + RenderAll(Tree(p), 1, true, -1, false)
  {
  }

  lemma TreeIsLines(p: Project)
    ensures Layout.UnmixedAll(Tree(p)) && Layout.LinesAll(Tree(p), 1, true) == FileRows(p)
  {
    RootIsLines(p);
    OneKid(Root(p), 1);
    HeaderLine(p);
    hide Layout.Lines, Layout.Unmixed, Root, FileRows, Row;
    assert Tree(p)[1..] == [Root(p)];
    assert FileRows(p) == [FileRows(p)[0]] + FileRows(p)[1..];
  }

  lemma HeaderLine(p: Project)
    ensures Layout.Unmixed(Tree(p)[0]) && FileRows(p) != [] && Layout.Lines(Tree(p)[0], 1, true) == [FileRows(p)[0]]
  {
    hide ItemRows, GroupRows, Quoted;
    assert "<?" + "xml version=\"1.0\"" + "?>" == "<?xml version=\"1.0\"?>";
    assert Layout.Margin(0) == "";
    var s := "<?xml version=\"1.0\"?>";
    assert "" + s == s;
  }
}
