/** The knowledge-graph assembler: a mutable undirected graph of styled nodes and edges, and
    the builder that fills it with one professor, its topics and its papers. */
module GraphBuilder {
  import opened Wrappers
  import opened Text
  import opened Dicts
  import opened Records
  import opened Config
  import Seqs

  // ---------------------------------------------------------------------------
  // Graph values
  // ---------------------------------------------------------------------------

  datatype NodeType = ProfessorType | TopicType | PaperType

  datatype Shape = Dot | CircularImage

  /** A node's attributes: `Bare` for a node created implicitly as an edge endpoint. */
  datatype Node =
    | Bare
    | Styled(nodeType: NodeType, labelText: string, title: string, image: Option<string>,
             color: string, size: int, shape: Shape, url: Option<string>)

  /** An undirected edge, stored with the orientation it was first added with. */
  datatype Edge = Edge(source: string, target: string, title: string, width: int, color: string)

  /** The graph: node attributes by id, node ids in insertion order, and the edges in
      insertion order. */
  datatype GraphState = GraphState(nodes: map<string, Node>, order: seq<string>, edges: seq<Edge>)

  const EmptyGraph := GraphState(map[], [], [])

  /** The colour `add_edge` uses for an edge type missing from `EDGE_COLORS`. */
  const DefaultEdgeColor := "#94a3b8"

  /** The ids in `order` are distinct and are exactly the nodes. */
  ghost predicate OrderOfNodes(nodes: map<string, Node>, order: seq<string>) {
    && (forall i, j :: 0 <= i < j < |order| ==> order[i] != order[j])
    && (forall k :: k in nodes <==> k in order)
  }

  /** Every edge joins two nodes. */
  ghost predicate EdgesWithin(nodes: map<string, Node>, edges: seq<Edge>) {
    forall i :: 0 <= i < |edges| ==> edges[i].source in nodes && edges[i].target in nodes
  }

  ghost predicate WellFormed(g: GraphState) {
    OrderOfNodes(g.nodes, g.order) && EdgesWithin(g.nodes, g.edges)
  }

  /** Edge `e` joins `u` and `v`, in either direction. */
  predicate Joins(e: Edge, u: string, v: string) {
    (e.source == u && e.target == v) || (e.source == v && e.target == u)
  }

  /** No two edges join the same pair of nodes. */
  ghost predicate Simple(g: GraphState) {
    forall i, j :: 0 <= i < j < |g.edges| ==> !Joins(g.edges[j], g.edges[i].source, g.edges[i].target)
  }

  /** The position of the edge between `u` and `v`, if there is one. */
  function FindEdge(edges: seq<Edge>, u: string, v: string): (r: Option<nat>)
    ensures r.Some? ==> r.value < |edges| && Joins(edges[r.value], u, v)
    ensures r.None? <==> forall i :: 0 <= i < |edges| ==> !Joins(edges[i], u, v)
    decreases |edges|
  {
    if edges == [] then None
    else if Joins(edges[0], u, v) then Some(0)
    else
      match FindEdge(edges[1..], u, v)
      case None =>
        assert forall i :: 1 <= i < |edges| ==> edges[i] == edges[1..][i - 1];
        None
      case Some(i) => Some(i + 1)
  }

  /** `add_node(id, **attrs)`: a new id goes to the end of the order, a known id keeps its place. */
  function WithNode(g: GraphState, id: string, n: Node): GraphState {
    GraphState(g.nodes[id := n], if id in g.nodes then g.order else g.order + [id], g.edges)
  }

  /** An edge endpoint that is not yet a node becomes a bare node. */
  function Touch(g: GraphState, id: string): GraphState {
    if id in g.nodes then g else GraphState(g.nodes[id := Bare], g.order + [id], g.edges)
  }

  /** `add_edge(u, v, **attrs)`: missing endpoints are added, and an existing edge between the
      two nodes gets the new attributes instead of a second edge. */
  function WithEdge(g: GraphState, e: Edge): GraphState {
    var t := Touch(Touch(g, e.source), e.target);
    match FindEdge(g.edges, e.source, e.target)
    case Some(i) =>
      GraphState(t.nodes, t.order, g.edges[i := Edge(g.edges[i].source, g.edges[i].target, e.title, e.width, e.color)])
    case None => GraphState(t.nodes, t.order, g.edges + [e])
  }

  lemma WithNodeWellFormed(g: GraphState, id: string, n: Node)
    requires WellFormed(g)
    ensures WellFormed(WithNode(g, id, n))
    ensures WithNode(g, id, n).nodes[id] == n
    ensures forall k :: k != id && k in g.nodes ==> WithNode(g, id, n).nodes[k] == g.nodes[k]
    ensures |WithNode(g, id, n).order| == |g.order| + (if id in g.nodes then 0 else 1)
  {
  }

  lemma TouchWellFormed(g: GraphState, id: string)
    requires WellFormed(g)
    ensures WellFormed(Touch(g, id)) && id in Touch(g, id).nodes
    ensures Touch(g, id).edges == g.edges
    ensures forall k :: k in g.nodes ==> k in Touch(g, id).nodes && Touch(g, id).nodes[k] == g.nodes[k]
  {
  }

  /** Adding an edge keeps the graph well formed. */
  lemma WithEdgeWellFormed(g: GraphState, e: Edge)
    requires WellFormed(g)
    ensures WellFormed(WithEdge(g, e))
  {
    var t := Touch(Touch(g, e.source), e.target);
    assert WellFormed(t) && e.source in t.nodes && e.target in t.nodes && t.edges == g.edges by {
      TouchWellFormed(g, e.source);
      TouchWellFormed(Touch(g, e.source), e.target);
    }
    var r := WithEdge(g, e);
    assert r.nodes == t.nodes && r.order == t.order;
    assert EdgesWithin(t.nodes, r.edges) by {
      match FindEdge(g.edges, e.source, e.target)
      case Some(i) =>
        EdgesWithinUpdate(t.nodes, g.edges, i, Edge(g.edges[i].source, g.edges[i].target, e.title, e.width, e.color));
      case None =>
        EdgesWithinAppend(t.nodes, g.edges, e);
    }
  }

  lemma EdgesWithinUpdate(nodes: map<string, Node>, edges: seq<Edge>, i: nat, e: Edge)
    requires EdgesWithin(nodes, edges) && i < |edges|
    requires e.source == edges[i].source && e.target == edges[i].target
    ensures EdgesWithin(nodes, edges[i := e])
  {
  }

  lemma EdgesWithinAppend(nodes: map<string, Node>, edges: seq<Edge>, e: Edge)
    requires EdgesWithin(nodes, edges) && e.source in nodes && e.target in nodes
    ensures EdgesWithin(nodes, edges + [e])
  {
  }

  /** Adding an edge keeps the graph simple; afterwards the one edge between its endpoints
      carries its attributes, and the edge count grows only for a new pair of nodes. */
  lemma WithEdgeSimple(g: GraphState, e: Edge)
    requires Simple(g)
    ensures Simple(WithEdge(g, e))
    ensures var r := WithEdge(g, e);
            && FindEdge(r.edges, e.source, e.target).Some?
            && var f := r.edges[FindEdge(r.edges, e.source, e.target).value];
               f.title == e.title && f.width == e.width && f.color == e.color
    ensures |WithEdge(g, e).edges| == |g.edges| + (if FindEdge(g.edges, e.source, e.target).None? then 1 else 0)
  {
    var r := WithEdge(g, e);
    match FindEdge(g.edges, e.source, e.target)
    case Some(i) =>
      forall a, b | 0 <= a < b < |r.edges| ensures !Joins(r.edges[b], r.edges[a].source, r.edges[a].target) {
        assert r.edges[a].source == g.edges[a].source && r.edges[a].target == g.edges[a].target;
        assert r.edges[b].source == g.edges[b].source && r.edges[b].target == g.edges[b].target;
      }
      FirstJoin(r.edges, i, e.source, e.target);
    case None =>
      forall a, b | 0 <= a < b < |r.edges| ensures !Joins(r.edges[b], r.edges[a].source, r.edges[a].target) {
        if b == |g.edges| {
          assert !Joins(g.edges[a], e.source, e.target);
        }
      }
      FirstJoin(r.edges, |g.edges|, e.source, e.target);
  }

  /** In a simple edge list, the edge `FindEdge` returns is the one at any position joining the pair. */
  lemma FirstJoin(edges: seq<Edge>, i: nat, u: string, v: string)
    requires i < |edges| && Joins(edges[i], u, v)
    requires forall a, b :: 0 <= a < b < |edges| ==> !Joins(edges[b], edges[a].source, edges[a].target)
    ensures FindEdge(edges, u, v) == Some(i)
  {
  }

  // ---------------------------------------------------------------------------
  // Node and edge styling
  // ---------------------------------------------------------------------------

  /** The professor node: a circular image exactly when an image URL is given and non-empty. */
  function ProfessorNode(name: string, imageUrl: Option<string>): (n: Node)
    ensures n.Styled? && n.nodeType == ProfessorType && n.labelText == name && n.image == imageUrl
    ensures n.size == 60 && n.color == ProfessorColor && n.url.None?
    ensures n.shape == CircularImage <==> Truthy(imageUrl)
  {
    Styled(ProfessorType, name,
           "<b>" + name + "</b><br><span style='color:#666'>Click to view profile</span>",
           imageUrl, ProfessorColor, ProfessorSize, if Truthy(imageUrl) then CircularImage else Dot, None)
  }

  /** A topic node: always a dot of size 45. */
  function TopicNode(name: string): (n: Node)
    ensures n.Styled? && n.nodeType == TopicType && n.labelText == name && n.image.None?
    ensures n.size == 45 && n.color == TopicColor && n.shape == Dot && n.url.None?
  {
    Styled(TopicType, name, "<b>" + name + "</b><br><span style='color:#666'>Research Area</span>",
           None, TopicColor, TopicSize, Dot, None)
  }

  /** The label of a paper node: the title cut to 30 characters and marked with "...". */
  function DisplayTitle(title: string): (shown: string)
    ensures |title| <= 30 ==> shown == title
    ensures |title| > 30 ==> |shown| == 33 && title[..30] <= shown && shown[30..] == "..."
  {
    if |title| > 30 then title[..30] + "..." else title
  }

  /** The size of a paper node: 35 plus a third of its citations, capped at 50. */
  function PaperNodeSize(citations: int): (size: int)
    ensures size <= 50
    ensures citations >= 0 ==> 35 <= size
    ensures size == 50 <==> citations >= 45
  {
    var s := PaperSize + citations / 3;
    if s < 50 then s else 50
  }

  /** More citations never make a paper node smaller. */
  lemma PaperNodeSizeMonotone(a: int, b: int)
    requires a <= b
    ensures PaperNodeSize(a) <= PaperNodeSize(b)
  {
  }

  /** `https://doi.org/<doi>` for a non-empty DOI. */
  function DoiLink(doi: string): (link: Option<string>)
    ensures link.Some? <==> doi != ""
    ensures link.Some? ==> link.value == "https://doi.org/" + doi && doi <= link.value[16..]
  {
    if doi != "" then Some("https://doi.org/" + doi) else None
  }

  const TooltipOpen := "<div style='max-width:300px'><b>"
  const LinkOpen := "<br><a href=\""
  const LinkClose := "\" target=\"_blank\" style=\"color:#3b82f6\">View Paper</a>"

  /** The "View Paper" link of a tooltip, or nothing. */
  function LinkHtml(link: Option<string>): string {
    if link.Some? then LinkOpen + link.value + LinkClose else ""
  }

  /** Year, citations and link, after the title. */
  function TooltipTail(year: string, citations: int, link: Option<string>): string {
    "</b><br><br>Year: " + year + "<br>Citations: " + IntToString(citations) + LinkHtml(link) + "</div>"
  }

  /** The HTML tooltip of a paper node. */
  function PaperTooltip(title: string, year: string, citations: int, link: Option<string>): string {
    TooltipOpen + title + TooltipTail(year, citations, link)
  }

  /** The tooltip shows the full title, and the DOI link when there is one. */
  lemma PaperTooltipContains(title: string, year: string, citations: int, link: Option<string>)
    ensures IsSubstring(title, PaperTooltip(title, year, citations, link))
    ensures link.Some? ==> IsSubstring(link.value, PaperTooltip(title, year, citations, link))
  {
    SubstringOfMiddle(TooltipOpen, title, TooltipTail(year, citations, link));
    if link.Some? {
      SubstringOfMiddle(LinkOpen, link.value, LinkClose);
      var head := "</b><br><br>Year: " + year + "<br>Citations: " + IntToString(citations);
      SubstringOfMiddle(head, LinkHtml(link), "</div>");
      SubstringTransitive(link.value, LinkHtml(link), TooltipTail(year, citations, link));
      SubstringOfSuffix(link.value, TooltipOpen + title, TooltipTail(year, citations, link));
    }
  }

  /** A paper node, as `add_paper_node` leaves it. */
  function PaperNode(title: string, year: string, citations: int, doi: string): Node {
    Styled(PaperType, DisplayTitle(title), PaperTooltip(title, year, citations, DoiLink(doi)), None, PaperColor,
           PaperNodeSize(citations), Dot, DoiLink(doi))
  }

  /** A paper node: truncated label, citation-based size, the full title in the tooltip, and a
      `url` exactly when there is a DOI, shown in the tooltip too. */
  lemma PaperNodeFacts(title: string, year: string, citations: int, doi: string)
    ensures var n := PaperNode(title, year, citations, doi);
      && n.Styled? && n.nodeType == PaperType && n.image.None? && n.shape == Dot && n.color == PaperColor
      && n.labelText == DisplayTitle(title) && n.size == PaperNodeSize(citations)
      && IsSubstring(title, n.title)
      && (n.url.Some? <==> doi != "")
      && (n.url.Some? ==> n.url.value == "https://doi.org/" + doi && IsSubstring(n.url.value, n.title))
  {
    PaperTooltipContains(title, year, citations, DoiLink(doi));
  }

  /** `add_edge`'s colour: the given one, or `EDGE_COLORS` looked up by the lower-cased type,
      or the default grey. */
  function ResolveEdgeColor(edgeType: string, color: Option<string>): (c: string)
    ensures color.Some? ==> c == color.value
    ensures color.None? && Lower(edgeType) == "expertise" ==> c == ExpertiseColor
    ensures color.None? && Lower(edgeType) == "authored" ==> c == AuthoredColor
    ensures color.None? && Lower(edgeType) != "expertise" && Lower(edgeType) != "authored" ==> c == DefaultEdgeColor
  {
    if color.Some? then color.value
    else
      var key := Lower(edgeType);
      assert Lookup(EdgeColors, key) == if key == "expertise" then Some(ExpertiseColor)
                                        else if key == "authored" then Some(AuthoredColor) else None by {
        assert EdgeColors[0].0 == "expertise" && EdgeColors[1].0 == "authored";
        assert EdgeColors[1..][1..] == [];
        assert Lookup(EdgeColors[1..], key) == if key == "authored" then Some(AuthoredColor) else None;
      }
      Lookup(EdgeColors, key).GetOr(DefaultEdgeColor)
  }

  /** The edge colour does not depend on the case of the edge type. */
  lemma EdgeColorIgnoresCase(edgeType: string)
    ensures ResolveEdgeColor(edgeType, None) == ResolveEdgeColor(Lower(edgeType), None)
  {
    LowerIdempotent(edgeType);
  }

  // ---------------------------------------------------------------------------
  // What build_professor_graph produces
  // ---------------------------------------------------------------------------

  function TopicId(pid: string, i: nat): string {
    "topic_" + pid + "_" + NatToString(i)
  }

  function PaperId(pid: string, i: nat): string {
    "paper_" + pid + "_" + NatToString(i)
  }

  /** The professor id: `scopus_id`, or 'prof_1'. */
  function ProfessorId(p: ProfessorRecord): string {
    p.scopusId.GetOr("prof_1")
  }

  /** The professor node of a record: `name`, or 'Unknown', and `image_url`. */
  function ProfessorNodeOf(p: ProfessorRecord): Node {
    ProfessorNode(p.name.GetOr("Unknown"), p.imageUrl)
  }

  /** A paper node with the defaults of graph_builder.py:175-178. */
  function PaperNodeOf(paper: Paper): Node {
    PaperNode(paper.title.GetOr("Untitled"), paper.year.GetOr(""), paper.citations.GetOr(0), paper.doi.GetOr(""))
  }

  function TopicEdge(pid: string, i: nat): Edge {
    Edge(pid, TopicId(pid, i), "expertise", 4, ResolveEdgeColor("expertise", Some(ExpertiseColor)))
  }

  function PaperEdge(pid: string, i: nat): Edge {
    Edge(pid, PaperId(pid, i), "authored", 2, ResolveEdgeColor("authored", Some(AuthoredColor)))
  }

  /** The graph after the topic loop has handled `topics`. */
  function WithTopics(g: GraphState, pid: string, topics: seq<string>): GraphState
    decreases |topics|
  {
    if topics == [] then g
    else
      var n := |topics| - 1;
      WithEdge(WithNode(WithTopics(g, pid, topics[..n]), TopicId(pid, n), TopicNode(topics[n])), TopicEdge(pid, n))
  }

  /** The graph after the paper loop has handled `papers`. */
  function WithPapers(g: GraphState, pid: string, papers: seq<Paper>): GraphState
    decreases |papers|
  {
    if papers == [] then g
    else
      var n := |papers| - 1;
      WithEdge(WithNode(WithPapers(g, pid, papers[..n]), PaperId(pid, n), PaperNodeOf(papers[n])), PaperEdge(pid, n))
  }

  /** The graph `build_professor_graph` leaves behind, whatever was in the graph before. */
  function BuildGraph(p: ProfessorRecord): GraphState {
    var pid := ProfessorId(p);
    WithPapers(WithTopics(WithNode(EmptyGraph, pid, ProfessorNodeOf(p)), pid, p.topics.GetOr([])), pid, p.papers.GetOr([]))
  }

  // ---------------------------------------------------------------------------
  // The synthetic ids
  // ---------------------------------------------------------------------------

  lemma CancelPrefix(a: string, x: string, y: string)
    requires a + x == a + y
    ensures x == y
  {
    assert (a + x)[|a|..] == x && (a + y)[|a|..] == y;
  }

  /** Topic ids are distinct by position, differ from every paper id and from the professor id. */
  lemma TopicIdFacts(pid: string, i: nat, j: nat)
    ensures TopicId(pid, i) == TopicId(pid, j) ==> i == j
    ensures TopicId(pid, i) != PaperId(pid, j)
    ensures TopicId(pid, i) != pid
  {
    if TopicId(pid, i) == TopicId(pid, j) {
      CancelPrefix("topic_" + pid + "_", NatToString(i), NatToString(j));
      NatToStringInjective(i, j);
    }
    assert TopicId(pid, i)[0] == 't' && PaperId(pid, j)[0] == 'p';
  }

  /** Paper ids are distinct by position and differ from the professor id. */
  lemma PaperIdFacts(pid: string, i: nat, j: nat)
    ensures PaperId(pid, i) == PaperId(pid, j) ==> i == j
    ensures PaperId(pid, i) != pid
  {
    if PaperId(pid, i) == PaperId(pid, j) {
      CancelPrefix("paper_" + pid + "_", NatToString(i), NatToString(j));
      NatToStringInjective(i, j);
    }
  }

  function TopicIds(pid: string, n: nat): (ids: seq<string>)
    ensures |ids| == n && forall i :: 0 <= i < n ==> ids[i] == TopicId(pid, i)
  {
    seq(n, i requires 0 <= i < n => TopicId(pid, i))
  }

  function PaperIds(pid: string, n: nat): (ids: seq<string>)
    ensures |ids| == n && forall i :: 0 <= i < n ==> ids[i] == PaperId(pid, i)
  {
    seq(n, i requires 0 <= i < n => PaperId(pid, i))
  }

  function TopicEdges(pid: string, n: nat): (es: seq<Edge>)
    ensures |es| == n && forall i :: 0 <= i < n ==> es[i] == TopicEdge(pid, i)
  {
    seq(n, i requires 0 <= i < n => TopicEdge(pid, i))
  }

  function PaperEdges(pid: string, n: nat): (es: seq<Edge>)
    ensures |es| == n && forall i :: 0 <= i < n ==> es[i] == PaperEdge(pid, i)
  {
    seq(n, i requires 0 <= i < n => PaperEdge(pid, i))
  }

  /** The node order after the first `nt` topics and `np` papers. */
  function ExpectedOrder(pid: string, nt: nat, np: nat): seq<string> {
    [pid] + TopicIds(pid, nt) + PaperIds(pid, np)
  }

  /** The edges after the first `nt` topics and `np` papers. */
  function ExpectedEdges(pid: string, nt: nat, np: nat): seq<Edge> {
    TopicEdges(pid, nt) + PaperEdges(pid, np)
  }

  /** The node map holds exactly the ids of `order`: the professor node and the nodes of the
      given topics and papers under their positional ids. */
  ghost predicate NodesShaped(nodes: map<string, Node>, order: seq<string>, pid: string, pn: Node,
                              topics: seq<string>, paperNodes: seq<Node>) {
    && (forall k :: k in nodes <==> k in order)
    && pid in nodes && nodes[pid] == pn
    && (forall i :: 0 <= i < |topics| ==> TopicId(pid, i) in nodes && nodes[TopicId(pid, i)] == TopicNode(topics[i]))
    && (forall i :: 0 <= i < |paperNodes| ==> PaperId(pid, i) in nodes && nodes[PaperId(pid, i)] == paperNodes[i])
  }

  /** The graph after the professor node, the given topics and the given papers were added. */
  ghost predicate Shaped(g: GraphState, pid: string, pn: Node, topics: seq<string>, paperNodes: seq<Node>) {
    && g.order == ExpectedOrder(pid, |topics|, |paperNodes|)
    && g.edges == ExpectedEdges(pid, |topics|, |paperNodes|)
    && NodesShaped(g.nodes, g.order, pid, pn, topics, paperNodes)
  }

  /** Every id of the order is the professor id or one of the positional ids before `nt`, `np`. */
  lemma FreshTopicId(pid: string, n: nat)
    ensures TopicId(pid, n) !in ExpectedOrder(pid, n, 0)
  {
    var o := ExpectedOrder(pid, n, 0);
    TopicIdFacts(pid, n, 0);
    forall k | 0 <= k < |o| ensures o[k] != TopicId(pid, n) {
      if k > 0 {
        assert o[k] == TopicId(pid, k - 1);
        TopicIdFacts(pid, n, k - 1);
      }
    }
  }

  lemma FreshPaperId(pid: string, nt: nat, n: nat)
    ensures PaperId(pid, n) !in ExpectedOrder(pid, nt, n)
  {
    var o := ExpectedOrder(pid, nt, n);
    PaperIdFacts(pid, n, 0);
    forall k | 0 <= k < |o| ensures o[k] != PaperId(pid, n) {
      if 0 < k <= nt {
        assert o[k] == TopicId(pid, k - 1);
        TopicIdFacts(pid, k - 1, n);
      } else if k > nt {
        assert o[k] == PaperId(pid, k - 1 - nt);
        PaperIdFacts(pid, n, k - 1 - nt);
      }
    }
  }

  /** Each edge of the expected edge list runs from the professor to the node that follows the
      professor in the order by its position. */
  lemma ExpectedEdgeTargets(pid: string, nt: nat, np: nat)
    ensures |ExpectedEdges(pid, nt, np)| + 1 == |ExpectedOrder(pid, nt, np)|
    ensures forall i :: 0 <= i < |ExpectedEdges(pid, nt, np)| ==>
              ExpectedEdges(pid, nt, np)[i].source == pid && ExpectedEdges(pid, nt, np)[i].target == ExpectedOrder(pid, nt, np)[i + 1]
  {
    var es, o := ExpectedEdges(pid, nt, np), ExpectedOrder(pid, nt, np);
    forall i | 0 <= i < |es| ensures es[i].source == pid && es[i].target == o[i + 1] {
      if i < nt {
        assert es[i] == TopicEdge(pid, i) && o[i + 1] == TopicId(pid, i);
      } else {
        assert es[i] == PaperEdge(pid, i - nt) && o[i + 1] == PaperId(pid, i - nt);
      }
    }
  }

  /** No expected edge joins the professor to an id outside the expected order. */
  lemma NoEdgeTo(pid: string, nt: nat, np: nat, x: string)
    requires x !in ExpectedOrder(pid, nt, np)
    ensures FindEdge(ExpectedEdges(pid, nt, np), pid, x).None?
  {
    ExpectedEdgeTargets(pid, nt, np);
    var es, o := ExpectedEdges(pid, nt, np), ExpectedOrder(pid, nt, np);
    assert o[0] == pid;
    forall i | 0 <= i < |es| ensures !Joins(es[i], pid, x) {
      assert o[i + 1] in o;
    }
  }

  /** Adding a node under a new id and an edge to it from an existing node appends both. */
  lemma AddLeaf(g: GraphState, id: string, n: Node, e: Edge)
    requires id !in g.nodes && e.source in g.nodes && e.target == id
    requires FindEdge(g.edges, e.source, id).None?
    ensures WithEdge(WithNode(g, id, n), e) == GraphState(g.nodes[id := n], g.order + [id], g.edges + [e])
  {
  }

  lemma NextTopic(pid: string, n: nat)
    ensures ExpectedOrder(pid, n, 0) + [TopicId(pid, n)] == ExpectedOrder(pid, n + 1, 0)
    ensures ExpectedEdges(pid, n, 0) + [TopicEdge(pid, n)] == ExpectedEdges(pid, n + 1, 0)
  {
    assert TopicIds(pid, n) + [TopicId(pid, n)] == TopicIds(pid, n + 1);
    assert TopicEdges(pid, n) + [TopicEdge(pid, n)] == TopicEdges(pid, n + 1);
  }

  lemma NextPaper(pid: string, nt: nat, n: nat)
    ensures ExpectedOrder(pid, nt, n) + [PaperId(pid, n)] == ExpectedOrder(pid, nt, n + 1)
    ensures ExpectedEdges(pid, nt, n) + [PaperEdge(pid, n)] == ExpectedEdges(pid, nt, n + 1)
  {
    assert PaperIds(pid, n) + [PaperId(pid, n)] == PaperIds(pid, n + 1);
    assert PaperEdges(pid, n) + [PaperEdge(pid, n)] == PaperEdges(pid, n + 1);
  }

  lemma TopicNodesStep(nodes: map<string, Node>, order: seq<string>, pid: string, pn: Node, topics: seq<string>, t: string)
    requires NodesShaped(nodes, order, pid, pn, topics, [])
    requires TopicId(pid, |topics|) !in order
    ensures NodesShaped(nodes[TopicId(pid, |topics|) := TopicNode(t)], order + [TopicId(pid, |topics|)], pid, pn, topics + [t], [])
  {
    var n := |topics|;
    TopicIdFacts(pid, n, 0);
    forall i | 0 <= i < n ensures TopicId(pid, i) != TopicId(pid, n) {
      TopicIdFacts(pid, i, n);
    }
  }

  lemma PaperNodesStep(nodes: map<string, Node>, order: seq<string>, pid: string, pn: Node, topics: seq<string>,
                       paperNodes: seq<Node>, node: Node)
    requires NodesShaped(nodes, order, pid, pn, topics, paperNodes)
    requires PaperId(pid, |paperNodes|) !in order
    ensures NodesShaped(nodes[PaperId(pid, |paperNodes|) := node], order + [PaperId(pid, |paperNodes|)], pid, pn, topics, paperNodes + [node])
  {
    var n := |paperNodes|;
    PaperIdFacts(pid, n, 0);
    forall i | 0 <= i < |topics| ensures TopicId(pid, i) != PaperId(pid, n) {
      TopicIdFacts(pid, i, n);
    }
    forall i | 0 <= i < n ensures PaperId(pid, i) != PaperId(pid, n) {
      PaperIdFacts(pid, i, n);
    }
  }

  /** One more topic: a fresh node at the end of the order, and a new edge. */
  lemma TopicStep(g: GraphState, pid: string, pn: Node, topics: seq<string>, t: string)
    requires Shaped(g, pid, pn, topics, [])
    ensures Shaped(WithEdge(WithNode(g, TopicId(pid, |topics|), TopicNode(t)), TopicEdge(pid, |topics|)), pid, pn, topics + [t], [])
  {
    var n := |topics|;
    var id := TopicId(pid, n);
    FreshTopicId(pid, n);
    NoEdgeTo(pid, n, 0, id);
    AddLeaf(g, id, TopicNode(t), TopicEdge(pid, n));
    NextTopic(pid, n);
    TopicNodesStep(g.nodes, g.order, pid, pn, topics, t);
    ShapedOf(WithEdge(WithNode(g, id, TopicNode(t)), TopicEdge(pid, n)), pid, pn, topics + [t], []);
  }

  /** One more paper: a fresh node at the end of the order, and a new edge. */
  lemma PaperStep(g: GraphState, pid: string, pn: Node, topics: seq<string>, paperNodes: seq<Node>, node: Node)
    requires Shaped(g, pid, pn, topics, paperNodes)
    ensures Shaped(WithEdge(WithNode(g, PaperId(pid, |paperNodes|), node), PaperEdge(pid, |paperNodes|)), pid, pn, topics, paperNodes + [node])
  {
    var n, nt := |paperNodes|, |topics|;
    var id := PaperId(pid, n);
    FreshPaperId(pid, nt, n);
    NoEdgeTo(pid, nt, n, id);
    AddLeaf(g, id, node, PaperEdge(pid, n));
    NextPaper(pid, nt, n);
    PaperNodesStep(g.nodes, g.order, pid, pn, topics, paperNodes, node);
    ShapedOf(WithEdge(WithNode(g, id, node), PaperEdge(pid, n)), pid, pn, topics, paperNodes + [node]);
  }

  /** `Shaped`, from its three parts. */
  lemma ShapedOf(g: GraphState, pid: string, pn: Node, topics: seq<string>, paperNodes: seq<Node>)
    requires g.order == ExpectedOrder(pid, |topics|, |paperNodes|)
    requires g.edges == ExpectedEdges(pid, |topics|, |paperNodes|)
    requires NodesShaped(g.nodes, g.order, pid, pn, topics, paperNodes)
    ensures Shaped(g, pid, pn, topics, paperNodes)
  {
  }

  /** The nodes of the given papers. */
  function PaperNodesOf(papers: seq<Paper>): (ns: seq<Node>)
    ensures |ns| == |papers| && forall i :: 0 <= i < |papers| ==> ns[i] == PaperNodeOf(papers[i])
  {
    seq(|papers|, i requires 0 <= i < |papers| => PaperNodeOf(papers[i]))
  }

  lemma WithTopicsSnoc(g: GraphState, pid: string, topics: seq<string>, i: nat)
    requires i < |topics|
    ensures WithTopics(g, pid, topics[..i + 1])
         == WithEdge(WithNode(WithTopics(g, pid, topics[..i]), TopicId(pid, i), TopicNode(topics[i])), TopicEdge(pid, i))
  {
    assert topics[..i + 1][..i] == topics[..i];
  }

  lemma WithPapersSnoc(g: GraphState, pid: string, papers: seq<Paper>, i: nat)
    requires i < |papers|
    ensures WithPapers(g, pid, papers[..i + 1])
         == WithEdge(WithNode(WithPapers(g, pid, papers[..i]), PaperId(pid, i), PaperNodeOf(papers[i])), PaperEdge(pid, i))
  {
    assert papers[..i + 1][..i] == papers[..i];
  }

  /** The graph with only the professor node. */
  lemma StartShaped(pid: string, pn: Node)
    ensures Shaped(WithNode(EmptyGraph, pid, pn), pid, pn, [], [])
  {
    assert TopicIds(pid, 0) == [] && PaperIds(pid, 0) == [];
    assert TopicEdges(pid, 0) == [] && PaperEdges(pid, 0) == [];
  }

  lemma {:induction false} WithTopicsShaped(g: GraphState, pid: string, pn: Node, topics: seq<string>)
    requires Shaped(g, pid, pn, [], [])
    ensures Shaped(WithTopics(g, pid, topics), pid, pn, topics, [])
    decreases |topics|
  {
    if topics != [] {
      WithTopicsShaped(g, pid, pn, topics[..|topics| - 1]);
      WithTopicsShapedStep(g, pid, pn, topics);
    }
  }

  lemma WithTopicsShapedStep(g: GraphState, pid: string, pn: Node, topics: seq<string>)
    requires topics != []
    requires Shaped(WithTopics(g, pid, topics[..|topics| - 1]), pid, pn, topics[..|topics| - 1], [])
    ensures Shaped(WithTopics(g, pid, topics), pid, pn, topics, [])
  {
    var n := |topics| - 1;
    Seqs.SplitLast(topics);
    TopicStep(WithTopics(g, pid, topics[..n]), pid, pn, topics[..n], topics[n]);
  }

  lemma {:induction false} WithPapersShaped(g: GraphState, pid: string, pn: Node, topics: seq<string>, papers: seq<Paper>)
    requires Shaped(g, pid, pn, topics, [])
    ensures Shaped(WithPapers(g, pid, papers), pid, pn, topics, PaperNodesOf(papers))
    decreases |papers|
  {
    if papers == [] {
      assert PaperNodesOf(papers) == [];
    } else {
      WithPapersShaped(g, pid, pn, topics, papers[..|papers| - 1]);
      WithPapersShapedStep(g, pid, pn, topics, papers);
    }
  }

  lemma WithPapersShapedStep(g: GraphState, pid: string, pn: Node, topics: seq<string>, papers: seq<Paper>)
    requires papers != []
    requires Shaped(WithPapers(g, pid, papers[..|papers| - 1]), pid, pn, topics, PaperNodesOf(papers[..|papers| - 1]))
    ensures Shaped(WithPapers(g, pid, papers), pid, pn, topics, PaperNodesOf(papers))
  {
    var n := |papers| - 1;
    PaperNodesOfSnoc(papers, n);
    assert papers[..n + 1] == papers;
    PaperStep(WithPapers(g, pid, papers[..n]), pid, pn, topics, PaperNodesOf(papers[..n]), PaperNodeOf(papers[n]));
  }

  lemma PaperNodesOfSnoc(papers: seq<Paper>, n: nat)
    requires n < |papers|
    ensures PaperNodesOf(papers[..n]) + [PaperNodeOf(papers[n])] == PaperNodesOf(papers[..n + 1])
  {
    var a, b := PaperNodesOf(papers[..n]) + [PaperNodeOf(papers[n])], PaperNodesOf(papers[..n + 1]);
    forall i | 0 <= i < |a| ensures a[i] == b[i] {
      assert papers[..n + 1][i] == papers[i];
      if i < n {
        assert papers[..n][i] == papers[i];
      }
    }
  }

  /** What `build_professor_graph` builds: the professor node, then one node per topic and one
      per paper, in input order under their positional ids; an expertise edge of width 4 to every
      topic and an authored edge of width 2 to every paper; and nothing else. */
  lemma BuildGraphShape(p: ProfessorRecord)
    ensures var g, pid, topics, papers := BuildGraph(p), ProfessorId(p), p.topics.GetOr([]), p.papers.GetOr([]);
      && g.order == [pid] + TopicIds(pid, |topics|) + PaperIds(pid, |papers|)
      && (forall k :: k in g.nodes <==> k in g.order)
      && pid in g.nodes && g.nodes[pid] == ProfessorNodeOf(p)
      && (forall i :: 0 <= i < |topics| ==> g.nodes[TopicId(pid, i)] == TopicNode(topics[i]))
      && (forall i :: 0 <= i < |papers| ==> g.nodes[PaperId(pid, i)] == PaperNodeOf(papers[i]))
      && g.edges == TopicEdges(pid, |topics|) + PaperEdges(pid, |papers|)
  {
    var pid, pn, topics := ProfessorId(p), ProfessorNodeOf(p), p.topics.GetOr([]);
    StartShaped(pid, pn);
    WithTopicsShaped(WithNode(EmptyGraph, pid, pn), pid, pn, topics);
    WithPapersShaped(WithTopics(WithNode(EmptyGraph, pid, pn), pid, topics), pid, pn, topics, p.papers.GetOr([]));
  }

  /** The ids of the expected order are distinct. */
  lemma ExpectedOrderDistinct(pid: string, nt: nat, np: nat)
    ensures forall i, j :: 0 <= i < j < |ExpectedOrder(pid, nt, np)| ==> ExpectedOrder(pid, nt, np)[i] != ExpectedOrder(pid, nt, np)[j]
  {
    var o := ExpectedOrder(pid, nt, np);
    forall i, j | 0 <= i < j < |o| ensures o[i] != o[j] {
      if i == 0 {
        if j <= nt { TopicIdFacts(pid, j - 1, 0); } else { PaperIdFacts(pid, j - 1 - nt, 0); }
      } else if i <= nt {
        if j <= nt { TopicIdFacts(pid, i - 1, j - 1); } else { TopicIdFacts(pid, i - 1, j - 1 - nt); }
      } else {
        PaperIdFacts(pid, i - 1 - nt, j - 1 - nt);
      }
    }
  }

  /** The graph is a star around the professor: 1 + |topics| + |papers| distinct nodes,
      |topics| + |papers| edges, every one from the professor to another node, no two alike. */
  lemma BuildGraphStar(p: ProfessorRecord)
    ensures var g, pid := BuildGraph(p), ProfessorId(p);
      && |g.order| == 1 + |p.topics.GetOr([])| + |p.papers.GetOr([])|
      && |g.edges| == |p.topics.GetOr([])| + |p.papers.GetOr([])|
      && WellFormed(g) && Simple(g)
      && (forall i :: 0 <= i < |g.edges| ==> g.edges[i].source == pid && g.edges[i].target != pid)
  {
    BuildGraphShape(p);
    ExpectedStar(BuildGraph(p), ProfessorId(p), |p.topics.GetOr([])|, |p.papers.GetOr([])|);
  }

  /** A graph with the expected order and edges is a well-formed, simple star. */
  lemma ExpectedStar(g: GraphState, pid: string, nt: nat, np: nat)
    requires g.order == ExpectedOrder(pid, nt, np) && g.edges == ExpectedEdges(pid, nt, np)
    requires forall k :: k in g.nodes <==> k in g.order
    ensures |g.order| == 1 + nt + np && |g.edges| == nt + np
    ensures WellFormed(g) && Simple(g)
    ensures forall i :: 0 <= i < |g.edges| ==> g.edges[i].source == pid && g.edges[i].target != pid
  {
    ExpectedOrderDistinct(pid, nt, np);
    ExpectedEdgeTargets(pid, nt, np);
    forall i | 0 <= i < |g.edges| ensures g.edges[i].target != pid && g.edges[i].target in g.nodes {
      assert g.order[0] == pid && g.order[i + 1] in g.order;
    }
    forall i, j | 0 <= i < j < |g.edges| ensures !Joins(g.edges[j], g.edges[i].source, g.edges[i].target) {
      assert g.order[i + 1] != g.order[j + 1];
    }
  }

  /** The builder reads `papers` only: a record that has only `topic_groups` gets no paper nodes. */
  lemma BuildGraphIgnoresTopicGroups(p: ProfessorRecord)
    requires p.papers.None?
    ensures |BuildGraph(p).order| == 1 + |p.topics.GetOr([])|
    ensures forall k :: k in BuildGraph(p).nodes ==> BuildGraph(p).nodes[k].Styled? && BuildGraph(p).nodes[k].nodeType != PaperType
  {
    BuildGraphShape(p);
    NoPaperNodes(BuildGraph(p), ProfessorId(p), ProfessorNodeOf(p), p.topics.GetOr([]));
  }

  /** A graph of a professor node and topic nodes only has no paper node. */
  lemma NoPaperNodes(g: GraphState, pid: string, pn: Node, topics: seq<string>)
    requires pn.Styled? && pn.nodeType == ProfessorType
    requires g.order == [pid] + TopicIds(pid, |topics|) + PaperIds(pid, 0)
    requires forall k :: k in g.nodes <==> k in g.order
    requires pid in g.nodes && g.nodes[pid] == pn
    requires forall i :: 0 <= i < |topics| ==> g.nodes[TopicId(pid, i)] == TopicNode(topics[i])
    ensures |g.order| == 1 + |topics|
    ensures forall k :: k in g.nodes ==> g.nodes[k].Styled? && g.nodes[k].nodeType != PaperType
  {
    var ids := TopicIds(pid, |topics|);
    assert g.order == [pid] + ids by {
      assert PaperIds(pid, 0) == [];
    }
    forall k | k in g.nodes ensures g.nodes[k].Styled? && g.nodes[k].nodeType != PaperType {
      var i :| 0 <= i < |g.order| && g.order[i] == k;
      if i > 0 {
        assert k == ids[i - 1] == TopicId(pid, i - 1);
        assert g.nodes[k] == TopicNode(topics[i - 1]);
      }
    }
  }

  /** Attaching a `topic_groups` mapping to a record leaves its graph as it was. */
  lemma BuildGraphUnaffectedByTopicGroups(p: ProfessorRecord, groups: Option<Dict<seq<Paper>>>)
    ensures BuildGraph(p.(topicGroups := groups)) == BuildGraph(p)
  {
  }

  // ---------------------------------------------------------------------------
  // The mutable graph and the builder
  // ---------------------------------------------------------------------------

  /** The `networkx.Graph` the builder fills. */
  class NetworkGraph {
    var nodes: map<string, Node>
    var order: seq<string>
    var edges: seq<Edge>

    function State(): GraphState
      reads this
    {
      GraphState(nodes, order, edges)
    }

    constructor()
      ensures State() == EmptyGraph
    {
      nodes, order, edges := map[], [], [];
    }

    /** `graph.clear()`. */
    method Clear()
      modifies this
      ensures State() == EmptyGraph
    {
      nodes, order, edges := map[], [], [];
    }

    /** `graph.add_node(id, **attrs)`. */
    method AddNode(id: string, n: Node)
      modifies this
      ensures State() == WithNode(old(State()), id, n)
    {
      if id !in nodes {
        order := order + [id];
      }
      nodes := nodes[id := n];
    }

    /** `graph.nodes[id]['url'] = url`. */
    method SetUrl(id: string, url: string)
      requires id in nodes && nodes[id].Styled?
      modifies this
      ensures State() == old(State()).(nodes := old(nodes)[id := old(nodes[id]).(url := Some(url))])
    {
      nodes := nodes[id := nodes[id].(url := Some(url))];
    }

    /** `graph.add_edge(u, v, **attrs)`. */
    method AddEdge(e: Edge)
      modifies this
      ensures State() == WithEdge(old(State()), e)
    {
      var found := FindEdge(edges, e.source, e.target);
      if e.source !in nodes {
        nodes, order := nodes[e.source := Bare], order + [e.source];
      }
      if e.target !in nodes {
        nodes, order := nodes[e.target := Bare], order + [e.target];
      }
      match found
      case Some(i) =>
        edges := edges[i := Edge(edges[i].source, edges[i].target, e.title, e.width, e.color)];
      case None =>
        edges := edges + [e];
    }
  }

  /** `KnowledgeGraphBuilder`: the graph is created once and reused by every build. */
  class KnowledgeGraphBuilder {
    const graph: NetworkGraph

    constructor()
      ensures fresh(graph) && graph.State() == EmptyGraph
    {
      graph := new NetworkGraph();
    }

    /** `clear_graph`. */
    method ClearGraph()
      modifies graph
      ensures graph.State() == EmptyGraph
    {
      graph.Clear();
    }

    /** `add_professor_node`. */
    method AddProfessorNode(professorId: string, name: string, imageUrl: Option<string>)
      modifies graph
      ensures graph.State() == WithNode(old(graph.State()), professorId, ProfessorNode(name, imageUrl))
    {
      var shape := if Truthy(imageUrl) then CircularImage else Dot;
      graph.AddNode(professorId, Styled(ProfessorType, name,
        "<b>" + name + "</b><br><span style='color:#666'>Click to view profile</span>",
        imageUrl, ProfessorColor, ProfessorSize, shape, None));
    }

    /** `add_topic_node`. */
    method AddTopicNode(topicId: string, topicName: string)
      modifies graph
      ensures graph.State() == WithNode(old(graph.State()), topicId, TopicNode(topicName))
    {
      graph.AddNode(topicId, Styled(TopicType, topicName,
        "<b>" + topicName + "</b><br><span style='color:#666'>Research Area</span>",
        None, TopicColor, TopicSize, Dot, None));
    }

    /** `add_paper_node`: the node first, then its `url` when there is a DOI link. */
    method AddPaperNode(paperId: string, title: string, year: string, citations: int, doi: string)
      modifies graph
      ensures graph.State() == WithNode(old(graph.State()), paperId, PaperNode(title, year, citations, doi))
    {
      var displayTitle := DisplayTitle(title);
      var size := PaperNodeSize(citations);
      var doiLink := DoiLink(doi);
      var tooltip := PaperTooltip(title, year, citations, doiLink);
      graph.AddNode(paperId, Styled(PaperType, displayTitle, tooltip, None, PaperColor, size, Dot, None));
      if doiLink.Some? {
        graph.SetUrl(paperId, doiLink.value);
      }
    }

    /** `add_edge`. */
    method AddEdge(source: string, target: string, edgeType: string, width: int, color: Option<string>)
      modifies graph
      ensures graph.State() == WithEdge(old(graph.State()), Edge(source, target, edgeType, width, ResolveEdgeColor(edgeType, color)))
    {
      var c := ResolveEdgeColor(edgeType, color);
      graph.AddEdge(Edge(source, target, edgeType, width, c));
    }

    /** `build_professor_graph` up to the hand-over to the HTML renderer. */
    method BuildProfessorGraph(professorData: ProfessorRecord)
      modifies graph
      ensures graph.State() == BuildGraph(professorData)
    {
      ClearGraph();
      var profId := professorData.scopusId.GetOr("prof_1");
      var profName := professorData.name.GetOr("Unknown");
      var profImage := professorData.imageUrl;
      AddProfessorNode(profId, profName, profImage);
      ghost var start := graph.State();

      var topics := professorData.topics.GetOr([]);
      var i := 0;
      while i < |topics|
        invariant 0 <= i <= |topics|
        invariant graph.State() == WithTopics(start, profId, topics[..i])
      {
        var topicId := "topic_" + profId + "_" + NatToString(i);
        AddTopicNode(topicId, topics[i]);
        AddEdge(profId, topicId, "expertise", 4, Some(ExpertiseColor));
        WithTopicsSnoc(start, profId, topics, i);
        i := i + 1;
      }
      Seqs.TakeAll(topics);
      ghost var afterTopics := graph.State();

      var papers := professorData.papers.GetOr([]);
      i := 0;
      while i < |papers|
        invariant 0 <= i <= |papers|
        invariant graph.State() == WithPapers(afterTopics, profId, papers[..i])
      {
        var paperId := "paper_" + profId + "_" + NatToString(i);
        var paper := papers[i];
        AddPaperNode(paperId, paper.title.GetOr("Untitled"), paper.year.GetOr(""), paper.citations.GetOr(0), paper.doi.GetOr(""));
        AddEdge(profId, paperId, "authored", 2, Some(AuthoredColor));
        WithPapersSnoc(afterTopics, profId, papers, i);
        i := i + 1;
      }
      Seqs.TakeAll(papers);
    }
  }
}
