/** The link description of `components/tools/linkdescription.cpp`: the
    later version in which hyper-edges hold SHARED nodes (`NodePtr`) and
    nodes hold shared hyper-edges (`HyperEdgePtr`). Adding a node to an edge
    therefore makes that very node point to the edge; no copies are made.
    A node additionally has link points for its children. Points are pairs
    of reals that the model only stores and selects; the routing
    description (`_fork`) is an opaque handle. Points and the
    `getLinkPoints()` fallback are the header's, shared with
    `LinkDescriptionH`. */
module LinkDescriptionCpp {
  import opened Common
  import LinkDescriptionH

  type Point2 = LinkDescriptionH.Point2

  /** `uint32_t` revisions wrap around. */
  const REVISION_MOD: nat := 0x1_0000_0000

  /** `getLinkPointsChildren()`: the children's link points if there are
      any, otherwise whatever `getLinkPoints()` (the header's `LinkPointsOf`) gives. */
  function ChildLinkPointsOf(points: seq<Point2>, linkPoints: seq<Point2>,
                             linkPointsChildren: seq<Point2>): (r: seq<Point2>)
    ensures |linkPointsChildren| > 0 ==> r == linkPointsChildren
    ensures |linkPointsChildren| == 0 ==> r == LinkDescriptionH.LinkPointsOf(points, linkPoints)
  {
    if |linkPointsChildren| == 0 then LinkDescriptionH.LinkPointsOf(points, linkPoints) else linkPointsChildren
  }

  /** The selection chain: the children's points fall back to the link
      points, which fall back to the vertices, so a node with neither kind
      of link point uses its vertices everywhere. */
  lemma {:induction false} ChildLinkPointsFallback(points: seq<Point2>, linkPoints: seq<Point2>,
                                                   linkPointsChildren: seq<Point2>)
    ensures |linkPoints| == 0 && |linkPointsChildren| == 0 ==>
              ChildLinkPointsOf(points, linkPoints, linkPointsChildren) == points
    ensures ChildLinkPointsOf(points, linkPoints, linkPointsChildren) in
              {points, linkPoints, linkPointsChildren}
    ensures |ChildLinkPointsOf(points, linkPoints, linkPointsChildren)| == 0 ==>
              |points| == 0 && |linkPoints| == 0 && |linkPointsChildren| == 0
  {
  }

  /** The const overloads `getLinkPoints() const` and
      `getLinkPointsChildren() const` as written: each calls the same const
      overload again. `fuel` bounds the nested calls considered; None
      stands for "has not returned yet". */
  function ConstChildLinkPointsAsWritten(points: seq<Point2>, linkPoints: seq<Point2>,
                                         linkPointsChildren: seq<Point2>, fuel: nat)
    : Option<seq<Point2>>
    decreases fuel
  {
    if fuel == 0 then None
    else ConstChildLinkPointsAsWritten(points, linkPoints, linkPointsChildren, fuel - 1)
  }

  /** However deep the calls go, the const overload never returns. */
  lemma {:induction false} ConstChildLinkPointsNeverReturn(points: seq<Point2>, linkPoints: seq<Point2>,
                                                          linkPointsChildren: seq<Point2>, fuel: nat)
    ensures ConstChildLinkPointsAsWritten(points, linkPoints, linkPointsChildren, fuel).None?
    decreases fuel
  {
    if fuel > 0 {
      ConstChildLinkPointsNeverReturn(points, linkPoints, linkPointsChildren, fuel - 1);
    }
  }

  class Node {
    var props: map<string, string>
    var points: seq<Point2>
    var linkPoints: seq<Point2>
    var linkPointsChildren: seq<Point2>
    var parent: HyperEdge?
    var children: seq<HyperEdge>

    /** The four point/property constructors (`Node()`, `Node(points,
        props)`, `Node(points, link_points, props)`, `Node(points,
        link_points, link_points_children, props)`): no parent, no children. */
    constructor(points: seq<Point2>, linkPoints: seq<Point2>, linkPointsChildren: seq<Point2>,
                props: map<string, string>)
      ensures this.points == points && this.linkPoints == linkPoints
      ensures this.linkPointsChildren == linkPointsChildren && this.props == props
      ensures parent == null && children == []
    {
      this.points := points;
      this.linkPoints := linkPoints;
      this.linkPointsChildren := linkPointsChildren;
      this.props := props;
      parent := null;
      children := [];
    }

    /** `Node(HyperEdgePtr hedge)`: the edge is the only child and gets this
        node as its parent. */
    constructor ForEdge(hedge: HyperEdge)
      modifies hedge
      ensures children == [hedge] && parent == null && hedge.parent == this
      ensures points == [] && linkPoints == [] && linkPointsChildren == [] && props == map[]
      ensures hedge.nodes == old(hedge.nodes) && hedge.revision == old(hedge.revision)
      ensures hedge.props == old(hedge.props) && hedge.fork == old(hedge.fork)
    {
      points := [];
      linkPoints := [];
      linkPointsChildren := [];
      props := map[];
      parent := null;
      children := [hedge];
      new;
      hedge.parent := this;
    }

    function GetLinkPoints(): (r: seq<Point2>)
      reads this
      ensures r == LinkDescriptionH.LinkPointsOf(points, linkPoints)
    {
      LinkDescriptionH.LinkPointsOf(points, linkPoints)
    }

    function GetLinkPointsChildren(): (r: seq<Point2>)
      reads this
      ensures r == ChildLinkPointsOf(points, linkPoints, linkPointsChildren)
    {
      ChildLinkPointsOf(points, linkPoints, linkPointsChildren)
    }

    /** `addChildren(edges)`: each edge gets this node as parent, then all
        are appended in order. */
    method AddChildren(edges: seq<HyperEdge>)
      modifies this, set e | e in edges
      ensures children == old(children) + edges
      ensures forall e :: e in edges ==> e.parent == this
      ensures forall e :: e in edges ==> e.nodes == old(e.nodes) && e.revision == old(e.revision)
      ensures forall e :: e in edges ==> e.props == old(e.props) && e.fork == old(e.fork)
      ensures parent == old(parent) && points == old(points) && props == old(props)
      ensures linkPoints == old(linkPoints) && linkPointsChildren == old(linkPointsChildren)
    {
      var i := 0;
      while i < |edges|
        invariant i <= |edges|
        invariant forall j :: 0 <= j < i ==> edges[j].parent == this
        invariant forall e :: e in edges ==> e.nodes == old(e.nodes) && e.revision == old(e.revision)
        invariant forall e :: e in edges ==> e.props == old(e.props) && e.fork == old(e.fork)
        invariant children == old(children) && parent == old(parent)
        invariant points == old(points) && props == old(props)
        invariant linkPoints == old(linkPoints) && linkPointsChildren == old(linkPointsChildren)
      {
        edges[i].parent := this;
        i := i + 1;
      }
      children := children + edges;
    }

    /** `addChild(hedge)`: the edge gets this node as parent and is
        appended. */
    method AddChild(hedge: HyperEdge)
      modifies this, hedge
      ensures children == old(children) + [hedge] && hedge.parent == this
      ensures hedge.nodes == old(hedge.nodes) && hedge.revision == old(hedge.revision)
      ensures hedge.props == old(hedge.props) && hedge.fork == old(hedge.fork)
      ensures parent == old(parent) && points == old(points) && props == old(props)
      ensures linkPoints == old(linkPoints) && linkPointsChildren == old(linkPointsChildren)
    {
      hedge.parent := this;
      children := children + [hedge];
    }
  }

  class HyperEdge {
    var props: map<string, string>
    var parent: Node?
    var nodes: seq<Node>
    var revision: nat
    var fork: Option<nat>

    ghost predicate Valid()
      reads this
    {
      revision < REVISION_MOD
    }

    /** `HyperEdge()`: no parent, no nodes, revision 0. */
    constructor()
      ensures Valid()
      ensures parent == null && nodes == [] && revision == 0 && fork.None? && props == map[]
    {
      props := map[];
      parent := null;
      nodes := [];
      revision := 0;
      fork := None;
    }

    /** `HyperEdge(nodes, props)`: holds the given nodes themselves and is
        the parent of each of them. */
    constructor WithNodes(ns: seq<Node>, props: map<string, string>)
      modifies set n | n in ns
      ensures Valid()
      ensures nodes == ns && parent == null && revision == 0 && fork.None? && this.props == props
      ensures forall n :: n in ns ==> n.parent == this
      ensures forall n :: n in ns ==>
          (n.children == old(n.children) && n.points == old(n.points) && n.props == old(n.props)
           && n.linkPoints == old(n.linkPoints) && n.linkPointsChildren == old(n.linkPointsChildren))
    {
      this.props := props;
      parent := null;
      nodes := ns;
      revision := 0;
      fork := None;
      new;
      ResetNodeParents();
    }

    /** `resetNodeParents()`: afterwards every node's parent is this edge. */
    method ResetNodeParents()
      modifies set n | n in nodes
      ensures forall n :: n in nodes ==> n.parent == this
      ensures forall n :: n in nodes ==>
          (n.children == old(n.children) && n.points == old(n.points) && n.props == old(n.props)
           && n.linkPoints == old(n.linkPoints) && n.linkPointsChildren == old(n.linkPointsChildren))
    {
      var i := 0;
      while i < |nodes|
        invariant i <= |nodes|
        invariant forall j :: 0 <= j < i ==> nodes[j].parent == this
        invariant forall n :: n in nodes ==>
            (n.children == old(n.children) && n.points == old(n.points) && n.props == old(n.props)
             && n.linkPoints == old(n.linkPoints) && n.linkPointsChildren == old(n.linkPointsChildren))
      {
        nodes[i].parent := this;
        i := i + 1;
      }
    }

    /** `addNodes(nodes)`: an empty list changes nothing; otherwise the nodes
        are appended in order, each gets this edge as parent, and the
        revision goes up by exactly one (modulo 2^32). */
    method AddNodes(ns: seq<Node>)
      requires Valid()
      modifies this, set n | n in ns
      ensures Valid()
      ensures nodes == old(nodes) + ns
      ensures |ns| == 0 ==> revision == old(revision)
      ensures |ns| > 0 ==> revision == (old(revision) + 1) % REVISION_MOD
      ensures forall n :: n in ns ==> n.parent == this
      ensures forall n :: n in ns ==>
          (n.children == old(n.children) && n.points == old(n.points) && n.props == old(n.props)
           && n.linkPoints == old(n.linkPoints) && n.linkPointsChildren == old(n.linkPointsChildren))
      ensures parent == old(parent) && fork == old(fork) && props == old(props)
    {
      if |ns| == 0 {
        return;
      }
      var i := 0;
      while i < |ns|
        invariant i <= |ns| && nodes == old(nodes) + ns[..i]
        invariant forall j :: 0 <= j < i ==> ns[j].parent == this
        invariant forall n :: n in ns ==>
            (n.children == old(n.children) && n.points == old(n.points) && n.props == old(n.props)
             && n.linkPoints == old(n.linkPoints) && n.linkPointsChildren == old(n.linkPointsChildren))
        invariant revision == old(revision) && parent == old(parent) && fork == old(fork) && props == old(props)
      {
        nodes := nodes + [ns[i]];
        ns[i].parent := this;
        assert ns[..i + 1] == ns[..i] + [ns[i]];
        i := i + 1;
      }
      assert ns[..i] == ns;
      revision := (revision + 1) % REVISION_MOD;
    }

    /** `addNode(node)`: appended with this edge as parent; the revision is
        left alone. */
    method AddNode(n: Node)
      modifies this, n
      ensures nodes == old(nodes) + [n] && n.parent == this
      ensures n.children == old(n.children) && n.points == old(n.points)
          && n.props == old(n.props) && n.linkPoints == old(n.linkPoints)
          && n.linkPointsChildren == old(n.linkPointsChildren)
      ensures revision == old(revision) && parent == old(parent) && fork == old(fork) && props == old(props)
    {
      nodes := nodes + [n];
      n.parent := this;
    }

    /** `setHyperEdgeDescription(desc)`. */
    method SetHyperEdgeDescription(desc: Option<nat>)
      modifies this
      ensures fork == desc
      ensures nodes == old(nodes) && revision == old(revision) && parent == old(parent) && props == old(props)
    {
      fork := desc;
    }

    /** `removeRoutingInformation()`: drops the routing description. */
    method RemoveRoutingInformation()
      modifies this
      ensures fork.None?
      ensures nodes == old(nodes) && revision == old(revision) && parent == old(parent) && props == old(props)
    {
      fork := None;
    }
  }
}
