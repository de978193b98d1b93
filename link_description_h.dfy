/** The link description of the header `include/linkdescription.h`: a
    hyper-edge owns a list of nodes BY VALUE (`std::list<Node>`), so adding
    nodes stores copies, and every stored copy points back to the edge as
    its parent; a node points to the hyper-edges it forks into.

    Both classes derive from `PropertyElement`, a string-to-string property
    map, modelled once by the functions `SetProperty`, `SetInteger`,
    `SetFlag` and `GetProperty` over the `props` field. Points are pairs of
    reals that the model only stores and selects. A routing description
    (`_fork`) is an opaque handle. */
module LinkDescriptionH {
  import opened Common

  datatype Point2 = Point2(x: real, y: real)

  /** `uint32_t` revisions wrap around. */
  const REVISION_MOD: nat := 0x1_0000_0000

  // ---- PropertyElement (linkdescription.h:30-89) ----

  /** `set(key, std::string)` / `set(key, const char*)`: the value is stored
      verbatim and replaces any earlier value of the key. */
  function SetProperty(props: map<string, string>, key: string, val: string): (r: map<string, string>)
    ensures key in r && r[key] == val
    ensures r.Keys == props.Keys + {key}
    ensures forall k :: k in props && k != key ==> r[k] == props[k]
  {
    props[key := val]
  }

  function DigitChar(d: nat): char
    requires d < 10
  {
    ['0', '1', '2', '3', '4', '5', '6', '7', '8', '9'][d]
  }

  /** Decimal text of a natural number. */
  function NatToString(n: nat): (r: string)
    ensures |r| > 0 && forall i :: 0 <= i < |r| ==> '0' <= r[i] <= '9'
    decreases n
  {
    if n < 10 then [DigitChar(n)] else NatToString(n / 10) + [DigitChar(n % 10)]
  }

  /** `std::to_string` of an integer. */
  function IntToString(n: int): (r: string)
    ensures |r| > 0
    ensures n < 0 <==> r[0] == '-'
  {
    if n < 0 then "-" + NatToString(-n) else NatToString(n)
  }

  /** Value of a string of decimal digits. */
  function DecimalValue(s: string): nat
    requires forall i :: 0 <= i < |s| ==> '0' <= s[i] <= '9'
  {
    if |s| == 0 then 0 else 10 * DecimalValue(s[..|s| - 1]) + (s[|s| - 1] as int - '0' as int)
  }

  /** The decimal text reads back as the number it encodes, so distinct
      numbers are stored as distinct texts. */
  lemma {:induction false} NatToStringRoundTrip(n: nat)
    ensures DecimalValue(NatToString(n)) == n
    decreases n
  {
    if n >= 10 {
      var s := NatToString(n);
      assert s[..|s| - 1] == NatToString(n / 10);
      NatToStringRoundTrip(n / 10);
    }
  }

  lemma {:induction false} NatToStringInjective(m: nat, n: nat)
    requires NatToString(m) == NatToString(n)
    ensures m == n
  {
    NatToStringRoundTrip(m);
    NatToStringRoundTrip(n);
  }

  /** Distinct integers are stored as distinct texts. */
  lemma {:induction false} IntToStringInjective(m: int, n: int)
    requires IntToString(m) == IntToString(n)
    ensures m == n
  {
    var a := IntToString(m);
    var b := IntToString(n);
    assert (m < 0) == (a[0] == '-') && (n < 0) == (b[0] == '-');
    if m < 0 {
      assert a[1..] == NatToString(-m) && b[1..] == NatToString(-n);
      NatToStringInjective(-m, -n);
    } else {
      NatToStringInjective(m, n);
    }
  }

  /** The template `set(key, val)` for an integral value: its `to_string`. */
  function SetInteger(props: map<string, string>, key: string, val: int): (r: map<string, string>)
    ensures r == SetProperty(props, key, IntToString(val))
  {
    SetProperty(props, key, IntToString(val))
  }

  /** The template `set(key, val)` for a `bool`: `to_string` sees the value
      promoted to int, so true is stored as "1" and false as "0". */
  function SetFlag(props: map<string, string>, key: string, val: bool): (r: map<string, string>)
    ensures key in r && r[key] == (if val then "1" else "0")
  {
    SetInteger(props, key, if val then 1 else 0)
  }

  /** `get<T>(key, def)`: `def` when the key is absent, otherwise the stored
      text converted by `convertFromString(text, def)`, here `convert`. */
  function GetProperty<T>(props: map<string, string>, key: string, def: T,
                          convert: (string, T) -> T): (r: T)
    ensures key !in props ==> r == def
  {
    if key in props then convert(props[key], def) else def
  }

  /** Reading back a key just set converts the stored text; other keys read
      as before. */
  lemma {:induction false} GetAfterSet<T>(props: map<string, string>, key: string, val: string,
                                         other: string, def: T, convert: (string, T) -> T)
    ensures GetProperty(SetProperty(props, key, val), key, def, convert) == convert(val, def)
    ensures other != key ==>
              GetProperty(SetProperty(props, key, val), other, def, convert)
              == GetProperty(props, other, def, convert)
  {
  }

  // ---- Node::getLinkPoints (linkdescription.h:126-128) ----

  /** The non-const `getLinkPoints()`: the link points if there are any,
      otherwise the vertices. The corrected const overload returns the same. */
  function LinkPointsOf(points: seq<Point2>, linkPoints: seq<Point2>): (r: seq<Point2>)
    ensures |linkPoints| == 0 ==> r == points
    ensures |linkPoints| > 0 ==> r == linkPoints
  {
    if |linkPoints| == 0 then points else linkPoints
  }

  /** The const `getLinkPoints() const` as written: inside a const member the
      call `getLinkPoints()` resolves to the const overload itself, so each
      call makes the same call again. `fuel` bounds the number of nested
      calls considered; None stands for "has not returned yet". */
  function ConstLinkPointsAsWritten(points: seq<Point2>, linkPoints: seq<Point2>, fuel: nat)
    : Option<seq<Point2>>
    decreases fuel
  {
    if fuel == 0 then None else ConstLinkPointsAsWritten(points, linkPoints, fuel - 1)
  }

  /** However many nested calls are allowed, the const overload never
      produces a value: it recurses until the stack overflows. */
  lemma {:induction false} ConstLinkPointsNeverReturns(points: seq<Point2>, linkPoints: seq<Point2>, fuel: nat)
    ensures ConstLinkPointsAsWritten(points, linkPoints, fuel).None?
    decreases fuel
  {
    if fuel > 0 {
      ConstLinkPointsNeverReturns(points, linkPoints, fuel - 1);
    }
  }

  /** Two nodes carry the same points, link points, properties and
      children (the parent aside). */
  predicate SameContents(a: Node, b: Node)
    reads a, b
  {
    a.points == b.points && a.linkPoints == b.linkPoints && a.props == b.props && a.children == b.children
  }

  class Node {
    var props: map<string, string>
    var points: seq<Point2>
    var linkPoints: seq<Point2>
    var parent: HyperEdge?
    var children: seq<HyperEdge>

    /** `Node()`, `Node(points, props)` and `Node(points, link_points,
        props)`: no parent and no children. */
    constructor(points: seq<Point2>, linkPoints: seq<Point2>, props: map<string, string>)
      ensures this.points == points && this.linkPoints == linkPoints && this.props == props
      ensures parent == null && children == []
    {
      this.points := points;
      this.linkPoints := linkPoints;
      this.props := props;
      parent := null;
      children := [];
    }

    /** `Node(HyperEdge* hedge)`: the edge becomes the only child; this
        version does not set the edge's parent. */
    constructor ForEdge(hedge: HyperEdge)
      ensures children == [hedge] && parent == null
      ensures points == [] && linkPoints == [] && props == map[]
    {
      points := [];
      linkPoints := [];
      props := map[];
      parent := null;
      children := [hedge];
    }

    /** The copy made when a node is stored in a hyper-edge's list. */
    constructor Copy(n: Node)
      ensures points == n.points && linkPoints == n.linkPoints && props == n.props
      ensures parent == n.parent && children == n.children
    {
      points := n.points;
      linkPoints := n.linkPoints;
      props := n.props;
      parent := n.parent;
      children := n.children;
    }

    /** `getLinkPoints()` (the non-const overload, and the const overload
        as intended). */
    function GetLinkPoints(): (r: seq<Point2>)
      reads this
      ensures r == LinkPointsOf(points, linkPoints)
    {
      LinkPointsOf(points, linkPoints)
    }

    /** `addChildren(edges)`: every edge gets this node as its parent and is
        appended to the children, in order. */
    method AddChildren(edges: seq<HyperEdge>)
      modifies this, set e | e in edges
      ensures children == old(children) + edges
      ensures forall e :: e in edges ==> e.parent == this
      ensures points == old(points) && linkPoints == old(linkPoints) && props == old(props)
      ensures parent == old(parent)
      ensures forall e :: e in edges ==> e.nodes == old(e.nodes) && e.revision == old(e.revision)
      ensures forall e :: e in edges ==> e.props == old(e.props) && e.fork == old(e.fork)
    {
      var i := 0;
      while i < |edges|
        invariant i <= |edges|
        invariant forall j :: 0 <= j < i ==> edges[j].parent == this
        invariant children == old(children)
        invariant points == old(points) && linkPoints == old(linkPoints) && props == old(props)
        invariant parent == old(parent)
        invariant forall e :: e in edges ==> e.nodes == old(e.nodes) && e.revision == old(e.revision)
        invariant forall e :: e in edges ==> e.props == old(e.props) && e.fork == old(e.fork)
      {
        edges[i].parent := this;
        i := i + 1;
      }
      children := children + edges;
    }
  }

  class HyperEdge {
    var props: map<string, string>
    var parent: Node?
    var nodes: seq<Node>
    var revision: nat
    var fork: Option<nat>

    ghost predicate Valid()
      reads this
    {
      revision < REVISION_MOD
    }

    /** `HyperEdge()`. */
    constructor()
      ensures Valid()
      ensures parent == null && nodes == [] && revision == 0 && fork.None? && props == map[]
    {
      props := map[];
      parent := null;
      nodes := [];
      revision := 0;
      fork := None;
    }

    /** `HyperEdge(nodes, props)`: the edge stores copies of the given nodes
        and is the parent of every copy; the given nodes are not changed. */
    constructor WithNodes(ns: seq<Node>, props: map<string, string>)
      ensures Valid()
      ensures |nodes| == |ns| && parent == null && revision == 0 && fork.None? && this.props == props
      ensures forall i :: 0 <= i < |ns| ==> fresh(nodes[i]) && nodes[i].parent == this
      ensures forall i :: 0 <= i < |ns| ==>
                nodes[i].points == ns[i].points && nodes[i].linkPoints == ns[i].linkPoints
                && nodes[i].props == ns[i].props && nodes[i].children == ns[i].children
    {
      this.props := props;
      parent := null;
      revision := 0;
      fork := None;
      nodes := [];
      new;
      var i := 0;
      while i < |ns|
        invariant i <= |ns| && |nodes| == i
        invariant forall j :: 0 <= j < i ==> fresh(nodes[j]) && nodes[j].parent == this
        invariant forall j :: 0 <= j < i ==>
                    nodes[j].points == ns[j].points && nodes[j].linkPoints == ns[j].linkPoints
                    && nodes[j].props == ns[j].props && nodes[j].children == ns[j].children
        invariant parent == null && revision == 0 && fork.None? && this.props == props
      {
        var c := new Node.Copy(ns[i]);
        c.parent := this;
        nodes := nodes + [c];
        i := i + 1;
      }
    }

    /** `addNodes(nodes)`: an empty list changes nothing; otherwise copies
        of the nodes are appended in order, each with this edge as parent,
        and the revision goes up by exactly one (modulo 2^32). */
    method AddNodes(ns: seq<Node>)
      requires Valid()
      modifies this
      ensures Valid()
      ensures |ns| == 0 ==> nodes == old(nodes) && revision == old(revision)
      ensures |ns| > 0 ==> revision == (old(revision) + 1) % REVISION_MOD
      ensures |nodes| == |old(nodes)| + |ns| && nodes[..|old(nodes)|] == old(nodes)
      ensures forall k :: |old(nodes)| <= k < |nodes| ==>
                fresh(nodes[k]) && nodes[k].parent == this && SameContents(nodes[k], ns[k - |old(nodes)|])
      ensures parent == old(parent) && fork == old(fork) && props == old(props)
    {
      if |ns| == 0 {
        return;
      }
      var n0 := |nodes|;
      var i := 0;
      while i < |ns|
        invariant n0 == |old(nodes)|
        invariant i <= |ns| && |nodes| == n0 + i && nodes[..n0] == old(nodes)
        invariant forall k :: n0 <= k < |nodes| ==>
                    fresh(nodes[k]) && nodes[k].parent == this && SameContents(nodes[k], ns[k - n0])
        invariant revision == old(revision) && Valid()
        invariant parent == old(parent) && fork == old(fork) && props == old(props)
      {
        ghost var before := nodes;
        AddNode(ns[i]);
        assert forall j :: 0 <= j < |before| ==> nodes[j] == before[j];
        i := i + 1;
      }
      revision := (revision + 1) % REVISION_MOD;
    }

    /** `addNode(node)`: a copy is appended with this edge as parent; the
        revision is left alone. */
    method AddNode(n: Node)
      modifies this
      ensures |nodes| == |old(nodes)| + 1 && nodes[..|old(nodes)|] == old(nodes)
      ensures fresh(nodes[|old(nodes)|]) && nodes[|old(nodes)|].parent == this
              && SameContents(nodes[|old(nodes)|], n)
      ensures revision == old(revision) && parent == old(parent) && fork == old(fork) && props == old(props)
    {
      var c := new Node.Copy(n);
      c.parent := this;
      nodes := nodes + [c];
    }

    /** `setHyperEdgeDescription(desc)`. */
    method SetHyperEdgeDescription(desc: Option<nat>)
      modifies this
      ensures fork == desc
      ensures nodes == old(nodes) && revision == old(revision) && parent == old(parent) && props == old(props)
    {
      fork := desc;
    }

    /** `removeRoutingInformation()`: drops the routing description. */
    method RemoveRoutingInformation()
      modifies this
      ensures fork.None?
      ensures nodes == old(nodes) && revision == old(revision) && parent == old(parent) && props == old(props)
    {
      fork := None;
    }
  }
}
