/** The stand-alone relay of `addons/firefox/src/lib/BrowserServer.js`:
    browser tabs post messages under one local-storage key, the relay
    applies them to its own concept-graph store and hands them on to every
    tab, marked as coming from the server. A message is represented by the
    value `JSON.parse` gives for it; handing on (a zero-delay timer that
    writes the text into every tab's storage) is recorded as an append to
    `distributed`. */
module BrowserServer {
  import opened Common
  import opened Protocol
  import CG = ConceptGraph

  /** The local-storage key the relay listens on. */
  const SERVER_MESSAGE_KEY: string := "concept-graph.server-message"

  /** Tasks addressed to one peer that the relay leaves alone. */
  const IGNORED_TASKS: set<string> := {"ABORT", "RESIZE", "SYNC"}

  /** The id of the full-state request and of its answer. */
  const ALL_CONCEPTS: string := "/concepts/all"

  /** The relay's state: its store, whether a tab ever talked to it, and
      what it handed on, in order. */
  datatype RelayState = RelayState(graph: CG.GraphState, active: bool, distributed: seq<Envelope>)

  /** `mapToObj(map)`: the entries in the map's insertion order. */
  function MapToObj<V>(order: seq<string>, m: map<string, V>): (r: seq<(string, V)>)
    requires forall k :: k in order ==> k in m
    ensures |r| == |order|
    ensures forall i :: 0 <= i < |r| ==> r[i].0 == order[i] && r[i].1 == m[order[i]]
    decreases |order|
  {
    if |order| == 0 then []
    else MapToObj(order[..|order| - 1], m) + [(order[|order| - 1], m[order[|order| - 1]])]
  }

  /** The string `id` property of a serialised element ("" when it has
      none). */
  function IdProp(props: map<string, Value>): string {
    if "id" in props && props["id"].Str? then props["id"].s else ""
  }

  /** A stored concept after the JSON round trip: its own properties and
      references (the prototype methods are not own properties). */
  function ConceptOut(c: CG.Concept): ConceptCfg {
    ConceptCfg(IdProp(c.props), c.props - {"id"}, c.refs)
  }

  /** A stored relation after the JSON round trip. */
  function RelationOut(rel: CG.Relation): RelationCfg {
    RelationCfg(Some(IdProp(rel.props)), rel.nodes, rel.props - {"id"}, rel.refs)
  }

  /** The values of a `mapToObj` result, serialised, in key order. */
  function ConceptsOut(entries: seq<(string, CG.Concept)>): (r: seq<ConceptCfg>)
    ensures |r| == |entries|
    ensures forall i :: 0 <= i < |r| ==> r[i] == ConceptOut(entries[i].1)
    decreases |entries|
  {
    if |entries| == 0 then []
    else ConceptsOut(entries[..|entries| - 1]) + [ConceptOut(entries[|entries| - 1].1)]
  }

  function RelationsOut(entries: seq<(string, CG.Relation)>): (r: seq<RelationCfg>)
    ensures |r| == |entries|
    ensures forall i :: 0 <= i < |r| ==> r[i] == RelationOut(entries[i].1)
    decreases |entries|
  {
    if |entries| == 0 then []
    else RelationsOut(entries[..|entries| - 1]) + [RelationOut(entries[|entries| - 1].1)]
  }

  /** `getConceptGraphState()`: a GET-FOUND for `/concepts/all` carrying
      the concepts, the relations and the selection of the store. */
  function StateMessage(g: CG.GraphState): (r: Msg)
    requires CG.WellFormed(g)
    ensures r.GetFound? && r.id == ALL_CONCEPTS && r.sel == Ids(g.selection)
    ensures |r.concepts| == |g.conceptOrder| && |r.relations| == |g.relationOrder|
    ensures forall i :: 0 <= i < |r.concepts| ==>
              g.conceptOrder[i] in g.concepts && r.concepts[i] == ConceptOut(g.concepts[g.conceptOrder[i]])
    ensures forall i :: 0 <= i < |r.relations| ==>
              g.relationOrder[i] in g.relations && r.relations[i] == RelationOut(g.relations[g.relationOrder[i]])
  {
    GetFound(ALL_CONCEPTS, ConceptsOut(MapToObj(g.conceptOrder, g.concepts)),
             RelationsOut(MapToObj(g.relationOrder, g.relations)), Ids(g.selection))
  }

  /** Every stored concept and relation is in the state message, each
      once. */
  lemma {:induction false} StateMessageMirrorsStore(g: CG.GraphState)
    requires CG.WellFormed(g)
    ensures var m := StateMessage(g);
            && (forall k :: k in g.concepts ==> exists i :: 0 <= i < |m.concepts| && m.concepts[i] == ConceptOut(g.concepts[k]))
            && (forall k :: k in g.relations ==> exists i :: 0 <= i < |m.relations| && m.relations[i] == RelationOut(g.relations[k]))
  {
    var m := StateMessage(g);
    forall k | k in g.concepts
      ensures exists i :: 0 <= i < |m.concepts| && m.concepts[i] == ConceptOut(g.concepts[k])
    {
      var i :| 0 <= i < |g.conceptOrder| && g.conceptOrder[i] == k;
      assert m.concepts[i] == ConceptOut(g.concepts[k]);
    }
    forall k | k in g.relations
      ensures exists i :: 0 <= i < |m.relations| && m.relations[i] == RelationOut(g.relations[k])
    {
      var i :| 0 <= i < |g.relationOrder| && g.relationOrder[i] == k;
      assert m.relations[i] == RelationOut(g.relations[k]);
    }
  }

  /** `distributeMessage(msg)`: marked as coming from the server. */
  function Distribute(s: RelayState, m: Msg): (r: RelayState)
    ensures r.distributed == s.distributed + [Envelope(m, true)]
    ensures r.graph == s.graph && r.active == s.active
  {
    s.(distributed := s.distributed + [Envelope(m, true)])
  }

  /** Whether `onStorageChange` drops the event before touching anything:
      another key, the relay's own output, or a per-peer task. */
  predicate Dropped(key: string, env: Envelope) {
    key != SERVER_MESSAGE_KEY || env.fromServer || TaskName(env.msg) in IGNORED_TASKS
  }

  /** `onStorageChange(event)`. A full-state GET is answered with the
      state; anything else goes to `handleMessage`, and what the store
      accepts is handed on as it was received. An exception from the store
      leaves its partial change in place and hands nothing on. */
  function OnStorageChangeSpec(s: RelayState, key: string, env: Envelope, baseDomain: string -> string): (r: RelayState)
    requires CG.WellFormed(s.graph)
    ensures CG.WellFormed(r.graph)
    ensures Dropped(key, env) ==> r == s
    ensures !Dropped(key, env) ==> r.active
    ensures forall i :: |s.distributed| <= i < |r.distributed| ==> r.distributed[i].fromServer
    ensures |s.distributed| <= |r.distributed| <= |s.distributed| + 1
    ensures r.distributed[..|s.distributed|] == s.distributed
    ensures env.msg.Get? && env.msg.id == ALL_CONCEPTS && !Dropped(key, env) ==>
              r == Distribute(s.(active := true), StateMessage(s.graph))
    ensures !(env.msg.Get? && env.msg.id == ALL_CONCEPTS) && !Dropped(key, env) ==>
              var (g', res) := CG.HandleMessageSpec(s.graph, env.msg, baseDomain);
              && r.graph == g'
              && r.distributed == if res == CG.Accepted then s.distributed + [Envelope(env.msg, true)] else s.distributed
  {
    if Dropped(key, env) then s
    else
      var s1 := s.(active := true);
      if env.msg.Get? && env.msg.id == ALL_CONCEPTS then Distribute(s1, StateMessage(s.graph))
      else
        var (g', res) := CG.HandleMessageSpec(s.graph, env.msg, baseDomain);
        if res == CG.Accepted then Distribute(s1.(graph := g'), env.msg) else s1.(graph := g')
  }

  /** Whatever the relay hands on comes back to it as a no-op: it is marked
      as coming from the server. */
  lemma {:induction false} OwnOutputIgnored(s: RelayState, key: string, env: Envelope, baseDomain: string -> string,
                                            i: nat, s2: RelayState, key2: string)
    requires CG.WellFormed(s.graph) && CG.WellFormed(s2.graph)
    requires var r := OnStorageChangeSpec(s, key, env, baseDomain);
             |s.distributed| <= i < |r.distributed|
    ensures var r := OnStorageChangeSpec(s, key, env, baseDomain);
            OnStorageChangeSpec(s2, key2, r.distributed[i], baseDomain) == s2
  {
  }

  /** A message from a tab reaches the store with the store's own sending
      switched off: the relay's store never adds to its outbox. */
  lemma {:induction false} RelayStoreSendsNothing(s: RelayState, key: string, env: Envelope, baseDomain: string -> string)
    requires CG.WellFormed(s.graph)
    ensures OnStorageChangeSpec(s, key, env, baseDomain).graph.outbox == s.graph.outbox
  {
  }

  /** The relay object. */
  class Relay {
    var graph: CG.Store
    var active: bool
    var distributed: seq<Envelope>

    function Model(): RelayState
      reads this, graph
    {
      RelayState(graph.Model(), active, distributed)
    }

    ghost predicate Valid()
      reads this, graph
    {
      graph.Valid()
    }

    /** `new BrowserServer()`. */
    constructor()
      ensures Valid() && fresh(graph)
      ensures Model() == RelayState(CG.EMPTY, false, [])
    {
      graph := new CG.Store();
      active := false;
      distributed := [];
    }

    /** `mapToObj(concept_graph.concepts)` with the values serialised. */
    method ConceptEntries() returns (cs: seq<ConceptCfg>)
      requires Valid()
      ensures cs == ConceptsOut(MapToObj(graph.conceptOrder, graph.concepts))
    {
      var order, m := graph.conceptOrder, graph.concepts;
      cs := [];
      var i := 0;
      while i < |order|
        invariant 0 <= i <= |order|
        invariant |cs| == i && forall j :: 0 <= j < i ==> cs[j] == ConceptOut(m[order[j]])
      {
        cs := cs + [ConceptOut(m[order[i]])];
        i := i + 1;
      }
    }

    /** `mapToObj(concept_graph.relations)` with the values serialised. */
    method RelationEntries() returns (rs: seq<RelationCfg>)
      requires Valid()
      ensures rs == RelationsOut(MapToObj(graph.relationOrder, graph.relations))
    {
      var order, m := graph.relationOrder, graph.relations;
      rs := [];
      var i := 0;
      while i < |order|
        invariant 0 <= i <= |order|
        invariant |rs| == i && forall j :: 0 <= j < i ==> rs[j] == RelationOut(m[order[j]])
      {
        rs := rs + [RelationOut(m[order[i]])];
        i := i + 1;
      }
    }

    /** `getConceptGraphState()`. */
    method GetConceptGraphState() returns (m: Msg)
      requires Valid()
      ensures m == StateMessage(graph.Model())
    {
      var cs := ConceptEntries();
      var rs := RelationEntries();
      m := GetFound(ALL_CONCEPTS, cs, rs, Ids(graph.selection));
    }

    /** `distributeMessage(msg)`. */
    method DistributeMessage(m: Msg)
      modifies this
      ensures graph == old(graph) && active == old(active)
      ensures distributed == old(distributed) + [Envelope(m, true)]
    {
      distributed := distributed + [Envelope(m, true)];
    }

    /** `onStorageChange(event)`. */
    method OnStorageChange(key: string, env: Envelope, baseDomain: string -> string)
      requires Valid()
      modifies this, graph
      ensures graph == old(graph) && Valid()
      ensures Model() == OnStorageChangeSpec(old(Model()), key, env, baseDomain)
    {
      if key != SERVER_MESSAGE_KEY {
        return;
      }
      if env.fromServer {
        return;
      }
      if TaskName(env.msg) in IGNORED_TASKS {
        return;
      }
      active := true;
      if env.msg.Get? && env.msg.id == ALL_CONCEPTS {
        var state := GetConceptGraphState();
        DistributeMessage(state);
      } else {
        var res := graph.HandleMessage(env.msg, baseDomain);
        if res == CG.Accepted {
          DistributeMessage(env.msg);
        }
      }
    }
  }
}
