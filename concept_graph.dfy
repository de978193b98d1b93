/** The replicated concept-graph store of
    `addons/firefox/src/content/ConceptGraph.js`. Concepts are kept under a
    normalised id, relations under the sorted ids of their concepts joined
    by ':', and the selection mixes both kinds of id (a relation id is one
    that contains ':'). Every mutator takes a `send_msg` flag: local edits
    are sent to the other replicas, edits that arrive as messages are
    applied with the flag off, and the no-op checks make repeated
    deliveries harmless.

    The registered event callbacks are represented by numbers; a call of
    callback `cb` with event `e` is recorded as `(cb, e)` in `events`, and
    the global `send` appends to `outbox`. */
module ConceptGraph {
  import opened Common
  import Refs = References
  import opened Protocol

  /** The prototype methods of `Concept` and `Relation`, and those every
      object inherits from `Object.prototype`: a configuration property
      with one of these names is not copied by the constructors, and on
      update the stored value (a function, or the prototype object for
      `__proto__`) never equals the new one. */
  const RESERVED: set<string> :=
    {"getLabel", "getType", "isConcept", "isRelation", "getColor",
     "constructor", "toString", "toLocaleString", "valueOf", "hasOwnProperty",
     "isPrototypeOf", "propertyIsEnumerable", "__proto__", "__defineGetter__",
     "__defineSetter__", "__lookupGetter__", "__lookupSetter__"}

  /** The names whose slot in a relation holds an object: the prototype
      methods and the `source`/`target` concepts. */
  const RELATION_OBJECTS: set<string> := RESERVED + {"source", "target"}

  /** A concept: its own properties (including `id` and `name`) and its
      references. */
  datatype Concept = Concept(props: map<string, Value>, refs: Option<map<string, Refs.Ref>>)

  /** A relation: its own properties (including `id`), its sorted `nodes`
      (the first is `source`, the second `target`) and its references. */
  datatype Relation = Relation(props: map<string, Value>, nodes: seq<string>,
                               refs: Option<map<string, Refs.Ref>>)

  /** What `getById` finds. */
  datatype Element = ConceptEl(concept: Concept) | RelationEl(relation: Relation)

  /** The arguments of `_callHandler`. */
  datatype Event =
    | ConceptNewEv(id: string)
    | ConceptUpdateEv(id: string)
    | ConceptDeleteEv(id: string)
    | RelationNewEv(id: string)
    | RelationUpdateEv(id: string)
    | RelationDeleteEv(id: string)
    | SelectionRemoveEv(id: string, onRelation: bool)
    | SelectionAddEv(id: string, onRelation: bool)
    | SelectionChangeEv(current: seq<string>, previous: seq<string>)

  function EventType(e: Event): string {
    match e
    case ConceptNewEv(_) => "concept-new"
    case ConceptUpdateEv(_) => "concept-update"
    case ConceptDeleteEv(_) => "concept-delete"
    case RelationNewEv(_) => "relation-new"
    case RelationUpdateEv(_) => "relation-update"
    case RelationDeleteEv(_) => "relation-delete"
    case SelectionRemoveEv(_, _) => "selection-remove"
    case SelectionAddEv(_, _) => "selection-add"
    case SelectionChangeEv(_, _) => "selection-change"
  }

  /** A reference whose favicon has not been delivered yet: what the
      completion callback of `addReference` captured. */
  datatype PendingIcon = PendingIcon(id: string, onRelation: bool, url: string,
                                     cfg: Refs.RefConfig, ranges: seq<Refs.Range>, sendMsg: bool)

  /** The `updateSelection` actions. */
  datatype Action = SetSel | Toggle | Unset | UnknownAction(name: string)

  /** The store. `conceptOrder` and `relationOrder` are the insertion
      orders of the two `Map`s; `selection` is the `Set` in its iteration
      order; `selConcepts`/`selRelations` are the memoised projections
      (None is null). */
  datatype GraphState = GraphState(
    handlers: map<string, nat>,
    concepts: map<string, Concept>, conceptOrder: seq<string>,
    relations: map<string, Relation>, relationOrder: seq<string>,
    selection: seq<string>,
    selConcepts: Option<seq<string>>, selRelations: Option<seq<string>>,
    events: seq<(nat, Event)>,
    outbox: seq<Msg>,
    pending: seq<PendingIcon>)

  /** The orders list each key once and exactly the keys of their maps,
      and the selection holds each id once. */
  ghost predicate WellFormed(g: GraphState) {
    && Distinct(g.conceptOrder) && (forall k :: k in g.conceptOrder <==> k in g.concepts)
    && Distinct(g.relationOrder) && (forall k :: k in g.relationOrder <==> k in g.relations)
    && Distinct(g.selection)
  }

  const EMPTY: GraphState := GraphState(map[], map[], [], map[], [], [], None, None, [], [], [])

  /** `_isRelationId(id)`. */
  predicate IsRelationId(id: string) {
    ':' in id
  }

  /** `_callHandler(type, …)`: recorded only when a callback is registered
      for the event's type. */
  function Fire(g: GraphState, e: Event): (r: GraphState)
    ensures r == g.(events := r.events)
  {
    if EventType(e) in g.handlers then g.(events := g.events + [(g.handlers[EventType(e)], e)]) else g
  }

  /** The events, fired in order. */
  function FireAll(g: GraphState, evs: seq<Event>): GraphState
    decreases |evs|
  {
    if |evs| == 0 then g else Fire(FireAll(g, evs[..|evs| - 1]), evs[|evs| - 1])
  }

  /** `if( send_msg ) send(m)`. */
  function Post(g: GraphState, m: Msg, sendMsg: bool): (r: GraphState)
    ensures r == g.(outbox := r.outbox)
  {
    if sendMsg then g.(outbox := g.outbox + [m]) else g
  }

  /** Firing events changes nothing but `events`. */
  lemma {:induction false} FireAllOnlyEvents(g: GraphState, evs: seq<Event>)
    ensures FireAll(g, evs) == g.(events := FireAll(g, evs).events)
    ensures |FireAll(g, evs).events| <= |g.events| + |evs|
    decreases |evs|
  {
    if |evs| > 0 {
      FireAllOnlyEvents(g, evs[..|evs| - 1]);
    }
  }

  // ---------------------------------------------------------------- concepts

  /** The key of a concept: trimmed, lower-cased, and its FIRST ':' (the
      separator of relation ids) turned into '_'. */
  function NormalizeId(id: string): (r: string)
    ensures |r| == |Trim(id)|
  {
    ReplaceFirst(ToLower(Trim(id)), ':', '_')
  }

  /** Only the first colon is replaced: the normalised id keeps a colon
      exactly when the lower-cased, trimmed id has a second one, and is
      then taken for a relation id. */
  lemma {:induction false} NormalizeIdReplacesFirstColonOnly(id: string)
    requires ':' in ToLower(Trim(id))
    ensures var s := ToLower(Trim(id));
            var k := IndexOf(s, ':');
            && NormalizeId(id)[k] == '_'
            && (forall i :: 0 <= i < |s| && i != k ==> NormalizeId(id)[i] == s[i])
            && (IsRelationId(NormalizeId(id)) <==> ':' in s[k + 1..])
  {
    ReplaceFirstOnlyFirst(ToLower(Trim(id)), ':', '_');
  }

  /** JavaScript truthiness of a property value. */
  predicate Truthy(v: Value) {
    v.Str? && v.s != ""
  }

  /** `(cfg.name || cfg.id).trim()`. */
  function ConceptName(cfg: ConceptCfg): string {
    Trim(if "name" in cfg.props && Truthy(cfg.props["name"]) then cfg.props["name"].s else cfg.id)
  }

  /** The properties `new Concept(cfg)` / `new Relation(cfg)` copies: all
      but the prototype method names. */
  function Copied(props: map<string, Value>, skip: set<string>): (r: map<string, Value>)
    ensures forall k :: k in r <==> k in props && k !in skip
    ensures forall k :: k in r ==> r[k] == props[k]
  {
    map k | k in props && k !in skip :: props[k]
  }

  /** The configuration `addConcept` rewrites (and sends): normalised id,
      trimmed name. */
  function SentConcept(cfg: ConceptCfg): ConceptCfg {
    ConceptCfg(NormalizeId(cfg.id), cfg.props["name" := Str(ConceptName(cfg))], cfg.refs)
  }

  /** `new Concept(cfg)` of the rewritten configuration. */
  function NewConcept(sent: ConceptCfg): (c: Concept)
    ensures "id" in c.props && c.props["id"] == Str(sent.id) && c.refs == sent.refs
    ensures "name" in sent.props ==> "name" in c.props && c.props["name"] == sent.props["name"]
  {
    Concept(Copied(sent.props, RESERVED)["id" := Str(sent.id)], sent.refs)
  }

  /** `this.concepts.set(id, c)` for a new id. */
  function InsertConcept(g: GraphState, id: string, c: Concept): (r: GraphState)
    requires id !in g.concepts
    ensures WellFormed(g) ==> WellFormed(r)
    ensures r == g.(concepts := g.concepts[id := c], conceptOrder := g.conceptOrder + [id])
  {
    var r := g.(concepts := g.concepts[id := c], conceptOrder := g.conceptOrder + [id]);
    assert forall k :: k in r.conceptOrder <==> k in g.conceptOrder || k == id;
    r
  }

  /** The second half of `addConcept` for an id not yet present: store
      the concept, fire `concept-new`, send the rewritten configuration. */
  function AddNewConcept(g: GraphState, id: string, sent: ConceptCfg, sendMsg: bool): (r: GraphState)
    requires id !in g.concepts
    ensures r.pending == g.pending && r.handlers == g.handlers
    ensures WellFormed(g) ==> WellFormed(r)
    ensures r.concepts == g.concepts[id := NewConcept(sent)] && r.conceptOrder == g.conceptOrder + [id]
    ensures r.relations == g.relations && r.relationOrder == g.relationOrder && r.selection == g.selection
    ensures r.outbox == if sendMsg then g.outbox + [ConceptNew(sent)] else g.outbox
    ensures r.events == if "concept-new" in g.handlers
                        then g.events + [(g.handlers["concept-new"], ConceptNewEv(id))] else g.events
  {
    var g1 := InsertConcept(g, id, NewConcept(sent));
    Post(Fire(g1, ConceptNewEv(id)), ConceptNew(sent), sendMsg)
  }

  /** `addConcept(cfg, send_msg)`. */
  function AddConceptSpec(g: GraphState, cfg: ConceptCfg, sendMsg: bool): (r: (GraphState, bool))
    ensures r.0.pending == g.pending && r.0.handlers == g.handlers
    ensures WellFormed(g) ==> WellFormed(r.0)
    ensures !sendMsg ==> r.0.outbox == g.outbox
    ensures r.1 <==> NormalizeId(cfg.id) !in g.concepts
    ensures !r.1 ==> r.0 == g
  {
    var id := NormalizeId(cfg.id);
    if id in g.concepts then (g, false)
    else (AddNewConcept(g, id, SentConcept(cfg), sendMsg), true)
  }

  /** A new concept is stored under the normalised id, with its name the
      trimmed `name` or, without one, the trimmed original id; the
      `concept-new` event fires for it, and the configuration sent is the
      rewritten one. An existing id changes nothing. */
  lemma {:induction false} AddConceptStores(g: GraphState, cfg: ConceptCfg, sendMsg: bool)
    requires NormalizeId(cfg.id) !in g.concepts
    ensures var g' := AddConceptSpec(g, cfg, sendMsg).0;
            var id := NormalizeId(cfg.id);
            && g'.concepts.Keys == g.concepts.Keys + {id}
            && g'.concepts[id].props["id"] == Str(id)
            && g'.concepts[id].props["name"] == Str(ConceptName(cfg))
            && g'.concepts[id].refs == cfg.refs
            && g'.conceptOrder == g.conceptOrder + [id]
            && g'.relations == g.relations && g'.selection == g.selection
            && (sendMsg ==> g'.outbox == g.outbox + [ConceptNew(SentConcept(cfg))])
            && ("concept-new" in g.handlers ==> g'.events == g.events + [(g.handlers["concept-new"], ConceptNewEv(id))])
  {
    var id := NormalizeId(cfg.id);
    var sent := SentConcept(cfg);
    assert AddConceptSpec(g, cfg, sendMsg).0 == AddNewConcept(g, id, sent, sendMsg);
    assert sent.id == id && "name" in sent.props && sent.props["name"] == Str(ConceptName(cfg));
    AddNewConceptStores(g, id, sent, sendMsg);
  }

  /** Storing a new concept from a rewritten configuration `sent`. */
  lemma {:induction false} AddNewConceptStores(g: GraphState, id: string, sent: ConceptCfg, sendMsg: bool)
    requires id !in g.concepts && sent.id == id && "name" in sent.props
    ensures var g' := AddNewConcept(g, id, sent, sendMsg);
            && g'.concepts.Keys == g.concepts.Keys + {id}
            && g'.concepts[id].props["id"] == Str(id)
            && g'.concepts[id].props["name"] == sent.props["name"]
            && g'.concepts[id].refs == sent.refs
  {
  }

  /** How `updateConcept`/`updateRelation` see the current value of a
      property: an own value, an object (a prototype method, or a relation's
      source/target), or undefined. */
  datatype Slot = Own(v: Value) | Object | Undefined

  function SlotOf(props: map<string, Value>, p: string, objects: set<string>): Slot {
    if p in props then Own(props[p]) else if p in objects then Object else Undefined
  }

  /** `new_cfg[prop] == el[prop] || new_cfg[prop] === '' && el[prop] ===
      undefined`: null is loosely equal to undefined, a string only to the
      same string. */
  predicate Unchanged(v: Value, s: Slot) {
    (v == Null && (s == Own(Null) || s == Undefined))
    || (v.Str? && s == Own(v))
    || (v == Str("") && s == Undefined)
  }

  /** The properties an update writes. */
  function ChangedKeys(props: map<string, Value>, patch: map<string, Value>, objects: set<string>): set<string> {
    set p | p in patch && !Unchanged(patch[p], SlotOf(props, p, objects))
  }

  /** `props` with the given properties of `patch` written over it. */
  function Overlay(props: map<string, Value>, patch: map<string, Value>, keys: set<string>): (r: map<string, Value>)
    requires keys <= patch.Keys
    ensures r.Keys == props.Keys + keys
    ensures forall q :: q in r ==> r[q] == if q in keys then patch[q] else props[q]
  {
    props + map q | q in keys :: patch[q]
  }

  lemma {:induction false} OverlayStep(props: map<string, Value>, patch: map<string, Value>, keys: set<string>, p: string)
    requires keys <= patch.Keys && p in patch
    ensures Overlay(props, patch, keys + {p}) == Overlay(props, patch, keys)[p := patch[p]]
  {
  }

  /** The properties after an update. */
  function Patched(props: map<string, Value>, patch: map<string, Value>, objects: set<string>): (r: map<string, Value>)
    ensures r.Keys == props.Keys + ChangedKeys(props, patch, objects)
    ensures forall q :: q in r ==> r[q] == if q in ChangedKeys(props, patch, objects) then patch[q] else props[q]
  {
    Overlay(props, patch, ChangedKeys(props, patch, objects))
  }

  /** The properties `updateConcept` compares: all but `id`. */
  function ConceptPatch(cfg: ConceptCfg): (r: map<string, Value>)
    ensures "id" !in r
  {
    cfg.props - {"id"}
  }

  /** The properties `updateRelation` compares: all but `id` and
      `nodes`. */
  function RelationPatch(cfg: RelationCfg): (r: map<string, Value>)
    ensures "id" !in r && "nodes" !in r
  {
    cfg.props - {"id", "nodes"}
  }

  /** Once a patch is applied, applying it again writes nothing. */
  lemma {:induction false} PatchedIsFixpoint(props: map<string, Value>, patch: map<string, Value>, objects: set<string>)
    ensures ChangedKeys(Patched(props, patch, objects), patch, objects) == {}
  {
    var q := Patched(props, patch, objects);
    forall p | p in patch ensures Unchanged(patch[p], SlotOf(q, p, objects)) {
      if p in ChangedKeys(props, patch, objects) {
        assert q[p] == patch[p];
      } else {
        assert SlotOf(q, p, objects) == SlotOf(props, p, objects);
      }
    }
  }

  /** `updateConcept(new_cfg, send_msg, force)`: a `refs` table in the
      patch is a new object and so always counts as a change. */
  function UpdateConceptSpec(g: GraphState, cfg: ConceptCfg, sendMsg: bool, force: bool): (r: (GraphState, bool))
    ensures r.0.pending == g.pending && r.0.handlers == g.handlers
    ensures WellFormed(g) ==> WellFormed(r.0)
    ensures !sendMsg ==> r.0.outbox == g.outbox
    ensures r.0.concepts.Keys == g.concepts.Keys
    ensures !r.1 ==> r.0 == g
    ensures r.1 <==> cfg.id in g.concepts &&
                     (force || cfg.refs.Some? || ChangedKeys(g.concepts[cfg.id].props, ConceptPatch(cfg), RESERVED) != {})
    ensures r.0.relations == g.relations && r.0.relationOrder == g.relationOrder
    ensures r.0.conceptOrder == g.conceptOrder && r.0.selection == g.selection
    ensures forall k :: k in g.concepts && k != cfg.id ==> r.0.concepts[k] == g.concepts[k]
    ensures r.1 ==> r.0.concepts[cfg.id].props == Patched(g.concepts[cfg.id].props, ConceptPatch(cfg), RESERVED)
    ensures r.1 ==> r.0.concepts[cfg.id].refs == if cfg.refs.Some? then cfg.refs else g.concepts[cfg.id].refs
    ensures r.1 ==> r.0.outbox == if sendMsg then g.outbox + [ConceptUpdate(cfg)] else g.outbox
  {
    if cfg.id !in g.concepts then (g, false)
    else
      var c := g.concepts[cfg.id];
      var keys := ChangedKeys(c.props, ConceptPatch(cfg), RESERVED);
      var changed := keys != {} || cfg.refs.Some?;
      if !changed && !force then (g, false)
      else
        var c' := Concept(Patched(c.props, ConceptPatch(cfg), RESERVED), if cfg.refs.Some? then cfg.refs else c.refs);
        var g1 := g.(concepts := g.concepts[cfg.id := c']);
        var g2 := if changed then Fire(g1, ConceptUpdateEv(cfg.id)) else g1;
        (Post(g2, ConceptUpdate(cfg), sendMsg), true)
  }

  /** The same patch (without a `refs` table) delivered twice: the second
      delivery is a no-op that fires nothing and sends nothing. */
  lemma {:induction false} UpdateConceptTwiceIsNoop(g: GraphState, cfg: ConceptCfg, sendMsg: bool)
    requires cfg.refs.None?
    ensures var g1 := UpdateConceptSpec(g, cfg, sendMsg, false).0;
            UpdateConceptSpec(g1, cfg, sendMsg, false) == (g1, false)
  {
    var g1 := UpdateConceptSpec(g, cfg, sendMsg, false).0;
    if cfg.id in g.concepts {
      PatchedIsFixpoint(g.concepts[cfg.id].props, ConceptPatch(cfg), RESERVED);
      if UpdateConceptSpec(g, cfg, sendMsg, false).1 {
        assert g1.concepts[cfg.id].props == Patched(g.concepts[cfg.id].props, ConceptPatch(cfg), RESERVED);
      }
    }
  }

  // -------------------------------------------------------------- selection

  /** The ids of an `updateSelection` argument: `new Set(id)` for an
      object, `new Set([id])` for a single id. */
  function ArgIds(a: SelArg): (r: seq<string>)
    ensures Distinct(r)
  {
    match a
    case Ids(s) => Dedup(s)
    case One(x) => [x]
    case NullSel => []
  }

  /** `toggle`: each id is deleted if present and otherwise added at the
      end. */
  function ToggleAll(sel: seq<string>, ids: seq<string>): (r: seq<string>)
    requires Distinct(sel)
    ensures Distinct(r)
    decreases |ids|
  {
    if |ids| == 0 then sel
    else
      var s := ToggleAll(sel, ids[..|ids| - 1]);
      var x := ids[|ids| - 1];
      if x in s then Remove(s, x) else s + [x]
  }

  /** `unset`: each id is deleted. */
  function UnsetAll(sel: seq<string>, ids: seq<string>): (r: seq<string>)
    requires Distinct(sel)
    ensures Distinct(r)
    ensures forall x :: x in r <==> x in sel && x !in ids
    decreases |ids|
  {
    if |ids| == 0 then sel
    else
      var s := UnsetAll(sel, ids[..|ids| - 1]);
      assert forall x :: x in ids <==> x in ids[..|ids| - 1] || x == ids[|ids| - 1] by {
        assert ids == ids[..|ids| - 1] + [ids[|ids| - 1]];
      }
      Remove(s, ids[|ids| - 1])
  }

  /** An id is in the toggled selection exactly when it was selected or
      toggled, but not both. */
  lemma {:induction false} ToggleAllFlips(sel: seq<string>, ids: seq<string>, x: string)
    requires Distinct(sel) && Distinct(ids)
    ensures x in ToggleAll(sel, ids) <==> (x in sel) != (x in ids)
    decreases |ids|
  {
    if |ids| > 0 {
      var init := ids[..|ids| - 1];
      assert ids == init + [ids[|ids| - 1]];
      assert Distinct(init);
      ToggleAllFlips(sel, init, x);
    }
  }

  /** The selection an action leaves. */
  function NewSelection(sel: seq<string>, action: Action, ids: seq<string>): (r: seq<string>)
    requires Distinct(sel) && Distinct(ids)
    ensures Distinct(r)
  {
    match action
    case SetSel => ids
    case Toggle => ToggleAll(sel, ids)
    case Unset => UnsetAll(sel, ids)
    case UnknownAction(_) => sel
  }

  /** `selection-remove` for each previous id that is gone, in the previous
      order. */
  function RemovedEvents(prev: seq<string>, cur: seq<string>): (r: seq<Event>)
    ensures forall e :: e in r <==> e.SelectionRemoveEv? && e.id in prev && e.id !in cur &&
                                    e.onRelation == IsRelationId(e.id)
    decreases |prev|
  {
    if |prev| == 0 then []
    else
      var rest := RemovedEvents(prev[..|prev| - 1], cur);
      var x := prev[|prev| - 1];
      assert forall y :: y in prev <==> y in prev[..|prev| - 1] || y == x by {
        assert prev == prev[..|prev| - 1] + [x];
      }
      if x !in cur then rest + [SelectionRemoveEv(x, IsRelationId(x))] else rest
  }

  /** `selection-add` for each current id that is new, in the current
      order. */
  function AddedEvents(prev: seq<string>, cur: seq<string>): (r: seq<Event>)
    ensures forall e :: e in r <==> e.SelectionAddEv? && e.id in cur && e.id !in prev &&
                                    e.onRelation == IsRelationId(e.id)
    decreases |cur|
  {
    if |cur| == 0 then []
    else
      var rest := AddedEvents(prev, cur[..|cur| - 1]);
      var x := cur[|cur| - 1];
      assert forall y :: y in cur <==> y in cur[..|cur| - 1] || y == x by {
        assert cur == cur[..|cur| - 1] + [x];
      }
      if x !in prev then rest + [SelectionAddEv(x, IsRelationId(x))] else rest
  }

  /** `updateSelection(action, id, send_msg)`. The selection is replaced
      even when it did not change as a set (a `set` may reorder it). */
  function UpdateSelectionSpec(g: GraphState, action: Action, arg: SelArg, sendMsg: bool): (r: (GraphState, bool))
    requires Distinct(g.selection)
    ensures r.0.pending == g.pending && r.0.handlers == g.handlers
    ensures WellFormed(g) ==> WellFormed(r.0)
    ensures !sendMsg ==> r.0.outbox == g.outbox
    ensures r.0.concepts == g.concepts && r.0.relations == g.relations
    ensures r.0.conceptOrder == g.conceptOrder && r.0.relationOrder == g.relationOrder
    ensures r.0.selection == NewSelection(g.selection, action, ArgIds(arg))
    ensures !r.1 ==> r.0 == g.(selection := r.0.selection)
  {
    var prev := g.selection;
    var cur := NewSelection(prev, action, ArgIds(arg));
    var evs := RemovedEvents(prev, cur) + AddedEvents(prev, cur);
    FireAllOnlyEvents(g.(selection := cur), evs);
    var g1 := FireAll(g.(selection := cur), evs);
    if |evs| == 0 then
      (g1, false)
    else
      var g2 := Fire(g1.(selConcepts := None, selRelations := None), SelectionChangeEv(cur, prev));
      (Post(g2, SelectionUpdate(Ids(cur)), sendMsg), true)
  }

  lemma {:induction false} UpdateSelectionUnfold(g: GraphState, action: Action, arg: SelArg, sendMsg: bool)
    requires Distinct(g.selection)
    ensures var prev := g.selection;
            var cur := NewSelection(prev, action, ArgIds(arg));
            var evs := RemovedEvents(prev, cur) + AddedEvents(prev, cur);
            var g1 := FireAll(g.(selection := cur), evs);
            UpdateSelectionSpec(g, action, arg, sendMsg)
            == if |evs| == 0 then (g1, false)
               else (Post(Fire(g1.(selConcepts := None, selRelations := None), SelectionChangeEv(cur, prev)),
                          SelectionUpdate(Ids(cur)), sendMsg), true)
  {
  }

  /** The call reports a change exactly when some id entered or left the
      selection. */
  lemma {:induction false} UpdateSelectionReportsChange(g: GraphState, action: Action, arg: SelArg, sendMsg: bool)
    requires Distinct(g.selection)
    ensures var r := UpdateSelectionSpec(g, action, arg, sendMsg);
            r.1 <==> exists x :: (x in g.selection) != (x in r.0.selection)
  {
    var prev := g.selection;
    var cur := NewSelection(prev, action, ArgIds(arg));
    SelectionEventsIffChange(prev, cur);
    UpdateSelectionUnfold(g, action, arg, sendMsg);
  }

  /** Some selection event is fired exactly when some id enters or leaves
      the selection. */
  lemma {:induction false} SelectionEventsIffChange(prev: seq<string>, cur: seq<string>)
    ensures |RemovedEvents(prev, cur) + AddedEvents(prev, cur)| > 0 <==> exists x :: (x in prev) != (x in cur)
  {
    var evs := RemovedEvents(prev, cur) + AddedEvents(prev, cur);
    if |evs| == 0 {
      assert forall x :: x in prev ==> SelectionRemoveEv(x, IsRelationId(x)) !in evs;
      assert forall x :: x in cur ==> SelectionAddEv(x, IsRelationId(x)) !in evs;
    } else {
      assert evs[0] in evs;
    }
  }

  /** Setting the same selection twice: the second call reports no change,
      fires nothing and sends nothing. */
  lemma {:induction false} SetSelectionIdempotent(g: GraphState, arg: SelArg, sendMsg: bool)
    requires Distinct(g.selection)
    ensures var g1 := UpdateSelectionSpec(g, SetSel, arg, sendMsg).0;
            UpdateSelectionSpec(g1, SetSel, arg, sendMsg) == (g1, false)
  {
    var g1 := UpdateSelectionSpec(g, SetSel, arg, sendMsg).0;
    var r2 := UpdateSelectionSpec(g1, SetSel, arg, sendMsg);
    assert r2.0.selection == g1.selection;
    UpdateSelectionReportsChange(g1, SetSel, arg, sendMsg);
    assert !r2.1;
  }

  // -------------------------------------------------------------- relations

  /** The id of the relation between the given (sorted) concepts. */
  function RelationId(nodes: seq<string>): string {
    Join(nodes, ':')
  }

  /** `this.relations.set(id, rel)` for a new id. */
  function InsertRelation(g: GraphState, id: string, rel: Relation): (r: GraphState)
    requires id !in g.relations
    ensures WellFormed(g) ==> WellFormed(r)
    ensures r == g.(relations := g.relations[id := rel], relationOrder := g.relationOrder + [id])
  {
    var r := g.(relations := g.relations[id := rel], relationOrder := g.relationOrder + [id]);
    assert forall k :: k in r.relationOrder <==> k in g.relationOrder || k == id;
    r
  }

  /** `new Relation(cfg)` once `source`, `target` and `id` are set. */
  function NewRelation(cfg: RelationCfg, id: string, nodes: seq<string>): (rel: Relation)
    ensures rel.nodes == nodes && "id" in rel.props && rel.props["id"] == Str(id) && rel.refs == cfg.refs
  {
    Relation(Copied(cfg.props, RELATION_OBJECTS)["id" := Str(id)], nodes, cfg.refs)
  }

  /** The second half of `addRelation` for a new id: store the relation,
      fire `relation-new`, send the sorted nodes. */
  function AddNewRelation(g: GraphState, cfg: RelationCfg, id: string, nodes: seq<string>, sendMsg: bool): (r: GraphState)
    requires id !in g.relations
    ensures r.pending == g.pending && r.handlers == g.handlers
    ensures WellFormed(g) ==> WellFormed(r)
    ensures r.relations == g.relations[id := NewRelation(cfg, id, nodes)] && r.relationOrder == g.relationOrder + [id]
    ensures r.concepts == g.concepts && r.conceptOrder == g.conceptOrder && r.selection == g.selection
    ensures r.outbox == if sendMsg then g.outbox + [LinkNew(RelationCfg(None, nodes, map[], None))] else g.outbox
    ensures r.events == if "relation-new" in g.handlers
                        then g.events + [(g.handlers["relation-new"], RelationNewEv(id))] else g.events
  {
    var g1 := InsertRelation(g, id, NewRelation(cfg, id, nodes));
    Post(Fire(g1, RelationNewEv(id)), LinkNew(RelationCfg(None, nodes, map[], None)), sendMsg)
  }

  /** Whether `addRelation` accepts sorted `nodes`: both of the first two
      are known concepts (nothing stops them from being the same) and the
      joined id is new. */
  predicate AcceptsRelation(g: GraphState, nodes: seq<string>) {
    |nodes| >= 2 && nodes[0] in g.concepts && nodes[1] in g.concepts && RelationId(nodes) !in g.relations
  }

  /** `addRelation(cfg, send_msg)`: the nodes are sorted first; only the
      sorted nodes are sent. */
  function AddRelationSpec(g: GraphState, cfg: RelationCfg, sendMsg: bool): (r: (GraphState, bool))
    ensures r.0.pending == g.pending && r.0.handlers == g.handlers
    ensures WellFormed(g) ==> WellFormed(r.0)
    ensures !sendMsg ==> r.0.outbox == g.outbox
    ensures !r.1 ==> r.0 == g
    ensures r.1 <==> AcceptsRelation(g, SortStrings(cfg.nodes))
  {
    var nodes := SortStrings(cfg.nodes);
    if |nodes| == 0 || nodes[0] !in g.concepts then (g, false)
    else if |nodes| == 1 || nodes[1] !in g.concepts then (g, false)
    else
      var id := RelationId(nodes);
      if id in g.relations then (g, false)
      else (AddNewRelation(g, cfg, id, nodes, sendMsg), true)
  }

  /** An accepted relation is stored under the id of its sorted nodes,
      with those nodes and that id; nothing else among the relations, the
      concepts or the selection changes, and the sorted nodes are sent. */
  lemma {:induction false} AddRelationStores(g: GraphState, cfg: RelationCfg, sendMsg: bool)
    requires AcceptsRelation(g, SortStrings(cfg.nodes))
    ensures var nodes := SortStrings(cfg.nodes);
            var id := RelationId(nodes);
            var g' := AddRelationSpec(g, cfg, sendMsg).0;
            && g'.relations.Keys == g.relations.Keys + {id}
            && (forall k :: k in g.relations ==> g'.relations[k] == g.relations[k])
            && g'.relations[id].nodes == nodes
            && g'.relations[id].props["id"] == Str(id)
            && multiset(nodes) == multiset(cfg.nodes)
            && g'.concepts == g.concepts && g'.selection == g.selection
            && (sendMsg ==> g'.outbox == g.outbox + [LinkNew(RelationCfg(None, nodes, map[], None))])
  {
    var nodes := SortStrings(cfg.nodes);
    var id := RelationId(nodes);
    assert AddRelationSpec(g, cfg, sendMsg).0 == AddNewRelation(g, cfg, id, nodes, sendMsg);
  }

  /** `getRelationForConcepts(id1, id2)`. */
  function GetRelationForConceptsSpec(g: GraphState, a: string, b: string): Option<Relation> {
    var id := if StrLess(a, b) then a + ":" + b else b + ":" + a;
    if id in g.relations then Some(g.relations[id]) else None
  }

  /** The lookup does not depend on the order of the two concepts. */
  lemma {:induction false} GetRelationForConceptsSymmetric(g: GraphState, a: string, b: string)
    ensures GetRelationForConceptsSpec(g, a, b) == GetRelationForConceptsSpec(g, b, a)
  {
    if a != b {
      StrLessTotal(a, b);
      StrLessAsymmetric(a, b);
    }
  }

  /** Two strings sorted. */
  lemma {:induction false} SortTwo(a: string, b: string)
    ensures SortStrings([a, b]) == if StrLess(a, b) || a == b then [a, b] else [b, a]
  {
    var r := SortStrings([a, b]);
    assert multiset(r) == multiset{a, b};
    assert r[0] in multiset(r) && r[1] in multiset(r);
    assert r[0] == a || r[0] == b;
    assert r[1] == a || r[1] == b;
    assert multiset(r) == multiset{r[0], r[1]} by { assert r == [r[0], r[1]]; }
    if a != b {
      StrLessTotal(a, b);
      StrLessAsymmetric(a, b);
    }
  }

  /** The relation `addRelation({nodes: [a, b]})` creates is the one
      `getRelationForConcepts(a, b)` and `getRelationForConcepts(b, a)`
      find. */
  lemma {:induction false} AddedRelationIsFound(g: GraphState, a: string, b: string, props: map<string, Value>, sendMsg: bool)
    requires AddRelationSpec(g, RelationCfg(None, [a, b], props, None), sendMsg).1
    ensures var g' := AddRelationSpec(g, RelationCfg(None, [a, b], props, None), sendMsg).0;
            && GetRelationForConceptsSpec(g', a, b).Some?
            && GetRelationForConceptsSpec(g', a, b) == GetRelationForConceptsSpec(g', b, a)
            && GetRelationForConceptsSpec(g', a, b).value.nodes == SortStrings([a, b])
  {
    AddRelationStores(g, RelationCfg(None, [a, b], props, None), sendMsg);
    SortTwo(a, b);
    var nodes := SortStrings([a, b]);
    assert RelationId(nodes) == nodes[0] + ":" + nodes[1] by {
      assert Join(nodes[1..], ':') == nodes[1];
    }
    if a == b {
      StrLessIrreflexive(a);
    } else {
      StrLessTotal(a, b);
      StrLessAsymmetric(a, b);
    }
    GetRelationForConceptsSymmetric(AddRelationSpec(g, RelationCfg(None, [a, b], props, None), sendMsg).0, a, b);
  }

  /** The key `updateRelation` looks up: the given id when it is not
      empty, otherwise the nodes joined as given. */
  function UpdateRelationKey(cfg: RelationCfg): string {
    if cfg.id.Some? && cfg.id.value != "" then cfg.id.value else Join(cfg.nodes, ':')
  }

  /** `updateRelation(new_cfg, send_msg)`: the relation is looked up by the
      given id or, without one, by the nodes joined AS GIVEN (unsorted).
      `id` and `nodes` are never written; there is no `force`. */
  function UpdateRelationSpec(g: GraphState, cfg: RelationCfg, sendMsg: bool): (r: (GraphState, bool))
    ensures r.0.pending == g.pending && r.0.handlers == g.handlers
    ensures WellFormed(g) ==> WellFormed(r.0)
    ensures !sendMsg ==> r.0.outbox == g.outbox
    ensures r.0.relations.Keys == g.relations.Keys
    ensures !r.1 ==> r.0 == g
    ensures r.1 <==> UpdateRelationKey(cfg) in g.relations &&
                     (cfg.refs.Some? || ChangedKeys(g.relations[UpdateRelationKey(cfg)].props, RelationPatch(cfg), RELATION_OBJECTS) != {})
    ensures r.0.concepts == g.concepts && r.0.conceptOrder == g.conceptOrder
    ensures r.0.relationOrder == g.relationOrder && r.0.selection == g.selection
    ensures forall k :: k in g.relations && k != UpdateRelationKey(cfg) ==> r.0.relations[k] == g.relations[k]
    ensures r.1 ==> var was := g.relations[UpdateRelationKey(cfg)];
                    var now := r.0.relations[UpdateRelationKey(cfg)];
                    && now.props == Patched(was.props, RelationPatch(cfg), RELATION_OBJECTS)
                    && now.nodes == was.nodes
                    && now.refs == (if cfg.refs.Some? then cfg.refs else was.refs)
    ensures r.1 ==> r.0.outbox == if sendMsg then g.outbox + [LinkUpdate(cfg)] else g.outbox
  {
    var id := UpdateRelationKey(cfg);
    if id !in g.relations then (g, false)
    else
      var rel := g.relations[id];
      var keys := ChangedKeys(rel.props, RelationPatch(cfg), RELATION_OBJECTS);
      if keys == {} && cfg.refs.None? then (g, false)
      else
        var rel' := Relation(Patched(rel.props, RelationPatch(cfg), RELATION_OBJECTS), rel.nodes,
                             if cfg.refs.Some? then cfg.refs else rel.refs);
        var g1 := g.(relations := g.relations[id := rel']);
        (Post(Fire(g1, RelationUpdateEv(id)), LinkUpdate(cfg), sendMsg), true)
  }

  /** An update naming two concepts in the opposite order of the stored
      relation does not find it. */
  lemma {:induction false} UpdateRelationNeedsSortedNodes(g: GraphState, props: map<string, Value>)
    requires "a:b" in g.relations && "b:a" !in g.relations
    ensures UpdateRelationSpec(g, RelationCfg(None, ["b", "a"], props, Some(map[])), true) == (g, false)
  {
    var nodes := ["b", "a"];
    assert nodes[1..] == ["a"];
    assert Join(nodes, ':') == "b" + [':'] + "a" == "b:a";
  }

  /** `removeRelation(id, send_msg)`: the id leaves the selection first. */
  function RemoveRelationSpec(g: GraphState, id: string, sendMsg: bool): (r: (GraphState, bool))
    requires Distinct(g.selection)
    ensures r.0.pending == g.pending && r.0.handlers == g.handlers
    ensures WellFormed(g) ==> WellFormed(r.0)
    ensures Distinct(r.0.selection)
    ensures !sendMsg ==> r.0.outbox == g.outbox
    ensures r.1 <==> id in g.relations
    ensures !r.1 ==> r.0 == g
    ensures r.1 ==> r.0.relations == g.relations - {id} && id !in r.0.selection
    ensures r.0.concepts == g.concepts && r.0.conceptOrder == g.conceptOrder
    ensures forall x :: x in r.0.selection <==> x in g.selection && (x != id || !r.1)
  {
    if id !in g.relations then (g, false)
    else
      var g1 := UpdateSelectionSpec(g, Unset, One(id), sendMsg).0;
      var g2 := g1.(relations := g1.relations - {id}, relationOrder := Remove(g1.relationOrder, id));
      (Post(Fire(g2, RelationDeleteEv(id)), LinkDelete(id), sendMsg), true)
  }

  /** The relation-removal loop of `removeConcept(id)`: over the relation
      ids present when it starts, each relation that names `id` is
      removed. */
  function RemoveRelationsOf(g: GraphState, id: string, ids: seq<string>, sendMsg: bool): (r: GraphState)
    requires Distinct(g.selection)
    ensures Distinct(r.selection)
    ensures r.pending == g.pending && r.handlers == g.handlers
    ensures WellFormed(g) ==> WellFormed(r)
    ensures !sendMsg ==> r.outbox == g.outbox
    ensures r.concepts == g.concepts && r.conceptOrder == g.conceptOrder
    ensures forall k :: k in r.relations ==> k in g.relations && r.relations[k] == g.relations[k]
    ensures forall k :: k in ids && k in r.relations ==> id !in r.relations[k].nodes
    ensures forall k :: k in g.relations && (k !in ids || id !in g.relations[k].nodes) ==> k in r.relations
    ensures forall x :: x in r.selection <==> x in g.selection && !(x in ids && x in g.relations && id in g.relations[x].nodes)
    decreases |ids|
  {
    if |ids| == 0 then g
    else
      var g1 := RemoveRelationsOf(g, id, ids[..|ids| - 1], sendMsg);
      var k := ids[|ids| - 1];
      assert forall x :: x in ids ==> x in ids[..|ids| - 1] || x == k by {
        assert ids == ids[..|ids| - 1] + [k];
      }
      if k in g1.relations && id in g1.relations[k].nodes then RemoveRelationSpec(g1, k, sendMsg).0 else g1
  }

  /** The end of `removeConcept(id)` once its relations are gone: the id
      leaves the selection, the concept is deleted, `concept-delete` fires
      and the deletion is sent. */
  function DropConcept(g: GraphState, id: string, sendMsg: bool): (r: GraphState)
    requires Distinct(g.selection)
    ensures r.pending == g.pending && r.handlers == g.handlers
    ensures WellFormed(g) ==> WellFormed(r)
    ensures !sendMsg ==> r.outbox == g.outbox
    ensures r.concepts == g.concepts - {id} && r.relations == g.relations
    ensures forall x :: x in r.selection <==> x in g.selection && x != id
  {
    var g2 := UpdateSelectionSpec(g, Unset, One(id), sendMsg).0;
    var g3 := g2.(concepts := g2.concepts - {id}, conceptOrder := Remove(g2.conceptOrder, id));
    Post(Fire(g3, ConceptDeleteEv(id)), ConceptDelete(id), sendMsg)
  }

  /** One more step of the removal loop. */
  lemma {:induction false} RemoveRelationsOfStep(g: GraphState, id: string, ids: seq<string>, i: nat, sendMsg: bool)
    requires Distinct(g.selection) && i < |ids|
    ensures var before := RemoveRelationsOf(g, id, ids[..i], sendMsg);
            var k := ids[i];
            RemoveRelationsOf(g, id, ids[..i + 1], sendMsg) ==
              if k in before.relations && id in before.relations[k].nodes
              then RemoveRelationSpec(before, k, sendMsg).0 else before
  {
    assert ids[..i + 1][..i] == ids[..i];
  }

  /** `removeConcept(id, send_msg)`: its relations go first, then the id
      leaves the selection, then the concept is deleted. */
  function RemoveConceptSpec(g: GraphState, id: string, sendMsg: bool): (r: (GraphState, bool))
    requires Distinct(g.selection)
    ensures r.0.pending == g.pending && r.0.handlers == g.handlers
    ensures WellFormed(g) ==> WellFormed(r.0)
    ensures !sendMsg ==> r.0.outbox == g.outbox
    ensures r.1 <==> id in g.concepts
    ensures !r.1 ==> r.0 == g
    ensures r.1 ==> r.0.concepts == g.concepts - {id}
    ensures forall k :: k in r.0.relations ==> k in g.relations && r.0.relations[k] == g.relations[k]
    ensures forall k :: k in g.relations && id !in g.relations[k].nodes ==> k in r.0.relations
    ensures r.1 ==> forall x :: x in r.0.selection <==>
                      x in g.selection && x != id &&
                      !(x in g.relationOrder && x in g.relations && id in g.relations[x].nodes)
  {
    if id !in g.concepts then (g, false)
    else (DropConcept(RemoveRelationsOf(g, id, g.relationOrder, sendMsg), id, sendMsg), true)
  }

  /** After `removeConcept(id)` exactly that concept is gone; exactly the
      relations naming it are gone, the others stay unchanged; and the
      selection loses exactly the concept and the removed relations. */
  lemma {:induction false} RemoveConceptLeavesNoDanglingRelation(g: GraphState, id: string, sendMsg: bool)
    requires WellFormed(g) && id in g.concepts
    ensures var g' := RemoveConceptSpec(g, id, sendMsg).0;
            && g'.concepts == g.concepts - {id}
            && (forall k :: k in g'.relations <==> k in g.relations && id !in g.relations[k].nodes)
            && (forall k :: k in g'.relations ==> g'.relations[k] == g.relations[k])
            && (forall x :: x in g'.selection <==>
                  x in g.selection && x != id && !(x in g.relations && id in g.relations[x].nodes))
  {
    var g1 := RemoveRelationsOf(g, id, g.relationOrder, sendMsg);
    assert forall k :: k in g1.relations ==> k in g.relationOrder;
    assert RemoveConceptSpec(g, id, sendMsg).0 == DropConcept(g1, id, sendMsg);
  }

  // ------------------------------------------------------------- references

  /** `getById(id)`: a relation for an id with ':', otherwise a concept. */
  function GetByIdSpec(g: GraphState, id: string): (r: Option<Element>)
    ensures r.Some? ==> (r.value.RelationEl? <==> IsRelationId(id))
  {
    if IsRelationId(id) then (if id in g.relations then Some(RelationEl(g.relations[id])) else None)
    else if id in g.concepts then Some(ConceptEl(g.concepts[id])) else None
  }

  function RefsOf(e: Element): Option<map<string, Refs.Ref>> {
    if e.ConceptEl? then e.concept.refs else e.relation.refs
  }

  /** Well-formedness depends only on the keys, the orders and the
      selection. */
  lemma {:induction false} SameShape(g: GraphState, g': GraphState)
    requires g'.concepts.Keys == g.concepts.Keys && g'.relations.Keys == g.relations.Keys
    requires g'.conceptOrder == g.conceptOrder && g'.relationOrder == g.relationOrder
    requires g'.selection == g.selection
    ensures WellFormed(g) ==> WellFormed(g')
  {
    assert forall k :: k in g'.concepts <==> k in g.concepts.Keys;
    assert forall k :: k in g'.relations <==> k in g.relations.Keys;
  }

  /** The element `id` with its references replaced. */
  function WithRefs(g: GraphState, id: string, refs: Option<map<string, Refs.Ref>>): (r: GraphState)
    ensures r.concepts.Keys == g.concepts.Keys && r.relations.Keys == g.relations.Keys
    ensures r == g.(concepts := r.concepts, relations := r.relations)
    ensures WellFormed(g) ==> WellFormed(r)
  {
    var r := if IsRelationId(id) then
               (if id in g.relations then g.(relations := g.relations[id := g.relations[id].(refs := refs)]) else g)
             else if id in g.concepts then g.(concepts := g.concepts[id := g.concepts[id].(refs := refs)]) else g;
    SameShape(g, r);
    r
  }

  /** The completion callback of `addReference`: the update event for the
      element, and (with `send_msg`) the reference sent with its selection
      and icon. */
  function IconDelivered(g: GraphState, p: PendingIcon, data: string): (r: GraphState)
    ensures r == g.(events := r.events, outbox := r.outbox)
  {
    var g1 := Fire(g, if p.onRelation then RelationUpdateEv(p.id) else ConceptUpdateEv(p.id));
    Post(g1, UpdateRefs(p.onRelation, Some(p.id), [], RefAdd(p.cfg.(icon := Some(data)), Some([p.ranges]))), p.sendMsg)
  }

  /** What `addReference` comes to: no such element, the reference refused
      (false), the favicon text raising an exception, or accepted. */
  datatype RefOutcome = NoElement | RefRejected | RefThrew | RefAdded

  /** `addReference(id, cfg, send_event)`. When the icon is already encoded
      the completion runs at once; otherwise it is left pending. */
  function AddReferenceSpec(g: GraphState, id: string, cfg: Refs.RefConfig, sendMsg: bool,
                            baseDomain: string -> string): (r: (GraphState, RefOutcome))
    ensures WellFormed(g) ==> WellFormed(r.0)
    ensures !sendMsg ==> r.0.outbox == g.outbox
    ensures !sendMsg ==> forall p :: p in r.0.pending ==> p in g.pending || !p.sendMsg
    ensures r.0.concepts.Keys == g.concepts.Keys && r.0.relations.Keys == g.relations.Keys
    ensures r.0.selection == g.selection
    ensures r.1 == NoElement <==> GetByIdSpec(g, id).None?
    ensures r.1 in {NoElement, RefRejected} ==> r.0 == g
  {
    match GetByIdSpec(g, id)
    case None => (g, NoElement)
    case Some(el) =>
      var refs := if RefsOf(el).Some? then RefsOf(el).value else map[];
      match Refs.AddReference(refs, cfg, baseDomain)
      case Rejected => (g, RefRejected)
      case Threw(newRefs) => (WithRefs(g, id, Some(newRefs)), RefThrew)
      case Added(m, icon) =>
        var g1 := WithRefs(g, id, Some(m.refs));
        var p := PendingIcon(id, IsRelationId(id), cfg.url.value, m.cfg, m.ranges, sendMsg);
        if icon.Some? then (IconDelivered(g1, p, icon.value), RefAdded)
        else (g1.(pending := g1.pending + [p]), RefAdded)
  }

  /** The favicon of the `k`-th pending reference arrives: the icon is
      stored if the element and its entry for the URL still exist, then the
      completion callback runs. */
  function CompleteIconSpec(g: GraphState, k: nat, data: string): (r: GraphState)
    requires k < |g.pending|
    ensures WellFormed(g) ==> WellFormed(r)
    ensures !g.pending[k].sendMsg ==> r.outbox == g.outbox
    ensures r.pending == g.pending[..k] + g.pending[k + 1..]
  {
    var p := g.pending[k];
    var g1 := g.(pending := g.pending[..k] + g.pending[k + 1..]);
    var g2 := match GetByIdSpec(g1, p.id)
              case Some(el) =>
                if RefsOf(el).Some? then WithRefs(g1, p.id, Some(Refs.CompleteIcon(RefsOf(el).value, p.url, data)))
                else g1
              case None => g1;
    IconDelivered(g2, p, data)
  }

  /** `removeReference(id, url, send_msg)`: the update event fires even
      when the URL had no entry. */
  function RemoveReferenceSpec(g: GraphState, id: string, url: string, sendMsg: bool): (r: (GraphState, bool))
    ensures r.0.pending == g.pending && r.0.handlers == g.handlers
    ensures WellFormed(g) ==> WellFormed(r.0)
    ensures !sendMsg ==> r.0.outbox == g.outbox
    ensures r.1 <==> GetByIdSpec(g, id).Some?
    ensures !r.1 ==> r.0 == g
  {
    match GetByIdSpec(g, id)
    case None => (g, false)
    case Some(el) =>
      var g1 := if RefsOf(el).Some? then WithRefs(g, id, Some(RefsOf(el).value - {url})) else g;
      var onRelation := IsRelationId(id);
      var g2 := Fire(g1, if onRelation then RelationUpdateEv(id) else ConceptUpdateEv(id));
      (Post(g2, UpdateRefs(onRelation, Some(id), [], RefDelete(url)), sendMsg), true)
  }

  /** Removing a reference that is not there still fires the update event
      (when a callback is registered for it). */
  lemma {:induction false} RemoveAbsentReferenceFires(g: GraphState, url: string)
    requires "c" in g.concepts && g.concepts["c"].refs == Some(map[])
    requires "concept-update" in g.handlers
    ensures var r := RemoveReferenceSpec(g, "c", url, false);
            r.1 && r.0.concepts == g.concepts &&
            r.0.events == g.events + [(g.handlers["concept-update"], ConceptUpdateEv("c"))]
  {
    assert !IsRelationId("c");
    var none: map<string, Refs.Ref> := map[];
    assert none - {url} == none;
  }

  // ------------------------------------------------------------------ queries

  /** `getIds()`: concept ids, then relation ids, each once. */
  function GetIdsSpec(g: GraphState): (r: seq<string>)
    ensures WellFormed(g) ==> forall x :: x in r <==> x in g.concepts || x in g.relations
  {
    Dedup(g.conceptOrder + g.relationOrder)
  }

  /** A concept whose normalised id still has a colon is hidden behind the
      relation of the same id: `getById` finds the relation. */
  lemma {:induction false} ColonConceptShadowedByRelation(g: GraphState, c: Concept, r: Relation)
    requires g.concepts == map["x_:y" := c] && g.relations == map["x_:y" := r]
    ensures GetByIdSpec(g, "x_:y") == Some(RelationEl(r))
  {
    assert "x_:y"[2] == ':';
  }

  /** `getSelectedId()`: the id when exactly one is selected. */
  function SelectedIdSpec(g: GraphState): (r: Option<string>)
    ensures r.Some? <==> |g.selection| == 1
    ensures r.Some? ==> r.value in g.selection
  {
    if |g.selection| == 1 then Some(g.selection[0]) else None
  }

  /** `getSelectedConcept()`. */
  function SelectedConceptSpec(g: GraphState): (r: Option<Concept>)
    ensures r.Some? ==> |g.selection| == 1 && !IsRelationId(g.selection[0]) &&
                        g.selection[0] in g.concepts && r.value == g.concepts[g.selection[0]]
  {
    match SelectedIdSpec(g)
    case None => None
    case Some(id) =>
      if id == "" || IsRelationId(id) || id !in g.concepts then None else Some(g.concepts[id])
  }

  /** `getSelectedRelation()`. */
  function SelectedRelationSpec(g: GraphState): (r: Option<Relation>)
    ensures r.Some? ==> |g.selection| == 1 && IsRelationId(g.selection[0]) &&
                        g.selection[0] in g.relations && r.value == g.relations[g.selection[0]]
  {
    match SelectedIdSpec(g)
    case None => None
    case Some(id) =>
      if id == "" || !IsRelationId(id) || id !in g.relations then None else Some(g.relations[id])
  }

  function IsRelationIdFn(): string -> bool {
    (id: string) => IsRelationId(id)
  }

  /** `clear()`: the maps and the selection are emptied; the memoised
      projections are left as they are. */
  function ClearSpec(g: GraphState): (r: GraphState)
    ensures WellFormed(r)
    ensures r.concepts == map[] && r.relations == map[] && r.selection == []
    ensures r.selConcepts == g.selConcepts && r.selRelations == g.selRelations
  {
    g.(concepts := map[], conceptOrder := [], relations := map[], relationOrder := [], selection := [])
  }

  /** `getSelectedConceptIds()`: the memo if there is one, otherwise the
      selected concept ids, memoised. */
  function SelectedConceptIdsSpec(g: GraphState): (r: (GraphState, seq<string>))
    ensures g.selConcepts.None? ==> r.1 == Select(g.selection, IsRelationIdFn(), false)
    ensures r.0.selConcepts == Some(r.1)
    ensures r.0 == g.(selConcepts := r.0.selConcepts)
  {
    if g.selConcepts.Some? then (g, g.selConcepts.value)
    else
      var ids := Select(g.selection, IsRelationIdFn(), false);
      (g.(selConcepts := Some(ids)), ids)
  }

  /** `getSelectedRelationIds()`. */
  function SelectedRelationIdsSpec(g: GraphState): (r: (GraphState, seq<string>))
    ensures g.selRelations.None? ==> r.1 == Select(g.selection, IsRelationIdFn(), true)
    ensures r.0.selRelations == Some(r.1)
    ensures r.0 == g.(selRelations := r.0.selRelations)
  {
    if g.selRelations.Some? then (g, g.selRelations.value)
    else
      var ids := Select(g.selection, IsRelationIdFn(), true);
      (g.(selRelations := Some(ids)), ids)
  }

  /** Every change of the selection drops the memos, so between changes
      the memoised projection is the selection's concept ids. */
  lemma {:induction false} SelectionChangeResetsMemo(g: GraphState, action: Action, arg: SelArg, sendMsg: bool)
    requires Distinct(g.selection)
    requires UpdateSelectionSpec(g, action, arg, sendMsg).1
    ensures var g1 := UpdateSelectionSpec(g, action, arg, sendMsg).0;
            SelectedConceptIdsSpec(g1).1 == Select(g1.selection, IsRelationIdFn(), false)
  {
    var prev := g.selection;
    var cur := NewSelection(prev, action, ArgIds(arg));
    var evs := RemovedEvents(prev, cur) + AddedEvents(prev, cur);
    FireAllOnlyEvents(g.(selection := cur), evs);
  }

  /** `clear()` keeps a stale memo: after it the selection is empty, yet
      `getSelectedConceptIds()` still answers the ids memoised before. */
  lemma {:induction false} ClearKeepsStaleMemo(g: GraphState)
    requires g.selConcepts == Some(["a"])
    ensures ClearSpec(g).selection == []
    ensures SelectedConceptIdsSpec(ClearSpec(g)).1 == ["a"]
  {
  }

  // ---------------------------------------------------------------- handlers

  /** `on(type, cb)`: each type gets `cb`, replacing an earlier callback. */
  function OnSpec(g: GraphState, types: seq<string>, cb: nat): (r: GraphState)
    ensures r == g.(handlers := r.handlers)
    ensures r.handlers.Keys == g.handlers.Keys + set t | t in types
    ensures forall t :: t in types ==> r.handlers[t] == cb
    ensures forall t :: t in g.handlers && t !in types ==> r.handlers[t] == g.handlers[t]
    decreases |types|
  {
    if |types| == 0 then g
    else
      var g1 := OnSpec(g, types[..|types| - 1], cb);
      assert forall t :: t in types <==> t in types[..|types| - 1] || t == types[|types| - 1] by {
        assert types == types[..|types| - 1] + [types[|types| - 1]];
      }
      g1.(handlers := g1.handlers[types[|types| - 1] := cb])
  }

  /** Registering a second callback for a type replaces the first. */
  lemma {:induction false} OnReplaces(g: GraphState, t: string, cb1: nat, cb2: nat)
    ensures OnSpec(OnSpec(g, [t], cb1), [t], cb2).handlers[t] == cb2
  {
  }

  // ----------------------------------------------------------- handleMessage

  /** What `handleMessage` answers; `Threw` is an exception it lets
      through (from the favicon text of an added reference). */
  datatype HandleResult = Accepted | Rejected | Threw

  /** The concepts of a GET-FOUND, added in order. */
  function AddConcepts(g: GraphState, cs: seq<ConceptCfg>): (r: GraphState)
    ensures WellFormed(g) ==> WellFormed(r)
    ensures r.outbox == g.outbox && r.pending == g.pending
    decreases |cs|
  {
    if |cs| == 0 then g else AddConcepts(AddConceptSpec(g, cs[0], false).0, cs[1..])
  }

  /** The relations of a GET-FOUND, added in order. */
  function AddRelations(g: GraphState, rs: seq<RelationCfg>): (r: GraphState)
    ensures WellFormed(g) ==> WellFormed(r)
    ensures r.outbox == g.outbox && r.pending == g.pending
    ensures r.selection == g.selection
    decreases |rs|
  {
    if |rs| == 0 then g else AddRelations(AddRelationSpec(g, rs[0], false).0, rs[1..])
  }

  /** The element id of a REFS message: its `id`, or its nodes joined as
      given. */
  function RefsTarget(refId: Option<string>, nodes: seq<string>): string {
    if refId.Some? && refId.value != "" then refId.value else Join(nodes, ':')
  }

  /** The CONCEPT-UPDATE-REFS / CONCEPT-LINK-UPDATE-REFS branch of
      `handleMessage`. */
  function HandleRefsSpec(g: GraphState, id: string, cmd: RefCmd, baseDomain: string -> string): (r: (GraphState, HandleResult))
    requires WellFormed(g)
    ensures WellFormed(r.0)
    ensures r.1 == Rejected <==> cmd.RefUnknown?
    ensures r.1 == Rejected ==> r.0 == g
    ensures r.0.outbox == g.outbox
    ensures forall p :: p in r.0.pending ==> p in g.pending || !p.sendMsg
  {
    match cmd
    case RefAdd(ref, _) =>
      var (g', out) := AddReferenceSpec(g, id, ref, false, baseDomain);
      (g', if out == RefThrew then Threw else Accepted)
    case RefDelete(url) => (RemoveReferenceSpec(g, id, url, false).0, Accepted)
    case RefUnknown(_) => (g, Rejected)
  }

  /** `handleMessage(msg)`: each recognised task is applied with
      `send_msg` off and answered with true, whatever the operation
      returned; an unknown task or REFS command is answered with false. */
  function HandleMessageSpec(g: GraphState, m: Msg, baseDomain: string -> string): (r: (GraphState, HandleResult))
    requires WellFormed(g)
    ensures WellFormed(r.0)
    ensures r.1 == Rejected ==> r.0 == g
    ensures r.0.outbox == g.outbox
    ensures forall p :: p in r.0.pending ==> p in g.pending || !p.sendMsg
  {
    match m
    case ConceptNew(c) => (AddConceptSpec(g, c, false).0, Accepted)
    case ConceptUpdate(c) => (UpdateConceptSpec(g, c, false, false).0, Accepted)
    case ConceptDelete(id) => (RemoveConceptSpec(g, id, false).0, Accepted)
    case LinkNew(rel) => (AddRelationSpec(g, rel, false).0, Accepted)
    case LinkUpdate(rel) => (UpdateRelationSpec(g, rel, false).0, Accepted)
    case LinkDelete(id) => (RemoveRelationSpec(g, id, false).0, Accepted)
    case UpdateRefs(_, refId, nodes, cmd) => HandleRefsSpec(g, RefsTarget(refId, nodes), cmd, baseDomain)
    case SelectionUpdate(sel) => (UpdateSelectionSpec(g, SetSel, sel, false).0, Accepted)
    case GetFound(id, cs, rs, sel) =>
      if id == "/concepts/all" then
        var g1 := AddRelations(AddConcepts(g, cs), rs);
        (UpdateSelectionSpec(g1, SetSel, sel, false).0, Accepted)
      else (g, Rejected)
    case _ => (g, Rejected)
  }

  /** The tasks `handleMessage` accepts or rejects by name. */
  lemma {:induction false} HandleMessageRecognises(g: GraphState, m: Msg, baseDomain: string -> string)
    requires WellFormed(g)
    ensures HandleMessageSpec(g, m, baseDomain).1 == Rejected <==>
              || (m.UpdateRefs? && m.cmd.RefUnknown?)
              || (m.GetFound? && m.id != "/concepts/all")
              || m.Get? || m.Request? || m.Found? || m.Initiate? || m.Abort? || m.Update?
              || m.Resize? || m.Sync? || m.Register? || m.OtherTask?
  {
  }

  // --------------------------------------------------------------- the store

  /** Firing one more event is one more `_callHandler`. */
  /** One more id of the `selection-add` loop. */
  lemma {:induction false} FireAddedStep(g: GraphState, prev: seq<string>, cur: seq<string>, j: nat)
    requires j < |cur|
    ensures var x := cur[j];
            var before := FireAll(g, AddedEvents(prev, cur[..j]));
            && FireAll(g, AddedEvents(prev, cur[..j + 1]))
               == (if x !in prev then Fire(before, SelectionAddEv(x, IsRelationId(x))) else before)
            && (|AddedEvents(prev, cur[..j + 1])| > 0 <==> |AddedEvents(prev, cur[..j])| > 0 || x !in prev)
  {
    var x := cur[j];
    assert cur[..j + 1][..j] == cur[..j];
    if x !in prev {
      FireAllSnoc(g, AddedEvents(prev, cur[..j]), SelectionAddEv(x, IsRelationId(x)));
    }
  }

  /** One round of the `selection-remove` loop. */
  lemma {:induction false} FireRemovedStep(g: GraphState, prev: seq<string>, cur: seq<string>, j: nat)
    requires j < |prev|
    ensures var x := prev[j];
            var before := FireAll(g, RemovedEvents(prev[..j], cur));
            && FireAll(g, RemovedEvents(prev[..j + 1], cur))
               == (if x !in cur then Fire(before, SelectionRemoveEv(x, IsRelationId(x))) else before)
            && (|RemovedEvents(prev[..j + 1], cur)| > 0 <==> |RemovedEvents(prev[..j], cur)| > 0 || x !in cur)
  {
    var x := prev[j];
    assert prev[..j + 1][..j] == prev[..j];
    if x !in cur {
      FireAllSnoc(g, RemovedEvents(prev[..j], cur), SelectionRemoveEv(x, IsRelationId(x)));
    }
  }

  /** Firing two runs of events one after the other. */
  lemma {:induction false} FireAllAppend(g: GraphState, a: seq<Event>, b: seq<Event>)
    ensures FireAll(g, a + b) == FireAll(FireAll(g, a), b)
    decreases |b|
  {
    if |b| > 0 {
      var b' := b[..|b| - 1];
      assert (a + b)[..|a + b| - 1] == a + b';
      FireAllAppend(g, a, b');
    } else {
      assert a + b == a;
    }
  }

  lemma {:induction false} FireAllSnoc(g: GraphState, evs: seq<Event>, e: Event)
    ensures FireAll(g, evs + [e]) == Fire(FireAll(g, evs), e)
  {
    assert (evs + [e])[..|evs|] == evs;
  }

  /** The `for(var prop in new_cfg)` loop of `updateConcept` and
      `updateRelation`: every property whose new value differs is
      written. */
  method ApplyPatch(props: map<string, Value>, patch: map<string, Value>, objects: set<string>)
    returns (r: map<string, Value>, changed: bool)
    ensures r == Patched(props, patch, objects)
    ensures changed <==> ChangedKeys(props, patch, objects) != {}
  {
    r := props;
    changed := false;
    var todo := patch.Keys;
    ghost var written: set<string> := {};
    assert Overlay(props, patch, written) == props;
    while todo != {}
      invariant todo <= patch.Keys
      invariant written <= patch.Keys
      invariant r == Overlay(props, patch, written)
      invariant written !! todo
      invariant changed <==> written != {}
      invariant forall q :: q in written <==> q in ChangedKeys(props, patch, objects) && q !in todo
      decreases |todo|
    {
      var p :| p in todo;
      WriteDecision(props, patch, objects, written, p);
      if !Unchanged(patch[p], SlotOf(r, p, objects)) {
        OverlayStep(props, patch, written, p);
        r := r[p := patch[p]];
        changed := true;
        written := written + {p};
      }
      todo := todo - {p};
    }
    SameMembers(written, ChangedKeys(props, patch, objects), todo);
  }

  /** Two sets with the same members are equal. */
  lemma {:induction false} SameMembers(a: set<string>, b: set<string>, rest: set<string>)
    requires rest == {}
    requires forall q :: q in a <==> q in b && q !in rest
    ensures a == b
  {
  }

  /** One step of the loop: the property is compared with its old slot,
      since nothing has written it yet. */
  lemma {:induction false} WriteDecision(props: map<string, Value>, patch: map<string, Value>, objects: set<string>,
                                         written: set<string>, p: string)
    requires p in patch && p !in written && written <= patch.Keys
    ensures SlotOf(Overlay(props, patch, written), p, objects) == SlotOf(props, p, objects)
    ensures !Unchanged(patch[p], SlotOf(Overlay(props, patch, written), p, objects)) <==>
              p in ChangedKeys(props, patch, objects)
  {
  }

  /** The `ConceptGraph` object: its fields are those of `GraphState`. */
  class Store {
    var handlers: map<string, nat>
    var concepts: map<string, Concept>
    var conceptOrder: seq<string>
    var relations: map<string, Relation>
    var relationOrder: seq<string>
    var selection: seq<string>
    var selConcepts: Option<seq<string>>
    var selRelations: Option<seq<string>>
    var events: seq<(nat, Event)>
    var outbox: seq<Msg>
    var pending: seq<PendingIcon>

    function Model(): GraphState
      reads this
    {
      GraphState(handlers, concepts, conceptOrder, relations, relationOrder, selection,
                 selConcepts, selRelations, events, outbox, pending)
    }

    ghost predicate Valid()
      reads this
    {
      WellFormed(Model())
    }

    /** `new ConceptGraph()`. */
    constructor()
      ensures Model() == EMPTY && Valid()
    {
      handlers := map[];
      concepts := map[];
      conceptOrder := [];
      relations := map[];
      relationOrder := [];
      selection := [];
      selConcepts := None;
      selRelations := None;
      events := [];
      outbox := [];
      pending := [];
    }

    /** `_callHandler(type, …)`. */
    method CallHandler(e: Event)
      modifies this
      ensures Model() == Fire(old(Model()), e)
    {
      var t := EventType(e);
      if t in handlers {
        events := events + [(handlers[t], e)];
      }
    }

    /** `if( send_msg ) send(m)`. */
    method SendIf(m: Msg, sendMsg: bool)
      modifies this
      ensures Model() == Post(old(Model()), m, sendMsg)
    {
      if sendMsg {
        outbox := outbox + [m];
      }
    }

    /** `on(type, cb)`. */
    method On(types: seq<string>, cb: nat)
      modifies this
      ensures Model() == OnSpec(old(Model()), types, cb)
    {
      var i := 0;
      while i < |types|
        invariant 0 <= i <= |types|
        invariant Model() == OnSpec(old(Model()), types[..i], cb)
      {
        assert types[..i + 1][..i] == types[..i];
        handlers := handlers[types[i] := cb];
        i := i + 1;
      }
      assert types[..|types|] == types;
    }

    /** `addConcept(cfg, send_msg)`. */
    method AddConcept(cfg: ConceptCfg, sendMsg: bool) returns (added: bool)
      requires Valid()
      modifies this
      ensures Valid()
      ensures (Model(), added) == AddConceptSpec(old(Model()), cfg, sendMsg)
    {
      var id := NormalizeId(cfg.id);
      if id in concepts {
        return false;
      }
      ghost var g := Model();
      var sent := SentConcept(cfg);
      StoreConcept(id, NewConcept(sent));
      CallHandler(ConceptNewEv(id));
      SendIf(ConceptNew(sent), sendMsg);
      assert Model() == AddNewConcept(g, id, sent, sendMsg);
      return true;
    }

    /** `this.concepts.set(id, c)` for a new id. */
    method StoreConcept(id: string, c: Concept)
      requires id !in concepts
      modifies this
      ensures Model() == InsertConcept(old(Model()), id, c)
    {
      concepts := concepts[id := c];
      conceptOrder := conceptOrder + [id];
    }

    /** `updateConcept(new_cfg, send_msg, force)`. */
    method UpdateConcept(cfg: ConceptCfg, sendMsg: bool, force: bool) returns (updated: bool)
      requires Valid()
      modifies this
      ensures Valid()
      ensures (Model(), updated) == UpdateConceptSpec(old(Model()), cfg, sendMsg, force)
    {
      if cfg.id !in concepts {
        return false;
      }
      var c := concepts[cfg.id];
      var props, changed := ApplyPatch(c.props, ConceptPatch(cfg), RESERVED);
      changed := changed || cfg.refs.Some?;
      if !changed && !force {
        return false;
      }
      concepts := concepts[cfg.id := Concept(props, if cfg.refs.Some? then cfg.refs else c.refs)];
      if changed {
        CallHandler(ConceptUpdateEv(cfg.id));
      }
      SendIf(ConceptUpdate(cfg), sendMsg);
      return true;
    }

    /** The action part of `updateSelection`: `set`, `toggle` or `unset`
        applied to the selection. */
    method ApplyAction(action: Action, ids: seq<string>)
      requires Distinct(selection) && Distinct(ids)
      modifies this
      ensures Model() == old(Model()).(selection := NewSelection(old(selection), action, ids))
    {
      var prev := selection;
      match action {
        case SetSel =>
          selection := ids;
        case Toggle =>
          var i := 0;
          while i < |ids|
            invariant 0 <= i <= |ids|
            invariant Model() == old(Model()).(selection := ToggleAll(prev, ids[..i]))
          {
            assert ids[..i + 1][..i] == ids[..i];
            if ids[i] in selection {
              selection := Common.Remove(selection, ids[i]);
            } else {
              selection := selection + [ids[i]];
            }
            i := i + 1;
          }
          assert ids[..|ids|] == ids;
        case Unset =>
          var i := 0;
          while i < |ids|
            invariant 0 <= i <= |ids|
            invariant Model() == old(Model()).(selection := UnsetAll(prev, ids[..i]))
          {
            assert ids[..i + 1][..i] == ids[..i];
            selection := Common.Remove(selection, ids[i]);
            i := i + 1;
          }
          assert ids[..|ids|] == ids;
        case UnknownAction(_) =>
      }
    }

    /** The `selection-remove` loop of `updateSelection`: over the previous
        selection, for each id no longer selected. */
    method FireRemoved(prev: seq<string>) returns (changed: bool)
      modifies this
      ensures Model() == FireAll(old(Model()), RemovedEvents(prev, old(selection)))
      ensures changed <==> |RemovedEvents(prev, old(selection))| > 0
    {
      ghost var g0 := Model();
      var cur := selection;
      changed := false;
      var j := 0;
      while j < |prev|
        invariant 0 <= j <= |prev| && selection == cur
        invariant Model() == FireAll(g0, RemovedEvents(prev[..j], cur))
        invariant changed <==> |RemovedEvents(prev[..j], cur)| > 0
      {
        var fired := FireRemovedAt(g0, prev, cur, j);
        changed := changed || fired;
        j := j + 1;
      }
      assert prev[..|prev|] == prev;
    }

    /** One round of the `selection-remove` loop: `prev[j]`, when it has
        left the selection. */
    method FireRemovedAt(ghost g0: GraphState, prev: seq<string>, cur: seq<string>, j: nat) returns (fired: bool)
      requires j < |prev| && selection == cur
      requires Model() == FireAll(g0, RemovedEvents(prev[..j], cur))
      modifies this
      ensures selection == cur
      ensures Model() == FireAll(g0, RemovedEvents(prev[..j + 1], cur))
      ensures |RemovedEvents(prev[..j + 1], cur)| > 0 <==> |RemovedEvents(prev[..j], cur)| > 0 || fired
    {
      var x := prev[j];
      FireAllOnlyEvents(g0, RemovedEvents(prev[..j], cur));
      FireRemovedStep(g0, prev, cur, j);
      fired := x !in selection;
      if fired {
        CallHandler(SelectionRemoveEv(x, IsRelationId(x)));
      }
    }

    /** The `selection-add` loop of `updateSelection`: over the current
        selection, for each id that is new. */
    method FireAdded(prev: seq<string>) returns (changed: bool)
      modifies this
      ensures Model() == FireAll(old(Model()), AddedEvents(prev, old(selection)))
      ensures changed <==> |AddedEvents(prev, old(selection))| > 0
    {
      ghost var g0 := Model();
      var cur := selection;
      changed := false;
      var j := 0;
      while j < |cur|
        invariant 0 <= j <= |cur|
        invariant Model() == FireAll(g0, AddedEvents(prev, cur[..j]))
        invariant changed <==> |AddedEvents(prev, cur[..j])| > 0
      {
        var fired := FireAddedAt(g0, prev, cur, j);
        changed := changed || fired;
        j := j + 1;
      }
      assert cur[..|cur|] == cur;
    }

    /** One round of the `selection-add` loop: `cur[j]`, when it is new. */
    method FireAddedAt(ghost g0: GraphState, prev: seq<string>, cur: seq<string>, j: nat) returns (fired: bool)
      requires j < |cur|
      requires Model() == FireAll(g0, AddedEvents(prev, cur[..j]))
      modifies this
      ensures Model() == FireAll(g0, AddedEvents(prev, cur[..j + 1]))
      ensures |AddedEvents(prev, cur[..j + 1])| > 0 <==> |AddedEvents(prev, cur[..j])| > 0 || fired
    {
      var x := cur[j];
      FireAddedStep(g0, prev, cur, j);
      fired := x !in prev;
      if fired {
        CallHandler(SelectionAddEv(x, IsRelationId(x)));
      }
    }

    /** `updateSelection(action, id, send_msg)`. */
    method UpdateSelection(action: Action, arg: SelArg, sendMsg: bool) returns (changed: bool)
      requires Valid()
      modifies this
      ensures Valid()
      ensures (Model(), changed) == UpdateSelectionSpec(old(Model()), action, arg, sendMsg)
    {
      var prev := selection;
      ApplyAction(action, ArgIds(arg));
      var cur := selection;
      ghost var g0 := Model();
      var removed := FireRemoved(prev);
      FireAllOnlyEvents(g0, RemovedEvents(prev, cur));
      var added := FireAdded(prev);
      FireAllAppend(g0, RemovedEvents(prev, cur), AddedEvents(prev, cur));
      ghost var evs := RemovedEvents(prev, cur) + AddedEvents(prev, cur);
      assert g0 == old(Model()).(selection := cur);
      assert Model() == FireAll(g0, evs);
      changed := removed || added;
      assert changed <==> |evs| > 0;
      UpdateSelectionUnfold(old(Model()), action, arg, sendMsg);
      if !changed {
        return;
      }
      ClearSelectionCache();
      CallHandler(SelectionChangeEv(cur, prev));
      SendIf(SelectionUpdate(Ids(cur)), sendMsg);
    }

    /** `this._selectedConcepts = this._selectedRelations = null`. */
    method ClearSelectionCache()
      modifies this
      ensures Model() == old(Model()).(selConcepts := None, selRelations := None)
    {
      selConcepts := None;
      selRelations := None;
    }

    /** `removeRelation(id, send_msg)`. */
    method RemoveRelation(id: string, sendMsg: bool) returns (removed: bool)
      requires Valid()
      modifies this
      ensures Valid()
      ensures (Model(), removed) == RemoveRelationSpec(old(Model()), id, sendMsg)
    {
      if id !in relations {
        return false;
      }
      var unselected := UpdateSelection(Unset, One(id), sendMsg);
      relations := relations - {id};
      relationOrder := Common.Remove(relationOrder, id);
      CallHandler(RelationDeleteEv(id));
      SendIf(LinkDelete(id), sendMsg);
      return true;
    }

    /** The loop of `removeConcept(id)`: each of the given relations that
        is still there and names `id` is removed. */
    method RemoveRelationsNaming(id: string, ids: seq<string>, sendMsg: bool)
      requires Valid()
      modifies this
      ensures Valid()
      ensures Model() == RemoveRelationsOf(old(Model()), id, ids, sendMsg)
    {
      var i := 0;
      while i < |ids|
        invariant 0 <= i <= |ids|
        invariant Valid()
        invariant Model() == RemoveRelationsOf(old(Model()), id, ids[..i], sendMsg)
      {
        var k := ids[i];
        RemoveRelationsOfStep(old(Model()), id, ids, i, sendMsg);
        if k in relations && id in relations[k].nodes {
          var removed := RemoveRelation(k, sendMsg);
        }
        i := i + 1;
      }
      assert ids[..|ids|] == ids;
    }

    /** `removeConcept(id, send_msg)`: the loop runs over the relations
        present when it starts. */
    method RemoveConcept(id: string, sendMsg: bool) returns (removed: bool)
      requires Valid()
      modifies this
      ensures Valid()
      ensures (Model(), removed) == RemoveConceptSpec(old(Model()), id, sendMsg)
    {
      if id !in concepts {
        return false;
      }
      ghost var spec := RemoveConceptSpec(Model(), id, sendMsg);
      RemoveRelationsNaming(id, relationOrder, sendMsg);
      ghost var g1 := Model();
      var unselected := UpdateSelection(Unset, One(id), sendMsg);
      concepts := concepts - {id};
      conceptOrder := Common.Remove(conceptOrder, id);
      CallHandler(ConceptDeleteEv(id));
      SendIf(ConceptDelete(id), sendMsg);
      assert Model() == DropConcept(g1, id, sendMsg);
      removed := true;
      assert (Model(), removed) == spec;
    }

    /** `remove(id)`: a relation for an id with ':', otherwise a concept,
        always sent. */
    method Remove(id: string) returns (removed: bool)
      requires Valid()
      modifies this
      ensures Valid()
      ensures (Model(), removed) == if IsRelationId(id) then RemoveRelationSpec(old(Model()), id, true)
                                    else RemoveConceptSpec(old(Model()), id, true)
    {
      if IsRelationId(id) {
        removed := RemoveRelation(id, true);
      } else {
        removed := RemoveConcept(id, true);
      }
    }

    /** `addRelation(cfg, send_msg)`. */
    method AddRelation(cfg: RelationCfg, sendMsg: bool) returns (added: bool)
      requires Valid()
      modifies this
      ensures Valid()
      ensures (Model(), added) == AddRelationSpec(old(Model()), cfg, sendMsg)
    {
      var nodes := SortStrings(cfg.nodes);
      if |nodes| == 0 || nodes[0] !in concepts {
        return false;
      }
      if |nodes| == 1 || nodes[1] !in concepts {
        return false;
      }
      var id := RelationId(nodes);
      if id in relations {
        return false;
      }
      ghost var g := Model();
      relations := relations[id := NewRelation(cfg, id, nodes)];
      relationOrder := relationOrder + [id];
      assert Model() == InsertRelation(g, id, NewRelation(cfg, id, nodes));
      CallHandler(RelationNewEv(id));
      SendIf(LinkNew(RelationCfg(None, nodes, map[], None)), sendMsg);
      assert Model() == AddNewRelation(g, cfg, id, nodes, sendMsg);
      return true;
    }

    /** `updateRelation(new_cfg, send_msg)`. */
    method UpdateRelation(cfg: RelationCfg, sendMsg: bool) returns (updated: bool)
      requires Valid()
      modifies this
      ensures Valid()
      ensures (Model(), updated) == UpdateRelationSpec(old(Model()), cfg, sendMsg)
    {
      var id := if cfg.id.Some? && cfg.id.value != "" then cfg.id.value else Join(cfg.nodes, ':');
      if id !in relations {
        return false;
      }
      var rel := relations[id];
      var props, changed := ApplyPatch(rel.props, RelationPatch(cfg), RELATION_OBJECTS);
      changed := changed || cfg.refs.Some?;
      if !changed {
        return false;
      }
      StoreRelation(id, Relation(props, rel.nodes, if cfg.refs.Some? then cfg.refs else rel.refs));
      CallHandler(RelationUpdateEv(id));
      SendIf(LinkUpdate(cfg), sendMsg);
      return true;
    }

    /** `this.relations.set(id, rel)` for an id already present. */
    method StoreRelation(id: string, rel: Relation)
      modifies this
      ensures Model() == old(Model()).(relations := old(relations)[id := rel])
    {
      relations := relations[id := rel];
    }

    /** `el.refs = …` on the element `id`. */
    method StoreRefs(id: string, refs: Option<map<string, Refs.Ref>>)
      modifies this
      ensures Model() == WithRefs(old(Model()), id, refs)
    {
      if IsRelationId(id) {
        if id in relations {
          relations := relations[id := relations[id].(refs := refs)];
        }
      } else if id in concepts {
        concepts := concepts[id := concepts[id].(refs := refs)];
      }
    }

    /** The completion callback of `addReference`. */
    method DeliverIcon(p: PendingIcon, data: string)
      modifies this
      ensures Model() == IconDelivered(old(Model()), p, data)
    {
      CallHandler(if p.onRelation then RelationUpdateEv(p.id) else ConceptUpdateEv(p.id));
      SendIf(UpdateRefs(p.onRelation, Some(p.id), [], RefAdd(p.cfg.(icon := Some(data)), Some([p.ranges]))), p.sendMsg);
    }

    /** The end of `addReference`: the completion runs now when the icon
        is already encoded, otherwise the reference waits for it. */
    method DeliverOrWait(p: PendingIcon, icon: Option<string>)
      modifies this
      ensures Model() == if icon.Some? then IconDelivered(old(Model()), p, icon.value)
                         else old(Model()).(pending := old(pending) + [p])
    {
      if icon.Some? {
        DeliverIcon(p, icon.value);
      } else {
        pending := pending + [p];
      }
    }

    /** `addReference(id, cfg, send_event)`. */
    method AddReference(id: string, cfg: Refs.RefConfig, sendMsg: bool, baseDomain: string -> string)
      returns (outcome: RefOutcome)
      requires Valid()
      modifies this
      ensures Valid()
      ensures (Model(), outcome) == AddReferenceSpec(old(Model()), id, cfg, sendMsg, baseDomain)
    {
      ghost var spec := AddReferenceSpec(Model(), id, cfg, sendMsg, baseDomain);
      assert WellFormed(spec.0);
      var el := GetByIdSpec(Model(), id);
      if el.None? {
        outcome := NoElement;
        assert (Model(), outcome) == spec;
        return;
      }
      var refs := if RefsOf(el.value).Some? then RefsOf(el.value).value else map[];
      match Refs.AddReference(refs, cfg, baseDomain) {
        case Rejected =>
          outcome := RefRejected;
          assert (Model(), outcome) == spec;
        case Threw(newRefs) =>
          StoreRefs(id, Some(newRefs));
          outcome := RefThrew;
          assert (Model(), outcome) == spec;
        case Added(m, icon) =>
          StoreRefs(id, Some(m.refs));
          var p := PendingIcon(id, IsRelationId(id), cfg.url.value, m.cfg, m.ranges, sendMsg);
          DeliverOrWait(p, icon);
          outcome := RefAdded;
          assert (Model(), outcome) == spec;
      }
    }

    /** The favicon of the `k`-th pending reference arrives. */
    method CompleteIcon(k: nat, data: string)
      requires Valid() && k < |pending|
      modifies this
      ensures Valid()
      ensures Model() == CompleteIconSpec(old(Model()), k, data)
    {
      var p := pending[k];
      pending := pending[..k] + pending[k + 1..];
      var el := GetByIdSpec(Model(), p.id);
      if el.Some? && RefsOf(el.value).Some? {
        StoreRefs(p.id, Some(Refs.CompleteIcon(RefsOf(el.value).value, p.url, data)));
      }
      DeliverIcon(p, data);
    }

    /** `removeReference(id, url, send_msg)`. */
    method RemoveReference(id: string, url: string, sendMsg: bool) returns (found: bool)
      requires Valid()
      modifies this
      ensures Valid()
      ensures (Model(), found) == RemoveReferenceSpec(old(Model()), id, url, sendMsg)
    {
      ghost var spec := RemoveReferenceSpec(Model(), id, url, sendMsg);
      assert WellFormed(spec.0);
      var el := GetByIdSpec(Model(), id);
      found := el.Some?;
      if found {
        if RefsOf(el.value).Some? {
          StoreRefs(id, Some(RefsOf(el.value).value - {url}));
        }
        var onRelation := IsRelationId(id);
        CallHandler(if onRelation then RelationUpdateEv(id) else ConceptUpdateEv(id));
        SendIf(UpdateRefs(onRelation, Some(id), [], RefDelete(url)), sendMsg);
      }
      assert Model() == spec.0;
    }

    /** `getIds()`: a `Set` filled from the concepts, then the relations. */
    method GetIds() returns (ids: seq<string>)
      ensures ids == GetIdsSpec(Model())
    {
      var all := conceptOrder + relationOrder;
      ids := [];
      var i := 0;
      while i < |all|
        invariant 0 <= i <= |all|
        invariant ids == Dedup(all[..i])
      {
        ids := DedupPush(all, i, ids);
        i := i + 1;
      }
      assert all[..|all|] == all;
    }

    /** `getSelectedConceptIds()`. */
    method SelectedConceptIds() returns (ids: seq<string>)
      modifies this
      ensures (Model(), ids) == SelectedConceptIdsSpec(old(Model()))
    {
      if selConcepts.Some? {
        return selConcepts.value;
      }
      ids := [];
      var i := 0;
      while i < |selection|
        invariant 0 <= i <= |selection|
        invariant ids == Select(selection[..i], IsRelationIdFn(), false)
      {
        assert selection[..i + 1][..i] == selection[..i];
        if !IsRelationId(selection[i]) {
          ids := ids + [selection[i]];
        }
        i := i + 1;
      }
      assert selection[..|selection|] == selection;
      selConcepts := Some(ids);
    }

    /** `getSelectedRelationIds()`. */
    method SelectedRelationIds() returns (ids: seq<string>)
      modifies this
      ensures (Model(), ids) == SelectedRelationIdsSpec(old(Model()))
    {
      if selRelations.Some? {
        return selRelations.value;
      }
      ids := [];
      var i := 0;
      while i < |selection|
        invariant 0 <= i <= |selection|
        invariant ids == Select(selection[..i], IsRelationIdFn(), true)
      {
        assert selection[..i + 1][..i] == selection[..i];
        if IsRelationId(selection[i]) {
          ids := ids + [selection[i]];
        }
        i := i + 1;
      }
      assert selection[..|selection|] == selection;
      selRelations := Some(ids);
    }

    /** `clear()`. */
    method Clear()
      modifies this
      ensures Valid()
      ensures Model() == ClearSpec(old(Model()))
    {
      concepts := map[];
      conceptOrder := [];
      relations := map[];
      relationOrder := [];
      selection := [];
    }

    /** `for(var id in msg.concepts) this.addConcept(msg.concepts[id], false)`. */
    method AddAllConcepts(cs: seq<ConceptCfg>)
      requires Valid()
      modifies this
      ensures Valid()
      ensures Model() == AddConcepts(old(Model()), cs)
    {
      var i := 0;
      assert cs[i..] == cs;
      while i < |cs|
        invariant 0 <= i <= |cs| && Valid()
        invariant AddConcepts(old(Model()), cs) == AddConcepts(Model(), cs[i..])
      {
        assert cs[i..][1..] == cs[i + 1..];
        var added := AddConcept(cs[i], false);
        i := i + 1;
      }
    }

    /** `for(var id in msg.relations) this.addRelation(msg.relations[id], false)`. */
    method AddAllRelations(rs: seq<RelationCfg>)
      requires Valid()
      modifies this
      ensures Valid()
      ensures Model() == AddRelations(old(Model()), rs)
    {
      var i := 0;
      assert rs[i..] == rs;
      while i < |rs|
        invariant 0 <= i <= |rs| && Valid()
        invariant AddRelations(old(Model()), rs) == AddRelations(Model(), rs[i..])
      {
        assert rs[i..][1..] == rs[i + 1..];
        var added := AddRelation(rs[i], false);
        i := i + 1;
      }
    }

    /** The REFS branch of `handleMessage`. */
    method HandleRefs(id: string, cmd: RefCmd, baseDomain: string -> string) returns (r: HandleResult)
      requires Valid()
      modifies this
      ensures Valid()
      ensures (Model(), r) == HandleRefsSpec(old(Model()), id, cmd, baseDomain)
    {
      match cmd {
        case RefAdd(ref, _) =>
          var out := AddReference(id, ref, false, baseDomain);
          r := if out == RefThrew then Threw else Accepted;
        case RefDelete(url) =>
          var found := RemoveReference(id, url, false);
          r := Accepted;
        case RefUnknown(_) =>
          r := Rejected;
      }
    }

    /** `handleMessage(msg)`. */
    method HandleMessage(m: Msg, baseDomain: string -> string) returns (r: HandleResult)
      requires Valid()
      modifies this
      ensures Valid()
      ensures (Model(), r) == HandleMessageSpec(old(Model()), m, baseDomain)
    {
      ghost var spec := HandleMessageSpec(Model(), m, baseDomain);
      assert WellFormed(spec.0);
      r := Accepted;
      match m {
        case ConceptNew(c) =>
          var ok := AddConcept(c, false);
        case ConceptUpdate(c) =>
          var ok := UpdateConcept(c, false, false);
        case ConceptDelete(id) =>
          var ok := RemoveConcept(id, false);
        case LinkNew(rel) =>
          var ok := AddRelation(rel, false);
        case LinkUpdate(rel) =>
          var ok := UpdateRelation(rel, false);
        case LinkDelete(id) =>
          var ok := RemoveRelation(id, false);
        case UpdateRefs(_, refId, nodes, cmd) =>
          r := HandleRefs(RefsTarget(refId, nodes), cmd, baseDomain);
        case SelectionUpdate(sel) =>
          var ok := UpdateSelection(SetSel, sel, false);
        case GetFound(id, cs, rs, sel) =>
          if id == "/concepts/all" {
            AddAllConcepts(cs);
            AddAllRelations(rs);
            var ok := UpdateSelection(SetSel, sel, false);
          } else {
            r := Rejected;
          }
        case _ =>
          r := Rejected;
      }
      assert (Model(), r) == spec;
    }
  }
}
