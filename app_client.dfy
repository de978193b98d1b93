/** The networking core of the concept-graph page
    (`addons/concept-graph/app.js`): the send path that falls back to the
    local-storage channel in standalone mode, the queue of link REQUESTs
    whose target is not there yet, the set of active highlight links, and
    the reconnect countdown. Timers are recorded as scheduled entries, the
    socket as its ready state, and the outcome of the server ping is a
    parameter. Drawing, layout and dialogs are not modelled. */
module AppClient {
  import opened Common
  import opened Protocol
  import CG = ConceptGraph
  import Refs = References

  /** The id prefix of a link to a concept or relation of the graph. */
  const CONCEPT_LINK: string := "link://concept/"
  /** Delay of the queue drain after a new concept arrives, in ms. */
  const DRAIN_DELAY: int := 200
  /** The countdown started when the server ping fails, in ms. */
  const PING_RETRY_TIMEOUT: int := 5442

  /** A queued link request. */
  datatype Req = Req(id: string, stamp: int)

  /** A pending `setTimeout` of the connection logic. */
  datatype Timer = StartTimer(delay: int, check: bool) | CountdownTimer(delay: int, timeout: int)

  /** A notification shown to the user. */
  datatype Notice = Standalone | CheckingServer | Connecting | NotConnected(seconds: int)

  /** The page's globals. */
  datatype AppState = AppState(
    tryConnect: bool, socket: Socket,
    sent: seq<Msg>, stored: seq<Msg>,
    requestQueue: seq<Req>, activeLinks: seq<string>, queueTimeout: Option<int>,
    timers: seq<Timer>, notices: seq<Notice>)

  // ------------------------------------------------------------------ send

  /** `send(data)`: standalone, the message goes to the local-storage key
      and the socket is not looked at; without a socket the thrown error is
      caught and the socket becomes 0; a socket that is not open drops the
      message; an open one sends it. */
  function SendSpec(s: AppState, m: Msg): (r: AppState)
    ensures r.requestQueue == s.requestQueue && r.activeLinks == s.activeLinks
    ensures r.queueTimeout == s.queueTimeout && r.timers == s.timers && r.notices == s.notices
    ensures r.tryConnect == s.tryConnect
    ensures !s.tryConnect ==> r.socket == s.socket && r.sent == s.sent && r.stored == s.stored + [m]
    ensures s.tryConnect ==> r.stored == s.stored
    ensures r.sent == s.sent + [m] || r.sent == s.sent
    ensures r.sent == s.sent + [m] <==> s.tryConnect && s.socket == Ws(OPEN)
    ensures s.tryConnect && !s.socket.Ws? ==> r.socket == Failed
    ensures s.socket.Ws? ==> r.socket == s.socket
  {
    if !s.tryConnect then s.(stored := s.stored + [m])
    else if !s.socket.Ws? then s.(socket := Failed)
    else if s.socket.readyState != OPEN then s
    else s.(sent := s.sent + [m])
  }

  // ------------------------------------------------------- link requests

  /** The part of `handleRequest` that decides. */
  datatype Decision = Retry | Ignore | Resolve

  /** A link to the graph waits for its target; any other id is a keyword
      that either names a concept or is dropped. */
  function Decide(g: CG.GraphState, id: string): (r: Decision)
    ensures r == Retry ==> StartsWith(id, CONCEPT_LINK)
    ensures r == Ignore ==> !StartsWith(id, CONCEPT_LINK)
  {
    if StartsWith(id, CONCEPT_LINK) then
      if CG.GetByIdSpec(g, id[|CONCEPT_LINK|..]).None? then Retry else Resolve
    else if id in g.concepts then Resolve else Ignore
  }

  /** Once a concept is in the store, a waiting link to it resolves: adding
      a concept makes the request for its normalised id resolve, unless
      that id still holds a ':' and is looked up among the relations. */
  lemma {:induction false} RequestResolvesAfterConceptNew(g: CG.GraphState, cfg: ConceptCfg, sendMsg: bool)
    requires CG.WellFormed(g)
    requires ':' !in CG.NormalizeId(cfg.id)
    ensures var x := CG.NormalizeId(cfg.id);
            Decide(CG.AddConceptSpec(g, cfg, sendMsg).0, CONCEPT_LINK + x) == Resolve
  {
    var x := CG.NormalizeId(cfg.id);
    var g' := CG.AddConceptSpec(g, cfg, sendMsg).0;
    if x !in g.concepts {
      CG.AddConceptStores(g, cfg, sendMsg);
    }
    assert x in g'.concepts;
    var id := CONCEPT_LINK + x;
    assert id[..|CONCEPT_LINK|] == CONCEPT_LINK;
    assert id[|CONCEPT_LINK|..] == x;
    assert !CG.IsRelationId(x);
  }

  /** `active_links.add(id)`: a Set keeps its first insertion. */
  function AddLink(links: seq<string>, id: string): (r: seq<string>)
    ensures forall x :: x in r <==> x in links || x == id
    ensures Distinct(links) ==> Distinct(r)
    ensures |r| >= |links| && r[..|links|] == links
  {
    if id in links then links else links + [id]
  }

  /** `handleRequest(msg)`: a resolved request becomes an active link and
      answers with one FOUND carrying its id and stamp; the result says
      whether the request is finished (resolved or dropped). */
  function HandleRequestSpec(s: AppState, g: CG.GraphState, req: Req): (r: (AppState, bool))
    ensures r.1 <==> Decide(g, req.id) != Retry
    ensures r.0.requestQueue == s.requestQueue && r.0.queueTimeout == s.queueTimeout
    ensures r.0.timers == s.timers && r.0.tryConnect == s.tryConnect
    ensures Decide(g, req.id) != Resolve ==> r.0 == s
    ensures Decide(g, req.id) == Resolve ==>
              && req.id in r.0.activeLinks
              && r.0 == SendSpec(s.(activeLinks := AddLink(s.activeLinks, req.id)), Found(req.id, req.stamp))
  {
    match Decide(g, req.id)
    case Retry => (s, false)
    case Ignore => (s, true)
    case Resolve =>
      (SendSpec(s.(activeLinks := AddLink(s.activeLinks, req.id)), Found(req.id, req.stamp)), true)
  }

  /** The requests that still wait, in order. */
  function Retained(g: CG.GraphState, q: seq<Req>): (r: seq<Req>)
    ensures forall x :: x in r <==> x in q && Decide(g, x.id) == Retry
    decreases |q|
  {
    if |q| == 0 then []
    else
      var init := q[..|q| - 1];
      var x := q[|q| - 1];
      assert q == init + [x];
      var rest := Retained(g, init);
      if Decide(g, x.id) == Retry then rest + [x] else rest
  }

  /** The waiting requests keep their relative order. */
  lemma {:induction false} RetainedInOrder(g: CG.GraphState, q: seq<Req>)
    ensures SubseqOf(Retained(g, q), q)
    decreases |q|
  {
    if |q| > 0 {
      var init := q[..|q| - 1];
      var x := q[|q| - 1];
      RetainedInOrder(g, init);
      var rest := Retained(g, init);
      if Decide(g, x.id) == Retry {
        assert (rest + [x])[..|rest|] == rest;
      }
    }
  }

  /** `Retained` over a queue with one more entry at the end. */
  lemma {:induction false} RetainedSnoc(g: CG.GraphState, q: seq<Req>, x: Req)
    ensures Retained(g, q + [x]) == if Decide(g, x.id) == Retry then Retained(g, q) + [x] else Retained(g, q)
  {
    assert (q + [x])[..|q|] == q;
  }

  /** One step of the drain: entry `i - 1` is handled and, when it is
      finished, spliced out of the queue. */
  function DrainStep(s: AppState, g: CG.GraphState, i: nat): (r: AppState)
    requires 0 < i <= |s.requestQueue|
    ensures r.queueTimeout == s.queueTimeout && r.timers == s.timers && r.tryConnect == s.tryConnect
    ensures Decide(g, s.requestQueue[i - 1].id) == Resolve ==> s.requestQueue[i - 1].id in r.activeLinks
  {
    var (s1, done) := HandleRequestSpec(s, g, s.requestQueue[i - 1]);
    var q := s1.requestQueue;
    if done then s1.(requestQueue := q[..i - 1] + q[i..]) else s1
  }

  /** One round of the drain removes entry `i - 1` exactly when that
      request is finished, and leaves the rest of the queue in order. */
  lemma {:induction false} DrainStepSplices(s: AppState, g: CG.GraphState, i: nat)
    requires 0 < i <= |s.requestQueue|
    ensures var q := s.requestQueue;
            DrainStep(s, g, i).requestQueue == if Decide(g, q[i - 1].id) == Retry then q else q[..i - 1] + q[i..]
  {
  }

  /** The backwards loop of `checkRequestQueue` over the first `i` entries
      (from entry `i - 1` down to entry 0). */
  function DrainFrom(s: AppState, g: CG.GraphState, i: nat): (r: AppState)
    requires i <= |s.requestQueue|
    ensures r.queueTimeout == s.queueTimeout && r.timers == s.timers && r.tryConnect == s.tryConnect
    decreases i
  {
    if i == 0 then s else DrainFrom(DrainStep(s, g, i), g, i - 1)
  }

  /** The drain over `i` entries is one step, then the drain over the
      entries before. */
  lemma {:induction false} DrainFromUnfold(s: AppState, g: CG.GraphState, i: nat, drained: AppState)
    requires 0 < i <= |s.requestQueue| && DrainFrom(s, g, i) == drained
    ensures DrainFrom(DrainStep(s, g, i), g, i - 1) == drained
  {
  }

  /** The drain keeps exactly the requests that still wait, in their
      order, and leaves the unvisited tail alone. */
  lemma {:induction false} DrainKeepsWaiting(s: AppState, g: CG.GraphState, i: nat)
    requires i <= |s.requestQueue|
    ensures DrainFrom(s, g, i).requestQueue == Retained(g, s.requestQueue[..i]) + s.requestQueue[i..]
    decreases i
  {
    var q := s.requestQueue;
    if i == 0 {
      assert q[..0] == [];
      assert q[0..] == q;
    } else {
      var s2 := DrainStep(s, g, i);
      DrainKeepsWaiting(s2, g, i - 1);
      KeepsWaitingStep(g, q, s2.requestQueue, i);
    }
  }

  /** One step of the drain keeps the waiting prefix and the tail. */
  lemma {:induction false} KeepsWaitingStep(g: CG.GraphState, q: seq<Req>, q2: seq<Req>, i: nat)
    requires 0 < i <= |q|
    requires q2 == if Decide(g, q[i - 1].id) == Retry then q else q[..i - 1] + q[i..]
    ensures Retained(g, q2[..i - 1]) + q2[i - 1..] == Retained(g, q[..i]) + q[i..]
  {
    var x := q[i - 1];
    assert q[..i] == q[..i - 1] + [x];
    RetainedSnoc(g, q[..i - 1], x);
    if Decide(g, x.id) == Retry {
      KeepsWaitingTail(q, i);
    } else {
      assert q2[..i - 1] == q[..i - 1];
      assert q2[i - 1..] == q[i..];
    }
  }

  /** Entry `i - 1` moved from the tail to the end of the prefix. */
  lemma {:induction false} KeepsWaitingTail(q: seq<Req>, i: nat)
    requires 0 < i <= |q|
    ensures q[..i - 1] + [q[i - 1]] == q[..i] && q[i - 1..] == [q[i - 1]] + q[i..]
  {
    assert q[..i] == q[..i - 1] + [q[i - 1]];
    assert q[i - 1..] == [q[i - 1]] + q[i..];
  }

  /** Every request that resolves during the drain is an active link
      afterwards. */
  lemma {:induction false} DrainActivatesResolved(s: AppState, g: CG.GraphState, i: nat)
    requires i <= |s.requestQueue|
    ensures forall k :: 0 <= k < i && Decide(g, s.requestQueue[k].id) == Resolve ==>
              s.requestQueue[k].id in DrainFrom(s, g, i).activeLinks
    decreases i
  {
    if i > 0 {
      var s2 := DrainStep(s, g, i);
      DrainActivatesResolved(s2, g, i - 1);
      DrainKeepsLinks(s2, g, i - 1);
      SameUnvisited(s.requestQueue, s2.requestQueue, i);
    }
  }

  /** The drain never drops an active link. */
  lemma {:induction false} DrainKeepsLinks(s: AppState, g: CG.GraphState, i: nat)
    requires i <= |s.requestQueue|
    ensures forall x :: x in s.activeLinks ==> x in DrainFrom(s, g, i).activeLinks
    decreases i
  {
    if i > 0 {
      var s2 := DrainStep(s, g, i);
      DrainKeepsLinks(s2, g, i - 1);
      var (s1, _) := HandleRequestSpec(s, g, s.requestQueue[i - 1]);
      assert s2.activeLinks == s1.activeLinks;
    }
  }

  /** A drain step leaves the entries before `i - 1` where they were. */
  lemma {:induction false} SameUnvisited(q: seq<Req>, q2: seq<Req>, i: nat)
    requires 0 < i <= |q|
    requires q2 == q || q2 == q[..i - 1] + q[i..]
    ensures forall k :: 0 <= k < i - 1 ==> q2[k] == q[k]
  {
  }

  /** A queue of requests that all still wait is left as it is. */
  lemma {:induction false} DrainOfWaitingIsNoop(s: AppState, g: CG.GraphState, i: nat)
    requires i <= |s.requestQueue|
    requires forall k :: 0 <= k < i ==> Decide(g, s.requestQueue[k].id) == Retry
    ensures DrainFrom(s, g, i) == s
    decreases i
  {
    if i > 0 {
      DrainOfWaitingIsNoop(s, g, i - 1);
    }
  }

  /** `checkRequestQueue()`. The re-poll it means to arm tests
      `request_queue.size`, which an array does not have, so the drain
      timer always ends up null, whatever is left in the queue. */
  function CheckRequestQueueSpec(s: AppState, g: CG.GraphState): (r: AppState) {
    DrainFrom(s, g, |s.requestQueue|).(queueTimeout := None)
  }

  /** After a drain the queue holds exactly the waiting requests in order
      and no timer is pending, even when requests still wait; a second
      drain against the same graph changes nothing. */
  lemma {:induction false} CheckRequestQueueRules(s: AppState, g: CG.GraphState)
    ensures var r := CheckRequestQueueSpec(s, g);
            && r.requestQueue == Retained(g, s.requestQueue)
            && r.queueTimeout.None?
            && CheckRequestQueueSpec(r, g) == r
  {
    var q := s.requestQueue;
    DrainKeepsWaiting(s, g, |q|);
    assert q[..|q|] == q;
    assert q[|q|..] == [];
    var r := CheckRequestQueueSpec(s, g);
    assert r.requestQueue == Retained(g, q);
    forall k | 0 <= k < |r.requestQueue|
      ensures Decide(g, r.requestQueue[k].id) == Retry
    {
      assert r.requestQueue[k] in Retained(g, q);
    }
    DrainOfWaitingIsNoop(r, g, |r.requestQueue|);
  }

  /** What an inbound REQUEST does: an unresolved one joins the queue. */
  function OnRequestSpec(s: AppState, g: CG.GraphState, req: Req): (r: AppState) {
    var (s1, done) := HandleRequestSpec(s, g, req);
    if done then s1 else s1.(requestQueue := s1.requestQueue + [req])
  }

  /** A request is queued exactly when it must wait, and then at the end. */
  lemma {:induction false} OnRequestQueuesWaiting(s: AppState, g: CG.GraphState, req: Req)
    ensures var r := OnRequestSpec(s, g, req);
            && (Decide(g, req.id) == Retry ==> r == s.(requestQueue := s.requestQueue + [req]))
            && (Decide(g, req.id) != Retry ==> r.requestQueue == s.requestQueue)
  {
  }

  /** What the page does with a message the store rejected: a REQUEST is
      handled or queued, an ABORT drops the link. */
  function OnUnhandledSpec(s: AppState, g: CG.GraphState, m: Msg): (r: AppState)
    ensures m.Abort? ==> r.activeLinks == Common.Remove(s.activeLinks, m.id)
    ensures m.Abort? ==> r.requestQueue == s.requestQueue
    ensures m.Request? ==> r == OnRequestSpec(s, g, Req(m.id, m.stamp))
    ensures !m.Request? && !m.Abort? ==> r == s
  {
    match m
    case Request(id, stamp, _) => OnRequestSpec(s, g, Req(id, stamp))
    case Abort(id, _, _) => s.(activeLinks := Common.Remove(s.activeLinks, id))
    case _ => s
  }

  // ------------------------------------------------------- active links

  /** `sendInitiateForNode(n)`: an INITIATE for the node's link, carrying
      `n.refs || {}`, goes out, then the link is active. */
  function SendInitiateSpec(s: AppState, nodeId: string, refs: Option<map<string, Refs.Ref>>): (r: AppState)
    ensures forall x :: x in r.activeLinks <==> x in s.activeLinks || x == CONCEPT_LINK + nodeId
    ensures Distinct(s.activeLinks) ==> Distinct(r.activeLinks)
    ensures r.(activeLinks := s.activeLinks)
              == SendSpec(s, Initiate(CONCEPT_LINK + nodeId, if refs.Some? then refs.value else map[]))
  {
    var s1 := SendSpec(s, Initiate(CONCEPT_LINK + nodeId, if refs.Some? then refs.value else map[]));
    s1.(activeLinks := AddLink(s1.activeLinks, CONCEPT_LINK + nodeId))
  }

  /** `abortLink(id)`: an ABORT with stamp 0 and scope `all` goes out,
      then the link is gone. */
  function AbortLinkSpec(s: AppState, id: string): (r: AppState)
    ensures forall x :: x in r.activeLinks <==> x in s.activeLinks && x != id
    ensures Distinct(s.activeLinks) ==> Distinct(r.activeLinks)
    ensures r.(activeLinks := s.activeLinks) == SendSpec(s, Abort(id, 0, true))
  {
    var s1 := SendSpec(s, Abort(id, 0, true));
    s1.(activeLinks := Common.Remove(s1.activeLinks, id))
  }

  /** Link ids of two concepts are equal only for the same concept. */
  lemma {:induction false} LinkIdsDiffer(a: string, b: string)
    requires a != b
    ensures CONCEPT_LINK + a != CONCEPT_LINK + b
  {
    assert (CONCEPT_LINK + a)[|CONCEPT_LINK|..] == a;
    assert (CONCEPT_LINK + b)[|CONCEPT_LINK|..] == b;
  }

  // ------------------------------------------------- the page's handlers

  /** The page and the store after the page's handlers ran; `threw` is an
      exception escaping a handler, which ends `onmessage` there. */
  datatype Reacted = Reacted(app: AppState, graph: CG.GraphState, threw: bool)

  /** `g2` differs from `g` at most in the selection, its memoised
      projections and the fired events. */
  predicate SameStore(g: CG.GraphState, g2: CG.GraphState) {
    g2 == g.(selection := g2.selection, selConcepts := g2.selConcepts,
             selRelations := g2.selRelations, events := g2.events)
  }

  /** `SameStore` is an equivalence. */
  lemma {:induction false} SameStoreTrans(a: CG.GraphState, b: CG.GraphState, c: CG.GraphState)
    requires SameStore(a, b) && SameStore(b, c)
    ensures SameStore(a, c) && SameStore(c, a)
  {
  }

  /** The link whose ABORT the `selection-remove` handler sends. */
  predicate Aborts(e: CG.Event, x: string) {
    e.SelectionRemoveEv? && !e.onRelation && x == CONCEPT_LINK + e.id
  }

  /** The link whose INITIATE the `selection-add` or `concept-update`
      handler sends with `auto-link` on. */
  predicate Initiates(g: CG.GraphState, e: CG.Event, autoLink: bool, x: string) {
    && autoLink && (e.SelectionAddEv? || e.ConceptUpdateEv?) && e.id in g.concepts
    && x == CONCEPT_LINK + e.id
    && (if e.SelectionAddEv? then !e.onRelation else e.id in g.selection)
  }

  /** The `selection-remove`, `selection-add` and `concept-update`
      handlers for an event just fired on `g`; `autoLink` is the
      `auto-link` setting. A concept id that names no concept makes
      `getConceptById` undefined and `sendInitiateForNode` throw. The
      other handlers only redraw. */
  function OnGraphEvent(s: AppState, g: CG.GraphState, e: CG.Event, autoLink: bool): (r: (AppState, bool))
    ensures r.1 <==> autoLink && e.SelectionAddEv? && !e.onRelation && e.id !in g.concepts
    ensures r.1 ==> r.0 == s
    ensures forall x :: x in r.0.activeLinks <==> (x in s.activeLinks && !Aborts(e, x)) || Initiates(g, e, autoLink, x)
    ensures r.0.requestQueue == s.requestQueue && r.0.queueTimeout == s.queueTimeout
    ensures Distinct(s.activeLinks) ==> Distinct(r.0.activeLinks)
  {
    match e
    case SelectionRemoveEv(id, onRelation) =>
      (if onRelation then s else AbortLinkSpec(s, CONCEPT_LINK + id), false)
    case SelectionAddEv(id, onRelation) =>
      if !autoLink || onRelation then (s, false)
      else if id in g.concepts then (SendInitiateSpec(s, id, g.concepts[id].refs), false)
      else (s, true)
    case ConceptUpdateEv(id) =>
      if autoLink && id in g.selection && id in g.concepts then (SendInitiateSpec(s, id, g.concepts[id].refs), false)
      else (s, false)
    case _ => (s, false)
  }

  /** The store fires `evs` one by one and, for each event with a
      registered callback, the page's handler runs; a throwing handler
      ends the loop right after its event. */
  function FireReacting(s: AppState, g: CG.GraphState, evs: seq<CG.Event>, autoLink: bool): (r: Reacted)
    ensures r.graph == g.(events := r.graph.events)
    ensures r.threw ==> autoLink && exists e :: e in evs && e.SelectionAddEv? && !e.onRelation && e.id !in g.concepts
    ensures r.app.requestQueue == s.requestQueue && r.app.queueTimeout == s.queueTimeout
    ensures Distinct(s.activeLinks) ==> Distinct(r.app.activeLinks)
    decreases |evs|
  {
    if |evs| == 0 then Reacted(s, g, false)
    else
      var g1 := CG.Fire(g, evs[0]);
      var (s1, threw) := if CG.EventType(evs[0]) in g.handlers then OnGraphEvent(s, g1, evs[0], autoLink) else (s, false);
      if threw then Reacted(s1, g1, true) else FireReacting(s1, g1, evs[1..], autoLink)
  }

  /** Without a throw, the store ends where firing the events alone
      leaves it. */
  lemma {:induction false} FireReactingFires(s: AppState, g: CG.GraphState, evs: seq<CG.Event>, autoLink: bool)
    ensures var r := FireReacting(s, g, evs, autoLink);
            !r.threw ==> r.graph == CG.FireAll(g, evs)
    decreases |evs|
  {
    if |evs| > 0 {
      var g1 := CG.Fire(g, evs[0]);
      var (s1, threw) := if CG.EventType(evs[0]) in g.handlers then OnGraphEvent(s, g1, evs[0], autoLink) else (s, false);
      if !threw {
        FireReactingFires(s1, g1, evs[1..], autoLink);
        CG.FireAllAppend(g, [evs[0]], evs[1..]);
        assert [evs[0]] + evs[1..] == evs;
        assert [evs[0]][..0] == [];
      }
    }
  }

  /** A link no event of `evs` initiates stays inactive once inactive,
      and a `selection-remove` of its concept makes it inactive. */
  lemma {:induction false} LinkStaysAborted(s: AppState, g: CG.GraphState, evs: seq<CG.Event>, autoLink: bool, y: string)
    requires forall e :: e in evs ==> !((e.SelectionAddEv? || e.ConceptUpdateEv?) && e.id == y)
    ensures var r := FireReacting(s, g, evs, autoLink);
            && (CONCEPT_LINK + y !in s.activeLinks ==> CONCEPT_LINK + y !in r.app.activeLinks)
            && (!r.threw && "selection-remove" in g.handlers && CG.SelectionRemoveEv(y, false) in evs ==>
                  CONCEPT_LINK + y !in r.app.activeLinks)
    decreases |evs|
  {
    if |evs| > 0 {
      var e := evs[0];
      var g1 := CG.Fire(g, e);
      var (s1, threw) := if CG.EventType(e) in g.handlers then OnGraphEvent(s, g1, e, autoLink) else (s, false);
      if (e.SelectionAddEv? || e.ConceptUpdateEv?) {
        LinkIdsDiffer(e.id, y);
      }
      assert !Initiates(g1, e, autoLink, CONCEPT_LINK + y);
      assert e == CG.SelectionRemoveEv(y, false) && CG.EventType(e) in g.handlers ==> CONCEPT_LINK + y !in s1.activeLinks;
      if !threw {
        assert forall f :: f in evs[1..] ==> f in evs;
        LinkStaysAborted(s1, g1, evs[1..], autoLink, y);
        assert CG.SelectionRemoveEv(y, false) in evs ==> e == CG.SelectionRemoveEv(y, false) || CG.SelectionRemoveEv(y, false) in evs[1..];
      }
    }
  }

  /** A link no event of `evs` aborts stays active once active and, with
      `auto-link` on, a `selection-add` of its concept makes it active. */
  lemma {:induction false} LinkStaysActive(s: AppState, g: CG.GraphState, evs: seq<CG.Event>, autoLink: bool, y: string)
    requires CG.SelectionRemoveEv(y, false) !in evs
    ensures var r := FireReacting(s, g, evs, autoLink);
            && (!r.threw && CONCEPT_LINK + y in s.activeLinks ==> CONCEPT_LINK + y in r.app.activeLinks)
            && (!r.threw && autoLink && "selection-add" in g.handlers && CG.SelectionAddEv(y, false) in evs ==>
                  CONCEPT_LINK + y in r.app.activeLinks)
    decreases |evs|
  {
    if |evs| > 0 {
      var e := evs[0];
      var g1 := CG.Fire(g, e);
      var (s1, threw) := if CG.EventType(e) in g.handlers then OnGraphEvent(s, g1, e, autoLink) else (s, false);
      if e.SelectionRemoveEv? && !e.onRelation {
        LinkIdsDiffer(e.id, y);
      }
      assert !Aborts(e, CONCEPT_LINK + y);
      if !threw {
        assert forall f :: f in evs[1..] ==> f in evs;
        LinkStaysActive(s1, g1, evs[1..], autoLink, y);
        assert CG.SelectionAddEv(y, false) in evs ==> e == CG.SelectionAddEv(y, false) || CG.SelectionAddEv(y, false) in evs[1..];
      }
    }
  }

  /** `updateSelection('set', arg, false)` as the page's handlers see it:
      the store's events are fired with the handlers running. */
  function SetSelectionReacting(s: AppState, g: CG.GraphState, arg: SelArg, autoLink: bool): (r: Reacted)
    requires Distinct(g.selection)
    ensures r.graph.selection == CG.ArgIds(arg)
    ensures SameStore(g, r.graph)
    ensures CG.WellFormed(g) ==> CG.WellFormed(r.graph)
    ensures r.threw ==> autoLink && exists y :: y in CG.ArgIds(arg) && y !in g.selection && !CG.IsRelationId(y) && y !in g.concepts
    ensures r.app.requestQueue == s.requestQueue && r.app.queueTimeout == s.queueTimeout
    ensures Distinct(s.activeLinks) ==> Distinct(r.app.activeLinks)
  {
    var prev := g.selection;
    var cur := CG.NewSelection(prev, CG.SetSel, CG.ArgIds(arg));
    var evs := CG.RemovedEvents(prev, cur) + CG.AddedEvents(prev, cur);
    var fired := FireReacting(s, g.(selection := cur), evs, autoLink);
    if fired.threw || |evs| == 0 then fired
    else fired.(graph := CG.Fire(fired.graph.(selConcepts := None, selRelations := None), CG.SelectionChangeEv(cur, prev)))
  }

  /** Without a throw, the page's handlers leave the store where the
      store's own `updateSelection` leaves it. */
  lemma {:induction false} SetSelectionAgreesWithStore(s: AppState, g: CG.GraphState, arg: SelArg, autoLink: bool)
    requires Distinct(g.selection)
    ensures var r := SetSelectionReacting(s, g, arg, autoLink);
            !r.threw ==> r.graph == CG.UpdateSelectionSpec(g, CG.SetSel, arg, false).0
  {
    var prev := g.selection;
    var cur := CG.NewSelection(prev, CG.SetSel, CG.ArgIds(arg));
    var evs := CG.RemovedEvents(prev, cur) + CG.AddedEvents(prev, cur);
    FireReactingFires(s, g.(selection := cur), evs, autoLink);
  }

  /** What `SetSelectionReacting` does with the page: it is the loop of
      handlers over the `selection-remove` and `selection-add` events. */
  lemma {:induction false} SetSelectionUnfold(s: AppState, g: CG.GraphState, arg: SelArg, autoLink: bool)
    requires Distinct(g.selection)
    ensures var cur := CG.ArgIds(arg);
            var evs := CG.RemovedEvents(g.selection, cur) + CG.AddedEvents(g.selection, cur);
            var r := SetSelectionReacting(s, g, arg, autoLink);
            var fired := FireReacting(s, g.(selection := cur), evs, autoLink);
            r.app == fired.app && r.threw == fired.threw
  {
  }

  /** Selecting `arg` aborts the links of the concepts that leave the
      selection. */
  lemma {:induction false} SetSelectionAborts(s: AppState, g: CG.GraphState, arg: SelArg, autoLink: bool, y: string)
    requires Distinct(g.selection)
    requires y in g.selection && y !in CG.ArgIds(arg) && !CG.IsRelationId(y)
    ensures var r := SetSelectionReacting(s, g, arg, autoLink);
            !r.threw && "selection-remove" in g.handlers ==> CONCEPT_LINK + y !in r.app.activeLinks
  {
    var cur := CG.ArgIds(arg);
    var evs := CG.RemovedEvents(g.selection, cur) + CG.AddedEvents(g.selection, cur);
    SetSelectionUnfold(s, g, arg, autoLink);
    assert CG.SelectionRemoveEv(y, false) in evs;
    LinkStaysAborted(s, g.(selection := cur), evs, autoLink, y);
  }

  /** With `auto-link` on, selecting `arg` initiates the links of the
      concepts that join the selection. */
  lemma {:induction false} SetSelectionInitiates(s: AppState, g: CG.GraphState, arg: SelArg, autoLink: bool, y: string)
    requires Distinct(g.selection)
    requires y !in g.selection && y in CG.ArgIds(arg) && !CG.IsRelationId(y)
    ensures var r := SetSelectionReacting(s, g, arg, autoLink);
            !r.threw && autoLink && "selection-add" in g.handlers ==> CONCEPT_LINK + y in r.app.activeLinks
  {
    var cur := CG.ArgIds(arg);
    var evs := CG.RemovedEvents(g.selection, cur) + CG.AddedEvents(g.selection, cur);
    SetSelectionUnfold(s, g, arg, autoLink);
    assert CG.SelectionAddEv(y, false) in evs;
    LinkStaysActive(s, g.(selection := cur), evs, autoLink, y);
  }

  /** The link of a concept that stays selected stays active. */
  lemma {:induction false} SetSelectionKeeps(s: AppState, g: CG.GraphState, arg: SelArg, autoLink: bool, y: string)
    requires Distinct(g.selection)
    requires y in g.selection && y in CG.ArgIds(arg)
    ensures var r := SetSelectionReacting(s, g, arg, autoLink);
            !r.threw && CONCEPT_LINK + y in s.activeLinks ==> CONCEPT_LINK + y in r.app.activeLinks
  {
    var cur := CG.ArgIds(arg);
    var evs := CG.RemovedEvents(g.selection, cur) + CG.AddedEvents(g.selection, cur);
    SetSelectionUnfold(s, g, arg, autoLink);
    LinkStaysActive(s, g.(selection := cur), evs, autoLink, y);
  }

  /** With `auto-link` off, selecting never initiates a link. */
  lemma {:induction false} SetSelectionOnlyAborts(s: AppState, g: CG.GraphState, arg: SelArg)
    requires Distinct(g.selection)
    ensures var r := SetSelectionReacting(s, g, arg, false);
            forall x :: x in r.app.activeLinks ==> x in s.activeLinks
  {
    var cur := CG.ArgIds(arg);
    var evs := CG.RemovedEvents(g.selection, cur) + CG.AddedEvents(g.selection, cur);
    SetSelectionUnfold(s, g, arg, false);
    LinksOnlyShrink(s, g.(selection := cur), evs);
  }

  /** With `auto-link` off the handlers only ever drop links. */
  lemma {:induction false} LinksOnlyShrink(s: AppState, g: CG.GraphState, evs: seq<CG.Event>)
    ensures var r := FireReacting(s, g, evs, false);
            forall x :: x in r.app.activeLinks ==> x in s.activeLinks
    decreases |evs|
  {
    if |evs| > 0 {
      var g1 := CG.Fire(g, evs[0]);
      var (s1, threw) := if CG.EventType(evs[0]) in g.handlers then OnGraphEvent(s, g1, evs[0], false) else (s, false);
      if !threw {
        LinksOnlyShrink(s1, g1, evs[1..]);
      }
    }
  }

  /** The page's handler for an event the store fired while it handled a
      message: `concept-new` re-arms the drain of the request queue and,
      like `relation-new`, selects the new element. */
  function OnStoreEvent(s: AppState, g: CG.GraphState, e: CG.Event, autoLink: bool): (r: Reacted)
    requires CG.WellFormed(g)
    ensures CG.WellFormed(r.graph) && SameStore(g, r.graph)
    ensures e.ConceptNewEv? ==> r.app.queueTimeout == Some(DRAIN_DELAY)
    ensures e.ConceptNewEv? || e.RelationNewEv? ==> r.graph.selection == [e.id]
    ensures !e.ConceptNewEv? ==> r.app.queueTimeout == s.queueTimeout
    ensures r.app.requestQueue == s.requestQueue
    ensures !autoLink ==> !r.threw
  {
    match e
    case ConceptNewEv(id) => SetSelectionReacting(s.(queueTimeout := Some(DRAIN_DELAY)), g, One(id), autoLink)
    case RelationNewEv(id) => SetSelectionReacting(s, g, One(id), autoLink)
    case _ =>
      var (s1, threw) := OnGraphEvent(s, g, e, autoLink);
      Reacted(s1, g, threw)
  }

  /** The events recorded after the first `|before|`. */
  function NewEvents(before: seq<(nat, CG.Event)>, after: seq<(nat, CG.Event)>): seq<(nat, CG.Event)> {
    if |before| <= |after| then after[|before|..] else []
  }

  /** The page's handlers for the events the store fired, in order; a
      throw ends the handling. */
  function ReactAll(s: AppState, g: CG.GraphState, evs: seq<(nat, CG.Event)>, autoLink: bool): (r: Reacted)
    requires CG.WellFormed(g)
    ensures CG.WellFormed(r.graph) && SameStore(g, r.graph)
    ensures r.app.requestQueue == s.requestQueue
    ensures !autoLink ==> !r.threw
    decreases |evs|
  {
    if |evs| == 0 then Reacted(s, g, false)
    else
      var r1 := OnStoreEvent(s, g, evs[0].1, autoLink);
      if r1.threw then r1 else ReactAll(r1.app, r1.graph, evs[1..], autoLink)
  }

  /** One more event of `ReactAll`. */
  lemma {:induction false} ReactAllStep(s: AppState, g: CG.GraphState, evs: seq<(nat, CG.Event)>, autoLink: bool, r1: Reacted)
    requires CG.WellFormed(g) && |evs| > 0
    requires r1 == OnStoreEvent(s, g, evs[0].1, autoLink)
    ensures ReactAll(s, g, evs, autoLink) == if r1.threw then r1 else ReactAll(r1.app, r1.graph, evs[1..], autoLink)
  {
  }

  /** The concepts of a GET-FOUND, each added with its handlers run. */
  function AddConceptsReacting(s: AppState, g: CG.GraphState, cs: seq<ConceptCfg>, autoLink: bool): (r: Reacted)
    requires CG.WellFormed(g)
    ensures CG.WellFormed(r.graph)
    ensures !autoLink ==> !r.threw
    decreases |cs|
  {
    if |cs| == 0 then Reacted(s, g, false)
    else
      var g1 := CG.AddConceptSpec(g, cs[0], false).0;
      var r1 := ReactAll(s, g1, NewEvents(g.events, g1.events), autoLink);
      if r1.threw then r1 else AddConceptsReacting(r1.app, r1.graph, cs[1..], autoLink)
  }

  /** The relations of a GET-FOUND, each added with its handlers run. */
  function AddRelationsReacting(s: AppState, g: CG.GraphState, rs: seq<RelationCfg>, autoLink: bool): (r: Reacted)
    requires CG.WellFormed(g)
    ensures CG.WellFormed(r.graph)
    ensures !autoLink ==> !r.threw
    decreases |rs|
  {
    if |rs| == 0 then Reacted(s, g, false)
    else
      var g1 := CG.AddRelationSpec(g, rs[0], false).0;
      var r1 := ReactAll(s, g1, NewEvents(g.events, g1.events), autoLink);
      if r1.threw then r1 else AddRelationsReacting(r1.app, r1.graph, rs[1..], autoLink)
  }

  /** One more concept of a GET-FOUND. */
  lemma {:induction false} AddConceptsReactingStep(s: AppState, g: CG.GraphState, cs: seq<ConceptCfg>, autoLink: bool, r1: Reacted)
    requires CG.WellFormed(g) && |cs| > 0
    requires var g1 := CG.AddConceptSpec(g, cs[0], false).0;
             r1 == ReactAll(s, g1, NewEvents(g.events, g1.events), autoLink)
    ensures AddConceptsReacting(s, g, cs, autoLink) == if r1.threw then r1 else AddConceptsReacting(r1.app, r1.graph, cs[1..], autoLink)
  {
  }

  /** One more relation of a GET-FOUND. */
  lemma {:induction false} AddRelationsReactingStep(s: AppState, g: CG.GraphState, rs: seq<RelationCfg>, autoLink: bool, r1: Reacted)
    requires CG.WellFormed(g) && |rs| > 0
    requires var g1 := CG.AddRelationSpec(g, rs[0], false).0;
             r1 == ReactAll(s, g1, NewEvents(g.events, g1.events), autoLink)
    ensures AddRelationsReacting(s, g, rs, autoLink) == if r1.threw then r1 else AddRelationsReacting(r1.app, r1.graph, rs[1..], autoLink)
  {
  }

  /** A message other than SELECTION-UPDATE and GET-FOUND: the store's
      operation runs, then the page's handlers for the events it fired; a
      message the store does not know goes to the page's own branches; an
      exception from the store or a handler ends the handling. */
  function OnStoreMessage(s: AppState, g: CG.GraphState, m: Msg, autoLink: bool, baseDomain: string -> string): (r: Reacted)
    requires CG.WellFormed(g)
    ensures CG.WellFormed(r.graph)
    ensures SameStore(CG.HandleMessageSpec(g, m, baseDomain).0, r.graph)
    ensures CG.HandleMessageSpec(g, m, baseDomain).1 == CG.Rejected ==>
              r == Reacted(OnUnhandledSpec(s, g, m), g, false)
    ensures !autoLink ==> (r.threw <==> CG.HandleMessageSpec(g, m, baseDomain).1 == CG.Threw)
    ensures CG.HandleMessageSpec(g, m, baseDomain).1 != CG.Rejected ==> r.app.requestQueue == s.requestQueue
  {
    var (g', res) := CG.HandleMessageSpec(g, m, baseDomain);
    if res == CG.Rejected then Reacted(OnUnhandledSpec(s, g, m), g, false)
    else
      var r := ReactAll(s, g', NewEvents(g.events, g'.events), autoLink);
      r.(threw := r.threw || res == CG.Threw)
  }

  /** The GET-FOUND of `/concepts/all`: concepts, then relations, then
      the selection, each with the page's handlers running. */
  function GetFoundReacting(s: AppState, g: CG.GraphState, cs: seq<ConceptCfg>, rs: seq<RelationCfg>, sel: SelArg,
                            autoLink: bool): (r: Reacted)
    requires CG.WellFormed(g)
    ensures CG.WellFormed(r.graph)
    ensures !autoLink ==> !r.threw
    ensures !r.threw ==> r.graph.selection == CG.ArgIds(sel)
  {
    var r1 := AddConceptsReacting(s, g, cs, autoLink);
    if r1.threw then r1
    else
      var r2 := AddRelationsReacting(r1.app, r1.graph, rs, autoLink);
      if r2.threw then r2 else SetSelectionReacting(r2.app, r2.graph, sel, autoLink)
  }

  /** `links_socket.onmessage` for the parsed message `m`, with the
      `auto-link` setting `autoLink`. */
  function OnMessageSpec(s: AppState, g: CG.GraphState, m: Msg, autoLink: bool, baseDomain: string -> string): (r: Reacted)
    requires CG.WellFormed(g)
    ensures CG.WellFormed(r.graph)
  {
    if m.SelectionUpdate? then SetSelectionReacting(s, g, m.selection, autoLink)
    else if m.GetFound? then
      if m.id == "/concepts/all" then GetFoundReacting(s, g, m.concepts, m.relations, m.sel, autoLink)
      else Reacted(s, g, false)
    else OnStoreMessage(s, g, m, autoLink, baseDomain)
  }

  /** The page and the store agree: apart from a GET-FOUND (whose handlers
      select each new element in turn), the store ends as `handleMessage`
      alone leaves it up to the selection, and exactly so for a
      SELECTION-UPDATE that does not throw; a rejected message reaches the
      page's own branches; with `auto-link` off, only the store throws. */
  lemma {:induction false} OnMessageAgreesWithStore(s: AppState, g: CG.GraphState, m: Msg, autoLink: bool,
                                                    baseDomain: string -> string)
    requires CG.WellFormed(g)
    ensures var r := OnMessageSpec(s, g, m, autoLink, baseDomain);
            var h := CG.HandleMessageSpec(g, m, baseDomain);
            && (!m.GetFound? ==> SameStore(h.0, r.graph))
            && (m.SelectionUpdate? && !r.threw ==> r.graph == h.0)
            && (h.1 == CG.Rejected ==> r == Reacted(OnUnhandledSpec(s, g, m), g, false))
            && (!autoLink ==> (r.threw <==> h.1 == CG.Threw))
  {
    if m.SelectionUpdate? {
      assert CG.HandleMessageSpec(g, m, baseDomain).0 == CG.UpdateSelectionSpec(g, CG.SetSel, m.selection, false).0;
      SetSelectionAgreesWithStore(s, g, m.selection, autoLink);
    } else if m.GetFound? {
      assert CG.HandleMessageSpec(g, m, baseDomain).1 == if m.id == "/concepts/all" then CG.Accepted else CG.Rejected;
    }
  }

  /** Adding a concept does not look at the selection or the fired
      events. */
  lemma {:induction false} AddConceptIgnoresSelection(g: CG.GraphState, h: CG.GraphState, cfg: ConceptCfg)
    requires SameStore(g, h)
    ensures SameStore(CG.AddConceptSpec(g, cfg, false).0, CG.AddConceptSpec(h, cfg, false).0)
  {
  }

  /** Adding a relation does not look at the selection or the fired
      events. */
  lemma {:induction false} AddRelationIgnoresSelection(g: CG.GraphState, h: CG.GraphState, cfg: RelationCfg)
    requires SameStore(g, h)
    ensures SameStore(CG.AddRelationSpec(g, cfg, false).0, CG.AddRelationSpec(h, cfg, false).0)
  {
  }

  /** Without a throw, the concepts and relations the page ends with are
      those `handleMessage` alone adds to any store that differs only in
      its selection and events. */
  lemma {:induction false} AddConceptsReactingAgrees(s: AppState, g: CG.GraphState, h: CG.GraphState,
                                                     cs: seq<ConceptCfg>, autoLink: bool)
    requires CG.WellFormed(g) && SameStore(g, h)
    ensures var r := AddConceptsReacting(s, g, cs, autoLink);
            !r.threw ==> SameStore(CG.AddConcepts(h, cs), r.graph)
    decreases |cs|
  {
    if |cs| > 0 {
      var g1 := CG.AddConceptSpec(g, cs[0], false).0;
      var r1 := ReactAll(s, g1, NewEvents(g.events, g1.events), autoLink);
      if !r1.threw {
        AddConceptIgnoresSelection(g, h, cs[0]);
        AddConceptsReactingAgrees(r1.app, r1.graph, CG.AddConceptSpec(h, cs[0], false).0, cs[1..], autoLink);
      }
    }
  }

  /** The same for the relations of a GET-FOUND. */
  lemma {:induction false} AddRelationsReactingAgrees(s: AppState, g: CG.GraphState, h: CG.GraphState,
                                                      rs: seq<RelationCfg>, autoLink: bool)
    requires CG.WellFormed(g) && SameStore(g, h)
    ensures var r := AddRelationsReacting(s, g, rs, autoLink);
            !r.threw ==> SameStore(CG.AddRelations(h, rs), r.graph)
    decreases |rs|
  {
    if |rs| > 0 {
      var g1 := CG.AddRelationSpec(g, rs[0], false).0;
      var r1 := ReactAll(s, g1, NewEvents(g.events, g1.events), autoLink);
      if !r1.threw {
        AddRelationIgnoresSelection(g, h, rs[0]);
        AddRelationsReactingAgrees(r1.app, r1.graph, CG.AddRelationSpec(h, rs[0], false).0, rs[1..], autoLink);
      }
    }
  }

  /** A GET-FOUND of `/concepts/all` that no handler interrupts leaves
      the store as `handleMessage` alone does (its concepts, then its
      relations, then its selection), selection included, up to the fired
      events and the memoised projections. */
  lemma {:induction false} GetFoundAgreesWithStore(s: AppState, g: CG.GraphState, cs: seq<ConceptCfg>,
                                                   rs: seq<RelationCfg>, sel: SelArg, autoLink: bool,
                                                   baseDomain: string -> string)
    requires CG.WellFormed(g)
    ensures var m := GetFound("/concepts/all", cs, rs, sel);
            var r := OnMessageSpec(s, g, m, autoLink, baseDomain);
            var h := CG.UpdateSelectionSpec(CG.AddRelations(CG.AddConcepts(g, cs), rs), CG.SetSel, sel, false).0;
            !r.threw ==> SameStore(h, r.graph) && r.graph.selection == h.selection
  {
    var m := GetFound("/concepts/all", cs, rs, sel);
    var r := OnMessageSpec(s, g, m, autoLink, baseDomain);
    assert r == GetFoundReacting(s, g, cs, rs, sel, autoLink);
    var r1 := AddConceptsReacting(s, g, cs, autoLink);
    AddConceptsReactingAgrees(s, g, g, cs, autoLink);
    if !r1.threw {
      var h1 := CG.AddConcepts(g, cs);
      var r2 := AddRelationsReacting(r1.app, r1.graph, rs, autoLink);
      SameStoreTrans(r1.graph, h1, h1);
      AddRelationsReactingAgrees(r1.app, r1.graph, h1, rs, autoLink);
      if !r2.threw {
        var h2 := CG.AddRelations(h1, rs);
        var h := CG.UpdateSelectionSpec(h2, CG.SetSel, sel, false).0;
        assert r == SetSelectionReacting(r2.app, r2.graph, sel, autoLink);
        assert SameStore(h2, h);
        SameStoreTrans(h, h2, r2.graph);
        SameStoreTrans(h, r2.graph, r.graph);
      }
    }
  }

  /** A CONCEPT-NEW for a new id: the store adds the concept and fires
      one `concept-new` event. */
  lemma {:induction false} ConceptNewStored(s: AppState, g: CG.GraphState, cfg: ConceptCfg, autoLink: bool,
                                            baseDomain: string -> string)
    requires CG.WellFormed(g)
    requires "concept-new" in g.handlers && CG.NormalizeId(cfg.id) !in g.concepts
    ensures var g1 := CG.AddConceptSpec(g, cfg, false).0;
            OnStoreMessage(s, g, ConceptNew(cfg), autoLink, baseDomain)
            == ReactAll(s, g1, [(g.handlers["concept-new"], CG.ConceptNewEv(CG.NormalizeId(cfg.id)))], autoLink)
  {
    var x := CG.NormalizeId(cfg.id);
    var g1 := CG.AddConceptSpec(g, cfg, false).0;
    CG.AddConceptStores(g, cfg, false);
    var ev := (g.handlers["concept-new"], CG.ConceptNewEv(x));
    assert NewEvents(g.events, g1.events) == [ev];
    ConceptNewAccepted(g, cfg, baseDomain);
  }

  /** `handleMessage` adds the concept of a CONCEPT-NEW. */
  lemma {:induction false} ConceptNewAccepted(g: CG.GraphState, cfg: ConceptCfg, baseDomain: string -> string)
    requires CG.WellFormed(g)
    ensures CG.HandleMessageSpec(g, ConceptNew(cfg), baseDomain) == (CG.AddConceptSpec(g, cfg, false).0, CG.Accepted)
  {
  }

  /** Every message but SELECTION-UPDATE and GET-FOUND goes through the
      store first. */
  lemma {:induction false} OnMessageByStore(s: AppState, g: CG.GraphState, m: Msg, autoLink: bool,
                                            baseDomain: string -> string)
    requires CG.WellFormed(g) && !m.SelectionUpdate? && !m.GetFound?
    ensures OnMessageSpec(s, g, m, autoLink, baseDomain) == OnStoreMessage(s, g, m, autoLink, baseDomain)
  {
  }

  /** The `concept-new` handler re-arms the drain and selects the new
      concept. */
  lemma {:induction false} ConceptNewHandled(s: AppState, g1: CG.GraphState, h: nat, x: string, autoLink: bool)
    requires CG.WellFormed(g1) && x in g1.concepts
    ensures var r1 := SetSelectionReacting(s.(queueTimeout := Some(DRAIN_DELAY)), g1, One(x), autoLink);
            ReactAll(s, g1, [(h, CG.ConceptNewEv(x))], autoLink) == r1 && !r1.threw
  {
    var ev := (h, CG.ConceptNewEv(x));
    var r1 := SetSelectionReacting(s.(queueTimeout := Some(DRAIN_DELAY)), g1, One(x), autoLink);
    assert OnStoreEvent(s, g1, ev.1, autoLink) == r1;
    assert CG.ArgIds(One(x)) == [x];
    assert !r1.threw;
    ReactAllStep(s, g1, [ev], autoLink, r1);
    assert [ev][1..] == [];
  }

  /** A CONCEPT-NEW for a new id selects exactly that concept, aborts
      the links of the concepts that were selected, re-arms the drain of
      the request queue and, with `auto-link` on, initiates the new
      concept's link; nothing throws. */
  lemma {:induction false} ConceptNewSelectsIt(s: AppState, g: CG.GraphState, cfg: ConceptCfg, autoLink: bool,
                                               baseDomain: string -> string)
    requires CG.WellFormed(g)
    requires "concept-new" in g.handlers && CG.NormalizeId(cfg.id) !in g.concepts
    ensures var x := CG.NormalizeId(cfg.id);
            var r := OnMessageSpec(s, g, ConceptNew(cfg), autoLink, baseDomain);
            && !r.threw
            && r.graph.selection == [x]
            && x in r.graph.concepts
            && r.app.queueTimeout == Some(DRAIN_DELAY)
            && ("selection-remove" in g.handlers ==>
                  forall y :: y in g.selection && y != x && !CG.IsRelationId(y) ==> CONCEPT_LINK + y !in r.app.activeLinks)
            && (autoLink && "selection-add" in g.handlers && x !in g.selection && !CG.IsRelationId(x) ==>
                  CONCEPT_LINK + x in r.app.activeLinks)
  {
    var x := CG.NormalizeId(cfg.id);
    var g1 := CG.AddConceptSpec(g, cfg, false).0;
    CG.AddConceptStores(g, cfg, false);
    OnMessageByStore(s, g, ConceptNew(cfg), autoLink, baseDomain);
    ConceptNewStored(s, g, cfg, autoLink, baseDomain);
    ConceptNewHandled(s, g1, g.handlers["concept-new"], x, autoLink);
    var s1 := s.(queueTimeout := Some(DRAIN_DELAY));
    var r1 := SetSelectionReacting(s1, g1, One(x), autoLink);
    assert CG.ArgIds(One(x)) == [x];
    forall y | y in g.selection && y != x && !CG.IsRelationId(y)
      ensures "selection-remove" in g.handlers ==> CONCEPT_LINK + y !in r1.app.activeLinks
    {
      SetSelectionAborts(s1, g1, One(x), autoLink, y);
    }
    if x !in g.selection && !CG.IsRelationId(x) {
      SetSelectionInitiates(s1, g1, One(x), autoLink, x);
    }
  }

  /** `abortLink` for each of `ids` in turn. */
  function AbortAllSpec(s: AppState, ids: seq<string>): (r: AppState)
    decreases |ids|
  {
    if |ids| == 0 then s else AbortAllSpec(AbortLinkSpec(s, ids[0]), ids[1..])
  }

  /** Aborting a list of links removes each of them and nothing else. */
  lemma {:induction false} AbortAllRemoves(s: AppState, ids: seq<string>)
    ensures forall x :: x in AbortAllSpec(s, ids).activeLinks <==> x in s.activeLinks && x !in ids
    decreases |ids|
  {
    if |ids| > 0 {
      AbortAllRemoves(AbortLinkSpec(s, ids[0]), ids[1..]);
      assert ids == [ids[0]] + ids[1..];
    }
  }

  /** `abortAllLinks()` leaves no active link. */
  lemma {:induction false} AbortAllEmpties(s: AppState)
    ensures forall x :: x !in AbortAllSpec(s, s.activeLinks).activeLinks
  {
    AbortAllRemoves(s, s.activeLinks);
  }

  // ------------------------------------------------------ (re)connecting

  /** `Math.round(t / 1000)`: half-way values round up. */
  function RoundSeconds(t: int): int {
    (t + 500) / 1000
  }

  /** One call of `startWithCountdownMessage(timeout)`. */
  function CountdownStepSpec(s: AppState, timeout: int): (r: AppState)
    ensures !s.tryConnect ==> r == s
    ensures r.socket == s.socket && r.sent == s.sent && r.stored == s.stored
    ensures s.tryConnect ==> |r.timers| == |s.timers| + 1 && r.timers[..|s.timers|] == s.timers
  {
    if !s.tryConnect then s
    else if timeout >= 1000 then
      s.(notices := s.notices + [NotConnected(RoundSeconds(timeout))],
         timers := s.timers + [CountdownTimer(1000, timeout - 1000)])
    else s.(notices := s.notices + [CheckingServer], timers := s.timers + [StartTimer(timeout, true)])
  }

  /** The whole chain of countdown steps from `timeout`: the seconds shown
      on the way and the delay after which `start(true)` runs. Every step
      lowers the timeout by 1000, so the chain ends. */
  function Countdown(timeout: int): (r: (seq<int>, int))
    ensures timeout >= 0 ==> |r.0| == timeout / 1000 && r.1 == timeout % 1000
    ensures timeout < 1000 ==> r == ([], timeout)
    ensures r.1 < 1000
    ensures forall i :: 0 <= i < |r.0| ==> r.0[i] == RoundSeconds(timeout - 1000 * i) && r.0[i] >= 1
    decreases if timeout < 1000 then 0 else timeout
  {
    if timeout < 1000 then ([], timeout)
    else
      var rest := Countdown(timeout - 1000);
      assert (timeout - 1000) / 1000 == timeout / 1000 - 1;
      assert (timeout - 1000) % 1000 == timeout % 1000;
      ([RoundSeconds(timeout)] + rest.0, rest.1)
  }

  /** Each step of the method follows the chain: it shows the first second
      count and schedules the rest of the chain, or schedules the start. */
  lemma {:induction false} CountdownStepFollowsChain(s: AppState, timeout: int)
    requires s.tryConnect
    ensures var r := CountdownStepSpec(s, timeout);
            var c := Countdown(timeout);
            if timeout >= 1000 then
              && r.notices == s.notices + [NotConnected(c.0[0])]
              && r.timers == s.timers + [CountdownTimer(1000, timeout - 1000)]
              && Countdown(timeout - 1000) == (c.0[1..], c.1)
            else
              r.timers == s.timers + [StartTimer(c.1, true)]
  {
    if timeout >= 1000 {
      var c := Countdown(timeout);
      assert c.0 == [RoundSeconds(timeout)] + Countdown(timeout - 1000).0;
    }
  }

  /** After a failed ping the user sees 5, 4, 3, 2, 1 and the server is
      checked again 442 ms later. */
  lemma {:induction false} PingRetryCountdown()
    ensures Countdown(PING_RETRY_TIMEOUT) == ([5, 4, 3, 2, 1], 442)
  {
    assert Countdown(442) == ([], 442);
    assert RoundSeconds(1442) == 1 && RoundSeconds(2442) == 2 && RoundSeconds(3442) == 3;
    assert RoundSeconds(4442) == 4 && RoundSeconds(5442) == 5;
    assert Countdown(1442) == ([1] + [], 442);
    assert [1] + [] == [1];
    assert Countdown(2442) == ([2] + [1], 442);
    assert [2] + [1] == [2, 1];
    assert Countdown(3442) == ([3] + [2, 1], 442);
    assert [3] + [2, 1] == [3, 2, 1];
    assert Countdown(4442) == ([4] + [3, 2, 1], 442);
    assert [4] + [3, 2, 1] == [4, 3, 2, 1];
    assert Countdown(5442) == ([5] + [4, 3, 2, 1], 442);
    assert [5] + [4, 3, 2, 1] == [5, 4, 3, 2, 1];
  }

  /** `start(check)`; `pingOk` is the outcome of the server ping. */
  function StartSpec(s: AppState, check: bool, pingOk: bool): (r: AppState) {
    if check then
      if !s.tryConnect then s.(notices := s.notices + [Standalone])
      else
        var s1 := s.(notices := s.notices + [CheckingServer]);
        if pingOk then s1.(notices := s1.notices + [Connecting], timers := s1.timers + [StartTimer(0, false)])
        else CountdownStepSpec(s1, PING_RETRY_TIMEOUT)
    else s.(notices := s.notices + [Connecting], socket := Ws(CONNECTING))
  }

  /** Standalone, `start` only reports it; connected, a socket is opened
      only by the unchecked start. */
  lemma {:induction false} StartOpensOnlyUnchecked(s: AppState, check: bool, pingOk: bool)
    ensures var r := StartSpec(s, check, pingOk);
            && (check ==> r.socket == s.socket && r.sent == s.sent && r.stored == s.stored)
            && (!check ==> r.socket == Ws(CONNECTING))
            && (check && !s.tryConnect ==> r.timers == s.timers)
  {
  }

  /** `stop()`. */
  function StopSpec(s: AppState): (r: AppState)
    ensures !r.socket.Ws?
    ensures !s.tryConnect ==> r.stored == s.stored + [Get("/concepts/all")]
    ensures s.tryConnect ==> r.sent == s.sent && r.stored == s.stored
  {
    var s1 := if s.socket.Ws? then s.(socket := NoSocket) else s;
    if !s1.tryConnect then SendSpec(s1, Get("/concepts/all")) else s1
  }

  /** `nodeSize(node)`: the drawn width and height of a node. */
  function NodeSize(hasIcon: bool, name: Option<string>): (r: (int, int))
    ensures r.1 == 16 && r.0 >= 12 && r.0 % 4 == 0
    ensures hasIcon || name.None? ==> r.0 == 16
  {
    (if hasIcon then 16 else if name.Some? then |name.value| * 4 + 12 else 16, 16)
  }

  /** Without an icon a longer name never gives a narrower node. */
  lemma {:induction false} NodeWidthGrowsWithName(a: string, b: string)
    requires |a| <= |b|
    ensures NodeSize(false, Some(a)).0 <= NodeSize(false, Some(b)).0
  {
  }

  // ------------------------------------------------------------- the page

  class App {
    var graph: CG.Store
    var tryConnect: bool
    var socket: Socket
    var sent: seq<Msg>
    var stored: seq<Msg>
    var requestQueue: seq<Req>
    var activeLinks: seq<string>
    var queueTimeout: Option<int>
    var timers: seq<Timer>
    var notices: seq<Notice>

    function Model(): AppState
      reads this
    {
      AppState(tryConnect, socket, sent, stored, requestQueue, activeLinks, queueTimeout, timers, notices)
    }

    ghost predicate Valid()
      reads this, graph
    {
      graph.Valid()
    }

    /** The page as loaded. */
    constructor(tryConnect: bool)
      ensures Valid() && fresh(graph)
      ensures Model() == AppState(tryConnect, NoSocket, [], [], [], [], None, [], [])
    {
      graph := new CG.Store();
      this.tryConnect := tryConnect;
      socket := NoSocket;
      sent, stored := [], [];
      requestQueue, activeLinks := [], [];
      queueTimeout := None;
      timers, notices := [], [];
    }

    /** `send(data)`. */
    method Send(m: Msg)
      modifies this
      ensures graph == old(graph)
      ensures Model() == SendSpec(old(Model()), m)
    {
      if !tryConnect {
        stored := stored + [m];
        return;
      }
      if !socket.Ws? {
        socket := Failed;
        return;
      }
      if socket.readyState != OPEN {
        return;
      }
      sent := sent + [m];
    }

    /** `handleRequest(msg)` against the graph `g`. */
    method HandleRequest(g: CG.GraphState, req: Req) returns (done: bool)
      modifies this
      ensures graph == old(graph)
      ensures (Model(), done) == HandleRequestSpec(old(Model()), g, req)
    {
      var d := Decide(g, req.id);
      if d == Retry {
        return false;
      }
      if d == Ignore {
        return true;
      }
      activeLinks := AddLink(activeLinks, req.id);
      Send(Found(req.id, req.stamp));
      return true;
    }

    /** `checkRequestQueue()`. */
    method CheckRequestQueue(g: CG.GraphState)
      modifies this
      ensures graph == old(graph)
      ensures Model() == CheckRequestQueueSpec(old(Model()), g)
    {
      DrainAll(g);
      queueTimeout := None;
    }

    /** The backwards loop of `checkRequestQueue` over the whole queue. */
    method DrainAll(g: CG.GraphState)
      modifies this
      ensures graph == old(graph)
      ensures Model() == DrainFrom(old(Model()), g, |old(requestQueue)|)
    {
      var i := |requestQueue|;
      ghost var drained := DrainFrom(Model(), g, i);
      while i > 0
        invariant 0 <= i <= |requestQueue| && graph == old(graph)
        invariant drained == DrainFrom(Model(), g, i)
      {
        DrainOne(g, i, drained);
        i := i - 1;
      }
    }

    /** One round of the drain loop: entry `i - 1` is handled and, when
        finished, spliced out. */
    method DrainOne(g: CG.GraphState, i: nat, ghost drained: AppState)
      requires 0 < i <= |requestQueue| && drained == DrainFrom(Model(), g, i)
      modifies this
      ensures graph == old(graph)
      ensures Model() == DrainStep(old(Model()), g, i)
      ensures i - 1 <= |requestQueue| && drained == DrainFrom(Model(), g, i - 1)
    {
      DrainFromUnfold(Model(), g, i, drained);
      var done := HandleRequest(g, requestQueue[i - 1]);
      if done {
        requestQueue := requestQueue[..i - 1] + requestQueue[i..];
      }
    }

    /** `links_socket.onmessage` for the parsed message `m`, with the
        `auto-link` setting `autoLink`. */
    method OnSocketMessage(m: Msg, autoLink: bool, baseDomain: string -> string) returns (threw: bool)
      requires Valid()
      modifies this, graph
      ensures graph == old(graph) && Valid()
      ensures Reacted(Model(), graph.Model(), threw) == OnMessageSpec(old(Model()), old(graph.Model()), m, autoLink, baseDomain)
    {
      if m.SelectionUpdate? {
        threw := SetSelection(m.selection, autoLink);
      } else if m.GetFound? {
        threw := false;
        if m.id == "/concepts/all" {
          threw := GetFoundAll(m.concepts, m.relations, m.sel, autoLink);
        }
      } else {
        OnMessageByStore(Model(), graph.Model(), m, autoLink, baseDomain);
        threw := HandleAndReact(m, autoLink, baseDomain);
      }
    }

    /** The GET-FOUND branch for `/concepts/all`: the concepts, the
        relations, then the selection, each with the handlers; an
        exception ends it. */
    method GetFoundAll(cs: seq<ConceptCfg>, rs: seq<RelationCfg>, sel: SelArg, autoLink: bool) returns (threw: bool)
      requires Valid()
      modifies this, graph
      ensures graph == old(graph) && Valid()
      ensures Reacted(Model(), graph.Model(), threw) == GetFoundReacting(old(Model()), old(graph.Model()), cs, rs, sel, autoLink)
    {
      threw := AddAllConcepts(cs, autoLink);
      if threw {
        return;
      }
      threw := AddAllRelations(rs, autoLink);
      if threw {
        return;
      }
      threw := SetSelection(sel, autoLink);
    }

    /** `graph.handleMessage(msg)`, then the handlers of the events it
        fired, or the page's own branches when the store rejects `m`. */
    method HandleAndReact(m: Msg, autoLink: bool, baseDomain: string -> string) returns (threw: bool)
      requires Valid()
      modifies this, graph
      ensures graph == old(graph) && Valid()
      ensures Reacted(Model(), graph.Model(), threw) == OnStoreMessage(old(Model()), old(graph.Model()), m, autoLink, baseDomain)
    {
      var before := graph.events;
      var res := graph.HandleMessage(m, baseDomain);
      if res == CG.Rejected {
        OnUnhandled(m);
        threw := false;
      } else {
        threw := ReactToAll(NewEvents(before, graph.events), autoLink);
        threw := threw || res == CG.Threw;
      }
    }

    /** The page's branches for a message the store rejected. */
    method OnUnhandled(m: Msg)
      modifies this
      ensures graph == old(graph)
      ensures Model() == OnUnhandledSpec(old(Model()), graph.Model(), m)
    {
      match m {
        case Request(id, stamp, _) =>
          var done := HandleRequest(graph.Model(), Req(id, stamp));
          if !done {
            requestQueue := requestQueue + [Req(id, stamp)];
          }
        case Abort(id, _, _) =>
          activeLinks := Common.Remove(activeLinks, id);
        case _ =>
      }
    }

    /** The handler for an event the store just fired, other than
        `concept-new` and `relation-new`. */
    method ReactTo(e: CG.Event, autoLink: bool) returns (threw: bool)
      modifies this
      ensures graph == old(graph)
      ensures (Model(), threw) == OnGraphEvent(old(Model()), graph.Model(), e, autoLink)
    {
      threw := false;
      match e {
        case SelectionRemoveEv(id, onRelation) =>
          if !onRelation {
            AbortLink(CONCEPT_LINK + id);
          }
        case SelectionAddEv(id, onRelation) =>
          if autoLink && !onRelation {
            if id in graph.concepts {
              SendInitiateForNode(id, graph.concepts[id].refs);
            } else {
              threw := true;
            }
          }
        case ConceptUpdateEv(id) =>
          if autoLink && id in graph.selection && id in graph.concepts {
            SendInitiateForNode(id, graph.concepts[id].refs);
          }
        case _ =>
      }
    }

    /** The store fires `evs` in order, each registered one followed by
        its handler. */
    method FireAndReact(evs: seq<CG.Event>, autoLink: bool) returns (threw: bool)
      modifies this, graph
      ensures graph == old(graph)
      ensures Reacted(Model(), graph.Model(), threw) == FireReacting(old(Model()), old(graph.Model()), evs, autoLink)
    {
      var i := 0;
      while i < |evs|
        invariant 0 <= i <= |evs| && graph == old(graph)
        invariant FireReacting(old(Model()), old(graph.Model()), evs, autoLink)
                  == FireReacting(Model(), graph.Model(), evs[i..], autoLink)
      {
        assert evs[i..][0] == evs[i] && evs[i..][1..] == evs[i + 1..];
        var registered := CG.EventType(evs[i]) in graph.handlers;
        graph.CallHandler(evs[i]);
        if registered {
          threw := ReactTo(evs[i], autoLink);
          if threw {
            return;
          }
        }
        i := i + 1;
      }
      return false;
    }

    /** `updateSelection('set', arg, false)` called by the page. */
    method SetSelection(arg: SelArg, autoLink: bool) returns (threw: bool)
      requires Valid()
      modifies this, graph
      ensures graph == old(graph) && Valid()
      ensures Reacted(Model(), graph.Model(), threw) == SetSelectionReacting(old(Model()), old(graph.Model()), arg, autoLink)
    {
      var prev := graph.selection;
      graph.ApplyAction(CG.SetSel, CG.ArgIds(arg));
      var cur := graph.selection;
      var evs := CG.RemovedEvents(prev, cur) + CG.AddedEvents(prev, cur);
      threw := FireAndReact(evs, autoLink);
      if threw || |evs| == 0 {
        return;
      }
      graph.ClearSelectionCache();
      graph.CallHandler(CG.SelectionChangeEv(cur, prev));
    }

    /** The page's handler for an event fired while the store handled a
        message. */
    method ReactToStoreEvent(e: CG.Event, autoLink: bool) returns (threw: bool)
      requires Valid()
      modifies this, graph
      ensures graph == old(graph) && Valid()
      ensures Reacted(Model(), graph.Model(), threw) == OnStoreEvent(old(Model()), old(graph.Model()), e, autoLink)
    {
      match e {
        case ConceptNewEv(id) =>
          queueTimeout := Some(DRAIN_DELAY);
          threw := SetSelection(One(id), autoLink);
        case RelationNewEv(id) =>
          threw := SetSelection(One(id), autoLink);
        case _ =>
          threw := ReactTo(e, autoLink);
      }
    }

    /** The handlers of the events `evs`, in order, until one throws. */
    method ReactToAll(evs: seq<(nat, CG.Event)>, autoLink: bool) returns (threw: bool)
      requires Valid()
      modifies this, graph
      ensures graph == old(graph) && Valid()
      ensures Reacted(Model(), graph.Model(), threw) == ReactAll(old(Model()), old(graph.Model()), evs, autoLink)
    {
      var i := 0;
      assert evs[i..] == evs;
      while i < |evs|
        invariant 0 <= i <= |evs| && graph == old(graph) && Valid()
        invariant ReactAll(old(Model()), old(graph.Model()), evs, autoLink)
                  == ReactAll(Model(), graph.Model(), evs[i..], autoLink)
      {
        ghost var s0, g0, rest := Model(), graph.Model(), evs[i..];
        assert rest[0] == evs[i] && rest[1..] == evs[i + 1..];
        threw := ReactToStoreEvent(evs[i].1, autoLink);
        ReactAllStep(s0, g0, rest, autoLink, Reacted(Model(), graph.Model(), threw));
        if threw {
          return;
        }
        i := i + 1;
      }
      return false;
    }

    /** `addConcept(cfg, false)` for the next concept of a GET-FOUND, then
        the handlers of the events it fired. */
    method AddNextConcept(cs: seq<ConceptCfg>, i: nat, autoLink: bool, ghost goal: Reacted) returns (threw: bool)
      requires Valid() && i < |cs|
      requires goal == AddConceptsReacting(Model(), graph.Model(), cs[i..], autoLink)
      modifies this, graph
      ensures graph == old(graph) && Valid()
      ensures threw ==> Reacted(Model(), graph.Model(), true) == goal
      ensures !threw ==> goal == AddConceptsReacting(Model(), graph.Model(), cs[i + 1..], autoLink)
    {
      ghost var s0, g0, rest := Model(), graph.Model(), cs[i..];
      assert rest[0] == cs[i] && rest[1..] == cs[i + 1..];
      var before := graph.events;
      var added := graph.AddConcept(cs[i], false);
      threw := ReactToAll(NewEvents(before, graph.events), autoLink);
      AddConceptsReactingStep(s0, g0, rest, autoLink, Reacted(Model(), graph.Model(), threw));
    }


    /** The concepts of a GET-FOUND, each added and then handled. */
    method AddAllConcepts(cs: seq<ConceptCfg>, autoLink: bool) returns (threw: bool)
      requires Valid()
      modifies this, graph
      ensures graph == old(graph) && Valid()
      ensures Reacted(Model(), graph.Model(), threw) == AddConceptsReacting(old(Model()), old(graph.Model()), cs, autoLink)
    {
      ghost var goal := AddConceptsReacting(Model(), graph.Model(), cs, autoLink);
      var i := 0;
      threw := false;
      assert cs[i..] == cs;
      while i < |cs| && !threw
        invariant 0 <= i <= |cs| && graph == old(graph) && Valid()
        invariant threw ==> Reacted(Model(), graph.Model(), true) == goal
        invariant !threw ==> goal == AddConceptsReacting(Model(), graph.Model(), cs[i..], autoLink)
      {
        threw := AddNextConcept(cs, i, autoLink, goal);
        i := i + 1;
      }
      if !threw {
        assert cs[i..] == [];
      }
    }

    /** `addRelation(cfg, false)` for the next relation of a GET-FOUND, then
        the handlers of the events it fired. */
    method AddNextRelation(rs: seq<RelationCfg>, i: nat, autoLink: bool, ghost goal: Reacted) returns (threw: bool)
      requires Valid() && i < |rs|
      requires goal == AddRelationsReacting(Model(), graph.Model(), rs[i..], autoLink)
      modifies this, graph
      ensures graph == old(graph) && Valid()
      ensures threw ==> Reacted(Model(), graph.Model(), true) == goal
      ensures !threw ==> goal == AddRelationsReacting(Model(), graph.Model(), rs[i + 1..], autoLink)
    {
      ghost var s0, g0, rest := Model(), graph.Model(), rs[i..];
      assert rest[0] == rs[i] && rest[1..] == rs[i + 1..];
      var before := graph.events;
      var added := graph.AddRelation(rs[i], false);
      threw := ReactToAll(NewEvents(before, graph.events), autoLink);
      AddRelationsReactingStep(s0, g0, rest, autoLink, Reacted(Model(), graph.Model(), threw));
    }


    /** The relations of a GET-FOUND, each added and then handled. */
    method AddAllRelations(rs: seq<RelationCfg>, autoLink: bool) returns (threw: bool)
      requires Valid()
      modifies this, graph
      ensures graph == old(graph) && Valid()
      ensures Reacted(Model(), graph.Model(), threw) == AddRelationsReacting(old(Model()), old(graph.Model()), rs, autoLink)
    {
      ghost var goal := AddRelationsReacting(Model(), graph.Model(), rs, autoLink);
      var i := 0;
      threw := false;
      assert rs[i..] == rs;
      while i < |rs| && !threw
        invariant 0 <= i <= |rs| && graph == old(graph) && Valid()
        invariant threw ==> Reacted(Model(), graph.Model(), true) == goal
        invariant !threw ==> goal == AddRelationsReacting(Model(), graph.Model(), rs[i..], autoLink)
      {
        threw := AddNextRelation(rs, i, autoLink, goal);
        i := i + 1;
      }
      if !threw {
        assert rs[i..] == [];
      }
    }

    /** `sendInitiateForNode(n)` for the node `nodeId` with references
        `refs`. */
    method SendInitiateForNode(nodeId: string, refs: Option<map<string, Refs.Ref>>)
      modifies this
      ensures graph == old(graph)
      ensures Model() == SendInitiateSpec(old(Model()), nodeId, refs)
    {
      Send(Initiate(CONCEPT_LINK + nodeId, if refs.Some? then refs.value else map[]));
      activeLinks := AddLink(activeLinks, CONCEPT_LINK + nodeId);
    }

    /** `abortLink(id)`. */
    method AbortLink(id: string)
      modifies this
      ensures graph == old(graph)
      ensures Model() == AbortLinkSpec(old(Model()), id)
    {
      Send(Abort(id, 0, true));
      activeLinks := Common.Remove(activeLinks, id);
    }

    /** `abortAllLinks()`: the Set is walked in insertion order; deleting
        the current entry does not disturb the walk. */
    method AbortAllLinks()
      modifies this
      ensures graph == old(graph)
      ensures Model() == AbortAllSpec(old(Model()), old(activeLinks))
      ensures forall x :: x !in activeLinks
    {
      var ids := activeLinks;
      for i := 0 to |ids|
        invariant graph == old(graph)
        invariant AbortAllSpec(Model(), ids[i..]) == AbortAllSpec(old(Model()), ids)
      {
        assert ids[i..][1..] == ids[i + 1..];
        AbortLink(ids[i]);
      }
      assert ids[|ids|..] == [];
      AbortAllEmpties(old(Model()));
    }

    /** `startWithCountdownMessage(timeout)`. */
    method StartWithCountdownMessage(timeout: int)
      modifies this
      ensures graph == old(graph)
      ensures Model() == CountdownStepSpec(old(Model()), timeout)
    {
      if !tryConnect {
        return;
      }
      if timeout >= 1000 {
        notices := notices + [NotConnected(RoundSeconds(timeout))];
        timers := timers + [CountdownTimer(1000, timeout - 1000)];
      } else {
        notices := notices + [CheckingServer];
        timers := timers + [StartTimer(timeout, true)];
      }
    }

    /** `start(check)`. */
    method Start(check: bool, pingOk: bool)
      modifies this
      ensures graph == old(graph)
      ensures Model() == StartSpec(old(Model()), check, pingOk)
    {
      if check {
        if !tryConnect {
          notices := notices + [Standalone];
          return;
        }
        notices := notices + [CheckingServer];
        if pingOk {
          notices := notices + [Connecting];
          timers := timers + [StartTimer(0, false)];
        } else {
          StartWithCountdownMessage(PING_RETRY_TIMEOUT);
        }
        return;
      }
      notices := notices + [Connecting];
      socket := Ws(CONNECTING);
    }

    /** `stop()`. */
    method Stop()
      modifies this
      ensures graph == old(graph)
      ensures Model() == StopSpec(old(Model()))
    {
      if socket.Ws? {
        socket := NoSocket;
      }
      if !tryConnect {
        Send(Get("/concepts/all"));
      }
    }
  }
}
