/** The content script of the Firefox add-on (`myjs.js`): its WebSocket to
    the link server, the socket to the control centre with the queue that
    holds messages until that socket opens, the table of active routes and
    the `last_id`/`last_stamp` pair that de-duplicates REQUEST messages, the
    URL-change hook, and the parser of an image map's `<area coords>`.
    Socket events, timers and the clock are inputs of the handlers. */
module FirefoxClient {
  import opened Common
  import opened Protocol
  import CG = ConceptGraph

  /** Ids of this scheme are never de-duplicated. */
  const LINK_SCHEME: string := "link://"

  /** The stamp that, with an empty id, makes `onAbort` clear every route. */
  const ABORT_ALL_STAMP: int := -1

  /** What goes out on the links socket: a protocol message, or the FOUND
      (`found`) or INITIATE report `reportVisLinks` sends for `id`. */
  datatype Frame = Message(msg: Msg) | Report(found: bool, id: string, stamp: Option<int>)

  /** What goes out on the control socket: an ArrayBuffer as it is, or a
      message, standing for its JSON text. */
  datatype CtrlData = Binary(bytes: seq<bv8>) | Json(msg: Msg)

  /** `ctrl_socket`: null, or a WebSocket that is connecting or open. */
  datatype CtrlSocket = CtrlNull | CtrlConnecting | CtrlOpen

  /** An entry of `active_routes`: the stamp it was created with. */
  datatype Route = Route(stamp: Option<int>)

  /** The script's globals. `scheduled` holds the ids of the
      `reportVisLinks(id, true, …)` calls that REQUEST messages have put on
      a zero-delay timer, in order. */
  datatype FfState = FfState(
    linksSocket: Socket, stopped: bool, status: string, sent: seq<Frame>,
    ctrlQueue: Option<seq<CtrlData>>, ctrlSocket: CtrlSocket, ctrlSent: seq<CtrlData>,
    routes: map<string, Route>, lastId: Option<string>, lastStamp: Option<int>,
    lastUrl: Option<string>, scheduled: seq<string>)

  /** The globals as the script starts. */
  const INITIAL: FfState :=
    FfState(NoSocket, true, "", [], None, CtrlNull, [], map[], None, None, None, [])

  // ------------------------------------------------------- the links socket

  /** `stop()`: the client is stopped and an open socket is closed and
      dropped; the 0 of a failed send is falsy and stays. */
  function StopSpec(s: FfState): (r: FfState)
    ensures r.stopped && !r.linksSocket.Ws?
    ensures s.linksSocket.Ws? ==> r.linksSocket == NoSocket
    ensures r.(stopped := s.stopped, linksSocket := s.linksSocket) == s
  {
    s.(stopped := true, linksSocket := if s.linksSocket.Ws? then NoSocket else s.linksSocket)
  }

  /** `send(data)`. Without a socket the thrown error is caught, the
      socket becomes 0 and the client stops; a socket that is not open
      drops the frame. */
  function SendSpec(s: FfState, f: Frame): (r: FfState)
    ensures r.sent == s.sent + [f] <==> s.linksSocket == Ws(OPEN)
    ensures r.sent == s.sent || r.sent == s.sent + [f]
    ensures !s.linksSocket.Ws? ==> r.linksSocket == Failed && r.stopped
    ensures s.linksSocket.Ws? ==> r.linksSocket == s.linksSocket && r.stopped == s.stopped
    ensures r.(sent := s.sent, linksSocket := s.linksSocket, stopped := s.stopped) == s
  {
    if !s.linksSocket.Ws? then StopSpec(s.(linksSocket := Failed))
    else if s.linksSocket.readyState != OPEN then s
    else s.(sent := s.sent + [f])
  }

  // ----------------------------------------------------- the control socket

  /** The states the control socket and its queue can be in: a connecting
      socket has a queue, an open one has none. A queue without a socket is
      what a socket that failed before opening leaves behind. */
  predicate CtrlValid(s: FfState) {
    (s.ctrlSocket == CtrlConnecting ==> s.ctrlQueue.Some?)
    && (s.ctrlSocket == CtrlOpen ==> s.ctrlQueue.None?)
  }

  /** The queued control data, empty when there is no queue. */
  function Pending(s: FfState): seq<CtrlData> {
    if s.ctrlQueue.Some? then s.ctrlQueue.value else []
  }

  /** Everything handed to the control socket, sent or still queued. */
  function Delivered(s: FfState): seq<CtrlData> {
    s.ctrlSent + Pending(s)
  }

  /** `ctrlSend(data, force)`. Without `force`, and with neither a queue
      nor a socket, nothing happens; otherwise the data joins the queue,
      goes out on the open socket, or starts a queue and a new socket. */
  function CtrlSendSpec(s: FfState, d: CtrlData, force: bool): (r: FfState)
    ensures r == s <==> s.ctrlQueue.None? && s.ctrlSocket == CtrlNull && !force
    ensures r != s ==> Delivered(r) == Delivered(s) + [d]
    ensures r.ctrlSent == s.ctrlSent || (s.ctrlSocket != CtrlNull && r.ctrlSent == s.ctrlSent + [d])
    ensures CtrlValid(s) ==> CtrlValid(r)
    ensures r.(ctrlQueue := s.ctrlQueue, ctrlSocket := s.ctrlSocket, ctrlSent := s.ctrlSent) == s
  {
    if s.ctrlQueue.None? && s.ctrlSocket == CtrlNull && !force then s
    else if s.ctrlQueue.Some? then s.(ctrlQueue := Some(s.ctrlQueue.value + [d]))
    else if s.ctrlSocket != CtrlNull then s.(ctrlSent := s.ctrlSent + [d])
    else s.(ctrlQueue := Some([d]), ctrlSocket := CtrlConnecting)
  }

  /** The `onopen` handler of a connecting control socket: the queue goes
      out in order and is dropped. */
  function OnCtrlOpenSpec(s: FfState): (r: FfState)
    requires s.ctrlSocket == CtrlConnecting && s.ctrlQueue.Some?
    ensures Delivered(r) == Delivered(s) && Pending(r) == []
    ensures r.ctrlSocket == CtrlOpen && CtrlValid(r)
    ensures r.(ctrlQueue := s.ctrlQueue, ctrlSocket := s.ctrlSocket, ctrlSent := s.ctrlSent) == s
  {
    s.(ctrlSent := s.ctrlSent + s.ctrlQueue.value, ctrlQueue := None, ctrlSocket := CtrlOpen)
  }

  /** The `onclose` and `onerror` handlers: the socket is dropped, the
      queue is left as it is. */
  function OnCtrlCloseSpec(s: FfState): (r: FfState)
    ensures r.ctrlSocket == CtrlNull && r.ctrlQueue == s.ctrlQueue && Delivered(r) == Delivered(s)
    ensures CtrlValid(s) ==> CtrlValid(r)
    ensures r.(ctrlSocket := s.ctrlSocket) == s
  {
    s.(ctrlSocket := CtrlNull)
  }

  /** `ctrlSend` called for each of `ds` in turn. */
  function CtrlSendAll(s: FfState, ds: seq<CtrlData>, force: bool): FfState
    decreases |ds|
  {
    if |ds| == 0 then s else CtrlSendAll(CtrlSendSpec(s, ds[0], force), ds[1..], force)
  }

  /** While there is a queue, every call only appends to it. */
  lemma {:induction false} QueueAppends(s: FfState, ds: seq<CtrlData>, force: bool)
    requires s.ctrlQueue.Some?
    ensures CtrlSendAll(s, ds, force) == s.(ctrlQueue := Some(s.ctrlQueue.value + ds))
    decreases |ds|
  {
    if |ds| > 0 {
      var q := s.ctrlQueue.value;
      var s1 := CtrlSendSpec(s, ds[0], force);
      assert s1 == s.(ctrlQueue := Some(q + [ds[0]]));
      QueueAppends(s1, ds[1..], force);
      assert q + [ds[0]] + ds[1..] == q + ds;
    } else {
      assert s.ctrlQueue.value + ds == s.ctrlQueue.value;
    }
  }

  /** From a client with neither queue nor socket, a forced send opens the
      socket, the later sends are queued behind it, and on open the control
      centre receives them all in call order. */
  lemma {:induction false} CtrlQueueFlushedInOrder(s: FfState, d: CtrlData, ds: seq<CtrlData>)
    requires s.ctrlQueue.None? && s.ctrlSocket == CtrlNull
    ensures var t := CtrlSendAll(CtrlSendSpec(s, d, true), ds, false);
            && t.ctrlSocket == CtrlConnecting && t.ctrlSent == s.ctrlSent
            && t.ctrlQueue == Some([d] + ds)
            && OnCtrlOpenSpec(t).ctrlSent == s.ctrlSent + [d] + ds
  {
    var s1 := CtrlSendSpec(s, d, true);
    assert s1 == s.(ctrlQueue := Some([d]), ctrlSocket := CtrlConnecting);
    QueueAppends(s1, ds, false);
    var t := CtrlSendAll(s1, ds, false);
    assert t == s1.(ctrlQueue := Some([d] + ds));
    assert OnCtrlOpenSpec(t).ctrlSent == s.ctrlSent + ([d] + ds);
  }

  /** A control socket that closes or fails before it opens strands its
      queue: whatever is sent afterwards, forced or not, is only appended,
      no socket is opened again and nothing reaches the control centre. */
  lemma {:induction false} CtrlQueueStrandedAfterEarlyClose(s: FfState, d: CtrlData, ds: seq<CtrlData>, force: bool)
    requires s.ctrlQueue.None? && s.ctrlSocket == CtrlNull
    ensures var t := CtrlSendAll(OnCtrlCloseSpec(CtrlSendSpec(s, d, true)), ds, force);
            && t.ctrlSocket == CtrlNull && t.ctrlSent == s.ctrlSent
            && t.ctrlQueue == Some([d] + ds)
  {
    QueueAppends(OnCtrlCloseSpec(CtrlSendSpec(s, d, true)), ds, force);
  }

  // ------------------------------------------------------------ the routes

  /** `r` has the control socket, its queue and what it sent of `s`. */
  predicate SameCtrl(r: FfState, s: FfState) {
    r.ctrlQueue == s.ctrlQueue && r.ctrlSocket == s.ctrlSocket && r.ctrlSent == s.ctrlSent
  }

  /** `removeRouteData(id)`. */
  function RemoveRouteSpec(s: FfState, id: string): (r: FfState)
    ensures id !in r.routes
    ensures forall k :: k != id ==> (k in r.routes <==> k in s.routes)
    ensures forall k | k in r.routes :: r.routes[k] == s.routes[k]
    ensures r.(routes := s.routes) == s
  {
    s.(routes := s.routes - {id})
  }

  /** `removeAllRouteData()`. */
  function RemoveAllRouteDataSpec(s: FfState): (r: FfState)
    ensures |r.routes| == 0 && r.lastId.None? && r.lastStamp.None?
    ensures r.(routes := s.routes, lastId := s.lastId, lastStamp := s.lastStamp) == s
  {
    s.(routes := map[], lastId := None, lastStamp := None)
  }

  /** `onAbort(id, stamp, send_msg, all_clients)`: the last request is
      forgotten; the empty id with stamp -1 removes every route, any other
      id only its own; ABORT goes out only when `sendMsg` is set. */
  function OnAbortSpec(s: FfState, id: string, stamp: int, sendMsg: bool, allClients: bool): (r: FfState)
    ensures r.lastId.None? && r.lastStamp.None?
    ensures id == "" && stamp == ABORT_ALL_STAMP ==> |r.routes| == 0
    ensures !(id == "" && stamp == ABORT_ALL_STAMP) ==> r.routes == s.routes - {id}
    ensures !sendMsg ==> r.sent == s.sent && r.linksSocket == s.linksSocket && r.stopped == s.stopped
    ensures sendMsg && s.linksSocket == Ws(OPEN) ==> r.sent == s.sent + [Message(Abort(id, stamp, allClients))]
    ensures SameCtrl(r, s) && r.lastUrl == s.lastUrl && r.scheduled == s.scheduled && r.status == s.status
  {
    var s1 := s.(lastId := None, lastStamp := None);
    var s2 := if id == "" && stamp == ABORT_ALL_STAMP then s1.(routes := map[]) else RemoveRouteSpec(s1, id);
    if sendMsg then SendSpec(s2, Message(Abort(id, stamp, allClients))) else s2
  }

  /** `abortAll()`. */
  function AbortAllSpec(s: FfState): (r: FfState)
    ensures |r.routes| == 0 && r.lastId.None? && r.lastStamp.None?
    ensures s.linksSocket == Ws(OPEN) ==> r.sent == s.sent + [Message(Abort("", ABORT_ALL_STAMP, true))]
  {
    OnAbortSpec(s, "", ABORT_ALL_STAMP, true, true)
  }

  /** The route bookkeeping of `reportVisLinks(id, found, refs)`: nothing
      unless the client is active and `id` is not empty; otherwise, when
      not `found` and `replaceRoute` (no refs, and the replace-route
      preference set) all routes are aborted first; `id` becomes the last
      id, a stamp is taken from the clock unless `found`, a route is
      created for `id` if it has none, and the report goes out. */
  function ReportVisLinksSpec(s: FfState, id: string, found: bool, clock: int, replaceRoute: bool): (r: FfState)
    ensures SameCtrl(r, s) && r.lastUrl == s.lastUrl
    ensures s.status != "active" || |id| == 0 ==> r == s
    ensures s.status == "active" && |id| > 0 ==>
              && r.lastId == Some(id) && id in r.routes
              && (!found ==> r.lastStamp == Some(clock))
              && (!found && replaceRoute ==> r.routes.Keys == {id})
              && (!(!found && replaceRoute) && id in s.routes ==> r.routes == s.routes)
              && (!(!found && replaceRoute) ==> r.routes.Keys == s.routes.Keys + {id})
  {
    if s.status != "active" || |id| == 0 then s
    else
      var s0 := if !found && replaceRoute then AbortAllSpec(s) else s;
      var stamp := if found then s0.lastStamp else Some(clock);
      var s1 := s0.(lastId := Some(id), lastStamp := stamp,
                    routes := if id in s0.routes then s0.routes else s0.routes[id := Route(stamp)]);
      SendSpec(s1, Report(found, id, stamp))
  }

  /** Whether a REQUEST is the one handled last: an id outside `link://`
      with the last (id, stamp) pair. */
  predicate AlreadyHandled(s: FfState, id: string, stamp: int) {
    !StartsWith(id, LINK_SCHEME) && s.lastId == Some(id) && s.lastStamp == Some(stamp)
  }

  /** REQUEST, as written. A request already handled is ignored; otherwise
      an id outside `link://` records its (id, stamp) pair. The report is
      then scheduled with `msg.data.refs`, read without a guard: a request
      without `data` throws there, after the pair was recorded, and
      schedules nothing. */
  function OnRequestSpec(s: FfState, id: string, stamp: int, hasData: bool): (r: FfState)
    ensures AlreadyHandled(s, id, stamp) ==> r == s
    ensures !AlreadyHandled(s, id, stamp) ==>
              r.scheduled == if hasData then s.scheduled + [id] else s.scheduled
    ensures !AlreadyHandled(s, id, stamp) && !StartsWith(id, LINK_SCHEME) ==>
              r.lastId == Some(id) && r.lastStamp == Some(stamp)
    ensures StartsWith(id, LINK_SCHEME) ==> r.lastId == s.lastId && r.lastStamp == s.lastStamp
    ensures r.(scheduled := s.scheduled, lastId := s.lastId, lastStamp := s.lastStamp) == s
  {
    if AlreadyHandled(s, id, stamp) then s
    else
      var s1 := if StartsWith(id, LINK_SCHEME) then s else s.(lastId := Some(id), lastStamp := Some(stamp));
      if hasData then s1.(scheduled := s1.scheduled + [id]) else s1
  }

  /** REQUEST with the refs read as `msg.data && msg.data.refs`: every
      request that is not ignored schedules a report, with or without
      `data`. */
  function OnRequestIntended(s: FfState, id: string, stamp: int): (r: FfState)
    ensures AlreadyHandled(s, id, stamp) ==> r == s
    ensures !AlreadyHandled(s, id, stamp) ==> r.scheduled == s.scheduled + [id]
    ensures r == OnRequestSpec(s, id, stamp, true)
  {
    if AlreadyHandled(s, id, stamp) then s
    else
      var s1 := if StartsWith(id, LINK_SCHEME) then s else s.(lastId := Some(id), lastStamp := Some(stamp));
      s1.(scheduled := s1.scheduled + [id])
  }

  /** The REQUEST the C++ relay writes has no `data`: for a keyword the
      add-on records the pair and throws, so no report is scheduled, where
      the guarded read schedules one. */
  lemma {:induction false} DatalessRequestSchedulesNothing(s: FfState, id: string, stamp: int)
    requires !AlreadyHandled(s, id, stamp) && !StartsWith(id, LINK_SCHEME)
    ensures var r := OnRequestSpec(s, id, stamp, false);
            && r.scheduled == s.scheduled
            && r.lastId == Some(id) && r.lastStamp == Some(stamp)
            && OnRequestIntended(s, id, stamp).scheduled == s.scheduled + [id]
  {
  }

  /** A REQUEST delivered twice in a row is handled once. */
  lemma {:induction false} RepeatedRequestIgnored(s: FfState, id: string, stamp: int, hasData: bool)
    requires !StartsWith(id, LINK_SCHEME)
    ensures var s1 := OnRequestSpec(s, id, stamp, hasData);
            OnRequestSpec(s1, id, stamp, hasData) == s1
  {
  }

  /** `link://` requests are never de-duplicated: each one with `data`
      schedules a report, each one without schedules nothing. */
  lemma {:induction false} LinkRequestsAlwaysScheduled(s: FfState, id: string, stamp: int, hasData: bool)
    requires StartsWith(id, LINK_SCHEME)
    ensures var s1 := OnRequestSpec(s, id, stamp, hasData);
            OnRequestSpec(s1, id, stamp, hasData).scheduled == s.scheduled + (if hasData then [id, id] else [])
  {
  }

  /** UPDATE: the route of `id` moves to `newId` and a report for `newId`
      follows; an unknown `id` leaves everything as it is. */
  function OnUpdateSpec(s: FfState, id: string, newId: string, clock: int, replaceRoute: bool): (r: FfState)
    ensures id !in s.routes ==> r == s
    ensures SameCtrl(r, s)
  {
    if id !in s.routes then s
    else
      var moved := s.(routes := s.routes[newId := s.routes[id]] - {id});
      ReportVisLinksSpec(moved, newId, false, clock, replaceRoute)
  }

  /** A rename to a fresh id keeps the route under its new name and leaves
      every other route as it was. */
  lemma {:induction false} UpdateMovesRoute(s: FfState, id: string, newId: string, clock: int)
    requires id in s.routes && newId != id
    ensures var r := OnUpdateSpec(s, id, newId, clock, false);
            && id !in r.routes
            && (s.status == "active" && |newId| > 0 ==> newId in r.routes && r.routes[newId] == s.routes[id])
            && (forall k | k in s.routes && k != id && k != newId :: k in r.routes && r.routes[k] == s.routes[k])
  {
    var moved := s.(routes := s.routes[newId := s.routes[id]] - {id});
    assert newId in moved.routes && moved.routes[newId] == s.routes[id];
    var r := OnUpdateSpec(s, id, newId, clock, false);
    if s.status == "active" && |newId| > 0 {
      assert r.routes == moved.routes;
    } else {
      assert r == moved;
    }
  }

  /** A rename of a route to its own id deletes it: the new entry is
      written first and then the old id, the same key, is deleted. A
      client that is not active does not recreate it. */
  lemma {:induction false} UpdateToSameIdDropsRoute(s: FfState, id: string, clock: int, replaceRoute: bool)
    requires id in s.routes && s.status != "active"
    ensures OnUpdateSpec(s, id, id, clock, replaceRoute).routes == s.routes - {id}
  {
    assert s.routes[id := s.routes[id]] - {id} == s.routes - {id};
  }

  /** The zero-delay timer of the oldest scheduled report fires. */
  function RunScheduledSpec(s: FfState, clock: int): (r: FfState)
    requires |s.scheduled| > 0
    ensures r.scheduled == s.scheduled[1..]
    ensures s.status == "active" && |s.scheduled[0]| > 0 ==>
              r.lastId == Some(s.scheduled[0]) && s.scheduled[0] in r.routes
  {
    ReportVisLinksSpec(s.(scheduled := s.scheduled[1..]), s.scheduled[0], true, clock, false)
  }

  /** The links socket's `onerror`: status "error", every route dropped,
      the client stopped. */
  function OnLinksErrorSpec(s: FfState): (r: FfState)
    ensures r.status == "error" && |r.routes| == 0 && r.stopped && !r.linksSocket.Ws?
    ensures r.lastId.None? && r.lastStamp.None? && r.sent == s.sent
  {
    StopSpec(RemoveAllRouteDataSpec(s.(status := "error")))
  }

  /** The links socket's `onmessage` after the concept graph's
      `handleMessage` answered `res`: a message it recognised (or that
      threw) ends there; otherwise REQUEST, UPDATE and ABORT are handled
      here, an inbound ABORT without sending one back. */
  function OnMessageSpec(s: FfState, res: CG.HandleResult, m: Msg, clock: int, replaceRoute: bool): (r: FfState)
    ensures SameCtrl(r, s)
    ensures res != CG.Rejected ==> r == s
    ensures res == CG.Rejected && m.Abort? ==> r.sent == s.sent && r.lastId.None?
  {
    if res != CG.Rejected then s
    else
      match m
      case Request(id, stamp, data) => OnRequestSpec(s, id, stamp, data.Some?)
      case Update(id, newId) => OnUpdateSpec(s, id, newId, clock, replaceRoute)
      case Abort(id, stamp, _) => OnAbortSpec(s, id, stamp, false, true)
      case _ => s
  }

  /** `onUrlChange(url, tab, reason)`: an unchanged URL or a tab that is
      not the selected one is ignored; otherwise the URL is recorded and a
      SYNC goes to the control centre (if connected) and to the server. */
  function OnUrlChangeSpec(s: FfState, url: string, selected: bool): (r: FfState)
    ensures s.lastUrl == Some(url) || !selected ==> r == s
    ensures r.lastUrl == (if selected then Some(url) else s.lastUrl)
    ensures r.routes == s.routes && r.lastId == s.lastId && r.lastStamp == s.lastStamp
  {
    if s.lastUrl == Some(url) || !selected then s
    else
      var s1 := CtrlSendSpec(s.(lastUrl := Some(url)), Json(Sync(url)), false);
      SendSpec(s1, Message(Sync(url)))
  }

  /** Reporting the same URL again sends nothing more. */
  lemma {:induction false} UrlChangeIdempotent(s: FfState, url: string, selected: bool)
    ensures var s1 := OnUrlChangeSpec(s, url, true);
            OnUrlChangeSpec(s1, url, selected) == s1
  {
  }

  // --------------------------------------------------------- <area coords>

  /** A JavaScript number as `parseInt` yields it: an integer or NaN. An
      array read past its end (undefined) behaves as NaN in every
      comparison and subtraction made here, so it is NaN too. */
  datatype Num = Int(v: int) | NaN

  /** The value of `c` as a digit of base 36, or 36 when it is none. */
  function DigitValue(c: char): (r: nat)
    ensures r <= 36
    ensures r < 10 <==> '0' <= c <= '9'
  {
    if '0' <= c <= '9' then c as int - '0' as int
    else if 'a' <= c <= 'z' then c as int - 'a' as int + 10
    else if 'A' <= c <= 'Z' then c as int - 'A' as int + 10
    else 36
  }

  /** The length of the longest prefix of `s` made of digits of base
      `radix`. */
  function DigitRun(s: string, radix: nat): (r: nat)
    ensures r <= |s|
    ensures forall i | 0 <= i < r :: DigitValue(s[i]) < radix
    ensures r < |s| ==> DigitValue(s[r]) >= radix
  {
    if |s| == 0 || DigitValue(s[0]) >= radix then 0 else 1 + DigitRun(s[1..], radix)
  }

  /** The number the digits `ds` spell in base `radix`. */
  function DigitsValue(ds: string, radix: nat): nat {
    if |ds| == 0 then 0 else DigitsValue(ds[..|ds| - 1], radix) * radix + DigitValue(ds[|ds| - 1])
  }

  /** The digits after the sign: `0x` or `0X` selects base 16, and the
      longest run of digits that follows gives the value; no digits give
      NaN. */
  function ParseUnsigned(u: string): (r: Num)
    ensures r.Int? ==> r.v >= 0
    ensures |u| == 0 ==> r == NaN
  {
    var hex := |u| >= 2 && u[0] == '0' && (u[1] == 'x' || u[1] == 'X');
    var radix := if hex then 16 else 10;
    var w := if hex then u[2..] else u;
    var n := DigitRun(w, radix);
    if n == 0 then NaN else Int(DigitsValue(w[..n], radix))
  }

  /** Unary minus. */
  function Negate(n: Num): (r: Num)
    ensures r.Int? <==> n.Int?
    ensures r.Int? ==> r.v == -n.v
  {
    if n.Int? then Int(-n.v) else NaN
  }

  /** `parseInt(s)` without a radix: leading white space is skipped and a
      sign is read before the digits. */
  function ParseInt(s: string): (r: Num)
    ensures |TrimStart(s)| == 0 ==> r == NaN
  {
    var t := TrimStart(s);
    if |t| > 0 && t[0] == '-' then Negate(ParseUnsigned(t[1..]))
    else if |t| > 0 && t[0] == '+' then ParseUnsigned(t[1..])
    else ParseUnsigned(t)
  }

  /** The decimal digit of `d`. */
  function Digit(d: nat): (c: char)
    requires d < 10
    ensures DigitValue(c) == d
  {
    (d + '0' as int) as char
  }

  /** The decimal representation of `n`, without leading zeros. */
  function NatString(n: nat): string
    decreases n
  {
    if n < 10 then [Digit(n)] else NatString(n / 10) + [Digit(n % 10)]
  }

  /** `String(i)` for an integer `i`. */
  function IntString(i: int): string {
    if i < 0 then "-" + NatString(-i) else NatString(i)
  }

  /** `NatString(n)` is a non-empty run of decimal digits spelling `n`. */
  lemma {:induction false} NatStringSpellsN(n: nat)
    ensures |NatString(n)| > 0
    ensures forall i | 0 <= i < |NatString(n)| :: DigitValue(NatString(n)[i]) < 10
    ensures DigitsValue(NatString(n), 10) == n
    decreases n
  {
    if n >= 10 {
      NatStringSpellsN(n / 10);
      var ds := NatString(n);
      assert ds[..|ds| - 1] == NatString(n / 10);
    }
  }

  /** The unsigned part reads back a decimal representation followed by
      text that cannot continue it. */
  lemma {:induction false} ParseUnsignedOfNatString(n: nat, rest: string)
    requires |rest| == 0 || !(DigitValue(rest[0]) < 10 || rest[0] == 'x' || rest[0] == 'X')
    ensures ParseUnsigned(NatString(n) + rest) == Int(n)
  {
    NatStringSpellsN(n);
    var ds := NatString(n);
    var u := ds + rest;
    assert !(|u| >= 2 && u[0] == '0' && (u[1] == 'x' || u[1] == 'X')) by {
      if |u| >= 2 && |ds| >= 2 {
        assert u[1] == ds[1] && DigitValue(ds[1]) < 10;
      }
    }
    assert forall j | 0 <= j < |ds| :: u[j] == ds[j];
    assert |ds| < |u| ==> u[|ds|] == rest[0];
    var r := DigitRun(u, 10);
    assert r == |ds|;
    assert u[..|ds|] == ds;
  }

  /** Text that starts with a decimal digit or a minus sign has no
      leading white space to skip. */
  lemma {:induction false} NothingToTrim(s: string)
    requires |s| > 0 && (DigitValue(s[0]) < 10 || s[0] == '-')
    ensures TrimStart(s) == s
  {
  }

  /** `parseInt` reads back a minus sign followed by a decimal
      representation. */
  lemma {:induction false} ParseMinusNatString(n: nat, rest: string)
    requires |rest| == 0 || !(DigitValue(rest[0]) < 10 || rest[0] == 'x' || rest[0] == 'X')
    ensures ParseInt("-" + (NatString(n) + rest)) == Int(-(n as int))
  {
    ParseUnsignedOfNatString(n, rest);
    var u := NatString(n) + rest;
    var s := "-" + u;
    NothingToTrim(s);
    assert s[1..] == u;
  }

  /** How `String` writes a negative integer. */
  lemma {:induction false} IntStringOfNegative(i: int, rest: string)
    requires i < 0
    ensures IntString(i) + rest == "-" + (NatString(-i) + rest)
  {
  }

  /** `parseInt` reads back a negative integer `String` wrote. */
  lemma {:induction false} ParseNegativeRoundTrip(i: int, rest: string)
    requires i < 0
    requires |rest| == 0 || !(DigitValue(rest[0]) < 10 || rest[0] == 'x' || rest[0] == 'X')
    ensures ParseInt(IntString(i) + rest) == Int(i)
  {
    var n: nat := -i;
    var w := IntString(i) + rest;
    var x := "-" + (NatString(n) + rest);
    assert w == x by { IntStringOfNegative(i, rest); }
    assert ParseInt(x) == Int(i) by { ParseMinusNatString(n, rest); }
  }

  /** `parseInt` reads back a non-negative integer `String` wrote. */
  lemma {:induction false} ParseNaturalRoundTrip(i: int, rest: string)
    requires i >= 0
    requires |rest| == 0 || !(DigitValue(rest[0]) < 10 || rest[0] == 'x' || rest[0] == 'X')
    ensures ParseInt(IntString(i) + rest) == Int(i)
  {
    ParseUnsignedOfNatString(i, rest);
    NatStringSpellsN(i);
    var ds := NatString(i);
    var u := ds + rest;
    assert IntString(i) + rest == u;
    assert u[0] == ds[0];
    NothingToTrim(u);
  }

  /** `parseInt` reads back what `String` writes for an integer, also when
      text that cannot continue the number follows it. */
  lemma {:induction false} ParseIntRoundTrip(i: int, rest: string)
    requires |rest| == 0 || !(DigitValue(rest[0]) < 10 || rest[0] == 'x' || rest[0] == 'X')
    ensures ParseInt(IntString(i) + rest) == Int(i)
  {
    if i < 0 {
      ParseNegativeRoundTrip(i, rest);
    } else {
      ParseNaturalRoundTrip(i, rest);
    }
  }

  /** `areaCoords` cut at every comma, as the parsing loop of
      `findAreaBoundingBox` cuts it. */
  function Pieces(s: string): (r: seq<string>)
    ensures |r| > 0
    decreases |s|
  {
    var k := IndexOf(s, ',');
    if k < 0 then [s] else [s[..k]] + Pieces(s[k + 1..])
  }

  /** No piece holds a comma. */
  lemma {:induction false} PiecesAreCommaFree(s: string)
    ensures forall p | p in Pieces(s) :: ',' !in p
    decreases |s|
  {
    var k := IndexOf(s, ',');
    if k >= 0 {
      PiecesAreCommaFree(s[k + 1..]);
      assert Pieces(s) == [s[..k]] + Pieces(s[k + 1..]);
    }
  }

  /** There is one piece more than there are commas. */
  lemma {:induction false} PiecesCount(s: string)
    ensures |Pieces(s)| == multiset(s)[','] + 1
    decreases |s|
  {
    var k := IndexOf(s, ',');
    if k >= 0 {
      PiecesCount(s[k + 1..]);
      PiecesCountAtComma(s, k);
    } else {
      NoCommaCounted(s);
      assert Pieces(s) == [s];
    }
  }

  /** The count for a text from the count after its first comma. */
  lemma {:induction false} PiecesCountAtComma(s: string, k: int)
    requires k == IndexOf(s, ',') && k >= 0
    requires |Pieces(s[k + 1..])| == multiset(s[k + 1..])[','] + 1
    ensures |Pieces(s)| == multiset(s)[','] + 1
  {
    assert |Pieces(s)| == 1 + |Pieces(s[k + 1..])|;
    CommasAfterFirst(s, k);
  }

  /** A text without a comma counts none. */
  lemma {:induction false} NoCommaCounted(s: string)
    requires ',' !in s
    ensures multiset(s)[','] == 0
  {
    assert ',' !in multiset(s);
  }

  /** The commas of a text are its first comma and those after it. */
  lemma {:induction false} CommasAfterFirst(s: string, k: nat)
    requires k < |s| && s[k] == ',' && ',' !in s[..k]
    ensures multiset(s)[','] == multiset(s[k + 1..])[','] + 1
  {
    assert s == s[..k] + [','] + s[k + 1..];
    assert multiset(s) == multiset(s[..k]) + multiset{','} + multiset(s[k + 1..]);
    assert multiset(s[..k])[','] == 0;
  }

  /** Joining the pieces with commas gives the text back. */
  lemma {:induction false} JoinPieces(s: string)
    ensures Join(Pieces(s), ',') == s
    decreases |s|
  {
    var k := IndexOf(s, ',');
    if k >= 0 {
      var rest := Pieces(s[k + 1..]);
      JoinPieces(s[k + 1..]);
      assert ([s[..k]] + rest)[1..] == rest;
      assert s == s[..k] + [','] + s[k + 1..];
    }
  }

  /** Cutting a comma-joined list of comma-free texts gives the list
      back. */
  lemma {:induction false} PiecesOfJoin(parts: seq<string>)
    requires |parts| > 0
    requires forall p | p in parts :: ',' !in p
    ensures Pieces(Join(parts, ',')) == parts
    decreases |parts|
  {
    if |parts| > 1 {
      var p0 := parts[0];
      var tail := Join(parts[1..], ',');
      var s := p0 + [','] + tail;
      assert Join(parts, ',') == s;
      var k := IndexOf(s, ',');
      assert s[|p0|] == ',';
      assert s[..|p0|] == p0;
      assert k >= |p0| by {
        assert ',' !in p0 by {
          assert parts[0] in parts;
        }
        forall j | 0 <= j < |p0|
          ensures s[j] != ','
        {
          assert s[j] == p0[j] && p0[j] in p0;
        }
      }
      assert k <= |p0| by {
        assert ',' in s[..|p0| + 1];
      }
      assert s[..k] == p0 && s[k + 1..] == tail;
      PiecesOfJoin(parts[1..]);
      assert [p0] + parts[1..] == parts;
    }
  }

  /** `parseInt` applied to each piece. */
  function ParseAll(ps: seq<string>): (r: seq<Num>)
    ensures |r| == |ps|
  {
    if |ps| == 0 then [] else [ParseInt(ps[0])] + ParseAll(ps[1..])
  }

  /** Each piece is parsed on its own. */
  lemma {:induction false} ParseAllAt(ps: seq<string>, i: nat)
    requires i < |ps|
    ensures ParseAll(ps)[i] == ParseInt(ps[i])
    decreases i
  {
    if i > 0 {
      ParseAllAt(ps[1..], i - 1);
    }
  }

  /** The coordinates parsed from `areaCoords`. */
  function Coords(areaCoords: string): (r: seq<Num>)
    ensures |r| > 0
  {
    ParseAll(Pieces(areaCoords))
  }

  /** The coordinate list `String` and `join(',')` write for `xs`. */
  function CoordsText(xs: seq<int>): string {
    Join(seq(|xs|, i requires 0 <= i < |xs| => IntString(xs[i])), ',')
  }

  /** `String` writes no comma for an integer. */
  lemma {:induction false} IntStringHasNoComma(i: int)
    ensures ',' !in IntString(i)
  {
    var n: nat := if i < 0 then -i else i;
    NatStringSpellsN(n);
    var ds := NatString(n);
    assert forall j | 0 <= j < |ds| :: ds[j] != ',';
    assert IntString(i) == (if i < 0 then "-" + ds else ds);
  }

  /** The written coordinate list cuts back into the written numbers. */
  lemma {:induction false} CoordsTextPieces(xs: seq<int>)
    requires |xs| > 0
    ensures Pieces(CoordsText(xs)) == seq(|xs|, i requires 0 <= i < |xs| => IntString(xs[i]))
  {
    var parts := seq(|xs|, i requires 0 <= i < |xs| => IntString(xs[i]));
    forall i | 0 <= i < |xs|
      ensures ',' !in parts[i]
    {
      IntStringHasNoComma(xs[i]);
    }
    PiecesOfJoin(parts);
  }

  /** Written integer coordinates are parsed back exactly. */
  lemma {:induction false} CoordsRoundTrip(xs: seq<int>)
    requires |xs| > 0
    ensures var c := Coords(CoordsText(xs));
            |c| == |xs| && forall i | 0 <= i < |xs| :: c[i] == Int(xs[i])
  {
    var parts := seq(|xs|, i requires 0 <= i < |xs| => IntString(xs[i]));
    CoordsTextPieces(xs);
    var c := Coords(CoordsText(xs));
    assert c == ParseAll(parts);
    forall i | 0 <= i < |xs|
      ensures c[i] == Int(xs[i])
    {
      ParseAllAt(parts, i);
      ParseIntRoundTrip(xs[i], "");
      assert IntString(xs[i]) + "" == parts[i];
    }
  }

  /** The area's rectangle, before the image's own box is added. */
  datatype Area = Area(x: Num, y: Num, w: Num, h: Num)

  /** `coords[i]`, NaN (undefined) past the end. */
  function At(c: seq<Num>, i: int): Num {
    if 0 <= i < |c| then c[i] else NaN
  }

  /** `a < b`: false as soon as one side is NaN. */
  predicate Lt(a: Num, b: Num) {
    a.Int? && b.Int? && a.v < b.v
  }

  /** `a - b`. */
  function Minus(a: Num, b: Num): (r: Num)
    ensures r.Int? <==> a.Int? && b.Int?
    ensures r.Int? ==> r.v + b.v == a.v
  {
    if a.Int? && b.Int? then Int(a.v - b.v) else NaN
  }

  /** `if (n < 10) n = 10;`: a number is raised to at least 10, NaN is
      left as it is. */
  function AtLeastTen(n: Num): (r: Num)
    ensures n.Int? ==> r.Int? && r.v >= 10 && r.v >= n.v && (n.v >= 10 ==> r == n)
    ensures n == NaN ==> r == NaN
  {
    if Lt(n, Int(10)) then Int(10) else n
  }

  /** The running `minX`, `minY`, `maxX`, `maxY` of the polygon loop. */
  datatype Box = Box(minX: Num, minY: Num, maxX: Num, maxY: Num)

  /** One round of the polygon loop, at the point (`cx`, `cy`). */
  function PolyStep(b: Box, cx: Num, cy: Num): Box {
    Box(if Lt(cx, b.minX) then cx else b.minX,
        if Lt(cy, b.minY) then cy else b.minY,
        if Lt(b.maxX, cx) then cx else b.maxX,
        if Lt(b.maxY, cy) then cy else b.maxY)
  }

  /** The box after `k` rounds of the polygon loop; round `k` reads the
      point at index `2k`. */
  function PolyBox(c: seq<Num>, k: nat): Box {
    if k == 0 then Box(At(c, 0), At(c, 1), At(c, 0), At(c, 1))
    else PolyStep(PolyBox(c, k - 1), At(c, 2 * k), At(c, 2 * k + 1))
  }

  /** The rectangle `findAreaBoundingBox` computes from the parsed
      coordinates: a circle (three values) gives its centre and its radius
      as width and height, a rectangle (four) its corner and extent, a
      polygon (more) the box of its points; width and height are raised to
      at least 10, and fewer than three values give 0, 0, 10, 10. The
      polygon loop runs `i = 2, 4, …` while `i <= coords.length`, so it
      makes `|c| / 2` rounds. */
  function AreaOf(c: seq<Num>): (r: Area)
    ensures |c| < 3 ==> r == Area(Int(0), Int(0), Int(10), Int(10))
    ensures |c| == 3 ==> r.x == c[0] && r.y == c[1] && r.w == r.h == AtLeastTen(c[2])
    ensures |c| == 4 ==> r.x == c[0] && r.y == c[1]
  {
    if |c| == 3 then Area(c[0], c[1], AtLeastTen(c[2]), AtLeastTen(c[2]))
    else if |c| == 4 then Area(c[0], c[1], AtLeastTen(Minus(c[2], c[0])), AtLeastTen(Minus(c[3], c[1])))
    else if |c| > 4 then
      var b := PolyBox(c, |c| / 2);
      Area(b.minX, b.minY, AtLeastTen(Minus(b.maxX, b.minX)), AtLeastTen(Minus(b.maxY, b.minY)))
    else Area(Int(0), Int(0), Int(10), Int(10))
  }

  /** Every coordinate is a number. */
  predicate AllInt(c: seq<Num>) {
    forall i | 0 <= i < |c| :: c[i].Int?
  }

  /** With numeric coordinates the polygon box holds, after `k` rounds,
      the smallest and largest x (even index) and y (odd index) of the
      points read so far, each one of those coordinates. */
  lemma {:induction false} PolyBoxBounds(c: seq<Num>, k: nat)
    requires |c| >= 2 && AllInt(c)
    ensures var b := PolyBox(c, k);
            && b.minX.Int? && b.minY.Int? && b.maxX.Int? && b.maxY.Int?
            && (forall j | 0 <= j < |c| && j <= 2 * k + 1 && j % 2 == 0 :: b.minX.v <= c[j].v <= b.maxX.v)
            && (forall j | 0 <= j < |c| && j <= 2 * k + 1 && j % 2 == 1 :: b.minY.v <= c[j].v <= b.maxY.v)
            && (exists j | 0 <= j < |c| && j % 2 == 0 :: b.minX == c[j])
            && (exists j | 0 <= j < |c| && j % 2 == 0 :: b.maxX == c[j])
            && (exists j | 0 <= j < |c| && j % 2 == 1 :: b.minY == c[j])
            && (exists j | 0 <= j < |c| && j % 2 == 1 :: b.maxY == c[j])
  {
    PolyBoxXBounds(c, k);
    PolyBoxYBounds(c, k);
  }

  /** The x half of `PolyBoxBounds`. */
  lemma {:induction false} PolyBoxXBounds(c: seq<Num>, k: nat)
    requires |c| >= 2 && AllInt(c)
    ensures var b := PolyBox(c, k);
            && b.minX.Int? && b.maxX.Int?
            && (forall j | 0 <= j < |c| && j <= 2 * k + 1 && j % 2 == 0 :: b.minX.v <= c[j].v <= b.maxX.v)
            && (exists j | 0 <= j < |c| && j % 2 == 0 :: b.minX == c[j])
            && (exists j | 0 <= j < |c| && j % 2 == 0 :: b.maxX == c[j])
  {
    if k == 0 {
      assert c[0] == c[0];
    } else {
      PolyBoxXBounds(c, k - 1);
      assert PolyBox(c, k) == PolyStep(PolyBox(c, k - 1), At(c, 2 * k), At(c, 2 * k + 1));
      if 2 * k < |c| {
        assert At(c, 2 * k) == c[2 * k];
      }
    }
  }

  /** The y half of `PolyBoxBounds`. */
  lemma {:induction false} PolyBoxYBounds(c: seq<Num>, k: nat)
    requires |c| >= 2 && AllInt(c)
    ensures var b := PolyBox(c, k);
            && b.minY.Int? && b.maxY.Int?
            && (forall j | 0 <= j < |c| && j <= 2 * k + 1 && j % 2 == 1 :: b.minY.v <= c[j].v <= b.maxY.v)
            && (exists j | 0 <= j < |c| && j % 2 == 1 :: b.minY == c[j])
            && (exists j | 0 <= j < |c| && j % 2 == 1 :: b.maxY == c[j])
  {
    if k == 0 {
      assert c[1] == c[1];
    } else {
      PolyBoxYBounds(c, k - 1);
      assert PolyBox(c, k) == PolyStep(PolyBox(c, k - 1), At(c, 2 * k), At(c, 2 * k + 1));
      if 2 * k + 1 < |c| {
        assert At(c, 2 * k + 1) == c[2 * k + 1];
      }
    }
  }

  /** A polygon's rectangle contains every one of its points and is the
      smallest that does: its left and top edges lie on points, and so do
      its right and bottom edges unless an extent under 10 was raised. */
  lemma {:induction false} PolygonAreaCoversPoints(c: seq<Num>)
    requires |c| > 4 && AllInt(c)
    ensures var r := AreaOf(c);
            && r.x.Int? && r.y.Int? && r.w.Int? && r.h.Int? && r.w.v >= 10 && r.h.v >= 10
            && (forall j | 0 <= j < |c| && j % 2 == 0 :: r.x.v <= c[j].v <= r.x.v + r.w.v)
            && (forall j | 0 <= j < |c| && j % 2 == 1 :: r.y.v <= c[j].v <= r.y.v + r.h.v)
            && (exists j | 0 <= j < |c| && j % 2 == 0 :: r.x == c[j])
            && (exists j | 0 <= j < |c| && j % 2 == 1 :: r.y == c[j])
            && (r.w.v > 10 ==> exists j | 0 <= j < |c| && j % 2 == 0 :: c[j].v == r.x.v + r.w.v)
            && (r.h.v > 10 ==> exists j | 0 <= j < |c| && j % 2 == 1 :: c[j].v == r.y.v + r.h.v)
  {
    PolyBoxBounds(c, |c| / 2);
  }

  /** With numeric coordinates the width and height are at least 10. */
  lemma {:induction false} AreaAtLeastTen(c: seq<Num>)
    requires AllInt(c)
    ensures var r := AreaOf(c);
            r.w.Int? && r.h.Int? && r.w.v >= 10 && r.h.v >= 10
  {
    if |c| > 4 {
      PolygonAreaCoversPoints(c);
    }
  }

  /** A radius `parseInt` could not read stays NaN: the raise to 10 does
      not apply to it. */
  lemma {:induction false} CircleWithoutRadiusStaysNaN(c: seq<Num>)
    requires |c| == 3 && c[2] == NaN
    ensures AreaOf(c).w == NaN && AreaOf(c).h == NaN
  {
  }

  /** A rectangle `x1,y1,x2,y2` at least 10 wide and high keeps its own
      extent. */
  lemma {:induction false} RectangleKeepsExtent(x1: int, y1: int, x2: int, y2: int)
    requires x2 - x1 >= 10 && y2 - y1 >= 10
    ensures AreaOf([Int(x1), Int(y1), Int(x2), Int(y2)]) == Area(Int(x1), Int(y1), Int(x2 - x1), Int(y2 - y1))
  {
  }

  /** The first cut: the piece before the first comma, then the pieces
      of the rest. */
  lemma {:induction false} PiecesAtComma(s: string, k: int)
    requires k == IndexOf(s, ',') && k >= 0
    ensures Pieces(s) == [s[..k]] + Pieces(s[k + 1..])
  {
  }

  /** `ParseAll` on a list with a first piece. */
  lemma {:induction false} ParseAllCons(p: string, ps: seq<string>)
    ensures ParseAll([p] + ps) == [ParseInt(p)] + ParseAll(ps)
  {
    assert ([p] + ps)[1..] == ps;
  }

  /** One cut of the parsing loop: the piece before the first comma is
      parsed, the pieces of the rest are still to come. */
  lemma {:induction false} ParseAllAtComma(done: seq<Num>, s: string, k: int)
    requires k == IndexOf(s, ',') && k >= 0
    ensures done + ParseAll(Pieces(s)) == (done + [ParseInt(s[..k])]) + ParseAll(Pieces(s[k + 1..]))
  {
    PiecesAtComma(s, k);
    ParseAllCons(s[..k], Pieces(s[k + 1..]));
  }

  /** Text without a comma is a single piece. */
  lemma {:induction false} ParseAllWithoutComma(s: string)
    requires IndexOf(s, ',') < 0
    ensures ParseAll(Pieces(s)) == [ParseInt(s)]
  {
  }

  /** The coordinate loop of `findAreaBoundingBox`: the text is cut at each
      comma in turn and every piece goes through `parseInt`, the last one
      after the loop. */
  method ParseCoords(areaCoords: string) returns (coords: seq<Num>)
    ensures coords == Coords(areaCoords)
  {
    coords := [];
    var rest := areaCoords;
    var sepIndex := IndexOf(rest, ',');
    while sepIndex >= 0
      invariant sepIndex == IndexOf(rest, ',')
      invariant coords + ParseAll(Pieces(rest)) == Coords(areaCoords)
      decreases |rest|
    {
      ParseAllAtComma(coords, rest, sepIndex);
      coords := coords + [ParseInt(rest[..sepIndex])];
      rest := rest[sepIndex + 1..];
      sepIndex := IndexOf(rest, ',');
    }
    ParseAllWithoutComma(rest);
    coords := coords + [ParseInt(rest)];
  }

  /** The rectangle computation of `findAreaBoundingBox`, with its polygon
      loop. */
  method AreaRect(coords: seq<Num>) returns (r: Area)
    ensures r == AreaOf(coords)
  {
    var x, y, w, h := Int(0), Int(0), Int(0), Int(0);
    if |coords| == 3 {
      x, y, w, h := coords[0], coords[1], coords[2], coords[2];
    } else if |coords| == 4 {
      x, y := coords[0], coords[1];
      w, h := Minus(coords[2], x), Minus(coords[3], y);
    } else if |coords| > 4 {
      var minX, minY, maxX, maxY := coords[0], coords[1], coords[0], coords[1];
      var i := 2;
      while i <= |coords|
        invariant 2 <= i <= |coords| + 2 && i % 2 == 0
        invariant Box(minX, minY, maxX, maxY) == PolyBox(coords, i / 2 - 1)
      {
        var curX, curY := At(coords, i), At(coords, i + 1);
        if Lt(curX, minX) { minX := curX; }
        if Lt(maxX, curX) { maxX := curX; }
        if Lt(curY, minY) { minY := curY; }
        if Lt(maxY, curY) { maxY := curY; }
        i := i + 2;
      }
      assert i / 2 - 1 == |coords| / 2;
      x, y := minX, minY;
      w, h := Minus(maxX, minX), Minus(maxY, minY);
    }
    if Lt(w, Int(10)) { w := Int(10); }
    if Lt(h, Int(10)) { h := Int(10); }
    r := Area(x, y, w, h);
  }

  /** `findAreaBoundingBox`'s own part: the rectangle of an `<area>`
      relative to its image. */
  method FindAreaRect(areaCoords: string) returns (r: Area)
    ensures r == AreaOf(Coords(areaCoords))
  {
    var coords := ParseCoords(areaCoords);
    r := AreaRect(coords);
  }

  /** A polygon written out as integers gets a rectangle that contains
      every one of its points. */
  lemma {:induction false} WrittenPolygonCovered(xs: seq<int>)
    requires |xs| > 4
    ensures var r := AreaOf(Coords(CoordsText(xs)));
            && r.x.Int? && r.y.Int? && r.w.Int? && r.h.Int?
            && (forall j | 0 <= j < |xs| && j % 2 == 0 :: r.x.v <= xs[j] <= r.x.v + r.w.v)
            && (forall j | 0 <= j < |xs| && j % 2 == 1 :: r.y.v <= xs[j] <= r.y.v + r.h.v)
  {
    CoordsRoundTrip(xs);
    var c := Coords(CoordsText(xs));
    PolygonAreaCoversPoints(c);
  }

  // ------------------------------------------------------------ the script

  class Client {
    var graph: CG.Store
    var linksSocket: Socket
    var stopped: bool
    var status: string
    var sent: seq<Frame>
    var ctrlQueue: Option<seq<CtrlData>>
    var ctrlSocket: CtrlSocket
    var ctrlSent: seq<CtrlData>
    var routes: map<string, Route>
    var lastId: Option<string>
    var lastStamp: Option<int>
    var lastUrl: Option<string>
    var scheduled: seq<string>

    function Model(): FfState
      reads this
    {
      FfState(linksSocket, stopped, status, sent, ctrlQueue, ctrlSocket, ctrlSent,
              routes, lastId, lastStamp, lastUrl, scheduled)
    }

    ghost predicate Valid()
      reads this, graph
    {
      graph.Valid() && CtrlValid(Model())
    }

    /** The script as loaded. */
    constructor()
      ensures Valid() && fresh(graph)
      ensures Model() == INITIAL
    {
      graph := new CG.Store();
      linksSocket := NoSocket;
      stopped := true;
      status := "";
      sent := [];
      ctrlQueue, ctrlSocket, ctrlSent := None, CtrlNull, [];
      routes := map[];
      lastId, lastStamp, lastUrl := None, None, None;
      scheduled := [];
    }

    /** `stop()`. */
    method Stop()
      modifies this
      ensures graph == old(graph)
      ensures Model() == StopSpec(old(Model()))
    {
      stopped := true;
      if linksSocket.Ws? {
        linksSocket := NoSocket;
      }
    }

    /** `send(data)`. */
    method Send(f: Frame)
      modifies this
      ensures graph == old(graph)
      ensures Model() == SendSpec(old(Model()), f)
    {
      if !linksSocket.Ws? {
        linksSocket := Failed;
        Stop();
        return;
      }
      if linksSocket.readyState != OPEN {
        return;
      }
      sent := sent + [f];
    }

    /** `ctrlSend(data, force)`. */
    method CtrlSend(d: CtrlData, force: bool)
      requires Valid()
      modifies this
      ensures graph == old(graph) && Valid()
      ensures Model() == CtrlSendSpec(old(Model()), d, force)
    {
      if ctrlQueue.None? && ctrlSocket == CtrlNull && !force {
        return;
      }
      if ctrlQueue.Some? {
        ctrlQueue := Some(ctrlQueue.value + [d]);
        return;
      }
      if ctrlSocket != CtrlNull {
        ctrlSent := ctrlSent + [d];
        return;
      }
      ctrlQueue := Some([d]);
      ctrlSocket := CtrlConnecting;
    }

    /** The control socket's `onopen`: the queue is sent element by
        element, then dropped. */
    method OnCtrlOpen()
      requires Valid() && ctrlSocket == CtrlConnecting
      modifies this
      ensures graph == old(graph) && Valid()
      ensures Model() == OnCtrlOpenSpec(old(Model()))
    {
      ctrlSocket := CtrlOpen;
      var q := ctrlQueue.value;
      for i := 0 to |q|
        invariant ctrlSent == old(ctrlSent) + q[..i]
        invariant ctrlQueue == old(ctrlQueue) && graph == old(graph)
        invariant Model() == old(Model()).(ctrlSocket := CtrlOpen, ctrlSent := ctrlSent)
      {
        ctrlSent := ctrlSent + [q[i]];
        assert q[..i + 1] == q[..i] + [q[i]];
      }
      assert q[..|q|] == q;
      ctrlQueue := None;
    }

    /** The control socket's `onclose` and `onerror`. */
    method OnCtrlClose()
      requires Valid()
      modifies this
      ensures graph == old(graph) && Valid()
      ensures Model() == OnCtrlCloseSpec(old(Model()))
    {
      ctrlSocket := CtrlNull;
    }

    /** `removeRouteData(id)`. */
    method RemoveRouteData(id: string)
      modifies this
      ensures graph == old(graph)
      ensures Model() == RemoveRouteSpec(old(Model()), id)
    {
      if id in routes {
        routes := routes - {id};
      }
    }

    /** The `for (route_id in active_routes)` loop shared by `onAbort` and
        `removeAllRouteData`: every route is removed, one at a time. */
    method RemoveEveryRoute()
      modifies this
      ensures graph == old(graph)
      ensures Model() == old(Model()).(routes := map[])
    {
      var keys := routes.Keys;
      while keys != {}
        invariant keys == routes.Keys && graph == old(graph)
        invariant Model() == old(Model()).(routes := routes)
        decreases |keys|
      {
        var k :| k in keys;
        RemoveRouteData(k);
        keys := keys - {k};
      }
      assert routes == map[];
    }

    /** `removeAllRouteData()`. */
    method RemoveAllRouteData()
      modifies this
      ensures graph == old(graph)
      ensures Model() == RemoveAllRouteDataSpec(old(Model()))
    {
      lastId, lastStamp := None, None;
      RemoveEveryRoute();
    }

    /** `onAbort(id, stamp, send_msg, all_clients)`. */
    method OnAbort(id: string, stamp: int, sendMsg: bool, allClients: bool)
      modifies this
      ensures graph == old(graph)
      ensures Model() == OnAbortSpec(old(Model()), id, stamp, sendMsg, allClients)
    {
      lastId, lastStamp := None, None;
      if id == "" && stamp == ABORT_ALL_STAMP {
        RemoveEveryRoute();
      } else {
        RemoveRouteData(id);
      }
      if sendMsg {
        Send(Message(Abort(id, stamp, allClients)));
      }
    }

    /** `abortAll()`. */
    method AbortAll()
      modifies this
      ensures graph == old(graph)
      ensures Model() == AbortAllSpec(old(Model()))
    {
      OnAbort("", ABORT_ALL_STAMP, true, true);
    }

    /** The route bookkeeping of `reportVisLinks(id, found, refs)`. */
    method ReportVisLinks(id: string, found: bool, clock: int, replaceRoute: bool)
      modifies this
      ensures graph == old(graph)
      ensures Model() == ReportVisLinksSpec(old(Model()), id, found, clock, replaceRoute)
    {
      if status != "active" || |id| == 0 {
        return;
      }
      if !found && replaceRoute {
        AbortAll();
      }
      lastId := Some(id);
      if !found {
        lastStamp := Some(clock);
      }
      if id !in routes {
        routes := routes[id := Route(lastStamp)];
      }
      Send(Report(found, id, lastStamp));
    }

    /** The REQUEST branch of `onmessage`; `hasData` tells whether the
        message has a `data` member. */
    method OnRequest(id: string, stamp: int, hasData: bool)
      modifies this
      ensures graph == old(graph)
      ensures Model() == OnRequestSpec(old(Model()), id, stamp, hasData)
    {
      if !StartsWith(id, LINK_SCHEME) {
        if lastId == Some(id) && lastStamp == Some(stamp) {
          return;
        }
        lastId := Some(id);
        lastStamp := Some(stamp);
      }
      if !hasData {
        return;
      }
      scheduled := scheduled + [id];
    }

    /** The UPDATE branch of `onmessage`. */
    method OnUpdate(id: string, newId: string, clock: int, replaceRoute: bool)
      modifies this
      ensures graph == old(graph)
      ensures Model() == OnUpdateSpec(old(Model()), id, newId, clock, replaceRoute)
    {
      if id !in routes {
        return;
      }
      var route := routes[id];
      routes := routes[newId := route];
      routes := routes - {id};
      ReportVisLinks(newId, false, clock, replaceRoute);
    }

    /** A scheduled report's timer fires. */
    method RunScheduled(clock: int)
      requires |scheduled| > 0
      modifies this
      ensures graph == old(graph)
      ensures Model() == RunScheduledSpec(old(Model()), clock)
    {
      var id := scheduled[0];
      scheduled := scheduled[1..];
      ReportVisLinks(id, true, clock, false);
    }

    /** The links socket's `onerror`. */
    method OnLinksError()
      modifies this
      ensures graph == old(graph)
      ensures Model() == OnLinksErrorSpec(old(Model()))
    {
      status := "error";
      RemoveAllRouteData();
      Stop();
    }

    /** The links socket's `onmessage`. */
    method OnSocketMessage(m: Msg, baseDomain: string -> string, clock: int, replaceRoute: bool)
      requires Valid()
      modifies this, graph
      ensures graph == old(graph) && Valid()
      ensures var (g', res) := CG.HandleMessageSpec(old(graph.Model()), m, baseDomain);
              graph.Model() == g' && Model() == OnMessageSpec(old(Model()), res, m, clock, replaceRoute)
    {
      var res := graph.HandleMessage(m, baseDomain);
      AfterStoreAnswered(res, m, clock, replaceRoute);
    }

    /** The rest of `links_socket.onmessage`, once the store has answered
        `res`. */
    method AfterStoreAnswered(res: CG.HandleResult, m: Msg, clock: int, replaceRoute: bool)
      requires Valid()
      modifies this
      ensures graph == old(graph) && Valid()
      ensures Model() == OnMessageSpec(old(Model()), res, m, clock, replaceRoute)
    {
      if res != CG.Rejected {
        return;
      }
      match m {
        case Request(id, stamp, data) => OnRequest(id, stamp, data.Some?);
        case Update(id, newId) => OnUpdate(id, newId, clock, replaceRoute);
        case Abort(id, stamp, _) => OnAbort(id, stamp, false, true);
        case _ =>
      }
    }

    /** `onUrlChange(url, tab, reason)`, `selected` telling whether `tab`
        is the selected tab. */
    method OnUrlChange(url: string, selected: bool)
      requires Valid()
      modifies this
      ensures graph == old(graph) && Valid()
      ensures Model() == OnUrlChangeSpec(old(Model()), url, selected)
    {
      if lastUrl == Some(url) || !selected {
        return;
      }
      lastUrl := Some(url);
      CtrlSend(Json(Sync(url)), false);
      Send(Message(Sync(url)));
    }
  }
}
