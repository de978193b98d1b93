/** The link bookkeeping of the relay's WebSocket server
    (`components/ipc_server/src/ipc_server.cpp`): clients announce a search
    with INITIATE, every connected client is asked for matches with a
    REQUEST, and the answers (FOUND) add regions to the link's hyper-edge.

    A received frame is evaluated as a script value; the evaluation itself
    (a JavaScript engine) is not modelled, so `OnDataReceived` takes its
    outcome: None when evaluation failed, otherwise the value. The
    conversions `QVariant::toInt` and `QVariant::toString` are parameters.
    The link list holds each hyper-edge by value: its nodes and revision. */
module IpcServer {
  import opened Common
  import LD = LinkDescriptionH

  /** A script value as the engine hands it over. */
  datatype SValue =
    | SUndefined
    | SNull
    | SBool(b: bool)
    | SNum(n: real)
    | SStr(s: string)
    | SArr(items: seq<SValue>)
    | SObj(members: map<string, SValue>)

  /** A value or the text of the `std::runtime_error` thrown instead. */
  datatype Result<T> = Ok(value: T) | Err(msg: string)

  const UINT32_MOD: nat := 0x1_0000_0000

  // ---- IPCServer::JSON ----

  /** The `JSON(data)` constructor: it throws unless evaluation produced an
      object that is not an array. */
  function ParseMessage(evaluated: Option<SValue>): (r: Result<map<string, SValue>>)
    ensures r.Ok? <==> evaluated.Some? && evaluated.value.SObj?
    ensures r.Ok? ==> r.value == evaluated.value.members
  {
    if evaluated.Some? && evaluated.value.SObj? then Ok(evaluated.value.members)
    else Err("Received data is no JSON object.")
  }

  /** `isSet(key)`: the property exists and is not undefined. */
  predicate IsSet(msg: map<string, SValue>, key: string) {
    key in msg && !msg[key].SUndefined?
  }

  /** JavaScript's `ToUint32`: truncation toward zero, then reduction
      modulo 2^32 into [0, 2^32). */
  function ToUint32(n: real): (r: nat)
    ensures r < UINT32_MOD
    ensures n >= 0.0 ==> (r - n.Floor) % UINT32_MOD == 0
    ensures n < 0.0 ==> (r + (-n).Floor) % UINT32_MOD == 0
  {
    var t := if n >= 0.0 then n.Floor else -((-n).Floor);
    t % UINT32_MOD
  }

  /** A stamp that fits 32 bits is read back as itself, and -1 becomes the
      largest 32-bit value. */
  lemma {:induction false} ToUint32OfStamp(k: nat)
    requires k < UINT32_MOD
    ensures ToUint32(k as real) == k
    ensures ToUint32(-1.0) == UINT32_MOD - 1
  {
    assert (k as real).Floor == k;
    assert (1.0).Floor == 1;
  }

  /** `getValue<QString>(key)`. */
  function GetString(msg: map<string, SValue>, key: string): (r: Result<string>)
    ensures r.Ok? <==> IsSet(msg, key) && msg[key].SStr?
    ensures r.Ok? ==> r.value == msg[key].s
  {
    if !IsSet(msg, key) then Err("No such property (" + key + ")")
    else if !msg[key].SStr? then Err("Not a string")
    else Ok(msg[key].s)
  }

  /** `getValue<uint32_t>(key)`. */
  function GetUint32(msg: map<string, SValue>, key: string): (r: Result<nat>)
    ensures r.Ok? <==> IsSet(msg, key) && msg[key].SNum?
    ensures r.Ok? ==> r.value == ToUint32(msg[key].n) && r.value < UINT32_MOD
  {
    if !IsSet(msg, key) then Err("No such property (" + key + ")")
    else if !msg[key].SNum? then Err("Not a number")
    else Ok(ToUint32(msg[key].n))
  }

  /** `getValue<QVariantList>(key)`. */
  function GetList(msg: map<string, SValue>, key: string): (r: Result<seq<SValue>>)
    ensures r.Ok? <==> IsSet(msg, key) && msg[key].SArr?
    ensures r.Ok? ==> r.value == msg[key].items
  {
    if !IsSet(msg, key) then Err("No such property (" + key + ")")
    else if !msg[key].SArr? then Err("Not an array")
    else Ok(msg[key].items)
  }

  /** Every successful read is of a set property. */
  lemma {:induction false} GetValueNeedsIsSet(msg: map<string, SValue>, key: string)
    ensures GetString(msg, key).Ok? || GetUint32(msg, key).Ok? || GetList(msg, key).Ok? ==> IsSet(msg, key)
    ensures !IsSet(msg, key) ==>
              GetString(msg, key) == Err("No such property (" + key + ")")
              && GetUint32(msg, key) == Err("No such property (" + key + ")")
              && GetList(msg, key) == Err("No such property (" + key + ")")
    ensures IsSet(msg, key) ==>
              (GetString(msg, key).Ok? || GetUint32(msg, key).Ok? || GetList(msg, key).Ok?
               <==> msg[key].SStr? || msg[key].SNum? || msg[key].SArr?)
  {
  }

  // ---- parseRegions ----

  /** A node of a link as `parseRegions` builds it. */
  datatype NodeValue = NodeValue(points: seq<LD.Point2>, props: map<string, string>)

  /** `QVariant::toList()`: a list's elements; nothing for anything else. */
  function ToList(v: SValue): seq<SValue> {
    if v.SArr? then v.items else []
  }

  /** An entry that reads as a point: a list of exactly two coordinates. */
  predicate IsPair(e: SValue) {
    e.SArr? && |e.items| == 2
  }

  /** The point of a pair entry, each coordinate through `toInt()`. */
  function PairPoint(e: SValue, toInt: SValue -> int): LD.Point2
    requires IsPair(e)
  {
    LD.Point2(toInt(e.items[0]) as real, toInt(e.items[1]) as real)
  }

  /** The points of one region's entries: each entry that is a list of
      exactly two coordinates gives a point, in order. */
  function RegionPoints(entries: seq<SValue>, toInt: SValue -> int): (r: seq<LD.Point2>)
    ensures |r| <= |entries|
  {
    if |entries| == 0 then []
    else
      var rest := RegionPoints(entries[..|entries| - 1], toInt);
      var e := entries[|entries| - 1];
      assert forall x :: x in entries <==> x in entries[..|entries| - 1] || x == e;
      if IsPair(e) then rest + [PairPoint(e, toInt)] else rest
  }

  /** A single entry gives its point when it is a pair and nothing
      otherwise. */
  lemma {:induction false} RegionPointsOfOne(e: SValue, toInt: SValue -> int)
    ensures RegionPoints([e], toInt) == if IsPair(e) then [PairPoint(e, toInt)] else []
  {
    assert [e][..0] == [];
  }

  /** The points of two runs of entries are the points of the first run
      followed by those of the second. With RegionPointsOfOne: the points
      are exactly the pair entries, in order, one each. */
  lemma {:induction false} RegionPointsConcat(a: seq<SValue>, b: seq<SValue>, toInt: SValue -> int)
    ensures RegionPoints(a + b, toInt) == RegionPoints(a, toInt) + RegionPoints(b, toInt)
    decreases |b|
  {
    if |b| > 0 {
      var init := b[..|b| - 1];
      RegionPointsConcat(a, init, toInt);
      assert (a + b)[..|a + b| - 1] == a + init;
      assert (a + b)[|a + b| - 1] == b[|b| - 1];
    } else {
      assert a + b == a;
    }
  }

  /** A point comes from some pair entry, and every pair entry gives one. */
  lemma {:induction false} RegionPointsMembers(entries: seq<SValue>, toInt: SValue -> int)
    ensures forall p :: p in RegionPoints(entries, toInt) <==>
              exists e :: e in entries && IsPair(e) && p == PairPoint(e, toInt)
    decreases |entries|
  {
    if |entries| > 0 {
      var init := entries[..|entries| - 1];
      RegionPointsMembers(init, toInt);
      assert forall x :: x in entries <==> x in init || x == entries[|entries| - 1];
    }
  }

  /** The properties of one region's entries: every entry that is an
      object contributes its members, converted to text; a later entry
      overrides an earlier one. */
  function RegionProps(entries: seq<SValue>, toStr: SValue -> string): (r: map<string, string>)
    ensures forall k :: k in r <==> exists e :: e in entries && e.SObj? && k in e.members
  {
    if |entries| == 0 then map[]
    else
      var rest := RegionProps(entries[..|entries| - 1], toStr);
      var e := entries[|entries| - 1];
      assert forall x :: x in entries <==> x in entries[..|entries| - 1] || x == e;
      if e.SObj? then rest + map k | k in e.members :: toStr(e.members[k]) else rest
  }

  /** The node one region describes: its points and its merged properties. */
  function RegionNode(region: SValue, toInt: SValue -> int, toStr: SValue -> string): NodeValue {
    NodeValue(RegionPoints(ToList(region), toInt), RegionProps(ToList(region), toStr))
  }

  /** The nodes of a list of regions: one per region that has at least
      one point, in order. */
  function RegionNodes(regions: seq<SValue>, toInt: SValue -> int, toStr: SValue -> string)
    : (r: seq<NodeValue>)
    ensures |r| <= |regions|
    ensures forall k :: 0 <= k < |r| ==> |r[k].points| > 0
  {
    if |regions| == 0 then []
    else
      var rest := RegionNodes(regions[..|regions| - 1], toInt, toStr);
      var g := regions[|regions| - 1];
      assert forall x :: x in regions <==> x in regions[..|regions| - 1] || x == g;
      var n := RegionNode(g, toInt, toStr);
      if |n.points| > 0 then rest + [n] else rest
  }

  /** A single region gives its node when it has a point and nothing
      otherwise. */
  lemma {:induction false} RegionNodesOfOne(g: SValue, toInt: SValue -> int, toStr: SValue -> string)
    ensures RegionNodes([g], toInt, toStr) ==
              if |RegionNode(g, toInt, toStr).points| > 0 then [RegionNode(g, toInt, toStr)] else []
  {
    assert [g][..0] == [];
  }

  /** The nodes of two runs of regions are the nodes of the first run
      followed by those of the second. With RegionNodesOfOne: the nodes are
      exactly the regions with points, in order, one each. */
  lemma {:induction false} RegionNodesConcat(a: seq<SValue>, b: seq<SValue>, toInt: SValue -> int, toStr: SValue -> string)
    ensures RegionNodes(a + b, toInt, toStr) == RegionNodes(a, toInt, toStr) + RegionNodes(b, toInt, toStr)
    decreases |b|
  {
    if |b| > 0 {
      var init := b[..|b| - 1];
      RegionNodesConcat(a, init, toInt, toStr);
      assert (a + b)[..|a + b| - 1] == a + init;
      assert (a + b)[|a + b| - 1] == b[|b| - 1];
    } else {
      assert a + b == a;
    }
  }

  /** A node comes from some region with points, and every such region
      gives one. */
  lemma {:induction false} RegionNodesMembers(regions: seq<SValue>, toInt: SValue -> int, toStr: SValue -> string)
    ensures forall n :: n in RegionNodes(regions, toInt, toStr) <==>
              exists g :: g in regions && n == RegionNode(g, toInt, toStr) && |n.points| > 0
    decreases |regions|
  {
    if |regions| > 0 {
      var init := regions[..|regions| - 1];
      RegionNodesMembers(init, toInt, toStr);
      assert forall x :: x in regions <==> x in init || x == regions[|regions| - 1];
    }
  }

  /** When every region has a point, there is one node per region, the
      k-th node being the k-th region's. */
  lemma {:induction false} RegionNodesKeepsEveryPointedRegion(regions: seq<SValue>, toInt: SValue -> int, toStr: SValue -> string)
    requires forall k :: 0 <= k < |regions| ==> |RegionPoints(ToList(regions[k]), toInt)| > 0
    ensures |RegionNodes(regions, toInt, toStr)| == |regions|
    ensures forall k :: 0 <= k < |regions| ==> RegionNodes(regions, toInt, toStr)[k] == RegionNode(regions[k], toInt, toStr)
    decreases |regions|
  {
    if |regions| > 0 {
      RegionNodesKeepsEveryPointedRegion(regions[..|regions| - 1], toInt, toStr);
    }
  }

  /** `parseRegions(json)`: no regions when the message has none; an error
      when `regions` is not an array. */
  function ParseRegionsSpec(msg: map<string, SValue>, toInt: SValue -> int, toStr: SValue -> string)
    : (r: Result<seq<NodeValue>>)
    ensures !IsSet(msg, "regions") ==> r == Ok([])
    ensures IsSet(msg, "regions") ==> (r.Ok? <==> msg["regions"].SArr?)
    ensures r.Ok? ==> forall k :: 0 <= k < |r.value| ==> |r.value[k].points| > 0
    ensures IsSet(msg, "regions") && msg["regions"].SArr? ==> r == Ok(RegionNodes(msg["regions"].items, toInt, toStr))
  {
    if !IsSet(msg, "regions") then Ok([])
    else
      match GetList(msg, "regions")
      case Err(e) => Err(e)
      case Ok(regions) => Ok(RegionNodes(regions, toInt, toStr))
  }

  /** A region whose entries are all pairs of coordinates gives one node
      with one point per pair and no properties. */
  lemma {:induction false} RegionOfPairs(entries: seq<SValue>, toInt: SValue -> int, toStr: SValue -> string)
    requires forall k :: 0 <= k < |entries| ==> entries[k].SArr? && |entries[k].items| == 2
    ensures |RegionPoints(entries, toInt)| == |entries|
    ensures RegionProps(entries, toStr) == map[]
  {
    if |entries| > 0 {
      RegionOfPairs(entries[..|entries| - 1], toInt, toStr);
    }
  }

  /** `parseRegions(json)` as written, with its nested loops. */
  method ParseRegions(msg: map<string, SValue>, toInt: SValue -> int, toStr: SValue -> string)
    returns (r: Result<seq<NodeValue>>)
    ensures r == ParseRegionsSpec(msg, toInt, toStr)
  {
    if !IsSet(msg, "regions") {
      return Ok([]);
    }
    var list := GetList(msg, "regions");
    if list.Err? {
      return Err(list.msg);
    }
    var regions := list.value;
    var nodes := [];
    var i := 0;
    while i < |regions|
      invariant i <= |regions|
      invariant nodes == RegionNodes(regions[..i], toInt, toStr)
    {
      var entries := ToList(regions[i]);
      var points, props := ParseRegion(entries, toInt, toStr);
      assert regions[..i + 1][..i] == regions[..i];
      if |points| > 0 {
        nodes := nodes + [NodeValue(points, props)];
      }
      i := i + 1;
    }
    assert regions[..i] == regions;
    return Ok(nodes);
  }

  /** The inner loop of `parseRegions`: the points and the properties of
      one region's entries. */
  method ParseRegion(entries: seq<SValue>, toInt: SValue -> int, toStr: SValue -> string)
    returns (points: seq<LD.Point2>, props: map<string, string>)
    ensures points == RegionPoints(entries, toInt) && props == RegionProps(entries, toStr)
  {
    points, props := [], map[];
    var j := 0;
    while j < |entries|
      invariant j <= |entries|
      invariant points == RegionPoints(entries[..j], toInt)
      invariant props == RegionProps(entries[..j], toStr)
    {
      assert entries[..j + 1][..j] == entries[..j];
      var e := entries[j];
      if e.SArr? {
        if |e.items| == 2 {
          points := points + [PairPoint(e, toInt)];
        }
      } else if e.SObj? {
        props := props + map k | k in e.members :: toStr(e.members[k]);
      }
      j := j + 1;
    }
    assert entries[..j] == entries;
  }

  // ---- the REQUEST text ----

  /** `id.replace('"', "\\\"")` as written: only quotes are escaped. */
  function EscapeQuotesAsWritten(id: string): (r: string)
    ensures |r| >= |id|
  {
    if |id| == 0 then []
    else (if id[0] == '"' then ['\\', '"'] else [id[0]]) + EscapeQuotesAsWritten(id[1..])
  }

  /** The escaping a JSON string literal needs for these ids: backslashes
      and quotes are both escaped. */
  function EscapeJsonString(id: string): (r: string)
    ensures |r| >= |id|
  {
    if |id| == 0 then []
    else (if id[0] == '"' || id[0] == '\\' then ['\\', id[0]] else [id[0]]) + EscapeJsonString(id[1..])
  }

  /** A JSON reader of the body of a string literal (after the opening
      quote): it reads up to the first unescaped quote and gives the text
      and what follows. Raw control characters are rejected; of the escape
      sequences it knows `\"`, `\\` and `\/`. */
  function ReadStringBody(s: string): (r: Option<(string, string)>)
    ensures r.Some? ==> |r.value.1| < |s|
  {
    if |s| == 0 then None
    else if s[0] == '"' then Some(([], s[1..]))
    else if s[0] < ' ' then None
    else if s[0] == '\\' then
      if |s| >= 2 && (s[1] == '"' || s[1] == '\\' || s[1] == '/') then
        match ReadStringBody(s[2..])
        case None => None
        case Some(p) => Some(([s[1]] + p.0, p.1))
      else None
    else
      match ReadStringBody(s[1..])
      case None => None
      case Some(p) => Some(([s[0]] + p.0, p.1))
  }

  predicate NoControlChars(id: string) {
    forall k :: 0 <= k < |id| ==> id[k] >= ' '
  }

  /** The corrected escaping survives the trip through a JSON reader: the
      reader gives back the id and stops right after its closing quote. */
  lemma {:induction false} EscapeJsonStringRoundTrip(id: string, tail: string)
    requires NoControlChars(id)
    ensures ReadStringBody(EscapeJsonString(id) + "\"" + tail) == Some((id, tail))
  {
    if |id| > 0 {
      EscapeJsonStringRoundTrip(id[1..], tail);
      var e := if id[0] == '"' || id[0] == '\\' then ['\\', id[0]] else [id[0]];
      assert EscapeJsonString(id) + "\"" + tail == e + (EscapeJsonString(id[1..]) + "\"" + tail);
      assert [id[0]] + id[1..] == id;
    } else {
      assert EscapeJsonString(id) + "\"" + tail == "\"" + tail;
    }
  }

  /** With only quotes escaped, an id that ends in a backslash escapes the
      closing quote of its own field: the reader runs into the stamp. */
  lemma {:induction false} EscapeQuotesAsWrittenBreaksId()
    ensures ReadStringBody(EscapeQuotesAsWritten("a\\") + "\",\"stamp\": 7}") != Some(("a\\", ",\"stamp\": 7}"))
  {
    assert EscapeQuotesAsWritten("a\\") == "a\\";
    var s := "a\\\",\"stamp\": 7}";
    assert EscapeQuotesAsWritten("a\\") + "\",\"stamp\": 7}" == s;
    var tail := "stamp\": 7}";
    assert s[4] == '"' && s[5..] == tail;
    assert s[4..][1..] == tail;
    assert ReadStringBody(s[4..]) == Some(([], tail));
    var s3 := s[3..];
    assert s3[0] == ',' && s3[1..] == s[4..];
    assert !(s3[0] < ' ') && [','] + [] == [','];
    assert ReadStringBody(s3) == Some(([','], tail));
    var s1 := s[1..];
    assert s1[0] == '\\' && s1[1] == '"' && s1[2..] == s3;
    assert !(s1[0] < ' ') && ['"'] + [','] == ['"', ','];
    assert ReadStringBody(s1) == Some((['"', ','], tail));
  }

  /** The REQUEST that INITIATE sends to every client, as written: only
      quotes in the id are escaped. */
  function RequestTextAsWritten(id: string, stamp: nat): (r: string)
    ensures StartsWith(r, "{\"task\": \"REQUEST\",\"id\": \"")
  {
    "{\"task\": \"REQUEST\",\"id\": \"" + EscapeQuotesAsWritten(id) + "\",\"stamp\": " + LD.NatToString(stamp) + "}"
  }

  /** The REQUEST with the corrected escaping. */
  function RequestText(id: string, stamp: nat): (r: string)
    ensures StartsWith(r, "{\"task\": \"REQUEST\",\"id\": \"")
  {
    "{\"task\": \"REQUEST\",\"id\": \"" + EscapeJsonString(id) + "\",\"stamp\": " + LD.NatToString(stamp) + "}"
  }

  /** The two escapings agree on an id without a backslash. */
  lemma {:induction false} EscapingsAgreeWithoutBackslash(id: string)
    requires '\\' !in id
    ensures EscapeQuotesAsWritten(id) == EscapeJsonString(id)
  {
    if |id| > 0 {
      assert id == [id[0]] + id[1..];
      EscapingsAgreeWithoutBackslash(id[1..]);
    }
  }

  /** The REQUEST as written carries an id without a backslash intact: its
      id field reads back as the id, followed by the stamp. */
  lemma {:induction false} RequestAsWrittenCarriesId(id: string, stamp: nat)
    requires NoControlChars(id) && '\\' !in id
    ensures RequestTextAsWritten(id, stamp) == RequestText(id, stamp)
    ensures var prefix := "{\"task\": \"REQUEST\",\"id\": \"";
            ReadStringBody(RequestTextAsWritten(id, stamp)[|prefix|..])
              == Some((id, ",\"stamp\": " + LD.NatToString(stamp) + "}"))
  {
    EscapingsAgreeWithoutBackslash(id);
    RequestCarriesId(id, stamp);
  }

  /** The id field of a REQUEST reads back as the id, and the text
      continues with the stamp. */
  lemma {:induction false} RequestCarriesId(id: string, stamp: nat)
    requires NoControlChars(id)
    ensures var prefix := "{\"task\": \"REQUEST\",\"id\": \"";
            ReadStringBody(RequestText(id, stamp)[|prefix|..])
              == Some((id, ",\"stamp\": " + LD.NatToString(stamp) + "}"))
  {
    var prefix := "{\"task\": \"REQUEST\",\"id\": \"";
    var tail := ",\"stamp\": " + LD.NatToString(stamp) + "}";
    assert RequestText(id, stamp) == prefix + (EscapeJsonString(id) + "\"" + tail);
    assert RequestText(id, stamp)[|prefix|..] == EscapeJsonString(id) + "\"" + tail;
    EscapeJsonStringRoundTrip(id, tail);
  }

  // ---- the link list ----

  /** A hyper-edge held by value: its nodes and its revision. */
  datatype Edge = Edge(nodes: seq<NodeValue>, revision: nat)

  /** `LinkDescription(id, stamp, link)`. */
  datatype Link = Link(id: string, stamp: nat, edge: Edge)

  /** `HyperEdge::addNodes` on the value: nothing for an empty list,
      otherwise the nodes are appended and the revision goes up by one
      (modulo 2^32). */
  function AddNodes(e: Edge, ns: seq<NodeValue>): (r: Edge)
    ensures r.nodes == e.nodes + ns
    ensures |ns| == 0 ==> r == e
    ensures |ns| > 0 ==> r.revision == (e.revision + 1) % UINT32_MOD
  {
    if |ns| == 0 then e else Edge(e.nodes + ns, (e.revision + 1) % UINT32_MOD)
  }

  /** The position of the first link with this id, `|links|` if none. */
  function FindLink(links: seq<Link>, id: string): (i: nat)
    ensures i <= |links|
    ensures i < |links| ==> links[i].id == id
    ensures forall j :: 0 <= j < i ==> links[j].id != id
  {
    if |links| == 0 then 0
    else if links[0].id == id then 0
    else 1 + FindLink(links[1..], id)
  }

  /** The link list without the first link with this id. */
  function EraseFirst(links: seq<Link>, id: string): (r: seq<Link>)
    ensures FindLink(links, id) == |links| ==> r == links
    ensures FindLink(links, id) < |links| ==> |r| == |links| - 1
  {
    var i := FindLink(links, id);
    if i == |links| then links else links[..i] + links[i + 1..]
  }

  predicate UniqueIds(links: seq<Link>) {
    forall i, j :: 0 <= i < j < |links| ==> links[i].id != links[j].id
  }

  /** One write per connected client, in the clients' order. */
  function Broadcast(clients: seq<nat>, text: string): (r: seq<(nat, string)>)
    ensures |r| == |clients|
    ensures forall k :: 0 <= k < |r| ==> r[k] == (clients[k], text)
  {
    if |clients| == 0 then [] else Broadcast(clients[..|clients| - 1], text) + [(clients[|clients| - 1], text)]
  }

  /** `QList::removeOne`: the first occurrence goes, the rest stays in
      order. */
  function RemoveOne(clients: seq<nat>, socket: nat): (r: seq<nat>)
    ensures socket !in clients ==> r == clients
    ensures socket in clients ==> |r| == |clients| - 1
    ensures forall x :: x in r ==> x in clients
    ensures forall x :: x in clients && x != socket ==> x in r
  {
    if |clients| == 0 then []
    else if clients[0] == socket then clients[1..]
    else [clients[0]] + RemoveOne(clients[1..], socket)
  }

  /** A socket that was connected once is gone after its disconnect. */
  lemma {:induction false} DisconnectRemovesSocket(clients: seq<nat>, socket: nat)
    requires Distinct(clients)
    ensures socket !in RemoveOne(clients, socket)
    ensures Distinct(RemoveOne(clients, socket))
  {
    if |clients| > 0 && clients[0] != socket {
      DisconnectRemovesSocket(clients[1..], socket);
      assert clients[0] !in clients[1..];
    }
    if |clients| > 0 && clients[0] == socket {
      assert clients[0] !in clients[1..];
    }
  }

  // ---- onDataReceived ----

  /** The server's state: the published link list, whether the slot has
      been marked valid, the connected clients and the frames written to
      them. */
  datatype ServerState = ServerState(links: seq<Link>, linksValid: bool, clients: seq<nat>,
                                     outbox: seq<(nat, string)>)

  /** What a frame came to; `Failed` carries the message of the error that
      was caught and logged. */
  datatype Outcome = Initiated | Found | UnknownLink | WrongStamp | Unhandled | Failed(reason: string)

  /** The INITIATE branch. A bad `regions` member throws after the old link
      was erased, so that link is gone and nothing is added or sent. */
  function InitiateSpec(s: ServerState, msg: map<string, SValue>, toInt: SValue -> int,
                        toStr: SValue -> string): (r: (ServerState, Outcome))
    ensures r.1 != Initiated ==> r.0.clients == s.clients && r.0.outbox == s.outbox
    ensures r.1 == Initiated ==>
              GetString(msg, "id").Ok? && GetUint32(msg, "stamp").Ok? && ParseRegionsSpec(msg, toInt, toStr).Ok?
    ensures r.1 == Initiated ==>
              var id := GetString(msg, "id").value;
              var stamp := GetUint32(msg, "stamp").value;
              r.0 == s.(links := EraseFirst(s.links, id) + [Link(id, stamp, Edge(ParseRegionsSpec(msg, toInt, toStr).value, 0))],
                        linksValid := true,
                        outbox := s.outbox + Broadcast(s.clients, RequestTextAsWritten(id, stamp)))
  {
    match GetString(msg, "id")
    case Err(e) => (s, Failed(e))
    case Ok(id) =>
      match GetUint32(msg, "stamp")
      case Err(e) => (s, Failed(e))
      case Ok(stamp) =>
        var kept := EraseFirst(s.links, id);
        match ParseRegionsSpec(msg, toInt, toStr)
        case Err(e) => (s.(links := kept), Failed(e))
        case Ok(ns) =>
          (s.(links := kept + [Link(id, stamp, Edge(ns, 0))], linksValid := true,
              outbox := s.outbox + Broadcast(s.clients, RequestTextAsWritten(id, stamp))), Initiated)
  }

  /** The FOUND branch: only a FOUND for a known id with the stored stamp
      adds nodes, and only to that link. */
  function FoundSpec(s: ServerState, msg: map<string, SValue>, toInt: SValue -> int,
                     toStr: SValue -> string): (r: (ServerState, Outcome))
    ensures r.1 != Found ==> r.0 == s
    ensures r.1 == Found ==>
              GetString(msg, "id").Ok? && GetUint32(msg, "stamp").Ok? && ParseRegionsSpec(msg, toInt, toStr).Ok?
    ensures r.1 == Found ==>
              var i := FindLink(s.links, GetString(msg, "id").value);
              i < |s.links| && s.links[i].stamp == GetUint32(msg, "stamp").value
              && r.0 == s.(links := s.links[i := s.links[i].(edge := AddNodes(s.links[i].edge,
                                                              ParseRegionsSpec(msg, toInt, toStr).value))])
  {
    match GetString(msg, "id")
    case Err(e) => (s, Failed(e))
    case Ok(id) =>
      match GetUint32(msg, "stamp")
      case Err(e) => (s, Failed(e))
      case Ok(stamp) =>
        var i := FindLink(s.links, id);
        if i == |s.links| then (s, UnknownLink)
        else if s.links[i].stamp != stamp then (s, WrongStamp)
        else
          match ParseRegionsSpec(msg, toInt, toStr)
          case Err(e) => (s, Failed(e))
          case Ok(ns) => (s.(links := s.links[i := s.links[i].(edge := AddNodes(s.links[i].edge, ns))]), Found)
  }

  /** `onDataReceived(data)`: a frame that is no object, or whose `task`
      is missing or not a string, changes nothing; tasks other than
      INITIATE and FOUND are not acted on. */
  function OnDataReceivedSpec(s: ServerState, evaluated: Option<SValue>, toInt: SValue -> int,
                              toStr: SValue -> string): (r: (ServerState, Outcome))
    ensures r.0.clients == s.clients
    ensures r.1 == Unhandled ==> r.0 == s
  {
    match ParseMessage(evaluated)
    case Err(e) => (s, Failed(e))
    case Ok(msg) =>
      match GetString(msg, "task")
      case Err(e) => (s, Failed(e))
      case Ok(task) =>
        if task == "INITIATE" then InitiateSpec(s, msg, toInt, toStr)
        else if task == "FOUND" then FoundSpec(s, msg, toInt, toStr)
        else (s, Unhandled)
  }

  /** After INITIATE the new link is the last one and the only one with its
      id, provided ids were unique before: ids stay unique. */
  lemma {:induction false} InitiateKeepsIdsUnique(s: ServerState, msg: map<string, SValue>,
                                                  toInt: SValue -> int, toStr: SValue -> string)
    requires UniqueIds(s.links)
    ensures UniqueIds(InitiateSpec(s, msg, toInt, toStr).0.links)
  {
    var r := InitiateSpec(s, msg, toInt, toStr);
    if GetString(msg, "id").Ok? && GetUint32(msg, "stamp").Ok? {
      var id := msg["id"].s;
      var kept := EraseFirst(s.links, id);
      EraseFirstRemovesId(s.links, id);
      if r.1 == Initiated {
        var links := r.0.links;
        assert links == kept + [links[|links| - 1]];
        forall i, j | 0 <= i < j < |links| ensures links[i].id != links[j].id {
          if j == |links| - 1 {
            assert links[i] == kept[i];
          } else {
            assert links[i] == kept[i] && links[j] == kept[j];
          }
        }
      }
    }
  }

  /** Erasing the first link with an id from a list of unique ids leaves
      no link with that id and keeps the ids unique. */
  lemma {:induction false} EraseFirstRemovesId(links: seq<Link>, id: string)
    requires UniqueIds(links)
    ensures UniqueIds(EraseFirst(links, id))
    ensures forall k :: 0 <= k < |EraseFirst(links, id)| ==> EraseFirst(links, id)[k].id != id
  {
    var i := FindLink(links, id);
    var r := EraseFirst(links, id);
    if i < |links| {
      assert forall k :: 0 <= k < |r| ==> r[k] == (if k < i then links[k] else links[k + 1]);
    }
  }

  /** A frame that cannot be read as an object, or whose task is not a
      string, leaves the server as it was. */
  lemma {:induction false} UnreadableFrameChangesNothing(s: ServerState, evaluated: Option<SValue>,
                                                         toInt: SValue -> int, toStr: SValue -> string)
    requires evaluated.None? || !evaluated.value.SObj?
             || !IsSet(evaluated.value.members, "task") || !evaluated.value.members["task"].SStr?
    ensures OnDataReceivedSpec(s, evaluated, toInt, toStr).0 == s
    ensures OnDataReceivedSpec(s, evaluated, toInt, toStr).1.Failed?
  {
  }

  /** A FOUND whose stamp differs from the stored one is ignored, however
      many regions it carries. */
  lemma {:induction false} StaleFoundIsIgnored(s: ServerState, msg: map<string, SValue>,
                                               toInt: SValue -> int, toStr: SValue -> string)
    requires GetString(msg, "id").Ok? && GetUint32(msg, "stamp").Ok?
    requires var i := FindLink(s.links, GetString(msg, "id").value);
             i < |s.links| && s.links[i].stamp != GetUint32(msg, "stamp").value
    ensures FoundSpec(s, msg, toInt, toStr) == (s, WrongStamp)
  {
  }

  class Server {
    var links: seq<Link>
    var linksValid: bool
    var clients: seq<nat>
    var outbox: seq<(nat, string)>

    function Model(): ServerState
      reads this
    {
      ServerState(links, linksValid, clients, outbox)
    }

    /** `IPCServer()`: no links, no clients, nothing written. */
    constructor()
      ensures Model() == ServerState([], false, [], [])
    {
      links, linksValid, clients, outbox := [], false, [], [];
    }

    /** `onClientConnection()`: the new socket is appended. */
    method OnClientConnection(socket: nat)
      modifies this
      ensures Model() == old(Model()).(clients := old(clients) + [socket])
    {
      clients := clients + [socket];
    }

    /** `onClientDisconnection()`: without a sending socket nothing
        happens; otherwise its first occurrence is removed. */
    method OnClientDisconnection(sender: Option<nat>)
      modifies this
      ensures sender.None? ==> Model() == old(Model())
      ensures sender.Some? ==> Model() == old(Model()).(clients := RemoveOne(old(clients), sender.value))
    {
      if sender.None? {
        return;
      }
      clients := RemoveOne(clients, sender.value);
    }

    /** `onDataReceived(data)`. */
    method OnDataReceived(evaluated: Option<SValue>, toInt: SValue -> int, toStr: SValue -> string)
      returns (outcome: Outcome)
      modifies this
      ensures (Model(), outcome) == OnDataReceivedSpec(old(Model()), evaluated, toInt, toStr)
    {
      var parsed := ParseMessage(evaluated);
      if parsed.Err? {
        return Failed(parsed.msg);
      }
      var msg := parsed.value;
      var task := GetString(msg, "task");
      if task.Err? {
        return Failed(task.msg);
      }
      if task.value == "INITIATE" {
        outcome := Initiate(msg, toInt, toStr);
      } else if task.value == "FOUND" {
        outcome := HandleFound(msg, toInt, toStr);
      } else {
        outcome := Unhandled;
      }
    }

    /** The INITIATE branch: the erase loop, the new link, and the write
        loop over the clients. */
    method Initiate(msg: map<string, SValue>, toInt: SValue -> int, toStr: SValue -> string)
      returns (outcome: Outcome)
      modifies this
      ensures (Model(), outcome) == InitiateSpec(old(Model()), msg, toInt, toStr)
    {
      var id := GetString(msg, "id");
      if id.Err? {
        return Failed(id.msg);
      }
      var stamp := GetUint32(msg, "stamp");
      if stamp.Err? {
        return Failed(stamp.msg);
      }
      EraseLink(id.value);
      var nodes := ParseRegions(msg, toInt, toStr);
      if nodes.Err? {
        return Failed(nodes.msg);
      }
      links := links + [Link(id.value, stamp.value, Edge(nodes.value, 0))];
      linksValid := true;
      SendToAll(RequestTextAsWritten(id.value, stamp.value));
      return Initiated;
    }

    /** The erase loop of INITIATE: the first link with the id goes. */
    method EraseLink(id: string)
      modifies this
      ensures Model() == old(Model()).(links := EraseFirst(old(links), id))
    {
      var i := 0;
      while i < |links| && links[i].id != id
        invariant i <= |links|
        invariant forall j :: 0 <= j < i ==> links[j].id != id
        invariant Model() == old(Model())
      {
        i := i + 1;
      }
      assert i == FindLink(links, id);
      if i < |links| {
        links := links[..i] + links[i + 1..];
      }
    }

    /** The write loop of INITIATE: the request goes to every client, in
        order. */
    method SendToAll(request: string)
      modifies this
      ensures Model() == old(Model()).(outbox := old(outbox) + Broadcast(clients, request))
    {
      var k := 0;
      while k < |clients|
        invariant k <= |clients|
        invariant Model() == old(Model()).(outbox := old(outbox) + Broadcast(clients[..k], request))
      {
        assert clients[..k + 1][..k] == clients[..k];
        outbox := outbox + [(clients[k], request)];
        k := k + 1;
      }
      assert clients[..k] == clients;
    }

    /** The FOUND branch: the `find_if` search and the checks before the
        nodes are added. */
    method HandleFound(msg: map<string, SValue>, toInt: SValue -> int, toStr: SValue -> string)
      returns (outcome: Outcome)
      modifies this
      ensures (Model(), outcome) == FoundSpec(old(Model()), msg, toInt, toStr)
    {
      var id := GetString(msg, "id");
      if id.Err? {
        return Failed(id.msg);
      }
      var stamp := GetUint32(msg, "stamp");
      if stamp.Err? {
        return Failed(stamp.msg);
      }
      var i := 0;
      while i < |links| && links[i].id != id.value
        invariant i <= |links|
        invariant forall j :: 0 <= j < i ==> links[j].id != id.value
      {
        i := i + 1;
      }
      assert i == FindLink(links, id.value);
      if i == |links| {
        return UnknownLink;
      }
      if links[i].stamp != stamp.value {
        return WrongStamp;
      }
      var nodes := ParseRegions(msg, toInt, toStr);
      if nodes.Err? {
        return Failed(nodes.msg);
      }
      links := links[i := links[i].(edge := AddNodes(links[i].edge, nodes.value))];
      return Found;
    }
  }
}
