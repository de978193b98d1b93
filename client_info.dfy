/** What the relay knows about one connected client (`ClientInfo`): its
    identity as reported, the window it was matched to, its view geometry,
    the commands it supports, the link nodes it contributes and a set of
    dirty flags that tell the renderer what to recompute. Rendering state
    (tile maps, popups' geometry, previews) is outside the model; popups and
    x-ray previews are represented by the id of the link they belong to. */
module ClientInfo {
  import opened Common
  import opened QtGeometry
  import opened JsonCodec
  import WM = WindowMonitor
  import LD = LinkDescriptionH

  // ---- clamp (ClientInfo.hxx) ----

  /** `clamp(val, min, max)`: `val := max(min, min(val, max))`. */
  function Clamp(val: int, lo: int, hi: int): (r: int)
    ensures lo <= hi ==> lo <= r <= hi
    ensures lo <= val <= hi ==> r == val
    ensures val < lo ==> r == lo
    ensures lo <= hi < val ==> r == hi
    ensures hi < lo ==> r == lo
  {
    var m := if val < hi then val else hi;
    if lo < m then m else lo
  }

  /** Clamping twice is clamping once. */
  lemma {:induction false} ClampIdempotent(val: int, lo: int, hi: int)
    ensures Clamp(Clamp(val, lo, hi), lo, hi) == Clamp(val, lo, hi)
  {
  }

  // ---- DirtyFlags (ClientInfo.hxx) and MATCH (ClientInfo.cxx) ----

  /** The dirty flags. `_dirty` is a bit mask of them; the model keeps the
      set of raised flags. `Match` is used by the setters and the window
      matching but is not declared with the other flags. */
  datatype Flag = Window | Regions | Visibility | ScrollPos | ScrollSize | Match

  /** The bit of each flag; `Match` is taken to be the next free bit. */
  function FlagBit(f: Flag): nat {
    match f
    case Window => 1
    case Regions => 2
    case Visibility => 4
    case ScrollPos => 8
    case ScrollSize => 16
    case Match => 32
  }

  predicate IsPowerOfTwo(n: nat)
    decreases n
  {
    n == 1 || (n > 1 && n % 2 == 0 && IsPowerOfTwo(n / 2))
  }

  /** Every flag is a single bit and no two flags share it, so a mask
      corresponds to exactly one set of flags. */
  lemma {:induction false} DirtyFlagsAreDistinctBits(f: Flag, g: Flag)
    ensures IsPowerOfTwo(FlagBit(f))
    ensures f != g ==> FlagBit(f) != FlagBit(g)
  {
    assert IsPowerOfTwo(1) && IsPowerOfTwo(2) && IsPowerOfTwo(4);
    assert IsPowerOfTwo(8) && IsPowerOfTwo(16) && IsPowerOfTwo(32);
  }

  /** `~0`: every bit raised. */
  const ALL_FLAGS: set<Flag> := {Window, Regions, Visibility, ScrollPos, ScrollSize, Match}

  // ---- OutsideScroll (ClientInfo.hxx) ----

  datatype OutsideScroll = OutsideScroll(pos: (real, real), normal: (real, real), numOutside: nat)

  /** `OutsideScroll::operator==`. */
  predicate OutsideEq(a: OutsideScroll, b: OutsideScroll) {
    a.numOutside == b.numOutside && a.pos == b.pos && a.normal == b.normal
  }

  /** `OutsideScroll::operator!=`. */
  predicate OutsideNeq(a: OutsideScroll, b: OutsideScroll) {
    !OutsideEq(a, b)
  }

  /** Equality of summaries is the equality of all three parts, and `!=`
      is its negation. */
  lemma {:induction false} OutsideEqIsEquality(a: OutsideScroll, b: OutsideScroll)
    ensures OutsideEq(a, b) <==> a == b
    ensures OutsideNeq(a, b) <==> a != b
  {
  }

  // ---- cleanedString (ClientInfo.cxx) ----

  predicate IsCleanChar(c: char) {
    ('a' <= c <= 'z') || ('0' <= c <= '9') || c == '@' || c == ':'
  }

  /** The specification of `cleanedString`: each character lower-cased and
      kept only when it is a letter a-z, a digit, `@` or `:`. */
  function Cleaned(s: string): (r: string)
    ensures |r| <= |s|
  {
    if |s| == 0 then []
    else
      var c := LowerChar(s[|s| - 1]);
      Cleaned(s[..|s| - 1]) + (if IsCleanChar(c) then [c] else [])
  }

  /** `cleanedString(str)`. */
  method CleanedString(str: string) returns (clean: string)
    ensures clean == Cleaned(str)
  {
    clean := [];
    var i := 0;
    while i < |str|
      invariant i <= |str|
      invariant clean == Cleaned(str[..i])
    {
      var c := LowerChar(str[i]);
      if IsCleanChar(c) {
        clean := clean + [c];
      }
      assert str[..i + 1][..i] == str[..i];
      i := i + 1;
    }
    assert str[..i] == str;
  }

  /** A string made only of kept characters is its own cleaned form. */
  lemma {:induction false} CleanedOfCleanIsIdentity(t: string)
    requires forall i :: 0 <= i < |t| ==> IsCleanChar(t[i])
    ensures Cleaned(t) == t
  {
    if |t| > 0 {
      CleanedOfCleanIsIdentity(t[..|t| - 1]);
      assert t[..|t| - 1] + [t[|t| - 1]] == t;
    }
  }

  /** Only kept characters survive cleaning. */
  lemma {:induction false} CleanedIsClean(s: string)
    ensures forall i :: 0 <= i < |Cleaned(s)| ==> IsCleanChar(Cleaned(s)[i])
  {
    if |s| > 0 {
      CleanedIsClean(s[..|s| - 1]);
    }
  }

  /** Cleaning is idempotent. */
  lemma {:induction false} CleanedIdempotent(s: string)
    ensures Cleaned(Cleaned(s)) == Cleaned(s)
  {
    CleanedIsClean(s);
    CleanedOfCleanIsIdentity(Cleaned(s));
  }

  // ---- the client ----

  /** A node the client contributes, and the link (hyper-edge) it hangs
      under; both are identified by number. */
  datatype NodeRef = NodeRef(node: nat, parent: Option<nat>)

  /** The whole state of a `ClientInfo` object. */
  datatype ClientModel = ClientModel(
    id: string, stateData: map<string, Json>, cmds: set<string>, dirty: set<Flag>,
    window: WM.WindowInfo, clientType: string, title: string, pid: nat, url: string, geom: Rect,
    viewport: Rect, scrollRegion: Rect, previewSize: Size,
    nodes: seq<NodeRef>, popups: seq<string>, xrayPreviews: seq<string>)

  /** `QSize()`: width and height -1. */
  const INVALID_SIZE: Size := Size(-1, -1)

  /** The scroll region assumed when a client reports none: only the
      viewport's content, placed at the origin. */
  function ViewportOnly(viewport: Rect): (r: Rect)
    ensures r.TopLeft() == Point(0, 0) && r.GetSize() == viewport.GetSize()
  {
    FromPointSize(Point(0, 0), viewport.GetSize())
  }

  /** `parseView(msg)` on the state: the viewport is read when present;
      the scroll region is read when present and otherwise covers the
      viewport's size at the origin; the preview size follows the scroll
      region. A message with neither member changes nothing. */
  function ParseViewSpec(m: ClientModel, msg: map<string, Json>): (r: ClientModel)
    ensures "viewport" !in msg && "scroll-region" !in msg ==> r == m
    ensures "viewport" in msg ==> r.viewport == RectFromJson(msg["viewport"], NULL_RECT)
    ensures "viewport" !in msg ==> r.viewport == m.viewport
    ensures "scroll-region" in msg ==> r.scrollRegion == RectFromJson(msg["scroll-region"], NULL_RECT)
    ensures "viewport" in msg && "scroll-region" !in msg ==>
              r.scrollRegion.TopLeft() == Point(0, 0) && r.scrollRegion.GetSize() == r.viewport.GetSize()
    ensures "viewport" in msg || "scroll-region" in msg ==>
              r.previewSize == r.scrollRegion.GetSize() && r.dirty == m.dirty + {ScrollPos, ScrollSize}
    ensures r == m.(viewport := r.viewport, scrollRegion := r.scrollRegion,
                    previewSize := r.previewSize, dirty := r.dirty)
  {
    if "viewport" !in msg && "scroll-region" !in msg then m
    else
      var viewport := if "viewport" in msg then RectFromJson(msg["viewport"], NULL_RECT) else m.viewport;
      var scroll := if "scroll-region" in msg then RectFromJson(msg["scroll-region"], NULL_RECT)
                    else ViewportOnly(viewport);
      m.(viewport := viewport, scrollRegion := scroll, previewSize := scroll.GetSize(),
         dirty := m.dirty + {ScrollPos, ScrollSize})
  }

  /** The window title test for browsers. */
  predicate IsFirefoxTitle(t: string) {
    Common.Contains(t, "Mozilla Firefox") || Common.Contains(t, "Aurora")
  }

  function Abs(n: int): nat {
    if n < 0 then -n else n
  }

  /** The geometry and title stage of the window matching: same x, y and
      width as the reported geometry, height within 30 (title bars of
      maximized windows), a Firefox title for browsers, and a cleaned
      window title that starts with the cleaned client title. */
  predicate GeometryTitleMatch(w: WM.WindowInfo, geom: Rect, isBrowser: bool, cleanTitle: string) {
    w.region.Left() == geom.Left() && w.region.Top() == geom.Top()
    && w.region.Width() == geom.Width() && Abs(w.region.Height() - geom.Height()) <= 30
    && (!isBrowser || IsFirefoxTitle(w.title))
    && StartsWith(Cleaned(w.title), cleanTitle)
  }

  predicate AllBelow(its: seq<nat>, n: nat) {
    forall k :: 0 <= k < |its| ==> its[k] < n
  }

  /** The candidates of `possible` that pass the geometry and title stage,
      in order. */
  function GeometryMatches(windows: seq<WM.WindowInfo>, possible: seq<nat>, geom: Rect,
                           isBrowser: bool, cleanTitle: string): (r: seq<nat>)
    requires AllBelow(possible, |windows|)
    ensures AllBelow(r, |windows|)
    ensures forall k :: 0 <= k < |r| ==>
              r[k] in possible && GeometryTitleMatch(windows[r[k]], geom, isBrowser, cleanTitle)
  {
    if |possible| == 0 then []
    else
      var rest := GeometryMatches(windows, possible[..|possible| - 1], geom, isBrowser, cleanTitle);
      var w := possible[|possible| - 1];
      if GeometryTitleMatch(windows[w], geom, isBrowser, cleanTitle) then rest + [w] else rest
  }

  /** The windows considered at all: those of the client's process when it
      reported one, otherwise every window. */
  function Candidates(pid: nat, windows: seq<WM.WindowInfo>): (r: seq<nat>)
    ensures AllBelow(r, |windows|)
  {
    if pid != 0 then WM.Positions(windows, WM.PidMatcher(pid, ""), |windows|)
    else WM.Positions(windows, WM.TitleMatcher(""), |windows|)
  }

  /** The `checkMatchOne` step: succeeds only for exactly one candidate;
      success clears Match and adopts the candidate's window unless the id
      is already the matched one, in which case nothing else changes. */
  function MatchOne(m: ClientModel, windows: seq<WM.WindowInfo>, its: seq<nat>): (r: (ClientModel, bool))
    requires AllBelow(its, |windows|)
    ensures !r.1 ==> r.0 == m && |its| != 1
    ensures r.1 ==> |its| == 1 && Match !in r.0.dirty
    ensures r.1 && windows[its[0]].id == m.window.id ==> r.0 == m.(dirty := m.dirty - {Match})
    ensures r.1 && windows[its[0]].id != m.window.id ==>
              r.0 == m.(window := windows[its[0]], dirty := m.dirty - {Match} + {Window})
  {
    if |its| != 1 then (m, false)
    else
      var cleared := m.(dirty := m.dirty - {Match});
      var w := windows[its[0]];
      if w.id == m.window.id then (cleared, true)
      else (cleared.(window := w, dirty := cleared.dirty + {Window}), true)
  }

  /** The candidates handed to `checkMatchOne`: the candidates themselves
      when there is exactly one; otherwise only the topmost (last) of those
      that pass the geometry and title stage, or none. */
  function Chosen(windows: seq<WM.WindowInfo>, pid: nat, geom: Rect, isBrowser: bool, title: string)
    : (r: seq<nat>)
    ensures AllBelow(r, |windows|) && |r| <= 1
  {
    var possible := Candidates(pid, windows);
    if |possible| == 1 then possible
    else
      var matching := GeometryMatches(windows, possible, geom, isBrowser, Cleaned(title));
      if |matching| > 1 then [matching[|matching| - 1]] else matching
  }

  /** `updateWindowInfo(windows)` on the state. */
  function UpdateWindowInfoSpec(m: ClientModel, windows: seq<WM.WindowInfo>): (r: (ClientModel, bool))
    ensures WM.IsValid(m.window) && Match !in m.dirty ==> r == (m, true)
    ensures !r.1 ==> r.0 == m
    ensures r.0 == m.(window := r.0.window, dirty := r.0.dirty)
    ensures r.0.window != m.window ==> r.0.window in windows && Window in r.0.dirty && Match !in r.0.dirty
  {
    if WM.IsValid(m.window) && Match !in m.dirty then (m, true)
    else MatchOne(m, windows, Chosen(windows, m.pid, m.geom, m.clientType == "Browser", m.title))
  }

  /** A client that reported its process id is only ever matched to a
      window of that process. */
  lemma {:induction false} AdoptedWindowBelongsToProcess(m: ClientModel, windows: seq<WM.WindowInfo>)
    requires m.pid != 0
    ensures var r := UpdateWindowInfoSpec(m, windows);
            r.0.window != m.window ==> r.0.window.pid == m.pid
  {
    var possible := Candidates(m.pid, windows);
    var chosen := Chosen(windows, m.pid, m.geom, m.clientType == "Browser", m.title);
    assert forall k :: 0 <= k < |possible| ==> windows[possible[k]].pid == m.pid;
    if |possible| != 1 {
      var matching := GeometryMatches(windows, possible, m.geom, m.clientType == "Browser", Cleaned(m.title));
      assert forall k :: 0 <= k < |chosen| ==> chosen[k] in matching;
    }
    assert forall k :: 0 <= k < |chosen| ==> chosen[k] in possible;
  }

  /** When the process id alone does not single out one window, a window
      can only be adopted if it passes the geometry and title stage, and
      of several that pass, the topmost one is adopted. */
  lemma {:induction false} AdoptedWindowPassedGeometryStage(m: ClientModel, windows: seq<WM.WindowInfo>)
    requires !(WM.IsValid(m.window) && Match !in m.dirty)
    requires |Candidates(m.pid, windows)| != 1
    ensures var r := UpdateWindowInfoSpec(m, windows);
            var matching := GeometryMatches(windows, Candidates(m.pid, windows), m.geom,
                                            m.clientType == "Browser", Cleaned(m.title));
            r.1 <==> |matching| >= 1
    ensures var r := UpdateWindowInfoSpec(m, windows);
            var matching := GeometryMatches(windows, Candidates(m.pid, windows), m.geom,
                                            m.clientType == "Browser", Cleaned(m.title));
            r.1 && r.0.window != m.window ==>
              r.0.window == windows[matching[|matching| - 1]]
              && GeometryTitleMatch(r.0.window, m.geom, m.clientType == "Browser", Cleaned(m.title))
  {
    var matching := GeometryMatches(windows, Candidates(m.pid, windows), m.geom,
                                    m.clientType == "Browser", Cleaned(m.title));
    assert Chosen(windows, m.pid, m.geom, m.clientType == "Browser", m.title) == if |matching| > 1 then [matching[|matching| - 1]] else matching;
  }

  /** The part of `update(windows)` after a successful window match: the
      matched window is looked up again by id (a client whose window is
      gone does not update), adopted if it changed, the region flags are
      raised, and if anything is dirty the preview size follows the scroll
      region and every flag is cleared. */
  function RefreshSpec(m: ClientModel, windows: seq<WM.WindowInfo>, regionFlags: set<Flag>): (r: (ClientModel, bool))
    ensures r.1 ==> r.0.dirty == {}
    ensures r.1 ==> var i := WM.FindById(windows, r.0.window.id);
                    i < |windows| && WM.Eq(r.0.window, windows[i])
    ensures WM.FindById(windows, m.window.id) == |windows| ==> r == (m, false)
    ensures r.0 == m.(window := r.0.window, dirty := r.0.dirty, previewSize := r.0.previewSize)
  {
    var i := WM.FindById(windows, m.window.id);
    if i == |windows| then (m, false)
    else
      var m2 := if WM.Neq(m.window, windows[i]) then m.(window := windows[i], dirty := m.dirty + {Window})
                else m;
      var m3 := m2.(dirty := m2.dirty + regionFlags);
      if m3.dirty == {} then (m3, false)
      else
        var m4 := if m3.dirty * {ScrollSize, Regions} != {} then m3.(previewSize := m3.scrollRegion.GetSize())
                  else m3;
        (m4.(dirty := {}), true)
  }

  /** `update(windows)` on the state. `regionFlags` are the flags that
      `updateRegions` raises, which is not part of this model. */
  function UpdateSpec(m: ClientModel, windows: seq<WM.WindowInfo>, regionFlags: set<Flag>): (r: (ClientModel, bool))
    ensures r.1 ==> r.0.dirty == {}
    ensures r.1 ==> var i := WM.FindById(windows, r.0.window.id);
                    i < |windows| && WM.Eq(r.0.window, windows[i])
    ensures !UpdateWindowInfoSpec(m, windows).1 ==> r == (m, false)
    ensures r.0 == m.(window := r.0.window, dirty := r.0.dirty, previewSize := r.0.previewSize)
  {
    var (m1, ok1) := UpdateWindowInfoSpec(m, windows);
    if !ok1 then (m1, false) else RefreshSpec(m1, windows, regionFlags)
  }

  /** A client whose window is no longer in the sample does not update. */
  lemma {:induction false} UpdateNeedsWindowPresent(m: ClientModel, windows: seq<WM.WindowInfo>, regionFlags: set<Flag>)
    requires forall j :: 0 <= j < |windows| ==> windows[j].id != UpdateWindowInfoSpec(m, windows).0.window.id
    ensures !UpdateSpec(m, windows, regionFlags).1
  {
  }

  /** `updateNode(Node&)` on the node's properties: "hidden" becomes true
      when the node is minimized, off screen, outside the scroll region
      while see-through is off, or covered. Flags are read with
      `get<bool>`, whose text conversion is `toBool`. */
  function UpdateNodeHidden(props: map<string, string>, outsideSeeThrough: bool,
                            toBool: (string, bool) -> bool): (r: map<string, string>)
    ensures r.Keys == props.Keys + {"hidden"}
    ensures forall k :: k in props && k != "hidden" ==> r[k] == props[k]
    ensures r["hidden"] == "1" || r["hidden"] == "0"
    ensures LD.GetProperty(props, "covered", false, toBool) ==> r["hidden"] == "1"
    ensures !LD.GetProperty(props, "on-screen", false, toBool) ==> r["hidden"] == "1"
    ensures r["hidden"] == "0" <==>
              !LD.GetProperty(props, "minimized", false, toBool)
              && LD.GetProperty(props, "on-screen", false, toBool)
              && (outsideSeeThrough || !LD.GetProperty(props, "outside", false, toBool))
              && !LD.GetProperty(props, "covered", false, toBool)
  {
    var hidden := LD.GetProperty(props, "minimized", false, toBool)
                  || !LD.GetProperty(props, "on-screen", false, toBool)
                  || (!outsideSeeThrough && LD.GetProperty(props, "outside", false, toBool));
    LD.SetFlag(props, "hidden", hidden || LD.GetProperty(props, "covered", false, toBool))
  }

  function ParentIs(h: nat): NodeRef -> bool {
    (n: NodeRef) => n.parent == Some(h)
  }

  function LinkIs(linkId: string): string -> bool {
    (l: string) => l == linkId
  }

  /** After `removeLink(h)` no node of the client hangs under `h`, and every
      node under another link is still there. */
  lemma {:induction false} RemoveLinkClearsOnlyThatLink(nodes: seq<NodeRef>, h: nat, n: NodeRef)
    ensures n in Select(nodes, ParentIs(h), false) ==> n.parent != Some(h)
    ensures n in nodes && n.parent != Some(h) ==> n in Select(nodes, ParentIs(h), false)
  {
  }

  /** The erase-while-iterating loops of `removeLink`: `removed` are the
      elements erased (and handed to their owner), `kept` the rest, both in
      their original order. */
  method Partition<T>(xs: seq<T>, p: T -> bool) returns (kept: seq<T>, removed: seq<T>)
    ensures kept == Select(xs, p, false) && removed == Select(xs, p, true)
  {
    kept, removed := [], [];
    var i := 0;
    while i < |xs|
      invariant i <= |xs|
      invariant kept == Select(xs[..i], p, false) && removed == Select(xs[..i], p, true)
    {
      assert xs[..i + 1][..i] == xs[..i];
      if p(xs[i]) {
        removed := removed + [xs[i]];
      } else {
        kept := kept + [xs[i]];
      }
      i := i + 1;
    }
    assert xs[..i] == xs;
  }

  /** The geometry loop of `updateWindowInfo`: keeps, in order, the
      candidates that pass the geometry and title stage. */
  method FilterGeometry(windows: seq<WM.WindowInfo>, possible: seq<nat>, geom: Rect,
                        isBrowser: bool, cleanTitle: string) returns (matching: seq<nat>)
    requires AllBelow(possible, |windows|)
    ensures matching == GeometryMatches(windows, possible, geom, isBrowser, cleanTitle)
  {
    matching := [];
    var i := 0;
    while i < |possible|
      invariant i <= |possible|
      invariant matching == GeometryMatches(windows, possible[..i], geom, isBrowser, cleanTitle)
    {
      assert possible[..i + 1][..i] == possible[..i];
      var w := windows[possible[i]];
      var cleanWindowTitle := CleanedString(w.title);
      if w.region.Left() == geom.Left() && w.region.Top() == geom.Top()
         && w.region.Width() == geom.Width() && Abs(w.region.Height() - geom.Height()) <= 30
         && (!isBrowser || IsFirefoxTitle(w.title))
         && StartsWith(cleanWindowTitle, cleanTitle)
      {
        matching := matching + [possible[i]];
      }
      i := i + 1;
    }
    assert possible[..i] == possible;
  }

  /** The candidate search of `updateWindowInfo`: by process id when
      one was reported, otherwise every window; then, unless exactly one
      remains, the geometry and title stage. */
  method ChooseCandidates(windows: seq<WM.WindowInfo>, pid: nat, geom: Rect, isBrowser: bool, title: string)
    returns (top: seq<nat>)
    ensures top == Chosen(windows, pid, geom, isBrowser, title)
  {
    var possible;
    if pid != 0 {
      possible := WM.FindAllByPid(windows, pid, "");
    } else {
      possible := WM.FindAllByTitle(windows, "");
    }
    assert possible == Candidates(pid, windows);
    if |possible| == 1 {
      return possible;
    }
    var cleanTitle := CleanedString(title);
    var matching := FilterGeometry(windows, possible, geom, isBrowser, cleanTitle);
    top := if |matching| > 1 then [matching[|matching| - 1]] else matching;
  }

  class Client {
    var id: string
    var stateData: map<string, Json>
    var cmds: set<string>
    var dirty: set<Flag>
    var window: WM.WindowInfo
    var clientType: string
    var title: string
    var pid: nat
    var url: string
    var geom: Rect
    var viewport: Rect
    var scrollRegion: Rect
    var previewSize: Size
    var nodes: seq<NodeRef>
    var popups: seq<string>
    var xrayPreviews: seq<string>

    function Model(): ClientModel
      reads this
    {
      ClientModel(id, stateData, cmds, dirty, window, clientType, title, pid, url, geom,
                  viewport, scrollRegion, previewSize, nodes, popups, xrayPreviews)
    }

    /** The constructor: every dirty bit set, an unmatched window (`wid`,
        0 if unknown) and no process id. */
    constructor(wid: WM.WId)
      ensures Model() == ClientModel("", map[], {}, ALL_FLAGS, WM.NewWindowInfo(wid, 0, false, NULL_RECT, ""),
                                     "", "", 0, "", NULL_RECT, NULL_RECT, NULL_RECT, INVALID_SIZE, [], [], [])
    {
      id, stateData, cmds, dirty := "", map[], {}, ALL_FLAGS;
      window := WM.NewWindowInfo(wid, 0, false, NULL_RECT, "");
      clientType, title, pid, url, geom := "", "", 0, "", NULL_RECT;
      viewport, scrollRegion, previewSize := NULL_RECT, NULL_RECT, INVALID_SIZE;
      nodes, popups, xrayPreviews := [], [], [];
    }

    /** `setWindowId(wid)`. */
    method SetWindowId(wid: WM.WId)
      modifies this
      ensures Model() == old(Model()).(window := old(window).(id := wid))
    {
      window := window.(id := wid);
    }

    /** `setId(id)`: no dirty flag. */
    method SetId(newId: string)
      modifies this
      ensures Model() == old(Model()).(id := newId)
    {
      id := newId;
    }

    /** `setType(type)`: asks for a new window match. */
    method SetType(t: string)
      modifies this
      ensures Model() == old(Model()).(clientType := t, dirty := old(dirty) + {Match})
    {
      clientType := t;
      dirty := dirty + {Match};
    }

    /** `setTitle(title)`: asks for a new window match. */
    method SetTitle(t: string)
      modifies this
      ensures Model() == old(Model()).(title := t, dirty := old(dirty) + {Match})
    {
      title := t;
      dirty := dirty + {Match};
    }

    /** `setProcessId(pid)`: asks for a new window match. */
    method SetProcessId(p: nat)
      modifies this
      ensures Model() == old(Model()).(pid := p, dirty := old(dirty) + {Match})
    {
      pid := p;
      dirty := dirty + {Match};
    }

    /** `setUrl(url)`: no dirty flag. */
    method SetUrl(u: string)
      modifies this
      ensures Model() == old(Model()).(url := u)
    {
      url := u;
    }

    /** `setReportedGeometry(geom)`: asks for a new window match. */
    method SetReportedGeometry(g: Rect)
      modifies this
      ensures Model() == old(Model()).(geom := g, dirty := old(dirty) + {Match})
    {
      geom := g;
      dirty := dirty + {Match};
    }

    /** `setStateData(data)`: no dirty flag. */
    method SetStateData(data: map<string, Json>)
      modifies this
      ensures Model() == old(Model()).(stateData := data)
    {
      stateData := data;
    }

    /** `addCommand(type)`. */
    method AddCommand(t: string)
      modifies this
      ensures Model() == old(Model()).(cmds := old(cmds) + {t})
    {
      cmds := cmds + {t};
    }

    /** `supportsCommand(cmd)`: exactly the commands added so far. */
    method SupportsCommand(cmd: string) returns (b: bool)
      ensures b <==> cmd in cmds
    {
      b := cmd in cmds;
    }

    /** `parseView(msg)`. */
    method ParseView(msg: map<string, Json>)
      modifies this
      ensures Model() == ParseViewSpec(old(Model()), msg)
    {
      var r := ParseViewSpec(Model(), msg);
      viewport, scrollRegion, previewSize, dirty := r.viewport, r.scrollRegion, r.previewSize, r.dirty;
    }

    /** `setScrollPos(offset)`: the scroll region moves to `offset` and
        keeps its size. */
    method SetScrollPos(offset: Point)
      modifies this
      ensures scrollRegion.TopLeft() == offset && scrollRegion.GetSize() == old(scrollRegion).GetSize()
      ensures Model() == old(Model()).(scrollRegion := scrollRegion, dirty := old(dirty) + {ScrollPos})
    {
      var size := scrollRegion.GetSize();
      scrollRegion := MovedResized(scrollRegion, offset, size);
      dirty := dirty + {ScrollPos};
    }

    /** The `checkMatchOne` lambda of `updateWindowInfo`. */
    method CheckMatchOne(windows: seq<WM.WindowInfo>, its: seq<nat>) returns (ok: bool)
      requires AllBelow(its, |windows|)
      modifies this
      ensures (Model(), ok) == MatchOne(old(Model()), windows, its)
    {
      if |its| != 1 {
        return false;
      }
      dirty := dirty - {Match};
      var winfo := windows[its[0]];
      if winfo.id == window.id {
        return true;
      }
      window := winfo;
      dirty := dirty + {Window};
      return true;
    }

    /** `updateWindowInfo(windows)`. */
    method UpdateWindowInfo(windows: seq<WM.WindowInfo>) returns (ok: bool)
      modifies this
      ensures (Model(), ok) == UpdateWindowInfoSpec(old(Model()), windows)
    {
      if WM.IsValid(window) && Match !in dirty {
        return true;
      }
      var top := ChooseCandidates(windows, pid, geom, clientType == "Browser", title);
      ok := CheckMatchOne(windows, top);
    }

    /** `update(windows)`; `regionFlags` stands for what `updateRegions`
        adds to the dirty flags. */
    method Update(windows: seq<WM.WindowInfo>, regionFlags: set<Flag>) returns (ok: bool)
      modifies this
      ensures (Model(), ok) == UpdateSpec(old(Model()), windows, regionFlags)
    {
      var matched := UpdateWindowInfo(windows);
      if !matched {
        return false;
      }
      ok := Refresh(windows, regionFlags);
    }

    /** The rest of `update(windows)` once the window is matched. */
    method Refresh(windows: seq<WM.WindowInfo>, regionFlags: set<Flag>) returns (ok: bool)
      modifies this
      ensures (Model(), ok) == RefreshSpec(old(Model()), windows, regionFlags)
    {
      var i := WM.FindById(windows, window.id);
      if i == |windows| {
        return false;
      }
      if WM.Neq(window, windows[i]) {
        window := windows[i];
        dirty := dirty + {Window};
      }
      dirty := dirty + regionFlags;
      if dirty == {} {
        return false;
      }
      if dirty * {ScrollSize, Regions} != {} {
        previewSize := scrollRegion.GetSize();
      }
      dirty := {};
      return true;
    }

    /** `removeLink(hedge)`: the client's nodes under `h` are detached, and
        the popups and x-ray previews of the link `linkId` (the edge's
        "link-id" property) are closed; everything else stays, in order. */
    method RemoveLink(h: nat, linkId: string)
      returns (detached: seq<NodeRef>, closedPopups: seq<string>, closedPreviews: seq<string>)
      modifies this
      ensures detached == Select(old(nodes), ParentIs(h), true)
      ensures closedPopups == Select(old(popups), LinkIs(linkId), true)
      ensures closedPreviews == Select(old(xrayPreviews), LinkIs(linkId), true)
      ensures Model() == old(Model()).(nodes := Select(old(nodes), ParentIs(h), false),
                                       popups := Select(old(popups), LinkIs(linkId), false),
                                       xrayPreviews := Select(old(xrayPreviews), LinkIs(linkId), false))
    {
      detached := DetachNodes(h);
      closedPopups, closedPreviews := CloseLinkWindows(linkId);
    }

    /** The nodes under `h` leave the client, the others stay in order. */
    method DetachNodes(h: nat) returns (detached: seq<NodeRef>)
      modifies this
      ensures detached == Select(old(nodes), ParentIs(h), true)
      ensures Model() == old(Model()).(nodes := Select(old(nodes), ParentIs(h), false))
    {
      var kept;
      kept, detached := Partition(nodes, ParentIs(h));
      nodes := kept;
    }

    /** The popups and x-ray previews of `linkId` close, the others stay in
        order. */
    method CloseLinkWindows(linkId: string) returns (closedPopups: seq<string>, closedPreviews: seq<string>)
      modifies this
      ensures closedPopups == Select(old(popups), LinkIs(linkId), true)
      ensures closedPreviews == Select(old(xrayPreviews), LinkIs(linkId), true)
      ensures Model() == old(Model()).(popups := Select(old(popups), LinkIs(linkId), false),
                                       xrayPreviews := Select(old(xrayPreviews), LinkIs(linkId), false))
    {
      var keptPopups, keptPreviews;
      keptPopups, closedPopups := Partition(popups, LinkIs(linkId));
      keptPreviews, closedPreviews := Partition(xrayPreviews, LinkIs(linkId));
      popups, xrayPreviews := keptPopups, keptPreviews;
    }

    /** `hasLink(hedge)`: some node of the client hangs under `h`. */
    method HasLink(h: nat) returns (b: bool)
      ensures b <==> exists k :: 0 <= k < |nodes| && nodes[k].parent == Some(h)
    {
      var k := 0;
      while k < |nodes|
        invariant k <= |nodes|
        invariant forall j :: 0 <= j < k ==> nodes[j].parent != Some(h)
      {
        if nodes[k].parent == Some(h) {
          return true;
        }
        k := k + 1;
      }
      return false;
    }
  }
}
