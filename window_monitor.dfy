/** The window bookkeeping of the relay: `WindowInfo` records as sampled
    from the window system, the lookups of `WindowRegions` over a list of
    them in stacking order (bottom first), the marking of windows hidden by
    a maximized one, and the debounce of `WindowMonitor::check`. The window
    system itself is not modelled: each sample is an input. A position in
    the list stands for an iterator; `|ws|` is `end()`. */
module WindowMonitor {
  import opened Common
  import opened QtGeometry

  type WId = nat

  datatype WindowInfo = WindowInfo(id: WId, pid: nat, ptrId: nat, minimized: bool, covered: bool,
                                   region: Rect, regionLauncher: Rect, title: string)

  /** The `WindowInfo` constructor: the pointer id is always 2 (the virtual
      core pointer), the window is not covered and has no launcher region. */
  function NewWindowInfo(id: WId, pid: nat, minimized: bool, region: Rect, title: string): (w: WindowInfo)
    ensures w.ptrId == 2 && !w.covered && w.regionLauncher == NULL_RECT
    ensures w.id == id && w.pid == pid && w.minimized == minimized && w.region == region && w.title == title
  {
    WindowInfo(id, pid, 2, minimized, false, region, NULL_RECT, title)
  }

  /** `operator==`: title, process and pointer id are not compared. */
  predicate Eq(a: WindowInfo, b: WindowInfo) {
    a.id == b.id && a.region == b.region && a.minimized == b.minimized
    && a.covered == b.covered && a.regionLauncher == b.regionLauncher
  }

  /** `operator!=`. */
  predicate Neq(a: WindowInfo, b: WindowInfo) {
    !Eq(a, b)
  }

  /** `isValid()`. */
  predicate IsValid(w: WindowInfo) {
    w.id != 0
  }

  /** `==` is an equivalence that does not see title, process or pointer
      id, and `!=` is exactly its negation. */
  lemma {:induction false} EqProperties(a: WindowInfo, b: WindowInfo, c: WindowInfo, title: string, pid: nat, ptrId: nat)
    ensures Eq(a, a)
    ensures Eq(a, b) ==> Eq(b, a)
    ensures Eq(a, b) && Eq(b, c) ==> Eq(a, c)
    ensures Eq(a, a.(title := title, pid := pid, ptrId := ptrId))
    ensures Neq(a, b) <==> !Eq(a, b)
    ensures Eq(a, b) ==> (IsValid(a) <==> IsValid(b))
  {
  }

  /** Element-wise `operator==` of two window lists (`std::vector`). */
  predicate ListEq(a: seq<WindowInfo>, b: seq<WindowInfo>) {
    |a| == |b| && forall i :: 0 <= i < |a| ==> Eq(a[i], b[i])
  }

  /** The first position at or after `from` whose window satisfies `p`, or
      `|ws|` (`std::find_if`). */
  function FindFrom(ws: seq<WindowInfo>, from: nat, p: WindowInfo -> bool): (r: nat)
    requires from <= |ws|
    ensures from <= r <= |ws|
    ensures r < |ws| ==> p(ws[r])
    ensures forall j :: from <= j < r ==> !p(ws[j])
    decreases |ws| - from
  {
    if from == |ws| then from
    else if p(ws[from]) then from
    else FindFrom(ws, from + 1, p)
  }

  /** Window title matching used by the lookups: an empty title matches every
      window in the pid variants; otherwise `startsWith`. */
  predicate PidTitleMatch(w: WindowInfo, pid: nat, title: string) {
    w.pid == pid && (title == [] || StartsWith(w.title, title))
  }

  /** `find(wid)`. */
  function FindById(ws: seq<WindowInfo>, wid: WId): (r: nat)
    ensures r <= |ws|
    ensures r < |ws| ==> ws[r].id == wid
    ensures forall j :: 0 <= j < r ==> ws[j].id != wid
  {
    FindFrom(ws, 0, (w: WindowInfo) => w.id == wid)
  }

  /** `find(pid, title)`. */
  function FindByPid(ws: seq<WindowInfo>, pid: nat, title: string): (r: nat)
    ensures r <= |ws|
    ensures r < |ws| ==> PidTitleMatch(ws[r], pid, title)
    ensures forall j :: 0 <= j < r ==> !PidTitleMatch(ws[j], pid, title)
  {
    FindFrom(ws, 0, (w: WindowInfo) => PidTitleMatch(w, pid, title))
  }

  /** `find(title)`. */
  function FindByTitle(ws: seq<WindowInfo>, title: string): (r: nat)
    ensures r <= |ws|
    ensures r < |ws| ==> StartsWith(ws[r].title, title)
    ensures forall j :: 0 <= j < r ==> !StartsWith(ws[j].title, title)
  {
    FindFrom(ws, 0, (w: WindowInfo) => StartsWith(w.title, title))
  }

  /** `findId(title)`: the id of the first window whose title starts with
      `title`, or 0 when there is none. */
  function FindIdByTitle(ws: seq<WindowInfo>, title: string): (id: WId)
    ensures (forall j :: 0 <= j < |ws| ==> !StartsWith(ws[j].title, title)) ==> id == 0
    ensures (exists j :: 0 <= j < |ws| && StartsWith(ws[j].title, title)) ==>
              id == ws[FindByTitle(ws, title)].id
  {
    var i := FindByTitle(ws, title);
    if i < |ws| then ws[i].id else 0
  }

  /** `findId(pid, title)`. */
  function FindIdByPid(ws: seq<WindowInfo>, pid: nat, title: string): (id: WId)
    ensures (forall j :: 0 <= j < |ws| ==> !PidTitleMatch(ws[j], pid, title)) ==> id == 0
    ensures (exists j :: 0 <= j < |ws| && PidTitleMatch(ws[j], pid, title)) ==>
              id == ws[FindByPid(ws, pid, title)].id
  {
    var i := FindByPid(ws, pid, title);
    if i < |ws| then ws[i].id else 0
  }

  /** The positions below `n` whose window satisfies `p`, in increasing
      order. */
  function Positions(ws: seq<WindowInfo>, p: WindowInfo -> bool, n: nat): (its: seq<nat>)
    requires n <= |ws|
    ensures forall k :: 0 <= k < |its| ==> its[k] < n && p(ws[its[k]])
    ensures forall i :: 0 <= i < n && p(ws[i]) ==> i in its
    ensures forall k, l :: 0 <= k < l < |its| ==> its[k] < its[l]
  {
    if n == 0 then []
    else Positions(ws, p, n - 1) + (if p(ws[n - 1]) then [n - 1] else [])
  }

  function PidMatcher(pid: nat, title: string): WindowInfo -> bool {
    (w: WindowInfo) => PidTitleMatch(w, pid, title)
  }

  function TitleMatcher(title: string): WindowInfo -> bool {
    (w: WindowInfo) => StartsWith(w.title, title)
  }

  /** `find_all(pid, title)`: the positions of all windows of process `pid`
      whose title is matched, in stacking order. */
  method FindAllByPid(ws: seq<WindowInfo>, pid: nat, title: string) returns (its: seq<nat>)
    ensures its == Positions(ws, PidMatcher(pid, title), |ws|)
    ensures forall i :: 0 <= i < |ws| ==> (i in its <==> PidTitleMatch(ws[i], pid, title))
  {
    its := [];
    var w := 0;
    while w < |ws|
      invariant w <= |ws|
      invariant its == Positions(ws, PidMatcher(pid, title), w)
    {
      if PidTitleMatch(ws[w], pid, title) {
        its := its + [w];
      }
      w := w + 1;
    }
  }

  /** `find_all(title)`: the positions of all windows whose title starts
      with `title`, in stacking order. */
  method FindAllByTitle(ws: seq<WindowInfo>, title: string) returns (its: seq<nat>)
    ensures its == Positions(ws, TitleMatcher(title), |ws|)
    ensures forall i :: 0 <= i < |ws| ==> (i in its <==> StartsWith(ws[i].title, title))
  {
    its := [];
    var w := 0;
    while w < |ws|
      invariant w <= |ws|
      invariant its == Positions(ws, TitleMatcher(title), w)
    {
      if StartsWith(ws[w].title, title) {
        its := its + [w];
      }
      w := w + 1;
    }
  }

  /** Every title starts with the empty string, so `find_all("")` lists
      every window, in order. */
  lemma {:induction false} FindAllEmptyTitleIsEverything(ws: seq<WindowInfo>, n: nat)
    requires n <= |ws|
    ensures Positions(ws, TitleMatcher(""), n) == seq(n, i => i)
  {
    if n > 0 {
      FindAllEmptyTitleIsEverything(ws, n - 1);
      assert StartsWith(ws[n - 1].title, "");
      assert seq(n, i => i) == seq(n - 1, i => i) + [n - 1];
    }
  }

  /** `windowAt(point)`: the topmost (last) window whose region contains the
      point, or None for `rend()`. */
  method WindowAt(ws: seq<WindowInfo>, pos: Point) returns (r: Option<nat>)
    ensures r.Some? ==> r.value < |ws| && QtGeometry.Contains(ws[r.value].region, pos)
    ensures r.Some? ==> forall j :: r.value < j < |ws| ==> !QtGeometry.Contains(ws[j].region, pos)
    ensures r.None? ==> forall j :: 0 <= j < |ws| ==> !QtGeometry.Contains(ws[j].region, pos)
  {
    var k := |ws|;
    while k > 0
      invariant 0 <= k <= |ws|
      invariant forall j :: k <= j < |ws| ==> !QtGeometry.Contains(ws[j].region, pos)
    {
      if QtGeometry.Contains(ws[k - 1].region, pos) {
        return Some(k - 1);
      }
      k := k - 1;
    }
    return None;
  }

  /** `windowIdAt(point)`: the id of the topmost window containing the
      point, 0 when there is none. */
  method WindowIdAt(ws: seq<WindowInfo>, pos: Point) returns (id: WId)
    ensures (forall j :: 0 <= j < |ws| ==> !QtGeometry.Contains(ws[j].region, pos)) ==> id == 0
    ensures (exists j :: 0 <= j < |ws| && QtGeometry.Contains(ws[j].region, pos)) ==>
              exists i :: (0 <= i < |ws| && QtGeometry.Contains(ws[i].region, pos) && id == ws[i].id
                           && forall j :: i < j < |ws| ==> !QtGeometry.Contains(ws[j].region, pos))
  {
    var w := WindowAt(ws, pos);
    if w.Some? {
      id := ws[w.value].id;
    } else {
      id := 0;
    }
  }

  predicate Hits(w: WindowInfo, pos: Point) {
    !w.minimized && QtGeometry.Contains(w.region, pos)
  }

  /** `hit(first_above, point, reg, wid)`: scans from `firstAbove` upwards
      for a window that is not minimized and contains the point. On success
      the region and id of the first such window are reported; otherwise
      `reg` and `wid` keep the values passed in. */
  method Hit(ws: seq<WindowInfo>, firstAbove: nat, pos: Point, reg0: Rect, wid0: WId)
    returns (found: bool, reg: Rect, wid: WId)
    requires firstAbove <= |ws|
    ensures found <==> exists i :: firstAbove <= i < |ws| && Hits(ws[i], pos)
    ensures found ==> exists i :: firstAbove <= i < |ws| && Hits(ws[i], pos)
                        && (forall j :: firstAbove <= j < i ==> !Hits(ws[j], pos))
                        && reg == ws[i].region && wid == ws[i].id
    ensures !found ==> reg == reg0 && wid == wid0
  {
    var it := firstAbove;
    while it < |ws|
      invariant firstAbove <= it <= |ws|
      invariant forall j :: firstAbove <= j < it ==> !Hits(ws[j], pos)
    {
      if Hits(ws[it], pos) {
        return true, ws[it].region, ws[it].id;
      }
      it := it + 1;
    }
    return false, reg0, wid0;
  }

  /** The marking in `getWindowInfos`: when a maximized window was found
      (`maxWid != 0`), every window listed before it is marked minimized;
      the maximized window and those after it are untouched. */
  method MarkBelowMaximized(a: array<WindowInfo>, maxWid: WId)
    modifies a
    ensures maxWid == 0 ==> a[..] == old(a[..])
    ensures maxWid != 0 ==> forall i :: 0 <= i < a.Length ==>
              a[i] == if i < FindById(old(a[..]), maxWid) then old(a[i]).(minimized := true) else old(a[i])
  {
    if maxWid == 0 {
      return;
    }
    ghost var ws := a[..];
    var i := 0;
    while i < a.Length
      invariant i <= a.Length
      invariant forall j :: 0 <= j < i ==> ws[j].id != maxWid && a[j] == ws[j].(minimized := true)
      invariant forall j :: i <= j < a.Length ==> a[j] == ws[j]
    {
      if a[i].id == maxWid {
        break;
      }
      a[i] := a[i].(minimized := true);
      i := i + 1;
    }
    assert i == FindById(ws, maxWid);
  }

  /** The monitor's state: the committed regions
      (`_regions`), the previous sample (`_last_regions`), the countdown
      (`_timeout`, -1 when idle), the pinned launchers and every list
      handed to the change callback so far. */
  datatype MonitorState = MonitorState(regions: seq<WindowInfo>, lastRegions: seq<WindowInfo>,
                                       timeout: int, launchers: seq<string>,
                                       fired: seq<seq<WindowInfo>>)

  /** The state after one `check()` that sampled `sample`, read the launcher
      list `launchers`, and, when the launchers changed, sampled `resampled`
      for the extra callback. */
  function CheckStep(s: MonitorState, sample: seq<WindowInfo>, launchers: seq<string>,
                     resampled: seq<WindowInfo>): (t: MonitorState)
    ensures t.lastRegions == sample && t.launchers == launchers
    ensures ListEq(sample, s.regions) ==> t.timeout == -1 && t.regions == s.regions
    ensures !ListEq(sample, s.lastRegions) && !ListEq(sample, s.regions) ==>
              t.timeout == 1 && t.regions == s.regions
    ensures t.regions != s.regions ==> t.regions == sample && |t.fired| > 0 && t.fired[|t.fired| - 1] == sample
    ensures |s.fired| <= |t.fired| <= |s.fired| + 2 && t.fired[..|s.fired|] == s.fired
  {
    var t1 := if !ListEq(sample, s.lastRegions) then 2 else s.timeout;
    var t2 := if ListEq(sample, s.regions) then -1 else t1;
    var fired1 := if launchers != s.launchers then s.fired + [resampled] else s.fired;
    if t2 >= 0 then
      if t2 == 0 then
        MonitorState(sample, sample, t2 - 1, launchers, fired1 + [sample])
      else
        MonitorState(s.regions, sample, t2 - 1, launchers, fired1)
    else
      MonitorState(s.regions, sample, t2, launchers, fired1)
  }

  /** The debounce: a new sample that differs from the committed regions is
      handed on only after it was seen three checks in a row; the first two
      checks do not commit it, the third commits it and calls back with
      it. Launcher changes are held fixed here. */
  lemma {:induction false} DebounceFiresOnThirdSample(s: MonitorState, sample: seq<WindowInfo>,
                                                      resampled: seq<WindowInfo>)
    requires !ListEq(sample, s.lastRegions) && !ListEq(sample, s.regions)
    ensures var s1 := CheckStep(s, sample, s.launchers, resampled);
            var s2 := CheckStep(s1, sample, s.launchers, resampled);
            var s3 := CheckStep(s2, sample, s.launchers, resampled);
            s1.regions == s.regions && s2.regions == s.regions && s1.fired == s.fired && s2.fired == s.fired
            && s3.regions == sample && s3.fired == s.fired + [sample] && s3.timeout == -1
  {
    var s1 := CheckStep(s, sample, s.launchers, resampled);
    ListEqReflexive(sample);
    assert s1.timeout == 1;
    var s2 := CheckStep(s1, sample, s.launchers, resampled);
    assert s2.timeout == 0;
  }

  lemma {:induction false} ListEqReflexive(a: seq<WindowInfo>)
    ensures ListEq(a, a)
  {
  }

  /** Once committed, the same windows sampled again call nothing back and
      leave the countdown idle. */
  lemma {:induction false} CommittedSampleIsQuiet(s: MonitorState, sample: seq<WindowInfo>,
                                                  resampled: seq<WindowInfo>)
    requires ListEq(sample, s.regions)
    ensures var t := CheckStep(s, sample, s.launchers, resampled);
            t.fired == s.fired && t.regions == s.regions && t.timeout == -1
  {
  }

  /** Without a launcher change, the callback is only ever called with the
      list it commits. */
  lemma {:induction false} FiresOnlyWhenCommitting(s: MonitorState, sample: seq<WindowInfo>,
                                                   resampled: seq<WindowInfo>)
    ensures var t := CheckStep(s, sample, s.launchers, resampled);
            t.fired == s.fired || (t.fired == s.fired + [sample] && t.regions == sample)
  {
  }

  /** `WindowMonitor`: the timer-driven sampler. */
  class Monitor {
    var regions: seq<WindowInfo>
    var lastRegions: seq<WindowInfo>
    var timeout: int
    var launchers: seq<string>
    var fired: seq<seq<WindowInfo>>

    function Model(): MonitorState
      reads this
    {
      MonitorState(regions, lastRegions, timeout, launchers, fired)
    }

    /** The constructor: nothing committed, countdown idle. */
    constructor()
      ensures Model() == MonitorState([], [], -1, [], [])
    {
      regions := [];
      lastRegions := [];
      timeout := -1;
      launchers := [];
      fired := [];
    }

    /** `check()`. */
    method Check(sample: seq<WindowInfo>, launchersNow: seq<string>, resampled: seq<WindowInfo>)
      modifies this
      ensures Model() == CheckStep(old(Model()), sample, launchersNow, resampled)
    {
      if !ListEq(sample, lastRegions) {
        timeout := 2;
      }
      lastRegions := sample;
      if ListEq(sample, regions) {
        timeout := -1;
      }
      if launchersNow != launchers {
        launchers := launchersNow;
        fired := fired + [resampled];
      }
      if timeout >= 0 {
        if timeout == 0 {
          regions := sample;
          fired := fired + [sample];
        }
        timeout := timeout - 1;
      }
    }
  }
}
