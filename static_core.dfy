/** The component registry of the routing core: components are attached
    with a mask of wanted types, each runs as the types it supports that no
    earlier component already runs as, and lookups, processing and shutdown
    go over the list of attached components in order.

    A type mask (C++ `unsigned int`) is the set of its bit positions; bit
    `k` is the type `1 << k`. The component's virtual `supports`, `startup`,
    `shutdown`, `process` and the configuration's `initFrom` are outside the
    model: `supports` of a single-bit type is membership in the component's
    `supported` set, the outcomes of `startup`/`initFrom` are parameters, and
    the other calls are recorded in `calls`. */
module StaticCore {
  import opened Common

  datatype Component = Component(id: nat, supported: set<nat>)

  /** One entry of `_components`: the component, the types it can run as
      (`canbe`) and the types it runs as (`is`). */
  datatype ComponentInfo = ComponentInfo(comp: Component, canbe: set<nat>, runningAs: set<nat>)

  /** Calls the core makes into components. */
  datatype Call =
    | InitFrom(id: nat)
    | Startup(id: nat, types: set<nat>)
    | Shutdown(id: nat)
    | Process(id: nat, typeBit: nat)

  function Pow2(k: nat): (r: nat)
    ensures r >= 1
  {
    if k == 0 then 1 else 2 * Pow2(k - 1)
  }

  lemma {:induction false} Pow2Monotone(j: nat, k: nat)
    requires j <= k
    ensures Pow2(j) <= Pow2(k)
    decreases k
  {
    if j < k {
      Pow2Monotone(j, k - 1);
    }
  }

  /** The types `getTypes(component, mask)` returns: the single-bit types
      below `any` (the value of `Component::Any`) that are in `mask` and
      supported by the component. */
  function TypesOf(c: Component, mask: set<nat>, any: nat): (r: set<nat>)
    ensures r <= mask && r <= c.supported
    ensures forall k :: k in r ==> Pow2(k) < any
  {
    set k | 0 <= k < 32 && k in mask && k in c.supported && Pow2(k) < any
  }

  /** The two tests `getComponent` searches with. */
  datatype Test = Running | Capable

  predicate RunsAs(t: set<nat>, c: ComponentInfo) { c.runningAs * t != {} }
  predicate CanBe(t: set<nat>, c: ComponentInfo) { c.canbe * t != {} }

  predicate Fits(p: Test, t: set<nat>, c: ComponentInfo) {
    if p == Running then RunsAs(t, c) else CanBe(t, c)
  }

  /** The supported types of `mask` among the first `k` bits. */
  function TypesBelow(c: Component, mask: set<nat>, k: nat): set<nat> {
    set j | 0 <= j < k && j in mask && j in c.supported
  }

  lemma {:induction false} TypesBelowStep(c: Component, mask: set<nat>, k: nat)
    ensures TypesBelow(c, mask, k + 1)
            == TypesBelow(c, mask, k) + (if k in mask && k in c.supported then {k} else {})
  {
  }

  lemma {:induction false} Pow2Below31(k: nat)
    ensures Pow2(k) < Pow2(31) ==> k < 31
  {
    if k >= 31 {
      Pow2Monotone(31, k);
    }
  }

  /** Once the shift passes `any`, the bits looked at are exactly the types
      below `any`. */
  lemma {:induction false} TypesBelowIsTypesOf(c: Component, mask: set<nat>, any: nat, k: nat)
    requires k <= 31 && Pow2(k) >= any
    requires k > 0 ==> Pow2(k - 1) < any
    ensures TypesOf(c, mask, any) == TypesBelow(c, mask, k)
  {
    forall j: nat | j < k
      ensures Pow2(j) < any
    {
      Pow2Monotone(j, k - 1);
    }
    forall j: nat | k <= j
      ensures Pow2(j) >= any
    {
      Pow2Monotone(k, j);
    }
  }

  /** The first entry of `cs` passing test `p` for the type `t`. */
  function FirstWith(cs: seq<ComponentInfo>, p: Test, t: set<nat>): (r: Option<nat>)
    ensures r.Some? ==> r.value < |cs| && Fits(p, t, cs[r.value])
    ensures r.Some? ==> forall j :: 0 <= j < r.value ==> !Fits(p, t, cs[j])
    ensures r.None? <==> forall j :: 0 <= j < |cs| ==> !Fits(p, t, cs[j])
  {
    if |cs| == 0 then None
    else if Fits(p, t, cs[0]) then Some(0)
    else match FirstWith(cs[1..], p, t)
      case None => None
      case Some(i) => Some(i + 1)
  }

  /** Extending the searched prefix by one entry. */
  lemma {:induction false} FirstWithSnoc(cs: seq<ComponentInfo>, p: Test, t: set<nat>, i: nat)
    requires i < |cs|
    ensures FirstWith(cs[..i + 1], p, t)
            == if FirstWith(cs[..i], p, t).Some? then FirstWith(cs[..i], p, t)
               else if Fits(p, t, cs[i]) then Some(i) else None
  {
    var a := FirstWith(cs[..i], p, t);
    var b := FirstWith(cs[..i + 1], p, t);
    assert forall j :: 0 <= j < i ==> cs[..i][j] == cs[..i + 1][j] == cs[j];
    if a.Some? {
      assert Fits(p, t, cs[..i + 1][a.value]);
      assert b == a;
    } else if Fits(p, t, cs[i]) {
      assert cs[..i + 1][i] == cs[i];
      assert b == Some(i);
    }
  }

  /** The component of the first entry passing test `p`. */
  function FirstComp(cs: seq<ComponentInfo>, p: Test, t: set<nat>): Option<Component> {
    match FirstWith(cs, p, t)
    case Some(i) => Some(cs[i].comp)
    case None => None
  }

  /** `getComponent(type)`: the first component running as the type if there
      is one, otherwise the first that can be the type, otherwise null. */
  function ComponentFor(cs: seq<ComponentInfo>, t: set<nat>): (r: Option<Component>)
  {
    if FirstWith(cs, Running, t).Some? then FirstComp(cs, Running, t)
    else FirstComp(cs, Capable, t)
  }

  lemma {:induction false} FirstCompSnoc(cs: seq<ComponentInfo>, p: Test, t: set<nat>, i: nat)
    requires i < |cs|
    ensures FirstComp(cs[..i + 1], p, t)
            == if FirstComp(cs[..i], p, t).Some? then FirstComp(cs[..i], p, t)
               else if Fits(p, t, cs[i]) then Some(cs[i].comp) else None
  {
    FirstWithSnoc(cs, p, t, i);
    match FirstWith(cs[..i], p, t)
    case Some(k) => assert cs[..i][k] == cs[..i + 1][k];
    case None =>
  }

  /** The first running entry of a prefix is the one `getComponent` finds. */
  lemma {:induction false} FirstRunningIsFound(cs: seq<ComponentInfo>, t: set<nat>, i: nat)
    requires i < |cs| && FirstWith(cs[..i], Running, t).None? && RunsAs(t, cs[i])
    ensures ComponentFor(cs, t) == Some(cs[i].comp)
  {
    FirstWithSnoc(cs, Running, t, i);
    assert FirstWith(cs[..i + 1], Running, t) == Some(i);
    FirstWithExtends(cs, Running, t, i + 1);
  }

  /** The lookup prefers a running component, and finds nothing only when no
      entry can be the type. */
  lemma {:induction false} ComponentForProperties(cs: seq<ComponentInfo>, t: set<nat>)
    ensures (exists i :: 0 <= i < |cs| && RunsAs(t, cs[i])) ==>
              exists i :: 0 <= i < |cs| && RunsAs(t, cs[i]) && ComponentFor(cs, t) == Some(cs[i].comp)
    ensures ComponentFor(cs, t).None? <==>
              forall i :: 0 <= i < |cs| ==> !RunsAs(t, cs[i]) && !CanBe(t, cs[i])
  {
    var p, q := Running, Capable;
    if exists i :: 0 <= i < |cs| && RunsAs(t, cs[i]) {
      var i :| 0 <= i < |cs| && RunsAs(t, cs[i]);
      assert Fits(p, t, cs[i]);
      var k := FirstWith(cs, p, t).value;
      assert RunsAs(t, cs[k]);
    } else {
      assert forall i :: 0 <= i < |cs| ==> !Fits(p, t, cs[i]);
      if FirstWith(cs, q, t).Some? {
        var k := FirstWith(cs, q, t).value;
        assert CanBe(t, cs[k]);
      } else {
        assert forall i :: 0 <= i < |cs| ==> !Fits(q, t, cs[i]);
      }
    }
  }

  /** The entries after `shutdown`: nobody runs as anything any more. */
  function Stopped(cs: seq<ComponentInfo>): (r: seq<ComponentInfo>)
    ensures |r| == |cs|
    ensures forall i :: 0 <= i < |r| ==> r[i] == cs[i].(runningAs := {})
  {
    if |cs| == 0 then [] else [cs[0].(runningAs := {})] + Stopped(cs[1..])
  }

  /** The `shutdown()` calls `shutdown` makes: one per running entry, in
      order. */
  function ShutdownCalls(cs: seq<ComponentInfo>): (r: seq<Call>)
    ensures |r| <= |cs|
    ensures forall x :: x in r ==> x.Shutdown?
  {
    if |cs| == 0 then []
    else (if cs[0].runningAs != {} then [Shutdown(cs[0].comp.id)] else []) + ShutdownCalls(cs[1..])
  }

  /** A second shutdown calls nothing. */
  lemma {:induction false} ShutdownTwiceCallsNothing(cs: seq<ComponentInfo>)
    ensures ShutdownCalls(Stopped(cs)) == []
    ensures Stopped(Stopped(cs)) == Stopped(cs)
    decreases |cs|
  {
    if |cs| > 0 {
      assert Stopped(cs)[1..] == Stopped(cs[1..]);
      ShutdownTwiceCallsNothing(cs[1..]);
    }
  }

  /** Exactly the running entries are shut down. */
  lemma {:induction false} ShutdownCallsRunning(cs: seq<ComponentInfo>, id: nat)
    ensures Shutdown(id) in ShutdownCalls(cs) <==>
              exists i :: 0 <= i < |cs| && cs[i].runningAs != {} && cs[i].comp.id == id
    decreases |cs|
  {
    if |cs| > 0 {
      ShutdownCallsRunning(cs[1..], id);
      if exists i :: 0 <= i < |cs[1..]| && cs[1..][i].runningAs != {} && cs[1..][i].comp.id == id {
        var i :| 0 <= i < |cs[1..]| && cs[1..][i].runningAs != {} && cs[1..][i].comp.id == id;
        assert cs[i + 1] == cs[1..][i];
      }
      if exists i :: 0 <= i < |cs| && cs[i].runningAs != {} && cs[i].comp.id == id {
        var i :| 0 <= i < |cs| && cs[i].runningAs != {} && cs[i].comp.id == id;
        if i > 0 {
          assert cs[1..][i - 1] == cs[i];
        }
      }
    }
  }

  /** The `process(type)` calls: one per entry whose component supports the
      type, in order. */
  function ProcessCalls(cs: seq<ComponentInfo>, typeBit: nat): (r: seq<Call>)
    ensures |r| <= |cs|
    ensures forall x :: x in r ==> x.Process? && x.typeBit == typeBit
  {
    if |cs| == 0 then []
    else (if typeBit in cs[0].comp.supported then [Process(cs[0].comp.id, typeBit)] else [])
         + ProcessCalls(cs[1..], typeBit)
  }

  /** Exactly the supporting components are asked to process the type. */
  lemma {:induction false} ProcessCallsSupporting(cs: seq<ComponentInfo>, typeBit: nat, id: nat)
    ensures Process(id, typeBit) in ProcessCalls(cs, typeBit) <==>
              exists i :: 0 <= i < |cs| && typeBit in cs[i].comp.supported && cs[i].comp.id == id
    decreases |cs|
  {
    if |cs| > 0 {
      ProcessCallsSupporting(cs[1..], typeBit, id);
      if exists i :: 0 <= i < |cs[1..]| && typeBit in cs[1..][i].comp.supported && cs[1..][i].comp.id == id {
        var i :| 0 <= i < |cs[1..]| && typeBit in cs[1..][i].comp.supported && cs[1..][i].comp.id == id;
        assert cs[i + 1] == cs[1..][i];
      }
      if exists i :: 0 <= i < |cs| && typeBit in cs[i].comp.supported && cs[i].comp.id == id {
        var i :| 0 <= i < |cs| && typeBit in cs[i].comp.supported && cs[i].comp.id == id;
        if i > 0 {
          assert cs[1..][i - 1] == cs[i];
        }
      }
    }
  }

  /** The running types of different entries never overlap, every entry
      runs only as types it can be, and all of them are in the running mask. */
  predicate Exclusive(cs: seq<ComponentInfo>, running: set<nat>) {
    (forall i, j :: 0 <= i < j < |cs| ==> cs[i].runningAs !! cs[j].runningAs)
    && (forall i :: 0 <= i < |cs| ==> cs[i].runningAs <= cs[i].canbe && cs[i].runningAs <= running)
  }

  /** The entry `attachComponent` records, given the running mask before the
      call and the outcome of the component's `startup`. */
  function Attached(c: Component, mask: set<nat>, any: nat, running: set<nat>, startupOk: bool): (r: ComponentInfo)
    ensures r.comp == c && r.canbe == TypesOf(c, mask, any)
    ensures r.runningAs <= r.canbe && r.runningAs !! running
    ensures startupOk ==> r.runningAs == r.canbe - running
    ensures !startupOk ==> r.runningAs == {}
  {
    var canbe := TypesOf(c, mask, any);
    ComponentInfo(c, canbe, if startupOk then canbe - running else {})
  }

  /** Attaching keeps the running types of all entries disjoint. */
  lemma {:induction false} AttachKeepsExclusive(cs: seq<ComponentInfo>, running: set<nat>,
                                                c: Component, mask: set<nat>, any: nat, startupOk: bool)
    requires Exclusive(cs, running)
    ensures var e := Attached(c, mask, any, running, startupOk);
            Exclusive(cs + [e], running + e.runningAs)
  {
    var e := Attached(c, mask, any, running, startupOk);
    var cs' := cs + [e];
    forall i, j | 0 <= i < j < |cs'|
      ensures cs'[i].runningAs !! cs'[j].runningAs
    {
      if j == |cs| {
        assert cs'[i] == cs[i];
      }
    }
  }

  class Core {
    /** `Component::Any`: every type bit lies below it. */
    const any: nat
    /** The bit position of `Component::Config`. */
    const configBit: nat

    var running: set<nat>
    var config: Option<Component>
    var components: seq<ComponentInfo>
    var calls: seq<Call>

    ghost predicate Valid()
      reads this
    {
      any <= Pow2(31) && Exclusive(components, running)
    }

    /** `Component::Any` is a 32-bit enumerator whose shift loop in
        `getTypes` terminates, so it is at most `1 << 31`. */
    constructor(any: nat, configBit: nat)
      requires any <= Pow2(31)
      ensures Valid()
      ensures this.any == any && this.configBit == configBit
      ensures running == {} && config.None? && components == [] && calls == []
    {
      this.any := any;
      this.configBit := configBit;
      running := {};
      config := None;
      components := [];
      calls := [];
    }

    /** `getTypes(component, mask)`: the shift loop over `i = 1 << k`. */
    method GetTypes(c: Component, mask: set<nat>) returns (types: set<nat>)
      requires Valid()
      ensures types == TypesOf(c, mask, any)
    {
      types := {};
      var k: nat := 0;
      var i: nat := 1;
      while i < any
        invariant i == Pow2(k) && k <= 31
        invariant k > 0 ==> Pow2(k - 1) < any
        invariant types == TypesBelow(c, mask, k)
        decreases any - i
      {
        Pow2Below31(k);
        TypesBelowStep(c, mask, k);
        if k in mask && k in c.supported {
          types := types + {k};
        }
        k := k + 1;
        i := 2 * i;
        if i >= any {
          break;
        }
      }
      TypesBelowIsTypesOf(c, mask, any, k);
    }

    /** `attachComponent(comp, type)`. `initOk` is the outcome of the
        configuration's `initFrom` (only consulted when this component
        becomes the configuration), `startupOk` that of `startup`. */
    method AttachComponent(c: Component, mask: set<nat>, initOk: bool, startupOk: bool)
      returns (ok: bool)
      requires Valid()
      modifies this
      ensures Valid()
      ensures var e := Attached(c, mask, any, old(running), startupOk);
              components == old(components) + [e]
              && running == old(running) + e.runningAs
              && ok == (e.runningAs != {})
      ensures var becomesConfig := old(config).None? && configBit in mask && configBit in c.supported;
              config == (if becomesConfig && initOk then Some(c) else old(config))
              && calls == old(calls)
                          + (if becomesConfig then [InitFrom(c.id)] else [])
                          + [Startup(c.id, TypesOf(c, mask, any) - old(running))]
    {
      if config.None? && configBit in mask && configBit in c.supported {
        config := Some(c);
        calls := calls + [InitFrom(c.id)];
        if !initOk {
          config := None;
        }
      }
      var supportedTypes := GetTypes(c, mask);
      var isRunningAs := supportedTypes - running;
      calls := calls + [Startup(c.id, isRunningAs)];
      if !startupOk {
        isRunningAs := {};
      }
      AttachKeepsExclusive(components, running, c, mask, any, startupOk);
      running := running + isRunningAs;
      components := components + [ComponentInfo(c, supportedTypes, isRunningAs)];
      ok := isRunningAs != {};
    }

    /** `getComponent(type)`. */
    method GetComponent(t: set<nat>) returns (found: Option<Component>)
      ensures found == ComponentFor(components, t)
    {
      found := None;
      var cs := components;
      var i := 0;
      while i < |cs|
        invariant i <= |cs|
        invariant FirstWith(cs[..i], Running, t).None?
        invariant found == FirstComp(cs[..i], Capable, t)
      {
        FirstWithSnoc(cs, Running, t, i);
        FirstCompSnoc(cs, Capable, t, i);
        if found.None? && CanBe(t, cs[i]) {
          found := Some(cs[i].comp);
        }
        if RunsAs(t, cs[i]) {
          found := Some(cs[i].comp);
          FirstRunningIsFound(cs, t, i);
          return;
        }
        i := i + 1;
      }
      assert cs[..i] == cs;
    }

    /** `shutdown()`: shuts every running entry down and clears its `is`;
        the running mask is left as it was. */
    method ShutdownAll()
      requires Valid()
      modifies this
      ensures Valid()
      ensures components == Stopped(old(components))
      ensures calls == old(calls) + ShutdownCalls(old(components))
      ensures running == old(running) && config == old(config)
    {
      var cur, log := StopEach(components);
      StoppedIsExclusive(old(components), running);
      components := cur;
      calls := calls + log;
    }

    /** The loop of `shutdown()` over the entries `cs`: the entries with
        `is` cleared, and the `shutdown()` calls made on the way. */
    static method StopEach(cs: seq<ComponentInfo>) returns (cur: seq<ComponentInfo>, log: seq<Call>)
      ensures cur == Stopped(cs) && log == ShutdownCalls(cs)
    {
      cur := cs;
      log := [];
      var i := 0;
      while i < |cs|
        invariant i <= |cs|
        invariant cur == Stopped(cs[..i]) + cs[i..]
        invariant log == ShutdownCalls(cs[..i])
      {
        ShutdownCallsSnoc(cs, i);
        StoppedSnoc(cs, i);
        StopOneMore(cs, i);
        var e := cur[i];
        if e.runningAs != {} {
          log := log + [Shutdown(e.comp.id)];
          cur := cur[i := e.(runningAs := {})];
        }
        i := i + 1;
      }
      assert cs[..i] == cs;
      assert cs[i..] == [];
    }

    /** `process(type)`. */
    method ProcessAll(typeBit: nat)
      modifies this
      ensures calls == old(calls) + ProcessCalls(components, typeBit)
      ensures components == old(components) && running == old(running) && config == old(config)
    {
      var i := 0;
      while i < |components|
        invariant i <= |components|
        invariant calls == old(calls) + ProcessCalls(components[..i], typeBit)
        invariant components == old(components) && running == old(running) && config == old(config)
      {
        ProcessCallsSnoc(components, typeBit, i);
        if typeBit in components[i].comp.supported {
          calls := calls + [Process(components[i].comp.id, typeBit)];
        }
        i := i + 1;
      }
      assert components[..i] == components;
    }
  }

  /** A result found in a prefix stays the result of the whole sequence. */
  lemma {:induction false} FirstWithExtends(cs: seq<ComponentInfo>, p: Test, t: set<nat>, n: nat)
    requires n <= |cs|
    requires FirstWith(cs[..n], p, t).Some?
    ensures FirstWith(cs, p, t) == FirstWith(cs[..n], p, t)
  {
    var k := FirstWith(cs[..n], p, t).value;
    assert cs[..n][k] == cs[k];
    assert forall j :: 0 <= j < k ==> cs[..n][j] == cs[j];
    assert Fits(p, t, cs[k]);
    assert FirstWith(cs, p, t) == Some(k);
  }

  lemma {:induction false} ShutdownCallsSnoc(cs: seq<ComponentInfo>, i: nat)
    requires i < |cs|
    ensures ShutdownCalls(cs[..i + 1])
            == ShutdownCalls(cs[..i]) + (if cs[i].runningAs != {} then [Shutdown(cs[i].comp.id)] else [])
    decreases i
  {
    if i > 0 {
      assert cs[..i + 1][1..] == cs[1..][..i];
      assert cs[..i][1..] == cs[1..][..i - 1];
      ShutdownCallsSnoc(cs[1..], i - 1);
      assert cs[1..][i - 1] == cs[i];
    } else {
      assert cs[..1][1..] == [];
    }
  }

  lemma {:induction false} StoppedSnoc(cs: seq<ComponentInfo>, i: nat)
    requires i < |cs|
    ensures Stopped(cs[..i + 1]) == Stopped(cs[..i]) + [cs[i].(runningAs := {})]
  {
    var a := Stopped(cs[..i + 1]);
    var b := Stopped(cs[..i]) + [cs[i].(runningAs := {})];
    assert forall k :: 0 <= k < |a| ==> a[k] == b[k];
  }

  /** Entries that run as nothing share no type and claim nothing. */
  lemma {:induction false} StoppedIsExclusive(cs: seq<ComponentInfo>, running: set<nat>)
    ensures Exclusive(Stopped(cs), running)
  {
  }

  /** One more step of the shutdown loop, on the whole sequence of entries. */
  lemma {:induction false} StopOneMore(cs: seq<ComponentInfo>, i: nat)
    requires i < |cs|
    ensures (Stopped(cs[..i]) + cs[i..])[i] == cs[i]
    ensures (Stopped(cs[..i]) + cs[i..])[i := cs[i].(runningAs := {})] == Stopped(cs[..i + 1]) + cs[i + 1..]
    ensures cs[i].runningAs == {} ==> Stopped(cs[..i]) + cs[i..] == Stopped(cs[..i + 1]) + cs[i + 1..]
  {
    StoppedSnoc(cs, i);
    var a := Stopped(cs[..i]) + cs[i..];
    var b := Stopped(cs[..i + 1]) + cs[i + 1..];
    assert |a| == |b|;
    assert forall k :: 0 <= k < |a| && k != i ==> a[k] == b[k];
  }

  lemma {:induction false} ProcessCallsSnoc(cs: seq<ComponentInfo>, typeBit: nat, i: nat)
    requires i < |cs|
    ensures ProcessCalls(cs[..i + 1], typeBit)
            == ProcessCalls(cs[..i], typeBit)
               + (if typeBit in cs[i].comp.supported then [Process(cs[i].comp.id, typeBit)] else [])
    decreases i
  {
    if i > 0 {
      assert cs[..i + 1][1..] == cs[1..][..i];
      assert cs[..i][1..] == cs[1..][..i - 1];
      ProcessCallsSnoc(cs[1..], typeBit, i - 1);
      assert cs[1..][i - 1] == cs[i];
    } else {
      assert cs[..1][1..] == [];
    }
  }
}
