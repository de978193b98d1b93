/** The graph search of `addons/concept-graph/search.js`: a query is cut
    into parts, the last `link:` part filters the relations by label and
    the last other part filters the concepts by name. The inputs are the
    store's maps, given here as their entries in insertion order; they are
    values, so the filter cannot change them. */
module Search {
  import opened Common
  import Refs = References

  /** A concept as the search sees it: its id and its name. */
  datatype Node = Node(id: string, name: string)

  /** A relation as the search sees it: its label and its two ends. */
  datatype Link = Link(labelText: Option<string>, source: Node, target: Node)

  /** The prefix that marks the link part of a query. */
  const LINK_PREFIX: string := "link:"

  // ---------------------------------------------------------------------
  // Cutting the query: the global regular expression
  // `([^"\s]+)|"((?:\\"|[^"])+)"` applied with repeated `exec`.

  /** A character of an unquoted part: neither a quote nor white space. */
  predicate WordChar(c: char) {
    c != '"' && !IsSpace(c)
  }

  /** The end of the longest run of word characters from `i`. */
  function WordEnd(s: string, i: nat): (r: nat)
    requires i <= |s|
    ensures i <= r <= |s|
    ensures forall k :: i <= k < r ==> WordChar(s[k])
    ensures r == |s| || !WordChar(s[r])
    decreases |s| - i
  {
    if i < |s| && WordChar(s[i]) then WordEnd(s, i + 1) else i
  }

  /** The closing quote the quoted alternative settles on, scanning the
      body from `p`: each step takes an escaped quote `\"` if it can, else
      one character other than a quote; the first quote it cannot take
      closes the part. Reaching the end instead, the matcher backtracks to
      the last `\"` taken (`lastPair`, -1 when there is none), reads its
      backslash as an ordinary character and its quote as the closing one.
      -1: there is no closing quote. */
  function CloseQuote(s: string, p: nat, lastPair: int): (r: int)
    requires p <= |s|
    requires -1 <= lastPair && lastPair + 2 <= p
    requires lastPair >= 0 ==> s[lastPair + 1] == '"'
    ensures r == -1 || (0 <= r < |s| && s[r] == '"')
    ensures r == -1 || r >= (if lastPair >= 0 then lastPair + 1 else p)
    decreases |s| - p
  {
    if p == |s| then (if lastPair >= 0 then lastPair + 1 else -1)
    else if s[p] == '\\' && p + 1 < |s| && s[p + 1] == '"' then CloseQuote(s, p + 2, p)
    else if s[p] != '"' then CloseQuote(s, p + 1, lastPair)
    else p
  }

  /** One match: the captured part and where the next search starts. */
  datatype Match = Match(part: string, end: nat)

  /** `regex.exec(query)` from `lastIndex` `i`: the first position from
      which one of the alternatives matches. A quote whose body would be
      empty or unclosed matches nothing and the search moves on. */
  function NextMatch(s: string, i: nat): (r: Option<Match>)
    requires i <= |s|
    ensures r.Some? ==> i < r.value.end <= |s| && |r.value.part| > 0
    decreases |s| - i
  {
    if i == |s| then None
    else if WordChar(s[i]) then
      var e := WordEnd(s, i);
      Some(Match(s[i..e], e))
    else if s[i] == '"' && CloseQuote(s, i + 1, -1) > i + 1 then
      var q := CloseQuote(s, i + 1, -1);
      Some(Match(s[i + 1..q], q + 1))
    else NextMatch(s, i + 1)
  }

  /** The parts of the query from position `i`, in order. */
  function Parts(s: string, i: nat): (r: seq<string>)
    requires i <= |s|
    ensures forall k :: 0 <= k < |r| ==> |r[k]| > 0
    decreases |s| - i
  {
    match NextMatch(s, i)
    case None => []
    case Some(m) => [m.part] + Parts(s, m.end)
  }

  /** Every character of `p` is a word character. */
  predicate IsWord(p: string) {
    forall k :: 0 <= k < |p| ==> WordChar(p[k])
  }

  /** Without quotes in the query the parts are words: no part holds white
      space. */
  lemma {:induction false} UnquotedPartsAreWords(s: string, i: nat)
    requires i <= |s| && '"' !in s
    ensures forall p :: p in Parts(s, i) ==> IsWord(p)
    decreases |s| - i
  {
    if i < |s| {
      if WordChar(s[i]) {
        var e := WordEnd(s, i);
        assert IsWord(s[i..e]) by {
          forall k | 0 <= k < e - i
            ensures WordChar(s[i..e][k])
          {
            assert s[i..e][k] == s[i + k];
          }
        }
        assert Parts(s, i) == [s[i..e]] + Parts(s, e);
        UnquotedPartsAreWords(s, e);
      } else {
        assert s[i] in s;
        assert Parts(s, i) == Parts(s, i + 1);
        UnquotedPartsAreWords(s, i + 1);
      }
    }
  }

  /** The scan of a quoted body reaches the one quote that ends the text. */
  lemma {:induction false} CloseQuoteAtEnd(s: string, p: nat, lastPair: int)
    requires p < |s| && s[|s| - 1] == '"' && '"' !in s[p..|s| - 1]
    requires -1 <= lastPair && lastPair + 2 <= p
    requires lastPair >= 0 ==> s[lastPair + 1] == '"'
    ensures CloseQuote(s, p, lastPair) == |s| - 1
    decreases |s| - p
  {
    if p < |s| - 1 {
      assert s[p] == s[p..|s| - 1][0];
      if p + 1 < |s| - 1 {
        assert s[p + 1] == s[p..|s| - 1][1];
      }
      if !(s[p] == '\\' && s[p + 1] == '"') {
        assert s[p + 1..|s| - 1] == s[p..|s| - 1][1..];
        CloseQuoteAtEnd(s, p + 1, lastPair);
      }
    }
  }

  /** A quoted phrase is one part, white space and backslashes included. */
  lemma {:induction false} QuotedPhraseIsOnePart(w: string)
    requires |w| > 0 && '"' !in w
    ensures Parts("\"" + w + "\"", 0) == [w]
  {
    var s := "\"" + w + "\"";
    assert s[1..|s| - 1] == w;
    CloseQuoteAtEnd(s, 1, -1);
    assert NextMatch(s, 0) == Some(Match(w, |s|));
    assert NextMatch(s, |s|).None?;
  }

  /** Two words separated by a blank are two parts. */
  lemma {:induction false} BlankSeparatesParts(a: string, b: string)
    requires |a| > 0 && |b| > 0
    requires forall k :: 0 <= k < |a| ==> WordChar(a[k])
    requires forall k :: 0 <= k < |b| ==> WordChar(b[k])
    ensures Parts(a + " " + b, 0) == [a, b]
  {
    var s := a + " " + b;
    WordRun(s, 0, |a|);
    assert s[..|a|] == a;
    assert !WordChar(s[|a|]);
    assert NextMatch(s, |a|) == NextMatch(s, |a| + 1);
    assert forall k :: |a| + 1 <= k < |s| ==> s[k] == b[k - |a| - 1];
    WordRun(s, |a| + 1, |s|);
    assert s[|a| + 1] == b[0];
    assert s[|a| + 1..|s|] == b;
    assert NextMatch(s, |a| + 1) == Some(Match(b, |s|));
    assert Parts(s, |s|) == [];
    assert Parts(s, |a| + 1) == [b];
    assert Parts(s, |a|) == [b];
    assert NextMatch(s, 0) == Some(Match(a, |a|));
  }

  /** A run of word characters ending at `e`, followed by a non-word
      character or the end, is exactly what `WordEnd` finds. */
  lemma {:induction false} WordRun(s: string, i: nat, e: nat)
    requires i <= e <= |s|
    requires forall k :: i <= k < e ==> WordChar(s[k])
    requires e == |s| || !WordChar(s[e])
    ensures WordEnd(s, i) == e
    decreases e - i
  {
    if i < e {
      WordRun(s, i + 1, e);
    }
  }

  /** The link query: what follows `link:` in the LAST part that starts with
      it (possibly empty). */
  function LinkQueryOf(parts: seq<string>): (r: Option<string>)
    ensures r.None? <==> forall i :: 0 <= i < |parts| ==> !StartsWith(parts[i], LINK_PREFIX)
    ensures r.Some? ==> exists i :: 0 <= i < |parts| && StartsWith(parts[i], LINK_PREFIX)
                           && r.value == parts[i][|LINK_PREFIX|..]
                           && forall j :: i < j < |parts| ==> !StartsWith(parts[j], LINK_PREFIX)
    decreases |parts|
  {
    if |parts| == 0 then None
    else
      var last := parts[|parts| - 1];
      if StartsWith(last, LINK_PREFIX) then Some(last[|LINK_PREFIX|..])
      else
        var r := LinkQueryOf(parts[..|parts| - 1]);
        assert forall i :: 0 <= i < |parts| - 1 ==> parts[..|parts| - 1][i] == parts[i];
        r
  }

  /** The node query: the LAST part that does not start with `link:`. */
  function NodeQueryOf(parts: seq<string>): (r: Option<string>)
    ensures r.None? <==> forall i :: 0 <= i < |parts| ==> StartsWith(parts[i], LINK_PREFIX)
    ensures r.Some? ==> exists i :: 0 <= i < |parts| && !StartsWith(parts[i], LINK_PREFIX)
                           && r.value == parts[i]
                           && forall j :: i < j < |parts| ==> StartsWith(parts[j], LINK_PREFIX)
    decreases |parts|
  {
    if |parts| == 0 then None
    else
      var last := parts[|parts| - 1];
      if !StartsWith(last, LINK_PREFIX) then Some(last)
      else
        var r := NodeQueryOf(parts[..|parts| - 1]);
        assert forall i :: 0 <= i < |parts| - 1 ==> parts[..|parts| - 1][i] == parts[i];
        r
  }

  // ---------------------------------------------------------------------
  // Filtering.

  /** The keys of a map given as its entries. */
  function Keys(entries: seq<(string, Node)>): set<string> {
    set e | e in entries :: e.0
  }

  /** `[...map.values()]`. */
  function Values(entries: seq<(string, Node)>): (r: seq<Node>)
    ensures |r| == |entries|
    ensures forall i :: 0 <= i < |r| ==> r[i] == entries[i].1
    decreases |entries|
  {
    if |entries| == 0 then [] else [entries[0].1] + Values(entries[1..])
  }

  /** `map.set(k, v)`: an existing key keeps its place and takes the new
      value; a new key goes last. */
  function MapSet(entries: seq<(string, Node)>, k: string, v: Node): (r: seq<(string, Node)>)
    ensures Keys(r) == Keys(entries) + {k}
    ensures (k, v) in r
    ensures forall e :: e in entries && e.0 != k ==> e in r
    ensures forall e :: e in r ==> e in entries || e == (k, v)
    decreases |entries|
  {
    if |entries| == 0 then [(k, v)]
    else if entries[0].0 == k then
      assert entries == [entries[0]] + entries[1..];
      [(k, v)] + entries[1..]
    else
      assert entries == [entries[0]] + entries[1..];
      [entries[0]] + MapSet(entries[1..], k, v)
  }

  /** The node filter: the entries whose lower-cased name contains the
      query, in order. (The query is not lower-cased here; the caller
      lower-cases the text of the search field.) */
  function ByName(nodes: seq<(string, Node)>, q: string): (r: seq<(string, Node)>)
    ensures forall e :: e in r <==> e in nodes && Contains(ToLower(e.1.name), q)
    ensures SubseqOf(r, nodes)
    decreases |nodes|
  {
    if |nodes| == 0 then []
    else
      var init := nodes[..|nodes| - 1];
      var e := nodes[|nodes| - 1];
      assert nodes == init + [e];
      var prev := ByName(init, q);
      if Contains(ToLower(e.1.name), q) then
        assert (prev + [e])[..|prev|] == prev;
        prev + [e]
      else prev
  }

  /** Both ends of a link are among the given keys. */
  predicate Spans(l: Link, keys: set<string>) {
    l.source.id in keys && l.target.id in keys
  }

  /** The links with both ends among the given keys, in order. */
  function Spanning(links: seq<Link>, keys: set<string>): (r: seq<Link>)
    ensures forall l :: l in r <==> l in links && Spans(l, keys)
    ensures SubseqOf(r, links)
    decreases |links|
  {
    if |links| == 0 then []
    else
      var init := links[..|links| - 1];
      var l := links[|links| - 1];
      assert links == init + [l];
      var prev := Spanning(init, keys);
      if Spans(l, keys) then
        assert (prev + [l])[..|prev|] == prev;
        prev + [l]
      else prev
  }

  /** The label test of the link filter. */
  predicate LabelMatches(l: Link, lq: string) {
    Refs.Truthy(l.labelText) && Contains(ToLower(l.labelText.value), lq)
  }

  /** At least one end of a link is a candidate. */
  predicate Touches(l: Link, cands: set<string>) {
    l.source.id in cands || l.target.id in cands
  }

  /** Both ends of a kept link are set into the visible map, each under
      its own id. */
  function ShowEnds(visible: seq<(string, Node)>, l: Link): (r: seq<(string, Node)>)
    requires forall e :: e in visible ==> e.1.id == e.0
    ensures forall e :: e in r ==> e.1.id == e.0
    ensures Keys(r) == Keys(visible) + {l.source.id, l.target.id}
  {
    MapSet(MapSet(visible, l.source.id, l.source), l.target.id, l.target)
  }

  /** What the filter returns: the visible map and the links. */
  datatype Result = Result(visible: seq<(string, Node)>, links: seq<Link>)

  /** The link filter: a link whose label matches and that touches a
      candidate is kept, and both its ends become visible. */
  function ByLabel(links: seq<Link>, lq: string, cands: set<string>): (r: Result)
    ensures forall e :: e in r.visible ==> e.1.id == e.0
    ensures forall l :: l in r.links <==> l in links && LabelMatches(l, lq) && Touches(l, cands)
    ensures SubseqOf(r.links, links)
    decreases |links|
  {
    if |links| == 0 then Result([], [])
    else
      var init := links[..|links| - 1];
      var l := links[|links| - 1];
      assert links == init + [l];
      var prev := ByLabel(init, lq, cands);
      if LabelMatches(l, lq) && Touches(l, cands) then
        assert (prev.links + [l])[..|prev.links|] == prev.links;
        Result(ShowEnds(prev.visible, l), prev.links + [l])
      else prev
  }

  /** Both ends of every kept link are visible. */
  lemma {:induction false} ByLabelSpans(links: seq<Link>, lq: string, cands: set<string>)
    ensures forall l :: l in ByLabel(links, lq, cands).links ==> Spans(l, Keys(ByLabel(links, lq, cands).visible))
    decreases |links|
  {
    if |links| > 0 {
      var init := links[..|links| - 1];
      var l := links[|links| - 1];
      ByLabelSpans(init, lq, cands);
      if LabelMatches(l, lq) && Touches(l, cands) {
        ByLabelSpansStep(init, l, lq, cands);
        assert links == init + [l];
      } else {
        assert links == init + [l];
      }
    }
  }

  lemma {:induction false} ByLabelSpansStep(init: seq<Link>, l: Link, lq: string, cands: set<string>)
    requires forall x :: x in ByLabel(init, lq, cands).links ==> Spans(x, Keys(ByLabel(init, lq, cands).visible))
    requires LabelMatches(l, lq) && Touches(l, cands)
    ensures var r := ByLabel(init + [l], lq, cands);
            forall x :: x in r.links ==> Spans(x, Keys(r.visible))
  {
    assert (init + [l])[..|init|] == init;
  }

  /** The ids at either end of the given links. */
  function Ends(ls: seq<Link>): set<string>
    decreases |ls|
  {
    if |ls| == 0 then {} else Ends(ls[..|ls| - 1]) + {ls[|ls| - 1].source.id, ls[|ls| - 1].target.id}
  }

  /** An id is an end exactly when some link starts or ends there. */
  lemma {:induction false} EndsOf(ls: seq<Link>)
    ensures forall x :: x in Ends(ls) <==> exists l :: l in ls && (x == l.source.id || x == l.target.id)
    decreases |ls|
  {
    if |ls| > 0 {
      var init, last := ls[..|ls| - 1], ls[|ls| - 1];
      EndsOf(init);
      assert ls == init + [last];
      forall x | x in Ends(ls)
        ensures exists l :: l in ls && (x == l.source.id || x == l.target.id)
      {
        if x !in Ends(init) {
          assert last in ls;
        }
      }
    }
  }

  /** The label filter shows exactly the ends of the links it keeps: the
      visible map starts empty and only ever receives such ends. */
  lemma {:induction false} ByLabelShowsOnlyEnds(links: seq<Link>, lq: string, cands: set<string>)
    ensures var r := ByLabel(links, lq, cands);
            Keys(r.visible) == Ends(r.links)
    decreases |links|
  {
    if |links| > 0 {
      var init := links[..|links| - 1];
      var l := links[|links| - 1];
      ByLabelShowsOnlyEnds(init, lq, cands);
      var prev := ByLabel(init, lq, cands);
      if LabelMatches(l, lq) && Touches(l, cands) {
        assert (prev.links + [l])[..|prev.links|] == prev.links;
      }
    }
  }

  /** `search.filter(nodes, links, query)`. */
  function FilterSpec(nodes: seq<(string, Node)>, links: seq<Link>, query: string): Result {
    var parts := Parts(query, 0);
    var nq := NodeQueryOf(parts);
    var lq := LinkQueryOf(parts);
    var visible := if Refs.Truthy(nq) then ByName(nodes, nq.value) else nodes;
    if Refs.Truthy(lq) then ByLabel(links, lq.value, Keys(visible))
    else Result(visible, Spanning(links, Keys(visible)))
  }

  /** An empty query shows every node and every link whose two ends are
      nodes. */
  lemma {:induction false} EmptyQueryShowsAll(nodes: seq<(string, Node)>, links: seq<Link>, query: string)
    requires Parts(query, 0) == []
    ensures var r := FilterSpec(nodes, links, query);
            && r.visible == nodes
            && forall l :: l in r.links <==> l in links && Spans(l, Keys(nodes))
  {
  }

  /** A node query alone shows exactly the nodes whose name contains it,
      and only links between shown nodes. */
  lemma {:induction false} NodeQueryShowsMatches(nodes: seq<(string, Node)>, links: seq<Link>, query: string)
    requires NodeQueryOf(Parts(query, 0)).Some?
    requires !Refs.Truthy(LinkQueryOf(Parts(query, 0)))
    ensures var q := NodeQueryOf(Parts(query, 0)).value;
            var r := FilterSpec(nodes, links, query);
            && (forall e :: e in r.visible <==> e in nodes && Contains(ToLower(e.1.name), q))
            && (forall l :: l in r.links ==> Spans(l, Keys(r.visible)))
  {
    var parts := Parts(query, 0);
    var q := NodeQueryOf(parts).value;
    var i :| 0 <= i < |parts| && !StartsWith(parts[i], LINK_PREFIX) && q == parts[i];
    assert Refs.Truthy(NodeQueryOf(parts));
  }

  /** With a link query every shown link has a matching label and touches a
      candidate node, and both its ends are among the shown nodes. */
  lemma {:induction false} LinkQueryShowsBothEnds(nodes: seq<(string, Node)>, links: seq<Link>, query: string)
    requires Refs.Truthy(LinkQueryOf(Parts(query, 0)))
    ensures var lq := LinkQueryOf(Parts(query, 0)).value;
            var r := FilterSpec(nodes, links, query);
            var shown := Values(r.visible);
            && (forall l :: l in r.links ==>
                  && LabelMatches(l, lq)
                  && (exists n :: n in shown && n.id == l.source.id)
                  && (exists n :: n in shown && n.id == l.target.id))
            && (forall n :: n in shown ==> exists l :: l in r.links && (n.id == l.source.id || n.id == l.target.id))
  {
    var lq := LinkQueryOf(Parts(query, 0)).value;
    var r := FilterSpec(nodes, links, query);
    var shown := Values(r.visible);
    var nq := NodeQueryOf(Parts(query, 0));
    ByLabelSpans(links, lq, Keys(if Refs.Truthy(nq) then ByName(nodes, nq.value) else nodes));
    forall l | l in r.links
      ensures (exists n :: n in shown && n.id == l.source.id) && (exists n :: n in shown && n.id == l.target.id)
    {
      KeyedEndsShown(r.visible, l);
    }
    ByLabelShowsOnlyEnds(links, lq, Keys(if Refs.Truthy(nq) then ByName(nodes, nq.value) else nodes));
    ShownAreEnds(r.visible, r.links);
  }

  /** When the keys are the ends of `ls` and every entry is keyed by its
      node's id, every shown node is an end of one of `ls`. */
  lemma {:induction false} ShownAreEnds(visible: seq<(string, Node)>, ls: seq<Link>)
    requires forall e :: e in visible ==> e.1.id == e.0
    requires Keys(visible) == Ends(ls)
    ensures forall n :: n in Values(visible) ==> exists l :: l in ls && (n.id == l.source.id || n.id == l.target.id)
  {
    var shown := Values(visible);
    EndsOf(ls);
    forall n | n in shown
      ensures exists l :: l in ls && (n.id == l.source.id || n.id == l.target.id)
    {
      var i :| 0 <= i < |shown| && shown[i] == n;
      assert visible[i] in visible;
      assert n.id in Keys(visible);
    }
  }

  /** When every entry is keyed by its node's id, a link spanning the keys
      has both ends among the values. */
  lemma {:induction false} KeyedEndsShown(visible: seq<(string, Node)>, l: Link)
    requires forall e :: e in visible ==> e.1.id == e.0
    requires Spans(l, Keys(visible))
    ensures (exists n :: n in Values(visible) && n.id == l.source.id)
    ensures (exists n :: n in Values(visible) && n.id == l.target.id)
  {
    var shown := Values(visible);
    var es :| es in visible && es.0 == l.source.id;
    var et :| et in visible && et.0 == l.target.id;
    var i :| 0 <= i < |visible| && visible[i] == es;
    var j :| 0 <= j < |visible| && visible[j] == et;
    assert shown[i].id == l.source.id;
    assert shown[j].id == l.target.id;
  }

  /** The links shown are some of the input links, in input order. */
  lemma {:induction false} ShownLinksKeepOrder(nodes: seq<(string, Node)>, links: seq<Link>, query: string)
    ensures SubseqOf(FilterSpec(nodes, links, query).links, links)
  {
  }

  // ---------------------------------------------------------------------
  // The filter as the source runs it.

  /** One more part: it becomes the link query or the node query, and the
      other one stays. */
  lemma {:induction false} QueriesSnoc(done: seq<string>, p: string)
    ensures LinkQueryOf(done + [p]) ==
              if StartsWith(p, LINK_PREFIX) then Some(p[|LINK_PREFIX|..]) else LinkQueryOf(done)
    ensures NodeQueryOf(done + [p]) ==
              if StartsWith(p, LINK_PREFIX) then NodeQueryOf(done) else Some(p)
  {
    assert (done + [p])[..|done|] == done;
  }

  /** One step of the `exec` loop. */
  lemma {:induction false} PartsStep(query: string, pos: nat, done: seq<string>)
    requires pos <= |query| && NextMatch(query, pos).Some?
    requires Parts(query, 0) == done + Parts(query, pos)
    ensures var m := NextMatch(query, pos).value;
            m.end <= |query| && Parts(query, 0) == (done + [m.part]) + Parts(query, m.end)
  {
  }

  /** The `regex.exec` loop: the node query and the link query. */
  method Queries(query: string) returns (nodeQuery: Option<string>, linkQuery: Option<string>)
    ensures nodeQuery == NodeQueryOf(Parts(query, 0))
    ensures linkQuery == LinkQueryOf(Parts(query, 0))
  {
    nodeQuery, linkQuery := None, None;
    var pos := 0;
    ghost var done: seq<string> := [];
    while true
      invariant pos <= |query|
      invariant Parts(query, 0) == done + Parts(query, pos)
      invariant nodeQuery == NodeQueryOf(done) && linkQuery == LinkQueryOf(done)
      decreases |query| - pos
    {
      var m := NextMatch(query, pos);
      if m.None? {
        break;
      }
      var p := m.value.part;
      QueriesSnoc(done, p);
      PartsStep(query, pos, done);
      if StartsWith(p, LINK_PREFIX) {
        linkQuery := Some(p[|LINK_PREFIX|..]);
      } else {
        nodeQuery := Some(p);
      }
      done := done + [p];
      pos := m.value.end;
    }
    assert done + [] == done;
  }

  /** The `nodes.forEach` loop of a node query. */
  method FilterByName(nodes: seq<(string, Node)>, q: string) returns (visible: seq<(string, Node)>)
    ensures visible == ByName(nodes, q)
  {
    visible := [];
    for i := 0 to |nodes|
      invariant visible == ByName(nodes[..i], q)
    {
      assert nodes[..i + 1][..i] == nodes[..i];
      var (id, concept) := nodes[i];
      if Contains(ToLower(concept.name), q) {
        visible := visible + [(id, concept)];
      }
    }
    assert nodes[..|nodes|] == nodes;
  }

  /** The `links.forEach` loop of a link query. */
  method FilterByLabel(links: seq<Link>, lq: string, cands: set<string>) returns (r: Result)
    ensures r == ByLabel(links, lq, cands)
  {
    var visible: seq<(string, Node)> := [];
    var filtered: seq<Link> := [];
    for i := 0 to |links|
      invariant Result(visible, filtered) == ByLabel(links[..i], lq, cands)
    {
      assert links[..i + 1][..i] == links[..i];
      var l := links[i];
      if !Refs.Truthy(l.labelText) || !Contains(ToLower(l.labelText.value), lq)
         || (l.source.id !in cands && l.target.id !in cands) {
        continue;
      }
      visible := MapSet(visible, l.source.id, l.source);
      visible := MapSet(visible, l.target.id, l.target);
      filtered := filtered + [l];
    }
    assert links[..|links|] == links;
    r := Result(visible, filtered);
  }

  /** The `links.forEach` loop without a link query. */
  method FilterSpanning(links: seq<Link>, keys: set<string>) returns (filtered: seq<Link>)
    ensures filtered == Spanning(links, keys)
  {
    filtered := [];
    for i := 0 to |links|
      invariant filtered == Spanning(links[..i], keys)
    {
      assert links[..i + 1][..i] == links[..i];
      var l := links[i];
      if l.source.id in keys && l.target.id in keys {
        filtered := filtered + [l];
      }
    }
    assert links[..|links|] == links;
  }

  /** `search.filter(nodes, links, query)`: the shown nodes and links. */
  method Filter(nodes: seq<(string, Node)>, links: seq<Link>, query: string)
    returns (shownNodes: seq<Node>, shownLinks: seq<Link>)
    ensures var r := FilterSpec(nodes, links, query);
            shownNodes == Values(r.visible) && shownLinks == r.links
  {
    var nodeQuery, linkQuery := Queries(query);
    var visible: seq<(string, Node)>;
    if Refs.Truthy(nodeQuery) {
      visible := FilterByName(nodes, nodeQuery.value);
    } else {
      visible := nodes;
    }
    if Refs.Truthy(linkQuery) {
      var r := FilterByLabel(links, linkQuery.value, Keys(visible));
      visible, shownLinks := r.visible, r.links;
    } else {
      shownLinks := FilterSpanning(links, Keys(visible));
    }
    shownNodes := Values(visible);
  }
}
