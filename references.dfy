/** The reference bookkeeping of `addons/firefox/src/content/utils.js`: a
    concept or relation keeps, per page URL, a reference with a title, an
    icon and the list of selections made on that page. `addReference`
    merges a new selection into that table; the favicon is derived
    afterwards (the text drawn into a fallback icon, or an already encoded
    image handed back at once). Image loading and drawing are not
    modelled; the base-domain lookup is a parameter. */
module References {
  import opened Common

  /** A selection range inside a page; `DocumentRange` is the whole page
      (`{type: 'document'}`). */
  datatype Range = DocumentRange | TextRange(desc: string)

  /** One entry of `el.refs`. */
  datatype Ref = Ref(title: Option<string>, icon: Option<string>, selections: seq<seq<Range>>)

  /** The `cfg` argument of `addReference`. */
  datatype RefConfig = RefConfig(url: Option<string>, title: Option<string>, icon: Option<string>,
                                 ranges: Option<seq<Range>>, host: Option<string>)

  /** JavaScript truthiness of an optional string. */
  predicate Truthy(o: Option<string>) {
    o.Some? && o.value != ""
  }

  /** The ranges recorded for a call: the given ones, or the whole
      document when there are none. */
  function RangesOf(cfg: RefConfig): (r: seq<Range>)
    ensures |r| > 0
    ensures cfg.ranges.Some? && |cfg.ranges.value| > 0 ==> r == cfg.ranges.value
    ensures !(cfg.ranges.Some? && |cfg.ranges.value| > 0) ==> r == [DocumentRange]
  {
    if cfg.ranges.Some? && |cfg.ranges.value| > 0 then cfg.ranges.value else [DocumentRange]
  }

  /** What a successful merge leaves behind: the new table, the
      configuration as the merge rewrote it (its title back-filled) and the
      ranges that were recorded. */
  datatype Merge = Merge(refs: map<string, Ref>, cfg: RefConfig, ranges: seq<Range>)

  /** The synchronous part of `addReference(el, cfg, cb)` on `el.refs`:
      None for a missing or empty URL. */
  function MergeReference(refs: map<string, Ref>, cfg: RefConfig): (r: Option<Merge>)
    ensures r.None? <==> !Truthy(cfg.url)
  {
    if !Truthy(cfg.url) then None
    else
      var url := cfg.url.value;
      var ref := if url in refs then refs[url] else Ref(None, None, []);
      var titled := if Truthy(cfg.title) then ref.(title := cfg.title) else ref;
      var cfg1 := if Truthy(cfg.title) then cfg else cfg.(title := ref.title);
      var iconed := if Truthy(cfg.icon) then titled.(icon := cfg.icon) else titled;
      var ranges := RangesOf(cfg);
      Some(Merge(refs[url := iconed.(selections := iconed.selections + [ranges])], cfg1, ranges))
  }

  /** The merge rules: the entry is keyed by the URL and an existing one is
      kept and extended, never replaced; every other entry is untouched;
      exactly one selection is appended; a given title or icon overwrites
      the stored one, and a missing title is filled in from the stored
      one. */
  lemma {:induction false} MergeReferenceRules(refs: map<string, Ref>, cfg: RefConfig)
    requires Truthy(cfg.url)
    ensures var m := MergeReference(refs, cfg).value;
            var url := cfg.url.value;
            var old_ := if url in refs then refs[url] else Ref(None, None, []);
            && m.refs.Keys == refs.Keys + {url}
            && (forall u :: u in refs && u != url ==> m.refs[u] == refs[u])
            && m.refs[url].selections == old_.selections + [RangesOf(cfg)]
            && m.ranges == RangesOf(cfg)
            && m.refs[url].title == (if Truthy(cfg.title) then cfg.title else old_.title)
            && m.cfg.title == m.refs[url].title
            && m.refs[url].icon == (if Truthy(cfg.icon) then cfg.icon else old_.icon)
            && m.cfg == cfg.(title := m.cfg.title)
  {
  }

  /** Merging the same configuration twice records the selection twice and
      changes nothing else: the table grows by selections only. */
  lemma {:induction false} MergeTwiceAppendsTwice(refs: map<string, Ref>, cfg: RefConfig)
    requires Truthy(cfg.url)
    ensures var m1 := MergeReference(refs, cfg).value;
            var m2 := MergeReference(m1.refs, cfg).value;
            var url := cfg.url.value;
            m2.refs.Keys == m1.refs.Keys
            && m2.refs[url] == m1.refs[url].(selections := m1.refs[url].selections + [RangesOf(cfg)])
  {
    MergeReferenceRules(refs, cfg);
    var m1 := MergeReference(refs, cfg).value;
    MergeReferenceRules(m1.refs, cfg);
  }

  /** What follows the last '/' of a URL. */
  function LastSegment(url: string): (r: string)
    ensures '/' !in r
    ensures |r| <= |url| && r == url[|url| - |r|..]
  {
    url[LastIndexOf(url, '/') + 1..]
  }

  /** A segment up to its first '.'. */
  function Stem(seg: string): (r: string)
    ensures '.' !in r
    ensures |r| <= |seg| && r == seg[..|r|]
    ensures |r| < |seg| ==> seg[|r|] == '.'
  {
    var dot := IndexOf(seg, '.');
    if dot < 0 then seg else seg[..dot]
  }

  /** The last three characters of a text (`substr(-3)`). */
  function LastThree(t: string): (r: string)
    ensures |r| == if |t| <= 3 then |t| else 3
    ensures r == t[|t| - |r|..]
  {
    if |t| <= 3 then t else t[|t| - 3..]
  }

  /** The text of the fallback icon in `getFavicon` for a `file://` URL:
      the last path segment up to its first '.', cut to its last three
      characters. */
  function FileIconText(url: string): (r: string)
    ensures |r| <= 3
    ensures '/' !in r && '.' !in r
  {
    var stem := Stem(LastSegment(url));
    assert '/' !in stem;
    LastThree(stem)
  }

  /** Whatever precedes the last '/' does not matter to the segment. */
  lemma {:induction false} LastSegmentAfterSlash(dir: string, tail: string)
    requires '/' !in tail
    ensures LastSegment(dir + "/" + tail) == tail
  {
    var u := dir + "/" + tail;
    assert u[|dir|] == '/';
    assert u[|dir| + 1..] == tail;
    assert LastIndexOf(u, '/') == |dir|;
  }

  /** The stem of `name.ext` is `name`. */
  lemma {:induction false} StemBeforeDot(name: string, ext: string)
    requires '.' !in name
    ensures Stem(name + "." + ext) == name
  {
    var t := name + "." + ext;
    assert t[|name|] == '.';
    assert t[..|name|] == name;
    assert IndexOf(t, '.') == |name|;
  }

  /** For a local file `dir/name.ext` the icon text is (the last three
      characters of) the file name without its extension, whatever the
      directory holds. */
  lemma {:induction false} FileIconTextOfName(dir: string, name: string, ext: string)
    requires '/' !in name && '.' !in name && '/' !in ext
    ensures FileIconText(dir + "/" + name + "." + ext) == LastThree(name)
  {
    var tail := name + "." + ext;
    assert '/' !in tail by {
      forall i | 0 <= i < |tail| ensures tail[i] != '/' {
        if i < |name| { assert tail[i] == name[i]; }
        else if i > |name| { assert tail[i] == ext[i - |name| - 1]; }
      }
    }
    assert dir + "/" + name + "." + ext == dir + "/" + tail;
    LastSegmentAfterSlash(dir, tail);
    StemBeforeDot(name, ext);
  }

  /** `getBaseDomainFromHost(host)`: "localhost" for a missing host,
      otherwise what the lookup `baseDomain` gives. */
  function BaseDomain(host: Option<string>, baseDomain: string -> string): string {
    if !Truthy(host) then "localhost" else baseDomain(host.value)
  }

  /** The fallback text of `getFavicon`: None stands for the TypeError
      raised when the base domain is empty (its first character is
      undefined). */
  function IconText(cfg: RefConfig, baseDomain: string -> string): (r: Option<string>)
    requires Truthy(cfg.url)
    ensures StartsWith(cfg.url.value, "file://") ==> r == Some(FileIconText(cfg.url.value))
    ensures !StartsWith(cfg.url.value, "file://") ==>
              var d := BaseDomain(if Truthy(cfg.host) then cfg.host else cfg.title, baseDomain);
              (r.None? <==> d == "") && (r.Some? ==> r.value == [UpperChar(d[0])])
  {
    if StartsWith(cfg.url.value, "file://") then Some(FileIconText(cfg.url.value))
    else
      var d := BaseDomain(if Truthy(cfg.host) then cfg.host else cfg.title, baseDomain);
      if d == "" then None else Some([UpperChar(d[0])])
  }

  /** A web page without host or title gets "L" (from "localhost"),
      whatever the lookup does. */
  lemma {:induction false} IconTextWithoutHost(cfg: RefConfig, baseDomain: string -> string)
    requires Truthy(cfg.url) && !StartsWith(cfg.url.value, "file://")
    requires !Truthy(cfg.host) && !Truthy(cfg.title)
    ensures IconText(cfg, baseDomain) == Some("L")
  {
    assert BaseDomain(cfg.title, baseDomain) == "localhost";
  }

  /** The guard of `imgToBase64`: an icon that already is a base64 PNG data
      URL is handed back unchanged, at once. */
  predicate ImgShortCircuit(icon: Option<string>) {
    Truthy(icon) && StartsWith(icon.value, "data:image/png;base64")
  }

  /** `imgToBase64(url, …)`'s immediate answer: the URL itself when the
      guard holds, otherwise nothing yet (the image is loaded and drawn
      later). */
  function ImmediateImage(icon: Option<string>): (r: Option<string>)
    ensures r.Some? <==> ImgShortCircuit(icon)
    ensures r.Some? ==> r == icon
  {
    if ImgShortCircuit(icon) then icon else None
  }

  /** What `addReference` comes to. */
  datatype AddOutcome =
    | Rejected
      /** The merge happened; the favicon text raised a TypeError. */
    | Threw(refs: map<string, Ref>)
      /** The merge happened and true was returned; `icon` is the image the
          completion already delivered (None: it is still pending). */
    | Added(merge: Merge, icon: Option<string>)

  /** `addReference(el, cfg, cb)` including the favicon step; a delivered
      image is already stored in the reference. */
  function AddReference(refs: map<string, Ref>, cfg: RefConfig, baseDomain: string -> string)
    : (r: AddOutcome)
    ensures r.Rejected? <==> !Truthy(cfg.url)
    ensures r.Threw? ==> r.refs == MergeReference(refs, cfg).value.refs
    ensures r.Added? ==> r.icon == ImmediateImage(MergeReference(refs, cfg).value.cfg.icon)
    ensures r.Added? && r.icon.None? ==> r.merge == MergeReference(refs, cfg).value
  {
    match MergeReference(refs, cfg)
    case None => Rejected
    case Some(m) =>
      if IconText(m.cfg, baseDomain).None? then Threw(m.refs)
      else
        var img := ImmediateImage(m.cfg.icon);
        if img.Some? then Added(m.(refs := CompleteIcon(m.refs, cfg.url.value, img.value)), img)
        else Added(m, None)
  }

  /** The favicon completion: `ref.icon = img_data` on the entry of the
      URL, if it is still there. */
  function CompleteIcon(refs: map<string, Ref>, url: string, data: string): (r: map<string, Ref>)
    ensures r.Keys == refs.Keys
    ensures url in refs ==> r[url] == refs[url].(icon := Some(data))
    ensures forall u :: u in refs && u != url ==> r[u] == refs[u]
  {
    if url in refs then refs[url := refs[url].(icon := Some(data))] else refs
  }

  /** A short-circuited icon is already the stored icon, so delivering it
      changes nothing. */
  lemma {:induction false} ShortCircuitIconIsStored(refs: map<string, Ref>, cfg: RefConfig, baseDomain: string -> string)
    requires Truthy(cfg.url) && ImgShortCircuit(cfg.icon)
    requires AddReference(refs, cfg, baseDomain).Added?
    ensures AddReference(refs, cfg, baseDomain).merge == MergeReference(refs, cfg).value
  {
    MergeReferenceRules(refs, cfg);
  }
}
