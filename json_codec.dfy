/** The JSON conversions of the relay (`to_json` / `from_json`): Qt's
    `QJsonValue` as a datatype, the integer geometry encodings and the
    tolerant decoders that fall back to a default value.

    Parsing JSON text (`QJsonDocument::fromJson`) is outside the model: its
    outcome is an input. Conversions that Qt performs through `QVariant`
    and are not part of this repository (number-to-text, string-to-number,
    URL and colour parsing) are function parameters. */
module JsonCodec {
  import opened Common
  import opened QtGeometry

  /** `QJsonValue`: JSON numbers are doubles, here exact reals; an object
      is keyed by its member names. */
  datatype Json =
    | JUndefined
    | JNull
    | JBool(b: bool)
    | JNum(n: real)
    | JStr(s: string)
    | JArr(items: seq<Json>)
    | JObj(members: map<string, Json>)

  /** `QJsonValue::toInt(def)`: a number with an integral value in the
      32-bit range, otherwise `def`. */
  function ToInt(v: Json, def: int): (r: int)
    ensures v.JNum? && v.n == v.n.Floor as real && InInt32(v.n.Floor) ==> r == v.n.Floor
    ensures !v.JNum? ==> r == def
    ensures v.JNum? && (v.n != v.n.Floor as real || !InInt32(v.n.Floor)) ==> r == def
    ensures InInt32(def) ==> InInt32(r)
  {
    if v.JNum? && v.n == v.n.Floor as real && InInt32(v.n.Floor) then v.n.Floor else def
  }

  /** `QJsonValue::toString()`: the string of a string value, otherwise the
      empty string. */
  function ToStr(v: Json): (r: string)
    ensures v.JStr? ==> r == v.s
    ensures !v.JStr? ==> r == ""
  {
    if v.JStr? then v.s else ""
  }

  function Num(n: int): Json { JNum(n as real) }

  /** An integer encoded as a JSON number decodes to itself when it fits
      32 bits. */
  lemma {:induction false} ToIntOfNum(n: int, def: int)
    requires InInt32(n)
    ensures ToInt(Num(n), def) == n
  {
    assert (n as real).Floor == n;
  }

  // ---- encoders (JSON.cxx:38-61) ----

  /** `to_json(QPoint)`. */
  function PointToJson(p: Point): (r: Json)
    ensures r.JArr? && |r.items| == 2
  {
    JArr([Num(p.x), Num(p.y)])
  }

  /** `to_json(QSize)`: encoded as the point (width, height). */
  function SizeToJson(s: Size): (r: Json)
    ensures r == PointToJson(Point(s.w, s.h))
  {
    PointToJson(Point(s.w, s.h))
  }

  /** `to_json(QRect)`: `[left, top, width, height]`. */
  function RectToJson(r: Rect): (j: Json)
    ensures j.JArr? && |j.items| == 4
  {
    JArr([Num(r.Left()), Num(r.Top()), Num(r.Width()), Num(r.Height())])
  }

  // ---- decoders (JSON.cxx:70-270) ----

  /** `from_json<QSize>`: an array of two entries, each read with
      `toInt(-1)`; anything else gives `def`. */
  function SizeFromJson(v: Json, def: Size): (r: Size)
    ensures !(v.JArr? && |v.items| == 2) ==> r == def
  {
    if v.JArr? && |v.items| == 2 then Size(ToInt(v.items[0], -1), ToInt(v.items[1], -1))
    else def
  }

  /** `from_json<QRect>`: an array of four entries `x, y, w, h`, each read
      with `toInt(-1)`; anything else gives `def`. */
  function RectFromJson(v: Json, def: Rect): (r: Rect)
    ensures !(v.JArr? && |v.items| == 4) ==> r == def
  {
    if v.JArr? && |v.items| == 4 then
      FromXYWH(ToInt(v.items[0], -1), ToInt(v.items[1], -1), ToInt(v.items[2], -1), ToInt(v.items[3], -1))
    else def
  }

  /** A rectangle whose left, top, width and height fit 32 bits survives the
      round trip through its JSON encoding. */
  lemma {:induction false} RectRoundTrip(r: Rect, def: Rect)
    requires InInt32(r.Left()) && InInt32(r.Top()) && InInt32(r.Width()) && InInt32(r.Height())
    ensures RectFromJson(RectToJson(r), def) == r
  {
    ToIntOfNum(r.Left(), -1);
    ToIntOfNum(r.Top(), -1);
    ToIntOfNum(r.Width(), -1);
    ToIntOfNum(r.Height(), -1);
  }

  /** The same round trip for sizes. */
  lemma {:induction false} SizeRoundTrip(s: Size, def: Size)
    requires InInt32(s.w) && InInt32(s.h)
    ensures SizeFromJson(SizeToJson(s), def) == s
  {
    ToIntOfNum(s.w, -1);
    ToIntOfNum(s.h, -1);
  }

  /** A four-entry array none of whose entries is an integral 32-bit
      number (a string, a fraction, a number out of range, ...) decodes to
      the rectangle with every coordinate read as -1. */
  lemma {:induction false} RectFromNonIntegers(items: seq<Json>, def: Rect)
    requires |items| == 4
    requires forall i :: 0 <= i < 4 ==>
               !(items[i].JNum? && items[i].n == items[i].n.Floor as real && InInt32(items[i].n.Floor))
    ensures RectFromJson(JArr(items), def) == FromXYWH(-1, -1, -1, -1)
  {
  }

  /** `QVariant::toString()` of `val.toVariant()`: strings as they are,
      booleans as "true"/"false", numbers through `numText`, everything
      else (null, arrays, objects) as the empty string. */
  function VariantText(v: Json, numText: real -> string): string {
    match v
    case JStr(s) => s
    case JBool(b) => if b then "true" else "false"
    case JNum(n) => numText(n)
    case _ => ""
  }

  /** `from_json<QString>`: the default only for an undefined value. */
  function StringFromJson(v: Json, def: string, numText: real -> string): (r: string)
    ensures v.JUndefined? ==> r == def
    ensures v.JStr? ==> r == v.s
    ensures v.JNull? || v.JArr? || v.JObj? ==> r == ""
  {
    if v.JUndefined? then def else VariantText(v, numText)
  }

  /** `from_json<QUrl>`: the string value, percent-decoded and parsed by
      `parseUrl` (None for an invalid URL, which gives `def`). */
  function UrlFromJson<U>(v: Json, def: U, parseUrl: string -> Option<U>): (r: U)
    ensures parseUrl(ToStr(v)).None? ==> r == def
    ensures parseUrl(ToStr(v)).Some? ==> r == parseUrl(ToStr(v)).value
  {
    match parseUrl(ToStr(v))
    case None => def
    case Some(u) => u
  }

  /** `from_json<bool>`: an undefined or null value (no valid variant) gives
      `def`; otherwise `QVariant::toBool`: a boolean as it is, a number when
      non-zero, a string unless it is empty, "0" or "false" (any case), and
      false for arrays and objects. */
  function BoolFromJson(v: Json, def: bool): (r: bool)
    ensures v.JUndefined? || v.JNull? ==> r == def
    ensures v.JBool? ==> r == v.b
  {
    match v
    case JUndefined => def
    case JNull => def
    case JBool(b) => b
    case JNum(n) => n != 0.0
    case JStr(s) => !(s == "" || s == "0" || ToLower(s) == "false")
    case _ => false
  }

  /** The integer decoders (`quintptr`, `int32_t`, `uint32_t`, `uint64_t`):
      `conv` is the corresponding `QVariant` conversion, None when it
      reports failure, which gives `def`. */
  function IntegerFromJson(v: Json, def: int, conv: Json -> Option<int>): (r: int)
    ensures conv(v).None? ==> r == def
    ensures conv(v).Some? ==> r == conv(v).value
  {
    match conv(v)
    case None => def
    case Some(n) => n
  }

  /** `from_json<QVariantList>`: the entries of an array, otherwise `def`. */
  function VariantListFromJson(v: Json, def: seq<Json>): (r: seq<Json>)
    ensures !v.JArr? ==> r == def
    ensures v.JArr? ==> r == v.items
  {
    if v.JArr? then v.items else def
  }

  /** The string of each array entry (`toString()`), in order. */
  function EntryStrings(items: seq<Json>): (r: seq<string>)
    ensures |r| == |items|
    ensures forall i :: 0 <= i < |items| ==> r[i] == ToStr(items[i])
  {
    if |items| == 0 then [] else [ToStr(items[0])] + EntryStrings(items[1..])
  }

  /** `from_json<QStringList>`: one string per array entry (empty for
      non-strings), otherwise `def`. */
  function StringListFromJson(v: Json, def: seq<string>): (r: seq<string>)
    ensures !v.JArr? ==> r == def
    ensures v.JArr? ==> |r| == |v.items|
  {
    if v.JArr? then EntryStrings(v.items) else def
  }

  /** `from_json<QSet<QString>>`: the set of the entries' strings,
      otherwise `def`. */
  function StringSetFromJson(v: Json, def: set<string>): (r: set<string>)
    ensures !v.JArr? ==> r == def
    ensures v.JArr? ==> forall s :: s in r <==> exists i :: 0 <= i < |v.items| && ToStr(v.items[i]) == s
  {
    if v.JArr? then
      var l := EntryStrings(v.items);
      assert forall s :: s in l <==> exists i :: 0 <= i < |v.items| && ToStr(v.items[i]) == s by {
        forall s | s in l ensures exists i :: 0 <= i < |v.items| && ToStr(v.items[i]) == s {
          var i :| 0 <= i < |l| && l[i] == s;
          assert ToStr(v.items[i]) == s;
        }
      }
      set s | s in l
    else def
  }

  /** The set and the list decoders agree: the set holds exactly the
      members of the list. */
  lemma {:induction false} StringSetIsListMembers(v: Json, defList: seq<string>, defSet: set<string>)
    requires v.JArr?
    ensures forall s :: s in StringSetFromJson(v, defSet) <==> s in StringListFromJson(v, defList)
  {
    var l := StringListFromJson(v, defList);
    forall s | s in l ensures s in StringSetFromJson(v, defSet) {
      var i :| 0 <= i < |l| && l[i] == s;
      assert ToStr(v.items[i]) == s;
    }
    forall s | s in StringSetFromJson(v, defSet) ensures s in l {
      var i :| 0 <= i < |v.items| && ToStr(v.items[i]) == s;
      assert l[i] == s;
    }
  }

  /** `QJsonValue::toObject()`: the members of an object, otherwise none. */
  function ToObject(v: Json): map<string, Json> {
    if v.JObj? then v.members else map[]
  }

  /** `from_json<PropertyObjectMap>`: for an object, each member becomes the
      member map of its value (empty for non-objects); otherwise `def`. */
  function PropertyObjectMapFromJson(v: Json, def: map<string, map<string, Json>>)
    : (r: map<string, map<string, Json>>)
    ensures !v.JObj? ==> r == def
    ensures v.JObj? ==> r.Keys == v.members.Keys
                        && forall k :: k in r ==> r[k] == ToObject(v.members[k])
  {
    if v.JObj? then map k | k in v.members :: ToObject(v.members[k]) else def
  }

  /** `from_json<QColor>`: the text as read by `from_json<QString>` (with the
      empty default); empty text gives `def`, any other text is handed to
      `QColor(text)`, here `color`. */
  function ColorFromJson<C>(v: Json, def: C, numText: real -> string, color: string -> C): (r: C)
    ensures StringFromJson(v, "", numText) == "" ==> r == def
    ensures v.JUndefined? || v.JNull? ==> r == def
  {
    var text := StringFromJson(v, "", numText);
    if text == "" then def else color(text)
  }

  /** `parseJson(msg)`: the object of a document that parsed as an object,
      otherwise an empty object. `parsed` is the outcome of parsing `msg`
      (None on a parse error). */
  function ParseJson(parsed: Option<Json>): (r: map<string, Json>)
    ensures parsed.Some? && parsed.value.JObj? ==> r == parsed.value.members
    ensures !(parsed.Some? && parsed.value.JObj?) ==> r == map[]
  {
    if parsed.Some? && parsed.value.JObj? then parsed.value.members else map[]
  }

  // ---- container encoders (JSON.hpp:25-66) ----

  /** `to_json(QMap<QString, V>)`: one member per key. */
  function StringMapToJson<V>(m: map<string, V>, conv: V -> Json): (r: map<string, Json>)
    ensures r.Keys == m.Keys
    ensures forall k :: k in m ==> r[k] == conv(m[k])
  {
    map k | k in m :: conv(m[k])
  }

  /** `to_json(QMap<QUrl, V>)`: the entries in the map's key order, each
      stored under the URL's text; when two URLs have the same text the
      later entry overwrites the earlier. */
  function UrlMapToJson<U, V>(entries: seq<(U, V)>, urlText: U -> string, conv: V -> Json)
    : (r: map<string, Json>)
    ensures forall k :: k in r <==> exists i :: 0 <= i < |entries| && urlText(entries[i].0) == k
  {
    if |entries| == 0 then map[]
    else
      var init := entries[..|entries| - 1];
      var last := entries[|entries| - 1];
      var r := UrlMapToJson(init, urlText, conv)[urlText(last.0) := conv(last.1)];
      assert forall k :: k in r <==> exists i :: 0 <= i < |entries| && urlText(entries[i].0) == k by {
        forall k | k in r ensures exists i :: 0 <= i < |entries| && urlText(entries[i].0) == k {
          if k != urlText(last.0) {
            var i :| 0 <= i < |init| && urlText(init[i].0) == k;
            assert entries[i] == init[i];
          }
        }
        forall k | exists i :: 0 <= i < |entries| && urlText(entries[i].0) == k ensures k in r {
          var i :| 0 <= i < |entries| && urlText(entries[i].0) == k;
          if i < |init| {
            assert init[i] == entries[i];
          }
        }
      }
      r
  }

  /** Each member holds the value of the last entry whose URL has that text. */
  lemma {:induction false} UrlMapLastWins<U, V>(entries: seq<(U, V)>, urlText: U -> string,
                                               conv: V -> Json, i: nat)
    requires i < |entries|
    requires forall j :: i < j < |entries| ==> urlText(entries[j].0) != urlText(entries[i].0)
    ensures UrlMapToJson(entries, urlText, conv)[urlText(entries[i].0)] == conv(entries[i].1)
    decreases |entries|
  {
    if i < |entries| - 1 {
      var init := entries[..|entries| - 1];
      assert init[i] == entries[i];
      UrlMapLastWins(init, urlText, conv, i);
    }
  }

  /** One entry of `to_json(QMap<QPair<QString, QString>, V>)`: the object
      `conv(value)` with the member `"nodes"` set to `[first, second]`. */
  function PairEntryToJson<V>(e: ((string, string), V), conv: V -> map<string, Json>): (r: Json)
    ensures r.JObj? && r.members.Keys == conv(e.1).Keys + {"nodes"}
    ensures r.members["nodes"] == JArr([JStr(e.0.0), JStr(e.0.1)])
    ensures forall k :: k in conv(e.1) && k != "nodes" ==> r.members[k] == conv(e.1)[k]
  {
    JObj(conv(e.1)["nodes" := JArr([JStr(e.0.0), JStr(e.0.1)])])
  }

  /** `to_json(QMap<QPair<QString, QString>, V>)`: one array entry per key,
      in key order. */
  function PairMapToJson<V>(entries: seq<((string, string), V)>, conv: V -> map<string, Json>)
    : (r: seq<Json>)
    ensures |r| == |entries|
    ensures forall i :: 0 <= i < |entries| ==> r[i] == PairEntryToJson(entries[i], conv)
  {
    if |entries| == 0 then []
    else [PairEntryToJson(entries[0], conv)] + PairMapToJson(entries[1..], conv)
  }

  /** `to_json(QSet<V>)`: one array element per member, in the set's
      iteration order `members`. */
  function SetToJson<V>(members: seq<V>, conv: V -> Json): (r: seq<Json>)
    ensures |r| == |members|
    ensures forall i :: 0 <= i < |members| ==> r[i] == conv(members[i])
  {
    if |members| == 0 then [] else [conv(members[0])] + SetToJson(members[1..], conv)
  }

  /** Every member of the set has its element in the array, and the array
      is exactly as long as the set is large. */
  lemma {:induction false} SetToJsonCoversMembers<V>(members: seq<V>, conv: V -> Json)
    requires Distinct(members)
    ensures |SetToJson(members, conv)| == |set v | v in members|
    ensures forall v :: v in members ==> conv(v) in SetToJson(members, conv)
  {
    DistinctCardinality(members);
    forall v | v in members ensures conv(v) in SetToJson(members, conv) {
      var i :| 0 <= i < |members| && members[i] == v;
      assert SetToJson(members, conv)[i] == conv(v);
    }
  }

  lemma {:induction false} DistinctCardinality<V>(s: seq<V>)
    requires Distinct(s)
    ensures |set v | v in s| == |s|
    decreases |s|
  {
    if |s| > 0 {
      var rest := s[1..];
      assert Distinct(rest);
      DistinctCardinality(rest);
      assert (set v | v in s) == (set v | v in rest) + {s[0]};
      assert s[0] !in rest;
    }
  }
}
