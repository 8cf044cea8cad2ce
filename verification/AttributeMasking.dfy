/**
 * Masking of a recorded snapshot: the text of `title` and `aria-label`, and the
 * record ids in a link's hash route.
 */
module AttributeMasking {
  import opened Optional
  import opened Text
  import opened Json
  import opened Redaction

  // ----- Text -----

  /** What the `\s` of a JavaScript pattern matches. */
  predicate IsSpace(c: char) {
    var n := c as int;
    || 9 <= n <= 13 || n == 0x20 || n == 0xA0 || n == 0x1680 || 0x2000 <= n <= 0x200A
    || n in {0x2028, 0x2029, 0x202F, 0x205F, 0x3000, 0xFEFF}
  }

  /** `value.replace(/\S/g, "*")` */
  function MaskText(s: string): string {
    if s == "" then "" else [if IsSpace(s[0]) then s[0] else '*'] + MaskText(s[1..])
  }

  /** Length and white space stay where they are; everything else is a star. */
  lemma {:induction false} MaskTextAt(s: string)
    ensures |MaskText(s)| == |s|
    ensures forall i :: 0 <= i < |s| ==> MaskText(s)[i] == if IsSpace(s[i]) then s[i] else '*'
    ensures MaskText(MaskText(s)) == MaskText(s)
  {
    if s != "" {
      MaskTextAt(s[1..]);
      assert MaskText(s)[1..] == MaskText(s[1..]);
      forall i | 0 <= i < |s| ensures MaskText(s)[i] == if IsSpace(s[i]) then s[i] else '*' {
        if i > 0 {
          assert s[i] == s[1..][i - 1];
        }
      }
    }
  }

  /** The white space of JavaScript, which is what masking leaves readable. */
  const LOW_SPACES: set<int> := {9, 10, 11, 12, 13}
  const WIDE_SPACES: set<int> := {8192, 8193, 8194, 8195, 8196, 8197, 8198, 8199, 8200, 8201, 8202}
  const WHITE_SPACE: set<int> :=
    LOW_SPACES + WIDE_SPACES + {32, 160, 5760, 8232, 8233, 8239, 8287, 12288, 65279}

  /** Nothing is told of a text but its length and where its white space is. */
  lemma OnlyWhiteSpaceIsTold(s: string, i: nat)
    requires i < |s|
    ensures |MaskText(s)| == |s| && MaskText(s)[i] == if s[i] as int in WHITE_SPACE then s[i] else '*'
  {
    MaskTextAt(s);
    SpaceExactly(s[i]);
  }

  lemma SpaceExactly(c: char)
    ensures IsSpace(c) <==> c as int in WHITE_SPACE
  {
    var n := c as int;
    LowSpaces(n);
    WideSpaces(n);
  }

  lemma LowSpaces(n: int)
    ensures n in LOW_SPACES <==> 9 <= n <= 13
  {
  }

  lemma WideSpaces(n: int)
    ensures n in WIDE_SPACES <==> 0x2000 <= n <= 0x200A
  {
  }

  // ----- Record ids in routes -----

  /** A route pattern split on `/`, as `["", "sessions", ":id"]`. */
  type Route = seq<string>

  predicate IsParam(part: string) {
    part != "" && part[0] == ':'
  }

  predicate PartMatches(part: string, segment: string) {
    if IsParam(part) then segment != "" else part == segment
  }

  predicate RouteMatches(route: Route, segments: seq<string>) {
    |route| == |segments| && forall i :: 0 <= i < |route| ==> PartMatches(route[i], segments[i])
  }

  predicate NoneBefore(routes: seq<Route>, j: nat, segments: seq<string>)
    requires j <= |routes|
  {
    forall i :: 0 <= i < j ==> !RouteMatches(routes[i], segments)
  }

  /** The first route that matches. */
  function FindRoute(routes: seq<Route>, segments: seq<string>): (r: Option<Route>)
    ensures r.Some? ==> r.value in routes && RouteMatches(r.value, segments)
    ensures r.None? <==> forall route :: route in routes ==> !RouteMatches(route, segments)
    ensures r.Some? ==> exists j :: 0 <= j < |routes| && routes[j] == r.value && NoneBefore(routes, j, segments)
  {
    if routes == [] then None
    else if RouteMatches(routes[0], segments) then Some(routes[0])
    else FindRoute(routes[1..], segments)
  }

  function MaskSegments(route: Route, segments: seq<string>): (r: seq<string>)
    requires |route| == |segments|
    ensures |r| == |segments|
    ensures forall i :: 0 <= i < |segments| ==> r[i] == if IsParam(route[i]) then MARKER else segments[i]
  {
    if route == [] then []
    else [if IsParam(route[0]) then MARKER else segments[0]] + MaskSegments(route[1..], segments[1..])
  }

  /** The three groups of the hash-route pattern: up to the first `#`, up to a `?`, and the rest. */
  datatype HashHref = HashHref(beforePath: string, path: string, query: string)

  function ReadHashHref(href: string): Option<HashHref> {
    var (before, rest) := Cut(href, '#');
    if rest.None? then None
    else
      var (path, query) := Cut(rest.value, '?');
      Some(HashHref(before + "#", path, if query.None? then "" else "?" + query.value))
  }

  function PrintHashHref(h: HashHref): string {
    h.beforePath + h.path + h.query
  }

  function MaskRecordIdSegments(href: string, routes: seq<Route>): string {
    match ReadHashHref(href)
    case None => href
    case Some(h) =>
      var segments := Split(h.path, '/');
      match FindRoute(routes, segments)
      case None => href
      case Some(route) => PrintHashHref(h.(path := Join(MaskSegments(route, segments), '/')))
  }

  // ----- The walk -----

  function MaskAttribute(attributes: seq<Entry>, name: string, mask: string -> string): seq<Entry> {
    match Get(attributes, name)
    case Some(Str(s)) => Put(attributes, name, Str(mask(s)))
    case _ => attributes
  }

  function MaskNamedAttributes(attributes: seq<Entry>, routes: seq<Route>): seq<Entry> {
    var titled := MaskAttribute(attributes, "title", MaskText);
    var labelled := MaskAttribute(titled, "aria-label", MaskText);
    MaskAttribute(labelled, "href", s => MaskRecordIdSegments(s, routes))
  }

  function MaskAttributeValues(v: Json, routes: seq<Route>): Json
    decreases v
  {
    match v
    case Arr(items) => Arr(MaskItems(items, routes))
    case Obj(entries) =>
      Obj(MaskAttributesKey(MaskEntries(entries, routes), routes))
    case _ => v
  }

  function MaskAttributesKey(masked: seq<Entry>, routes: seq<Route>): seq<Entry> {
    match Get(masked, "attributes")
    case Some(Obj(attributes)) => Put(masked, "attributes", Obj(MaskNamedAttributes(attributes, routes)))
    case _ => masked
  }

  function MaskItems(items: seq<Json>, routes: seq<Route>): (r: seq<Json>)
    ensures |r| == |items|
    decreases items
  {
    if items == [] then []
    else MaskItems(items[..|items| - 1], routes) + [MaskAttributeValues(items[|items| - 1], routes)]
  }

  function MaskEntries(entries: seq<Entry>, routes: seq<Route>): (r: seq<Entry>)
    ensures |r| == |entries|
    decreases entries
  {
    if entries == [] then []
    else
      var last := entries[|entries| - 1];
      MaskEntries(entries[..|entries| - 1], routes) + [Entry(last.key, MaskAttributeValues(last.value, routes))]
  }

  lemma {:induction false} MaskItemAt(items: seq<Json>, routes: seq<Route>, i: nat)
    requires i < |items|
    ensures MaskItems(items, routes)[i] == MaskAttributeValues(items[i], routes)
    decreases |items|
  {
    if i < |items| - 1 {
      MaskItemAt(items[..|items| - 1], routes, i);
    }
  }

  lemma {:induction false} MaskEntryAt(entries: seq<Entry>, routes: seq<Route>, i: nat)
    requires i < |entries|
    ensures MaskEntries(entries, routes)[i] == Entry(entries[i].key, MaskAttributeValues(entries[i].value, routes))
    decreases |entries|
  {
    if i < |entries| - 1 {
      MaskEntryAt(entries[..|entries| - 1], routes, i);
    }
  }

  // ----- Routes: results -----

  lemma ReadPrinted(h: HashHref, beforeHash: string)
    requires h.beforePath == beforeHash + "#" && '#' !in beforeHash && '?' !in h.path
    requires h.query == "" || h.query[0] == '?'
    ensures ReadHashHref(PrintHashHref(h)) == Some(h)
  {
    var rest := h.path + h.query;
    assert PrintHashHref(h) == beforeHash + ['#'] + rest;
    CutAt(beforeHash, rest, '#');
    CutQuery(h.path, h.query);
  }

  lemma CutQuery(path: string, query: string)
    requires '?' !in path && (query == "" || query[0] == '?')
    ensures Cut(path + query, '?') == (path, if query == "" then None else Some(query[1..]))
    ensures query != "" ==> "?" + query[1..] == query
  {
    if query == "" {
      assert path + query == path;
      CutNone(path, '?');
    } else {
      assert path + query == path + ['?'] + query[1..];
      CutAt(path, query[1..], '?');
    }
  }

  lemma PrintRead(href: string)
    ensures ReadHashHref(href).Some? ==> PrintHashHref(ReadHashHref(href).value) == href
  {
    var (before, rest) := Cut(href, '#');
    CutBack(href, '#');
    if rest.Some? {
      var (path, query) := Cut(rest.value, '?');
      CutBack(rest.value, '?');
      Glued(before, path, if query.None? then "" else "?" + query.value);
    }
  }

  lemma Glued(before: string, path: string, query: string)
    ensures before + "#" + path + query == before + (['#'] + (path + query))
  {
  }

  /** No route spells the marker as a literal part. */
  predicate NoMarkerLiteral(routes: seq<Route>) {
    forall route :: route in routes ==> MARKER !in route
  }

  /** A path with its ids masked reads back as the masked segments. */
  lemma MaskedPath(path: string, route: Route)
    requires |route| == |Split(path, '/')| && '?' !in path
    ensures var masked := MaskSegments(route, Split(path, '/'));
      Split(Join(masked, '/'), '/') == masked && '?' !in Join(masked, '/')
  {
    var segments := Split(path, '/');
    var masked := MaskSegments(route, segments);
    SplitParts(path, '/');
    PartsKeepOut(path, '/', '?');
    forall i | 0 <= i < |masked| ensures '/' !in masked[i] && '?' !in masked[i] {
      assert segments[i] in segments;
    }
    JoinKeepsOut(masked, '/', '?');
    SplitJoin(masked, '/');
  }

  /** Writing a hash route with another path keeps what precedes and follows it. */
  lemma PathReplaced(href: string, path: string)
    ensures ReadHashHref(href).Some? && '?' !in path ==>
      var h := ReadHashHref(href).value;
      ReadHashHref(PrintHashHref(h.(path := path))) == Some(h.(path := path)) && '?' !in h.path
  {
    if ReadHashHref(href).Some? && '?' !in path {
      var (before, rest) := Cut(href, '#');
      var h := ReadHashHref(href).value;
      ReadPrinted(h.(path := path), before);
    }
  }

  /**
   * What masking does to a hash route: with the first matching route every id
   * segment becomes the marker; literal segments, what precedes the path, and the
   * query stay.
   */
  lemma MaskedRoute(href: string, routes: seq<Route>)
    ensures ReadHashHref(href).None? ==> MaskRecordIdSegments(href, routes) == href
    ensures ReadHashHref(href).Some? ==>
      var h := ReadHashHref(href).value;
      var segments := Split(h.path, '/');
      var masked := ReadHashHref(MaskRecordIdSegments(href, routes));
      && masked.Some? && masked.value.beforePath == h.beforePath && masked.value.query == h.query
      && Split(masked.value.path, '/') ==
           if FindRoute(routes, segments).None? then segments
           else MaskSegments(FindRoute(routes, segments).value, segments)
  {
    if ReadHashHref(href).Some? {
      var h := ReadHashHref(href).value;
      var route := FindRoute(routes, Split(h.path, '/'));
      if route.Some? {
        PathReplaced(href, "");
        MaskedPath(h.path, route.value);
        PathReplaced(href, Join(MaskSegments(route.value, Split(h.path, '/')), '/'));
      }
    }
  }

  /** A part that begins with a colon takes any segment that is not empty; every other one takes itself. */
  predicate Fits(route: seq<string>, segments: seq<string>) {
    && |route| == |segments|
    && forall i :: 0 <= i < |route| ==>
      if |route[i]| > 0 && route[i][0] == ':' then |segments[i]| > 0 else route[i] == segments[i]
  }

  /** The path has these segments but for the record ids, which are redacted. */
  predicate Hides(masked: string, route: seq<string>, segments: seq<string>)
    requires |route| == |segments|
  {
    && '?' !in masked && |Split(masked, '/')| == |segments|
    && forall i :: 0 <= i < |segments| ==>
      Split(masked, '/')[i] == if |route[i]| > 0 && route[i][0] == ':' then "[redacted]" else segments[i]
  }

  /** A link without a hash is recorded as it is. */
  lemma NoHash(href: string, routes: seq<Route>)
    requires '#' !in href
    ensures MaskRecordIdSegments(href, routes) == href
  {
    CutNone(href, '#');
  }

  /**
   * A link with one, read off its text: what precedes the route and the query stay;
   * the path loses the ids of the first route that fits it, or nothing if none does.
   */
  lemma HashRouteExactly(before: string, path: string, query: string, routes: seq<Route>) returns (masked: string)
    requires '#' !in before && '?' !in path && (query == "" || query[0] == '?')
    ensures MaskRecordIdSegments(before + "#" + path + query, routes) == before + "#" + masked + query
    ensures (forall route :: route in routes ==> !Fits(route, Split(path, '/'))) ==> masked == path
    ensures forall j ::
      0 <= j < |routes| && Fits(routes[j], Split(path, '/'))
      && (forall i :: 0 <= i < j ==> !Fits(routes[i], Split(path, '/'))) ==>
        Hides(masked, routes[j], Split(path, '/'))
  {
    var segments := Split(path, '/');
    ReadPrinted(HashHref(before + "#", path, query), before);
    match FindRoute(routes, segments)
    case None =>
      masked := path;
      forall route | route in routes ensures !Fits(route, segments) {
        FitsIsMatch(route, segments);
      }
    case Some(route) =>
      masked := Join(MaskSegments(route, segments), '/');
      FirstFit(routes, segments);
      RouteHides(path, route);
  }

  lemma RouteHides(path: string, route: Route)
    requires |route| == |Split(path, '/')| && '?' !in path
    ensures Hides(Join(MaskSegments(route, Split(path, '/')), '/'), route, Split(path, '/'))
  {
    MaskedPath(path, route);
  }

  /** The route found is the first that fits. */
  lemma FirstFit(routes: seq<Route>, segments: seq<string>)
    requires FindRoute(routes, segments).Some?
    ensures var route := FindRoute(routes, segments).value;
      && route in routes && Fits(route, segments)
      && forall j ::
        0 <= j < |routes| && Fits(routes[j], segments) && (forall i :: 0 <= i < j ==> !Fits(routes[i], segments)) ==>
          routes[j] == route
  {
    var route := FindRoute(routes, segments).value;
    forall r: Route ensures Fits(r, segments) <==> RouteMatches(r, segments) {
      FitsIsMatch(r, segments);
    }
    var k :| 0 <= k < |routes| && routes[k] == route && NoneBefore(routes, k, segments);
  }

  lemma FitsIsMatch(route: Route, segments: seq<string>)
    ensures Fits(route, segments) <==> RouteMatches(route, segments)
  {
    if Fits(route, segments) {
      forall i | 0 <= i < |route| ensures PartMatches(route[i], segments[i]) {
      }
    }
    if RouteMatches(route, segments) {
      forall i | 0 <= i < |route|
        ensures if |route[i]| > 0 && route[i][0] == ':' then |segments[i]| > 0 else route[i] == segments[i]
      {
        assert PartMatches(route[i], segments[i]);
      }
    }
  }

  /** A masked path is matched by the same route first, overlapping routes or not. */
  lemma {:induction false} SameRouteAgain(routes: seq<Route>, segments: seq<string>)
    requires NoMarkerLiteral(routes) && FindRoute(routes, segments).Some?
    ensures FindRoute(routes, MaskSegments(FindRoute(routes, segments).value, segments)) == FindRoute(routes, segments)
  {
    var route := FindRoute(routes, segments).value;
    var masked := MaskSegments(route, segments);
    var first := routes[0];
    assert first in routes;
    if RouteMatches(first, segments) {
      assert RouteMatches(first, masked);
    } else {
      if RouteMatches(first, masked) {
        forall i | 0 <= i < |first| ensures PartMatches(first[i], segments[i]) {
          assert PartMatches(first[i], masked[i]) && PartMatches(route[i], segments[i]);
          assert first[i] in first;
        }
        assert RouteMatches(first, segments);
      }
      SameRouteAgain(routes[1..], segments);
    }
  }

  lemma RouteMaskingIdempotent(href: string, routes: seq<Route>)
    requires NoMarkerLiteral(routes)
    ensures MaskRecordIdSegments(MaskRecordIdSegments(href, routes), routes) == MaskRecordIdSegments(href, routes)
  {
    MaskedRoute(href, routes);
    if ReadHashHref(href).Some? {
      var segments := Split(ReadHashHref(href).value.path, '/');
      if FindRoute(routes, segments).Some? {
        SameRouteAgain(routes, segments);
        MaskedPathStays(MaskRecordIdSegments(href, routes), routes, FindRoute(routes, segments).value, segments);
      }
    }
  }

  /** A route whose path already is masked stays. */
  lemma MaskedPathStays(href: string, routes: seq<Route>, route: Route, segments: seq<string>)
    requires ReadHashHref(href).Some? && |route| == |segments|
    requires Split(ReadHashHref(href).value.path, '/') == MaskSegments(route, segments)
    requires FindRoute(routes, MaskSegments(route, segments)) == Some(route)
    ensures MaskRecordIdSegments(href, routes) == href
  {
    var masked, h := MaskSegments(route, segments), ReadHashHref(href).value;
    MaskSegmentsTwice(route, segments);
    JoinSplit(h.path, '/');
    assert h.(path := Join(masked, '/')) == h;
    PrintRead(href);
  }

  lemma MaskSegmentsTwice(route: Route, segments: seq<string>)
    requires |route| == |segments|
    ensures MaskSegments(route, MaskSegments(route, segments)) == MaskSegments(route, segments)
  {
  }

  // ----- The walk: what becomes of the value at each path -----

  datatype Step = Index(i: nat) | Key(key: string)

  function Keys(entries: seq<Entry>): seq<string> {
    seq(|entries|, i requires 0 <= i < |entries| => entries[i].key)
  }

  function Child(v: Json, step: Step): Option<Json> {
    match (v, step)
    case (Arr(items), Index(i)) => if i < |items| then Some(items[i]) else None
    case (Obj(entries), Key(key)) => Get(entries, key)
    case _ => None
  }

  /** The value a path leads to. */
  function Lookup(v: Json, path: seq<Step>): Option<Json>
    decreases |path|
  {
    if path == [] then Some(v)
    else
      match Child(v, path[0])
      case None => None
      case Some(child) => Lookup(child, path[1..])
  }

  /** Whether a path ends in a key of an object that is itself an `attributes` value. */
  predicate IsAttribute(path: seq<Step>, name: string) {
    |path| >= 2 && path[|path| - 2] == Key("attributes") && path[|path| - 1] == Key(name)
  }

  /** What a string at this path is recorded as. */
  function RecordedAs(path: seq<Step>, s: string, routes: seq<Route>): string {
    if IsAttribute(path, "title") || IsAttribute(path, "aria-label") then MaskText(s)
    else if IsAttribute(path, "href") then MaskRecordIdSegments(s, routes)
    else s
  }

  predicate SameShape(v: Json, w: Json) {
    match (v, w)
    case (Arr(a), Arr(b)) => |a| == |b|
    case (Obj(a), Obj(b)) => Keys(a) == Keys(b)
    case (Str(_), Str(_)) => true
    case _ => v == w
  }

  /** What the walk leaves where `v` stood, `v` being at `path`. */
  function InPlace(path: seq<Step>, v: Json, routes: seq<Route>): Json {
    match v
    case Str(s) => Str(RecordedAs(path, s, routes))
    case Obj(_) =>
      var masked := MaskAttributeValues(v, routes);
      if path != [] && path[|path| - 1] == Key("attributes") && masked.Obj?
      then Obj(MaskNamedAttributes(masked.entries, routes)) else masked
    case _ => MaskAttributeValues(v, routes)
  }

  lemma {:induction false} GetMasked(entries: seq<Entry>, routes: seq<Route>, key: string)
    ensures Get(MaskEntries(entries, routes), key) ==
            if Get(entries, key).None? then None else Some(MaskAttributeValues(Get(entries, key).value, routes))
    decreases |entries|
  {
    if entries != [] {
      var front, last := entries[..|entries| - 1], entries[|entries| - 1];
      var masked := Entry(last.key, MaskAttributeValues(last.value, routes));
      GetMasked(front, routes, key);
      GetAppend(front, last, key);
      GetAppend(MaskEntries(front, routes), masked, key);
      assert front + [last] == entries && MaskEntries(entries, routes) == MaskEntries(front, routes) + [masked];
    }
  }

  lemma {:induction false} GetAppend(entries: seq<Entry>, last: Entry, key: string)
    ensures Get(entries + [last], key) ==
            if Get(entries, key).Some? then Get(entries, key) else if last.key == key then Some(last.value) else None
  {
    if entries != [] {
      assert (entries + [last])[1..] == entries[1..] + [last];
      GetAppend(entries[1..], last, key);
    }
  }

  /** An attribute with its string masked; anything else stays. */
  function MaskedString(v: Option<Json>, mask: string -> string): Option<Json> {
    if v.Some? && v.value.Str? then Some(Str(mask(v.value.s))) else v
  }

  lemma GetMaskAttribute(attributes: seq<Entry>, name: string, mask: string -> string, key: string)
    ensures Get(MaskAttribute(attributes, name, mask), key) ==
            if key == name then MaskedString(Get(attributes, key), mask) else Get(attributes, key)
    ensures Keys(MaskAttribute(attributes, name, mask)) == Keys(attributes)
  {
    match Get(attributes, name)
    case Some(Str(s)) =>
      GetPut(attributes, name, Str(mask(s)), key);
      var j := PutAt(attributes, name, Str(mask(s)));
    case _ =>
  }

  function NamedAs(key: string, s: string, routes: seq<Route>): string {
    if key == "title" || key == "aria-label" then MaskText(s)
    else if key == "href" then MaskRecordIdSegments(s, routes)
    else s
  }

  lemma GetMaskedName(attributes: seq<Entry>, routes: seq<Route>, key: string)
    ensures Get(MaskNamedAttributes(attributes, routes), key)
      == MaskedString(Get(attributes, key), s => NamedAs(key, s, routes))
    ensures Keys(MaskNamedAttributes(attributes, routes)) == Keys(attributes)
  {
    var titled := MaskAttribute(attributes, "title", MaskText);
    var labelled := MaskAttribute(titled, "aria-label", MaskText);
    GetMaskAttribute(attributes, "title", MaskText, key);
    GetMaskAttribute(titled, "aria-label", MaskText, key);
    GetMaskAttribute(labelled, "href", s => MaskRecordIdSegments(s, routes), key);
  }

  /** The names under `attributes` that are masked, and how. */
  lemma GetNamed(attributes: seq<Entry>, routes: seq<Route>, path: seq<Step>, key: string)
    requires path != [] && path[|path| - 1] == Key("attributes")
    ensures Get(MaskNamedAttributes(attributes, routes), key)
            == MaskedString(Get(attributes, key), s => RecordedAs(path + [Key(key)], s, routes))
    ensures Keys(MaskNamedAttributes(attributes, routes)) == Keys(attributes)
  {
    GetMaskedName(attributes, routes, key);
    var under := path + [Key(key)];
    assert forall name :: IsAttribute(under, name) <==> name == key;
  }

  /** The walk's own effect on an entry: a string is left for the enclosing `attributes`. */
  function Walked(v: Option<Json>, path: seq<Step>, routes: seq<Route>): Option<Json> {
    if v.None? || v.value.Str? then v else Some(InPlace(path, v.value, routes))
  }

  /** An object's own entries after the walk, named attributes of an enclosing `attributes` aside. */
  lemma GetWalked(entries: seq<Entry>, routes: seq<Route>, path: seq<Step>, key: string)
    ensures var masked := MaskAttributeValues(Obj(entries), routes);
      && masked.Obj? && Keys(masked.entries) == Keys(entries)
      && Get(masked.entries, key) == Walked(Get(entries, key), path + [Key(key)], routes)
  {
    var masked := MaskEntries(entries, routes);
    forall i | 0 <= i < |entries| ensures Keys(masked)[i] == Keys(entries)[i] {
      MaskEntryAt(entries, routes, i);
    }
    GetMasked(entries, routes, key);
    GetAttributesKey(masked, routes, key);
  }

  /** Masking what is under `attributes` changes the value there and no key. */
  lemma GetAttributesKey(masked: seq<Entry>, routes: seq<Route>, key: string)
    ensures var placed := MaskAttributesKey(masked, routes);
      && Keys(placed) == Keys(masked)
      && Get(placed, key) ==
         if key == "attributes" && Get(masked, key).Some? && Get(masked, key).value.Obj?
         then Some(Obj(MaskNamedAttributes(Get(masked, key).value.entries, routes)))
         else Get(masked, key)
  {
    match Get(masked, "attributes") {
      case Some(Obj(attributes)) =>
        var named := Obj(MaskNamedAttributes(attributes, routes));
        GetPut(masked, "attributes", named, key);
        var j := PutAt(masked, "attributes", named);
      case _ =>
    }
  }

  /** One step down the tree. */
  lemma ChildInPlace(path: seq<Step>, v: Json, routes: seq<Route>, step: Step)
    ensures SameShape(v, InPlace(path, v, routes))
    ensures Child(InPlace(path, v, routes), step) ==
            if Child(v, step).None? then None else Some(InPlace(path + [step], Child(v, step).value, routes))
  {
    if v.Arr? {
      if step.Index? && step.i < |v.items| {
        MaskItemAt(v.items, routes, step.i);
      }
    } else if v.Obj? {
      EntryInPlace(path, v.entries, routes, if step.Key? then step.key else "");
    }
  }

  lemma EntryInPlace(path: seq<Step>, entries: seq<Entry>, routes: seq<Route>, key: string)
    ensures var placed := InPlace(path, Obj(entries), routes);
      && placed.Obj? && Keys(placed.entries) == Keys(entries)
      && Get(placed.entries, key) ==
         if Get(entries, key).None? then None else Some(InPlace(path + [Key(key)], Get(entries, key).value, routes))
  {
    GetWalked(entries, routes, path, key);
    var under := path + [Key(key)];
    if path != [] && path[|path| - 1] == Key("attributes") {
      GetNamed(MaskAttributeValues(Obj(entries), routes).entries, routes, path, key);
    } else {
      assert forall name :: !IsAttribute(under, name);
    }
  }

  lemma {:induction false} LookupInPlace(prefix: seq<Step>, v: Json, routes: seq<Route>, path: seq<Step>)
    ensures Lookup(InPlace(prefix, v, routes), path) ==
            if Lookup(v, path).None? then None else Some(InPlace(prefix + path, Lookup(v, path).value, routes))
    decreases |path|
  {
    if path == [] {
      assert prefix + path == prefix;
    } else {
      ChildInPlace(prefix, v, routes, path[0]);
      match Child(v, path[0]) {
        case None =>
        case Some(child) =>
          LookupInPlace(prefix + [path[0]], child, routes, path[1..]);
          assert prefix + [path[0]] + path[1..] == prefix + path;
      }
    }
  }

  /**
   * What is recorded of any JSON value, path by path: the same paths, the same
   * shape and keys at each; a string changes only under `title`, `aria-label` or
   * `href` of an object under `attributes`, and anything that is neither a string
   * nor a container does not change.
   */
  lemma MaskedAtEveryPath(v: Json, routes: seq<Route>, path: seq<Step>)
    ensures var masked := MaskAttributeValues(v, routes);
      && (Lookup(masked, path).Some? <==> Lookup(v, path).Some?)
      && (Lookup(v, path).Some? ==>
        && SameShape(Lookup(v, path).value, Lookup(masked, path).value)
        && (Lookup(v, path).value.Str? ==>
              Lookup(masked, path).value == Str(RecordedAs(path, Lookup(v, path).value.s, routes))))
  {
    LookupInPlace([], v, routes, path);
    assert [] + path == path;
    if Lookup(v, path).Some? {
      ChildInPlace(path, Lookup(v, path).value, routes, Index(0));
    }
  }

  // ----- The walk: idempotence -----

  ghost predicate Stable(v: Json, routes: seq<Route>)
    decreases v
  {
    match v
    case Arr(items) => forall item :: item in items ==> Stable(item, routes)
    case Obj(entries) =>
      && (forall e :: e in entries ==> Stable(e.value, routes))
      && (match Get(entries, "attributes")
          case Some(Obj(attributes)) => MaskNamedAttributes(attributes, routes) == attributes
          case _ => true)
    case _ => true
  }

  lemma {:induction false} StableIsFixed(v: Json, routes: seq<Route>)
    requires Stable(v, routes)
    ensures MaskAttributeValues(v, routes) == v
    decreases v
  {
    match v {
      case Arr(items) =>
        forall i | 0 <= i < |items| ensures MaskItems(items, routes)[i] == items[i] {
          StableIsFixed(items[i], routes);
          MaskItemAt(items, routes, i);
        }
        assert MaskItems(items, routes) == items;
      case Obj(entries) =>
        forall i | 0 <= i < |entries| ensures MaskEntries(entries, routes)[i] == entries[i] {
          StableIsFixed(entries[i].value, routes);
          MaskEntryAt(entries, routes, i);
        }
        assert MaskEntries(entries, routes) == entries;
        match Get(entries, "attributes") {
          case Some(Obj(attributes)) => PutSame(entries, "attributes", Obj(attributes));
          case _ =>
        }
      case _ =>
    }
  }

  lemma MaskAttributeTwice(attributes: seq<Entry>, name: string, mask: string -> string)
    requires MaskedString(Get(attributes, name), mask) == Get(attributes, name)
    ensures MaskAttribute(attributes, name, mask) == attributes
  {
    match Get(attributes, name)
    case Some(Str(s)) => PutSame(attributes, name, Str(s));
    case _ =>
  }

  lemma NamedTextIsFixed(attributes: seq<Entry>, routes: seq<Route>, name: string)
    requires name == "title" || name == "aria-label"
    ensures var named := Get(MaskNamedAttributes(attributes, routes), name); MaskedString(named, MaskText) == named
  {
    GetMaskedName(attributes, routes, name);
    match Get(attributes, name) {
      case Some(Str(s)) => MaskTextAt(s);
      case _ =>
    }
  }

  lemma NamedHrefIsFixed(attributes: seq<Entry>, routes: seq<Route>)
    requires NoMarkerLiteral(routes)
    ensures var named := Get(MaskNamedAttributes(attributes, routes), "href");
      MaskedString(named, s => MaskRecordIdSegments(s, routes)) == named
  {
    GetMaskedName(attributes, routes, "href");
    match Get(attributes, "href") {
      case Some(Str(s)) => RouteMaskingIdempotent(s, routes);
      case _ =>
    }
  }

  lemma NamedTwice(attributes: seq<Entry>, routes: seq<Route>)
    requires NoMarkerLiteral(routes)
    ensures MaskNamedAttributes(MaskNamedAttributes(attributes, routes), routes)
      == MaskNamedAttributes(attributes, routes)
  {
    var named := MaskNamedAttributes(attributes, routes);
    NamedTextIsFixed(attributes, routes, "title");
    NamedTextIsFixed(attributes, routes, "aria-label");
    NamedHrefIsFixed(attributes, routes);
    MaskAttributeTwice(named, "title", MaskText);
    MaskAttributeTwice(named, "aria-label", MaskText);
    MaskAttributeTwice(named, "href", s => MaskRecordIdSegments(s, routes));
  }

  lemma NamedKeepsStable(attributes: seq<Entry>, routes: seq<Route>)
    requires Stable(Obj(attributes), routes)
    ensures Stable(Obj(MaskNamedAttributes(attributes, routes)), routes)
  {
    var titled := MaskAttribute(attributes, "title", MaskText);
    var labelled := MaskAttribute(titled, "aria-label", MaskText);
    StringsReplaced(attributes, "title", MaskText);
    StringsReplaced(titled, "aria-label", MaskText);
    StringsReplaced(labelled, "href", s => MaskRecordIdSegments(s, routes));
    GetNamed(attributes, routes, [Key("attributes")], "attributes");
  }

  lemma StringsReplaced(attributes: seq<Entry>, name: string, mask: string -> string)
    ensures forall e :: e in MaskAttribute(attributes, name, mask) ==> e in attributes || e.value.Str?
  {
    match Get(attributes, name)
    case Some(Str(s)) => PutKeys(attributes, name, Str(mask(s)));
    case _ =>
  }

  lemma {:induction false} MaskedIsStable(v: Json, routes: seq<Route>)
    requires NoMarkerLiteral(routes)
    ensures Stable(MaskAttributeValues(v, routes), routes)
    decreases v
  {
    match v {
      case Arr(items) =>
        forall i | 0 <= i < |items| ensures Stable(MaskItems(items, routes)[i], routes) {
          MaskedIsStable(items[i], routes);
          MaskItemAt(items, routes, i);
        }
      case Obj(entries) =>
        var masked := MaskEntries(entries, routes);
        forall i | 0 <= i < |entries| ensures Stable(masked[i].value, routes) {
          MaskedIsStable(entries[i].value, routes);
          MaskEntryAt(entries, routes, i);
        }
        AttributesStable(masked, routes);
      case _ =>
    }
  }

  lemma AttributesStable(masked: seq<Entry>, routes: seq<Route>)
    requires NoMarkerLiteral(routes) && forall i :: 0 <= i < |masked| ==> Stable(masked[i].value, routes)
    ensures Stable(Obj(MaskAttributesKey(masked, routes)), routes)
  {
    match Get(masked, "attributes") {
      case Some(Obj(attributes)) =>
        var named := MaskNamedAttributes(attributes, routes);
        GetIsEntry(masked, "attributes");
        NamedKeepsStable(attributes, routes);
        NamedTwice(attributes, routes);
        PutKeys(masked, "attributes", Obj(named));
        GetPut(masked, "attributes", Obj(named), "attributes");
      case _ =>
    }
  }

  /** Masking a masked recording changes nothing. */
  lemma MaskingIdempotent(v: Json, routes: seq<Route>)
    requires NoMarkerLiteral(routes)
    ensures MaskAttributeValues(MaskAttributeValues(v, routes), routes) == MaskAttributeValues(v, routes)
  {
    MaskedIsStable(v, routes);
    StableIsFixed(MaskAttributeValues(v, routes), routes);
  }
}
