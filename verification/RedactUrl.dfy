/**
 * Redaction of sensitive query values in a url, and what it means for a reader
 * that parses the query as `URLSearchParams` does. The sensitive names are a
 * parameter.
 */
module RedactUrl {
  import opened Optional
  import opened Text
  import opened FormDecoding
  import opened Redaction

  /** Names are plain: none has a percent sign or a replacement character in it. */
  predicate NamesOk(names: set<string>) {
    forall n :: n in names ==> !Spoiled(n)
  }

  function PlusToSpace(s: string): (r: string)
    ensures |r| == |s|
    ensures forall i :: 0 <= i < |s| ==> r[i] == if s[i] == '+' then ' ' else s[i]
  {
    if s == "" then "" else [if s[0] == '+' then ' ' else s[0]] + PlusToSpace(s[1..])
  }

  // ----- The code -----

  function DecodeQueryKey(rawKey: string): string {
    Strict(PlusToSpace(rawKey)).GetOr(rawKey)
  }

  function RedactQueryPart(part: string, names: set<string>): string {
    var (rawKey, rawValue) := Cut(part, '=');
    if rawValue.None? || rawValue.value == "" || rawValue.value == MARKER then part
    else if DecodeQueryKey(rawKey) !in names then part
    else rawKey + "=" + MARKER
  }

  function RedactParts(parts: seq<string>, names: set<string>): (r: seq<string>)
    ensures |r| == |parts|
    ensures forall i :: 0 <= i < |parts| ==> r[i] == RedactQueryPart(parts[i], names)
  {
    if parts == [] then []
    else RedactParts(parts[..|parts| - 1], names) + [RedactQueryPart(parts[|parts| - 1], names)]
  }

  /** A fragment starts at the first `#`, a query at the first `?` before it. */
  datatype Url = Url(base: string, query: Option<string>, fragment: Option<string>)

  function Parse(url: string): Url {
    var (beforeHash, fragment) := Cut(url, '#');
    var (base, query) := Cut(beforeHash, '?');
    Url(base, query, fragment)
  }

  function Hash(fragment: Option<string>): string {
    if fragment.None? then "" else "#" + fragment.value
  }

  function RedactAnalyticsUrl(url: string, names: set<string>): string {
    var u := Parse(url);
    if u.query.None? then url
    else
      var parts := Split(u.query.value, '&');
      var rewritten := RedactParts(parts, names);
      if rewritten == parts then url
      else u.base + "?" + Join(rewritten, '&') + Hash(u.fragment)
  }

  // ----- The reader -----

  datatype Pair = Pair(name: string, value: string)

  function Read(s: string): string {
    Lenient(PlusToSpace(s))
  }

  function ReadPart(part: string): Pair {
    var (name, value) := Cut(part, '=');
    Pair(Read(name), Read(value.GetOr("")))
  }

  /** Empty parts are no pairs; a part without `=` has the empty value. */
  function ReadParts(parts: seq<string>): seq<Pair> {
    if parts == [] then []
    else (if parts[0] == "" then [] else [ReadPart(parts[0])]) + ReadParts(parts[1..])
  }

  /** The pairs `URLSearchParams` finds in a url's query. */
  function SearchParams(url: string): seq<Pair> {
    var u := Parse(url);
    if u.query.None? then [] else ReadParts(Split(u.query.value, '&'))
  }

  lemma {:induction false} ReadPartsConcat(a: seq<string>, b: seq<string>)
    ensures ReadParts(a + b) == ReadParts(a) + ReadParts(b)
  {
    if a == [] {
      assert a + b == b;
    } else {
      assert (a + b)[1..] == a[1..] + b && (a + b)[0] == a[0];
      ReadPartsConcat(a[1..], b);
      var first := if a[0] == "" then [] else [ReadPart(a[0])];
      Regrouped(first, ReadParts(a[1..]), ReadParts(b));
    }
  }

  lemma Regrouped(a: seq<Pair>, b: seq<Pair>, c: seq<Pair>)
    ensures a + (b + c) == (a + b) + c
  {
  }

  /** The text of one part. */
  function PartText(raw: Pair): string {
    raw.name + "=" + raw.value
  }

  function Query(raws: seq<Pair>): (r: seq<string>)
    ensures |r| == |raws| && forall i :: 0 <= i < |raws| ==> r[i] == PartText(raws[i])
  {
    if raws == [] then [] else Query(raws[..|raws| - 1]) + [PartText(raws[|raws| - 1])]
  }

  lemma ReadOne(raw: Pair)
    requires '=' !in raw.name
    ensures ReadParts([PartText(raw)]) == [DecodedPair(raw)]
  {
    CutAt(raw.name, raw.value, '=');
    assert PartText(raw) == raw.name + ['='] + raw.value;
    assert [PartText(raw)][1..] == [];
  }

  function Decoded(raws: seq<Pair>): (r: seq<Pair>)
    ensures |r| == |raws|
    ensures forall i :: 0 <= i < |raws| ==> r[i] == DecodedPair(raws[i])
  {
    if raws == [] then [] else Decoded(raws[..|raws| - 1]) + [DecodedPair(raws[|raws| - 1])]
  }

  function DecodedPair(raw: Pair): Pair {
    Pair(Read(raw.name), Read(raw.value))
  }

  lemma {:induction false} ReadQuery(raws: seq<Pair>)
    requires forall raw :: raw in raws ==> '=' !in raw.name
    ensures ReadParts(Query(raws)) == Decoded(raws)
    decreases |raws|
  {
    if raws != [] {
      var front, last := raws[..|raws| - 1], raws[|raws| - 1];
      ReadQuery(front);
      assert last in raws;
      ReadOne(last);
      ReadPartsConcat(Query(front), [PartText(last)]);
    }
  }

  /** The reader finds a query's pairs, each decoded, in their order. */
  lemma ReaderFindsThePairs(base: string, raws: seq<Pair>, fragment: Option<string>)
    requires '#' !in base && '?' !in base && raws != []
    requires forall raw :: raw in raws ==>
      '=' !in raw.name && '&' !in PartText(raw) && '#' !in PartText(raw)
    ensures var found := SearchParams(base + "?" + Join(Query(raws), '&') + Hash(fragment));
      && |found| == |raws|
      && forall i :: 0 <= i < |raws| ==> found[i] == Pair(Read(raws[i].name), Read(raws[i].value))
  {
    forall part | part in Query(raws) ensures '&' !in part && '#' !in part {
      var i :| 0 <= i < |raws| && Query(raws)[i] == part;
      assert raws[i] in raws;
    }
    JoinKeepsOut(Query(raws), '&', '#');
    SplitJoin(Query(raws), '&');
    ParsePrinted(base, Join(Query(raws), '&'), fragment);
    ReadQuery(raws);
  }

  /** Empty parts are no pairs, wherever they are. */
  lemma EmptyPartsAreSkipped(a: seq<string>, b: seq<string>)
    ensures ReadParts(a + [""] + b) == ReadParts(a + b)
  {
    ReadPartsConcat(a + [""], b);
    ReadPartsConcat(a, [""]);
    ReadPartsConcat(a, b);
    ReadNothing();
    assert ReadParts(a) + [] == ReadParts(a);
  }

  lemma ReadNothing()
    ensures ReadParts([""]) == []
  {
    assert [""][1..] == [];
    assert ReadParts([]) == [];
  }

  function MaskPair(p: Pair, names: set<string>): Pair {
    if p.name in names && p.value != "" then p.(value := MARKER) else p
  }

  function MaskPairs(ps: seq<Pair>, names: set<string>): (r: seq<Pair>)
    ensures |r| == |ps|
    ensures forall i :: 0 <= i < |ps| ==> r[i] == MaskPair(ps[i], names)
  {
    if ps == [] then [] else [MaskPair(ps[0], names)] + MaskPairs(ps[1..], names)
  }

  // ----- One part -----

  /** The code's key test is the reader's, for every spelling of the key, malformed ones included. */
  lemma KeyTestIsTheReaders(rawKey: string, names: set<string>)
    requires NamesOk(names)
    ensures DecodeQueryKey(rawKey) in names <==> Read(rawKey) in names
  {
    var s := PlusToSpace(rawKey);
    StrictAgainstLenient(s);
    if Strict(s).None? {
      if '%' !in s {
        StrictWithoutPercent(s);
      }
      var i :| 0 <= i < |s| && s[i] == '%';
      assert rawKey[i] == '%';
    }
  }

  /**
   * A part is rewritten exactly when the reader gives it a sensitive name and its value
   * is neither empty nor the marker.
   */
  lemma RewrittenExactly(part: string, names: set<string>)
    requires NamesOk(names)
    ensures var (rawKey, rawValue) := Cut(part, '=');
      RedactQueryPart(part, names) ==
      if rawValue.Some? && rawValue.value != "" && rawValue.value != MARKER && Read(rawKey) in names then
        rawKey + "=" + MARKER
      else part
    ensures RedactQueryPart(part, names) != part <==>
      var (rawKey, rawValue) := Cut(part, '=');
      rawValue.Some? && rawValue.value != "" && rawValue.value != MARKER && Read(rawKey) in names
  {
    var (rawKey, rawValue) := Cut(part, '=');
    KeyTestIsTheReaders(rawKey, names);
    CutAt(rawKey, MARKER, '=');
    assert rawKey + ['='] + MARKER == rawKey + "=" + MARKER;
  }

  lemma ReadMarker()
    ensures Read(MARKER) == MARKER
  {
    assert '+' !in MARKER && '%' !in MARKER;
    PlainIsRead(MARKER);
  }

  lemma PlainIsRead(s: string)
    requires '+' !in s && '%' !in s
    ensures Read(s) == s
  {
    NoPlus(s);
    LenientPlain(s);
  }

  lemma {:induction false} NoPlus(s: string)
    requires '+' !in s
    ensures PlusToSpace(s) == s
  {
    if s != "" {
      NoPlus(s[1..]);
      assert s == [s[0]] + s[1..];
    }
  }

  /** What the reader finds in a rewritten part is the pair with its value masked. */
  lemma PartReadsMasked(part: string, names: set<string>)
    requires NamesOk(names)
    ensures ReadPart(RedactQueryPart(part, names)) == MaskPair(ReadPart(part), names)
    ensures part == "" <==> RedactQueryPart(part, names) == ""
  {
    RewrittenExactly(part, names);
    ReadMarker();
    var (rawKey, rawValue) := Cut(part, '=');
    LenientNonEmpty(PlusToSpace(rawValue.GetOr("")));
    CutAt(rawKey, MARKER, '=');
    assert rawKey + ['='] + MARKER == rawKey + "=" + MARKER;
  }

  lemma PartIdempotent(part: string, names: set<string>)
    ensures RedactQueryPart(RedactQueryPart(part, names), names) == RedactQueryPart(part, names)
  {
    var (rawKey, rawValue) := Cut(part, '=');
    CutAt(rawKey, MARKER, '=');
    assert rawKey + ['='] + MARKER == rawKey + "=" + MARKER;
  }

  lemma PartKeepsOut(part: string, names: set<string>, c: char)
    requires c !in part && c !in MARKER && c != '='
    ensures c !in RedactQueryPart(part, names)
  {
  }

  lemma {:induction false} PartsReadMasked(parts: seq<string>, names: set<string>)
    requires NamesOk(names)
    ensures ReadParts(RedactParts(parts, names)) == MaskPairs(ReadParts(parts), names)
  {
    if parts != [] {
      PartReadsMasked(parts[0], names);
      PartsReadMasked(parts[1..], names);
      RedactFirst(parts, names);
      ReadFirst(RedactQueryPart(parts[0], names), RedactParts(parts[1..], names));
      MaskFirst(parts[0], ReadParts(parts[1..]), names);
    }
  }

  lemma RedactFirst(parts: seq<string>, names: set<string>)
    requires parts != []
    ensures RedactParts(parts, names) == [RedactQueryPart(parts[0], names)] + RedactParts(parts[1..], names)
  {
  }

  lemma ReadFirst(part: string, rest: seq<string>)
    ensures ReadParts([part] + rest) == (if part == "" then [] else [ReadPart(part)]) + ReadParts(rest)
  {
    assert ([part] + rest)[1..] == rest;
  }

  lemma MaskFirst(part: string, rest: seq<Pair>, names: set<string>)
    ensures MaskPairs((if part == "" then [] else [ReadPart(part)]) + rest, names) ==
            (if part == "" then [] else [MaskPair(ReadPart(part), names)]) + MaskPairs(rest, names)
  {
    if part == "" {
      assert [] + rest == rest;
    } else {
      assert ([ReadPart(part)] + rest)[1..] == rest;
    }
  }

  // ----- The whole url -----

  lemma ParsePrinted(base: string, query: string, fragment: Option<string>)
    requires '#' !in base && '?' !in base && '#' !in query
    ensures Parse(base + "?" + query + Hash(fragment)) == Url(base, Some(query), fragment)
  {
    var before := base + ['?'] + query;
    CutAt(base, query, '?');
    if fragment.Some? {
      CutAt(before, fragment.value, '#');
      assert base + "?" + query + Hash(fragment) == before + ['#'] + fragment.value;
    } else {
      CutNone(before, '#');
      assert base + "?" + query + Hash(fragment) == before;
    }
  }

  lemma PrintParsed(url: string)
    ensures var u := Parse(url);
      && '#' !in u.base && '?' !in u.base && (u.query.Some? ==> '#' !in u.query.value)
      && url == u.base + (if u.query.None? then "" else "?" + u.query.value) + Hash(u.fragment)
  {
    var (beforeHash, fragment) := Cut(url, '#');
    var (base, query) := Cut(beforeHash, '?');
    CutBack(url, '#');
    CutBack(beforeHash, '?');
    assert url == beforeHash + Hash(fragment);
    assert beforeHash == base + if query.None? then "" else "?" + query.value;
  }

  /** The rewritten parts: what they parse to again. */
  lemma RewrittenParts(query: string, names: set<string>)
    requires '#' !in query
    ensures var rewritten := RedactParts(Split(query, '&'), names);
      '#' !in Join(rewritten, '&') && Split(Join(rewritten, '&'), '&') == rewritten
  {
    var parts := Split(query, '&');
    SplitParts(query, '&');
    PartsKeepOut(query, '&', '#');
    var rewritten := RedactParts(parts, names);
    forall p | p in rewritten ensures '&' !in p && '#' !in p {
      var i :| 0 <= i < |rewritten| && rewritten[i] == p;
      assert parts[i] in parts;
      PartKeepsOut(parts[i], names, '&');
      PartKeepsOut(parts[i], names, '#');
    }
    JoinKeepsOut(rewritten, '&', '#');
    SplitJoin(rewritten, '&');
  }

  // ----- Results -----

  /** Returning the input early is the same as always rebuilding the url. */
  lemma EarlyReturnIsRebuild(url: string, names: set<string>)
    ensures var u := Parse(url);
      RedactAnalyticsUrl(url, names) ==
      if u.query.None? then url
      else u.base + "?" + Join(RedactParts(Split(u.query.value, '&'), names), '&') + Hash(u.fragment)
  {
    var u := Parse(url);
    PrintParsed(url);
    if u.query.Some? {
      JoinSplit(u.query.value, '&');
    }
  }

  /** Base and fragment stay, and the query's parts are rewritten in place, one for one. */
  lemma StructureIsKept(url: string, names: set<string>)
    ensures var u, r := Parse(url), Parse(RedactAnalyticsUrl(url, names));
      && r.base == u.base && r.fragment == u.fragment && (r.query.Some? <==> u.query.Some?)
      && (u.query.Some? ==> Split(r.query.value, '&') == RedactParts(Split(u.query.value, '&'), names))
  {
    EarlyReturnIsRebuild(url, names);
    PrintParsed(url);
    var u := Parse(url);
    if u.query.Some? {
      RewrittenParts(u.query.value, names);
      ParsePrinted(u.base, Join(RedactParts(Split(u.query.value, '&'), names), '&'), u.fragment);
    }
  }

  /**
   * The meaning: what `URLSearchParams` reads from the redacted url is what it
   * reads from the original, in order and number, with every nonempty value of a
   * sensitive name replaced by the marker.
   */
  lemma ReadersSeeMaskedPairs(url: string, names: set<string>)
    requires NamesOk(names)
    ensures SearchParams(RedactAnalyticsUrl(url, names)) == MaskPairs(SearchParams(url), names)
  {
    StructureIsKept(url, names);
    var u := Parse(url);
    if u.query.Some? {
      PartsReadMasked(Split(u.query.value, '&'), names);
    }
  }

  /** So no reader finds a sensitive value in it. */
  lemma NothingSensitiveLeft(url: string, names: set<string>)
    requires NamesOk(names)
    ensures forall p :: p in SearchParams(RedactAnalyticsUrl(url, names)) && p.name in names ==>
      p.value == "" || p.value == MARKER
  {
    ReadersSeeMaskedPairs(url, names);
  }

  lemma RedactIdempotent(url: string, names: set<string>)
    ensures RedactAnalyticsUrl(RedactAnalyticsUrl(url, names), names) == RedactAnalyticsUrl(url, names)
  {
    StructureIsKept(url, names);
    var u := Parse(url);
    if u.query.Some? {
      var r := RedactAnalyticsUrl(url, names);
      PartsIdempotent(Split(u.query.value, '&'), names);
      assert RedactParts(Split(Parse(r).query.value, '&'), names) == Split(Parse(r).query.value, '&');
    }
  }

  lemma PartsIdempotent(parts: seq<string>, names: set<string>)
    ensures RedactParts(RedactParts(parts, names), names) == RedactParts(parts, names)
  {
    var once := RedactParts(parts, names);
    forall i | 0 <= i < |parts| ensures RedactParts(once, names)[i] == once[i] {
      PartIdempotent(parts[i], names);
    }
  }

  /** The url comes back as it was exactly when no part had anything to redact. */
  lemma UnchangedExactly(url: string, names: set<string>)
    requires NamesOk(names)
    ensures RedactAnalyticsUrl(url, names) == url <==>
      var u := Parse(url);
      u.query.None? || forall part :: part in Split(u.query.value, '&') ==> NothingToRedact(part, names)
  {
    StructureIsKept(url, names);
    var u := Parse(url);
    if u.query.Some? {
      PartsUnchangedExactly(Split(u.query.value, '&'), names);
    }
  }

  /** No value, an empty one, the marker, or a name that is not sensitive. */
  predicate NothingToRedact(part: string, names: set<string>) {
    var (rawKey, rawValue) := Cut(part, '=');
    rawValue.None? || rawValue.value == "" || rawValue.value == MARKER || Read(rawKey) !in names
  }

  lemma PartsUnchangedExactly(parts: seq<string>, names: set<string>)
    requires NamesOk(names)
    ensures RedactParts(parts, names) == parts <==> forall part :: part in parts ==> NothingToRedact(part, names)
  {
    forall i | 0 <= i < |parts| ensures RedactParts(parts, names)[i] == parts[i] <==> NothingToRedact(parts[i], names) {
      RewrittenExactly(parts[i], names);
    }
    if RedactParts(parts, names) == parts {
      forall part | part in parts ensures NothingToRedact(part, names) {
        var i :| 0 <= i < |parts| && parts[i] == part;
        assert RedactParts(parts, names)[i] == parts[i];
      }
    }
    if forall part :: part in parts ==> NothingToRedact(part, names) {
      assert forall i :: 0 <= i < |parts| ==> parts[i] in parts;
    }
  }
}
