/**
 * The content security policy of the local path: a caller's directives merged
 * into the defaults, printed as one header value. `before` is the order of
 * directive names that `localeCompare` gives.
 */
module CspPolicy {
  import opened Optional
  import opened Sequences
  import opened Text

  datatype Directive = Directive(name: string, sources: seq<string>)

  type Order = (string, string) -> bool

  const KEYWORDS: seq<string> :=
    ["none", "self", "strict-dynamic", "unsafe-eval", "unsafe-hashes", "unsafe-inline"]
  const NONE: string := "'none'"

  // ----- Sets in insertion order -----

  function Add(set0: seq<string>, x: string): seq<string> {
    if x in set0 then set0 else set0 + [x]
  }

  /** `new Set(values)` */
  function ToSet(values: seq<string>): seq<string> {
    if values == [] then [] else Add(ToSet(values[..|values| - 1]), values[|values| - 1])
  }

  function Remove(set0: seq<string>, x: string): seq<string> {
    if set0 == [] then [] else (if set0[0] == x then [] else [set0[0]]) + Remove(set0[1..], x)
  }

  lemma {:induction false} ToSetHolds(values: seq<string>)
    ensures Distinct(ToSet(values)) && forall x :: x in ToSet(values) <==> x in values
  {
    if values != [] {
      var front, last := values[..|values| - 1], values[|values| - 1];
      ToSetHolds(front);
      assert values == front + [last];
      if last !in ToSet(front) {
        DistinctAppend(ToSet(front), last);
      }
    }
  }

  lemma {:induction false} SetOfDistinct(values: seq<string>)
    requires Distinct(values)
    ensures ToSet(values) == values
    decreases |values|
  {
    if values != [] {
      var front, last := values[..|values| - 1], values[|values| - 1];
      assert values == front + [last];
      DistinctAppend(front, last);
      SetOfDistinct(front);
    }
  }

  // ----- Values -----

  /** Without a quote at either end. */
  function Unquoted(value: string): string {
    var rest := if value != "" && value[0] == '\'' then value[1..] else value;
    if rest != "" && rest[|rest| - 1] == '\'' then rest[..|rest| - 1] else rest
  }

  function FormatValue(value: string): string {
    if Unquoted(value) in KEYWORDS then "'" + Unquoted(value) + "'" else value
  }

  function Formatted(values: seq<string>): (r: seq<string>)
    ensures |r| == |values| && forall i :: 0 <= i < |values| ==> r[i] == FormatValue(values[i])
  {
    if values == [] then [] else Formatted(values[..|values| - 1]) + [FormatValue(values[|values| - 1])]
  }

  lemma FormatTwice(value: string)
    ensures FormatValue(FormatValue(value)) == FormatValue(value)
    ensures FormatValue(value) == NONE <==> Unquoted(value) == "none"
  {
    var word := Unquoted(value);
    assert ("'" + word + "'")[1..] == word + "'" && (word + "'")[..|word|] == word;
    if word in KEYWORDS {
      assert Unquoted("'" + word + "'") == word;
    } else {
      assert Unquoted(NONE) == "none";
    }
  }

  predicate SpellsKeyword(value: string, word: string) {
    value == word || value == "'" + word || value == word + "'" || value == "'" + word + "'"
  }

  predicate IsKeyword(word: string) {
    || word == "none" || word == "self" || word == "strict-dynamic"
    || word == "unsafe-eval" || word == "unsafe-hashes" || word == "unsafe-inline"
  }

  /** A keyword prints in quotes, however it was quoted. */
  lemma KeywordPrintsQuoted(value: string, word: string)
    requires IsKeyword(word) && SpellsKeyword(value, word)
    ensures FormatValue(value) == "'" + word + "'"
  {
    KeywordEnds(word);
    UnquotesTo(value, word);
    KeywordsAreSix(word);
  }

  lemma KeywordEnds(word: string)
    requires IsKeyword(word)
    ensures word != "" && word[0] != '\'' && word[|word| - 1] != '\''
  {
  }

  lemma KeywordsAreSix(word: string)
    ensures IsKeyword(word) <==> word in KEYWORDS
  {
  }

  lemma UnquotesTo(value: string, word: string)
    requires SpellsKeyword(value, word) && word != "" && word[0] != '\'' && word[|word| - 1] != '\''
    ensures Unquoted(value) == word
  {
    if value == word + "'" {
      assert value[..|word|] == word;
    } else if value == "'" + word {
      assert value[1..] == word;
    } else if value == "'" + word + "'" {
      assert value[1..] == word + "'" && (word + "'")[..|word|] == word;
    }
  }

  lemma UnquotedSpells(value: string)
    ensures SpellsKeyword(value, Unquoted(value))
  {
    var rest := if value != "" && value[0] == '\'' then value[1..] else value;
    assert value == rest || value == "'" + rest;
    if rest != "" {
      assert rest == rest[..|rest| - 1] + [rest[|rest| - 1]];
    }
  }

  /** Every other value prints as it is. */
  lemma OthersPrintAsTheyAre(value: string)
    requires forall word :: IsKeyword(word) ==> !SpellsKeyword(value, word)
    ensures FormatValue(value) == value
  {
    UnquotedSpells(value);
    KeywordsAreSix(Unquoted(value));
  }

  /** A caller's values over the existing ones: `none` takes the place of everything. */
  function Merged(existing: seq<string>, values: seq<string>): seq<string> {
    if NONE in values || "none" in values then [NONE] else ToSet(Formatted(existing + values))
  }

  method MergeValues(existing: seq<string>, values: seq<string>) returns (merged: seq<string>)
    ensures merged == Merged(existing, values)
  {
    if NONE in values || "none" in values {
      return [NONE];
    }
    var all := existing + values;
    merged := [];
    for i := 0 to |all|
      invariant merged == ToSet(Formatted(all[..i]))
    {
      assert all[..i + 1][..i] == all[..i];
      merged := Add(merged, FormatValue(all[i]));
    }
    assert all[..|all|] == all;
  }

  /** A merged source is the printed form of a value of either side. */
  lemma MergedFrom(existing: seq<string>, values: seq<string>, x: string) returns (v: string)
    requires !(NONE in values || "none" in values) && x in Merged(existing, values)
    ensures v in existing + values && FormatValue(v) == x
  {
    var all := existing + values;
    ToSetHolds(Formatted(all));
    var i :| 0 <= i < |all| && Formatted(all)[i] == x;
    v := all[i];
  }

  /** And every value of either side is there, unless the caller says `none`. */
  lemma MergedHas(existing: seq<string>, values: seq<string>, v: string)
    requires !(NONE in values || "none" in values) && v in existing + values
    ensures FormatValue(v) in Merged(existing, values)
  {
    ToSetHolds(Formatted(existing + values));
  }

  /** No merged source repeats, and each is already in printed form. */
  lemma MergedIsASet(existing: seq<string>, values: seq<string>)
    ensures Distinct(Merged(existing, values)) && Formatted(Merged(existing, values)) == Merged(existing, values)
  {
    var r := Merged(existing, values);
    if NONE in values || "none" in values {
      assert Formatted([NONE])[0] == NONE;
    } else {
      ToSetHolds(Formatted(existing + values));
      forall i | 0 <= i < |r| ensures Formatted(r)[i] == r[i] {
        assert r[i] in r;
        var v := MergedFrom(existing, values, r[i]);
        FormatTwice(v);
      }
    }
  }

  /**
   * When `'none'` stands alone in a merged directive: exactly when the caller
   * spelled it with both quotes or neither, or no value unquotes to it, or every
   * value does. A caller's half-quoted `'none` is printed as `'none'` beside the
   * others.
   */
  lemma NoneStandsAloneExactly(existing: seq<string>, values: seq<string>)
    ensures (NONE in Merged(existing, values) ==> Merged(existing, values) == [NONE]) <==>
      (|| NONE in values || "none" in values
       || (forall v :: v in existing + values ==> Unquoted(v) != "none")
       || (forall v :: v in existing + values ==> Unquoted(v) == "none"))
  {
    var all := existing + values;
    if !(NONE in values || "none" in values) {
      if forall v :: v in all ==> Unquoted(v) == "none" {
        OnlyNone(existing, values);
      } else {
        var other :| other in all && Unquoted(other) != "none";
        NoneAmongOthers(existing, values, other);
        assert Merged(existing, values) == [NONE] ==> FormatValue(other) in [NONE];
      }
    }
  }

  lemma OnlyNone(existing: seq<string>, values: seq<string>)
    requires !(NONE in values || "none" in values) && forall v :: v in existing + values ==> Unquoted(v) == "none"
    ensures NONE in Merged(existing, values) ==> Merged(existing, values) == [NONE]
  {
    var r := Merged(existing, values);
    MergedIsASet(existing, values);
    forall x | x in r ensures x == NONE {
      var v := MergedFrom(existing, values, x);
      FormatTwice(v);
    }
    AllTheSame(r, NONE);
  }

  lemma {:induction false} AllTheSame(values: seq<string>, x: string)
    requires Distinct(values) && forall v :: v in values ==> v == x
    ensures values == [] || values == [x]
  {
    if values != [] {
      assert values == [values[0]] + values[1..];
      assert forall v :: v in values <==> v == values[0] || v in values[1..];
      AllTheSame(values[1..], x);
    }
  }

  lemma NoneAmongOthers(existing: seq<string>, values: seq<string>, other: string)
    requires !(NONE in values || "none" in values) && other in existing + values && Unquoted(other) != "none"
    ensures NONE in Merged(existing, values) <==> exists v :: v in existing + values && Unquoted(v) == "none"
    ensures FormatValue(other) in Merged(existing, values) && FormatValue(other) != NONE
  {
    MergedHas(existing, values, other);
    FormatTwice(other);
    if NONE in Merged(existing, values) {
      var v := MergedFrom(existing, values, NONE);
      FormatTwice(v);
    }
    if v :| v in existing + values && Unquoted(v) == "none" {
      FormatTwice(v);
      MergedHas(existing, values, v);
    }
  }

  const SELF: string := "'self'"

  lemma SelfPrints()
    ensures FormatValue("self") == SELF
  {
    assert Unquoted("self") == "self";
    assert KEYWORDS[1] == "self" && "'" + "self" + "'" == SELF;
  }

  lemma HalfQuotedPrints()
    ensures FormatValue("'none") == NONE
  {
    assert Unquoted("'none") == "none";
    assert KEYWORDS[0] == "none" && "'" + "none" + "'" == NONE;
  }

  lemma NotTheWord()
    ensures "'none" != "none" && "'none" != NONE && SELF != NONE
  {
    assert "'none"[0] != "none"[0] && |"'none"| != |NONE| && SELF[1] != NONE[1];
  }

  lemma HalfQuotedNoneIsNotAbsorbed()
    ensures Merged(["self"], ["'none"]) == [SELF, NONE]
  {
    NotTheWord();
    SelfPrints();
    HalfQuotedPrints();
    var all := ["self"] + ["'none"];
    assert Formatted(all) == [SELF, NONE];
    assert [SELF, NONE][1..] == [NONE] && Distinct([NONE]);
    SetOfDistinct([SELF, NONE]);
  }

  // ----- Directives -----

  function SourcesOf(directives: seq<Directive>, name: string): Option<seq<string>> {
    if directives == [] then None
    else if directives[0].name == name then Some(directives[0].sources)
    else SourcesOf(directives[1..], name)
  }

  function SetSources(directives: seq<Directive>, name: string, sources: seq<string>): seq<Directive> {
    if directives == [] then [Directive(name, sources)]
    else if directives[0].name == name then [Directive(name, sources)] + directives[1..]
    else [directives[0]] + SetSources(directives[1..], name, sources)
  }

  predicate DistinctNames(directives: seq<Directive>) {
    directives == [] || (SourcesOf(directives[1..], directives[0].name).None? && DistinctNames(directives[1..]))
  }

  lemma {:induction false} SourcesAfterSet(ds: seq<Directive>, name: string, sources: seq<string>, other: string)
    ensures SourcesOf(SetSources(ds, name, sources), other) ==
            if other == name then Some(sources) else SourcesOf(ds, other)
  {
    if ds != [] && ds[0].name != name {
      SourcesAfterSet(ds[1..], name, sources, other);
    }
  }

  lemma {:induction false} SetKeepsDistinct(ds: seq<Directive>, name: string, sources: seq<string>)
    requires DistinctNames(ds)
    ensures DistinctNames(SetSources(ds, name, sources))
  {
    if ds != [] && ds[0].name != name {
      SetKeepsDistinct(ds[1..], name, sources);
      SourcesAfterSet(ds[1..], name, sources, ds[0].name);
      assert SetSources(ds, name, sources)[1..] == SetSources(ds[1..], name, sources);
    }
  }

  lemma {:induction false} SourcesAppend(ds: seq<Directive>, last: Directive, name: string)
    ensures SourcesOf(ds + [last], name) ==
            if SourcesOf(ds, name).Some? then SourcesOf(ds, name)
            else if last.name == name then Some(last.sources)
            else None
  {
    if ds != [] {
      assert (ds + [last])[1..] == ds[1..] + [last];
      SourcesAppend(ds[1..], last, name);
    }
  }

  lemma {:induction false} DistinctFront(ds: seq<Directive>)
    requires DistinctNames(ds) && ds != []
    ensures DistinctNames(ds[..|ds| - 1]) && SourcesOf(ds[..|ds| - 1], ds[|ds| - 1].name).None?
  {
    if |ds| > 1 {
      var front, last := ds[..|ds| - 1], ds[|ds| - 1];
      DistinctFront(ds[1..]);
      assert front[1..] == ds[1..][..|ds| - 2];
      assert ds[1..] == front[1..] + [last];
      SourcesAppend(front[1..], last, ds[0].name);
    }
  }

  lemma {:induction false} SourcesAreMembers(ds: seq<Directive>, name: string, sources: seq<string>)
    requires DistinctNames(ds)
    ensures SourcesOf(ds, name) == Some(sources) <==> Directive(name, sources) in ds
  {
    if ds != [] {
      SourcesAreMembers(ds[1..], name, sources);
      SourcesAreMembers(ds[1..], name, ds[0].sources);
      assert Directive(name, sources) in ds <==>
        ds[0] == Directive(name, sources) || Directive(name, sources) in ds[1..];
    }
  }

  // ----- Building -----

  /** The strict policy drops the scheme sources of scripts and trusts the nonce instead. */
  function Strict(sources: seq<string>, nonce: Option<string>): seq<string> {
    var dynamic := Add(Remove(Remove(sources, "http:"), "https:"), "'strict-dynamic'");
    if nonce.Some? && nonce.value != "" then Add(dynamic, "'nonce-" + nonce.value + "'") else dynamic
  }

  /** What a strict policy trusts of its script sources. */
  lemma StrictHolds(sources: seq<string>, nonce: Option<string>, x: string)
    ensures x in Strict(sources, nonce) <==>
      || (x in sources && x != "http:" && x != "https:")
      || x == "'strict-dynamic'"
      || (nonce.Some? && nonce.value != "" && x == "'nonce-" + nonce.value + "'")
  {
    RemoveHolds(sources, "http:");
    RemoveHolds(Remove(sources, "http:"), "https:");
  }

  function Base(strict: bool, defaults: seq<Directive>, nonce: Option<string>, name: string): Option<seq<string>> {
    match SourcesOf(defaults, name)
    case None => None
    case Some(values) =>
      Some(if strict && name == "script-src" then Strict(ToSet(values), nonce) else ToSet(values))
  }

  /** What the policy owes under a name: the default, with the caller's values merged in. */
  function Owed(strict: bool, defaults: seq<Directive>, custom: seq<Directive>, nonce: Option<string>, name: string)
    : Option<seq<string>>
  {
    var base, own := Base(strict, defaults, nonce, name), SourcesOf(custom, name);
    if own.None? then base else Some(Merged(base.GetOr([]), own.value))
  }

  /** The default trusts the source under the name. */
  ghost predicate TrustedByDefault(strict: bool, defaults: seq<Directive>, nonce: Option<string>,
      name: string, x: string)
  {
    var plain := SourcesOf(defaults, name);
    plain.Some? &&
    if strict && name == "script-src" then
      || (x in plain.value && x != "http:" && x != "https:")
      || x == "'strict-dynamic'"
      || (nonce.Some? && nonce.value != "" && x == "'nonce-" + nonce.value + "'")
    else x in plain.value
  }

  lemma BaseHolds(strict: bool, defaults: seq<Directive>, nonce: Option<string>, name: string)
    ensures Base(strict, defaults, nonce, name).Some? <==> SourcesOf(defaults, name).Some?
    ensures forall x :: (x in Base(strict, defaults, nonce, name).GetOr([]) <==>
                         TrustedByDefault(strict, defaults, nonce, name, x))
  {
    var plain := SourcesOf(defaults, name);
    if plain.Some? {
      ToSetHolds(plain.value);
      forall x { StrictHolds(ToSet(plain.value), nonce, x); }
    }
  }

  /**
   * Whether a source is owed under a name: without the caller's word, when the
   * default trusts it; under a caller's `none`, when it is that; else when it is the
   * printed form of a source that either of them gives.
   */
  lemma OwedExactly(strict: bool, defaults: seq<Directive>, custom: seq<Directive>, nonce: Option<string>,
      name: string, x: string)
    ensures var owed, own := Owed(strict, defaults, custom, nonce, name), SourcesOf(custom, name);
      && (owed.Some? <==> SourcesOf(defaults, name).Some? || own.Some?)
      && (owed.Some? ==> (x in owed.value <==>
        if own.None? then TrustedByDefault(strict, defaults, nonce, name, x)
        else if "'none'" in own.value || "none" in own.value then x == "'none'"
        else exists v :: (TrustedByDefault(strict, defaults, nonce, name, v) || v in own.value) && FormatValue(v) == x))
  {
    BaseHolds(strict, defaults, nonce, name);
    var base, own := Base(strict, defaults, nonce, name).GetOr([]), SourcesOf(custom, name);
    if own.Some? && !(NONE in own.value || "none" in own.value) {
      if x in Merged(base, own.value) {
        var v := MergedFrom(base, own.value, x);
      }
      if v :| (TrustedByDefault(strict, defaults, nonce, name, v) || v in own.value) && FormatValue(v) == x {
        MergedHas(base, own.value, v);
      }
    }
  }

  /** `defaults` and `custom` are records, so neither repeats a name. */
  method BuildDirectives(strict: bool, defaults: seq<Directive>, custom: seq<Directive>, nonce: Option<string>)
    returns (directives: seq<Directive>)
    requires DistinctNames(defaults) && DistinctNames(custom)
    ensures DistinctNames(directives)
    ensures forall name :: SourcesOf(directives, name) == Owed(strict, defaults, custom, nonce, name)
  {
    var base := DefaultSets(defaults);
    base := Stricter(strict, defaults, base, nonce);
    var customDirectives;
    directives, customDirectives := MergeCustom(base, custom);
    directives := Overlay(directives, customDirectives);
  }

  method Stricter(strict: bool, defaults: seq<Directive>, sets: seq<Directive>, nonce: Option<string>)
    returns (directives: seq<Directive>)
    requires DistinctNames(sets) && forall name :: SourcesOf(sets, name) == Base(false, defaults, None, name)
    ensures DistinctNames(directives)
    ensures forall name :: SourcesOf(directives, name) == Base(strict, defaults, nonce, name)
  {
    directives := sets;
    var scriptSrc := SourcesOf(sets, "script-src");
    if strict && scriptSrc.Some? {
      SetKeepsDistinct(sets, "script-src", Strict(scriptSrc.value, nonce));
      SourcesAfterEachSet(sets, "script-src", Strict(scriptSrc.value, nonce));
      directives := SetSources(sets, "script-src", Strict(scriptSrc.value, nonce));
    }
  }

  /** How far merging has come: `custom` is what has been looked at. */
  ghost predicate Merging(base: seq<Directive>, custom: seq<Directive>,
      directives: seq<Directive>, extra: seq<Directive>)
  {
    && (forall name :: SourcesOf(directives, name) == Replaced(base, custom, name))
    && (forall name :: SourcesOf(extra, name) == Added(base, custom, name))
  }

  lemma MergesExisting(base: seq<Directive>, custom: seq<Directive>, i: nat,
      directives: seq<Directive>, extra: seq<Directive>)
    requires DistinctNames(custom) && i < |custom| && Merging(base, custom[..i], directives, extra)
    requires SourcesOf(directives, custom[i].name).Some?
    ensures var merged := Merged(SourcesOf(directives, custom[i].name).value, custom[i].sources);
      Merging(base, custom[..i + 1], SetSources(directives, custom[i].name, merged), extra)
  {
    var own := custom[i];
    var merged := Merged(SourcesOf(directives, own.name).value, own.sources);
    NextDirective(custom, i);
    assert SourcesOf(base, own.name) == SourcesOf(directives, own.name);
    forall name
      ensures SourcesOf(SetSources(directives, own.name, merged), name) == Replaced(base, custom[..i + 1], name)
    {
      SourcesAfterSet(directives, own.name, merged, name);
      assert SourcesOf(directives, name) == Replaced(base, custom[..i], name);
    }
    forall name ensures SourcesOf(extra, name) == Added(base, custom[..i + 1], name) {
      assert SourcesOf(extra, name) == Added(base, custom[..i], name);
    }
  }

  lemma MergesNew(base: seq<Directive>, custom: seq<Directive>, i: nat,
      directives: seq<Directive>, extra: seq<Directive>)
    requires DistinctNames(custom) && i < |custom| && Merging(base, custom[..i], directives, extra)
    requires SourcesOf(directives, custom[i].name).None?
    ensures Merging(base, custom[..i + 1], directives, SetSources(extra, custom[i].name, Merged([], custom[i].sources)))
  {
    var own := custom[i];
    var merged := Merged([], own.sources);
    NextDirective(custom, i);
    assert SourcesOf(directives, own.name) == Replaced(base, custom[..i], own.name);
    forall name ensures SourcesOf(SetSources(extra, own.name, merged), name) == Added(base, custom[..i + 1], name) {
      SourcesAfterSet(extra, own.name, merged, name);
      assert SourcesOf(extra, name) == Added(base, custom[..i], name);
    }
    forall name ensures SourcesOf(directives, name) == Replaced(base, custom[..i + 1], name) {
      assert SourcesOf(directives, name) == Replaced(base, custom[..i], name);
    }
  }

  method MergeCustom(base: seq<Directive>, custom: seq<Directive>)
    returns (directives: seq<Directive>, customDirectives: seq<Directive>)
    requires DistinctNames(base) && DistinctNames(custom)
    ensures DistinctNames(directives) && DistinctNames(customDirectives)
    ensures Merging(base, custom, directives, customDirectives)
  {
    directives, customDirectives := base, [];
    for i := 0 to |custom|
      invariant DistinctNames(directives) && DistinctNames(customDirectives)
      invariant Merging(base, custom[..i], directives, customDirectives)
    {
      var own := custom[i];
      var existing := SourcesOf(directives, own.name);
      if existing.Some? {
        var merged := MergeValues(existing.value, own.sources);
        MergesExisting(base, custom, i, directives, customDirectives);
        SetKeepsDistinct(directives, own.name, merged);
        directives := SetSources(directives, own.name, merged);
      } else {
        var merged := MergeValues([], own.sources);
        MergesNew(base, custom, i, directives, customDirectives);
        SetKeepsDistinct(customDirectives, own.name, merged);
        customDirectives := SetSources(customDirectives, own.name, merged);
      }
    }
    assert custom[..|custom|] == custom;
  }

  method Overlay(base: seq<Directive>, extra: seq<Directive>) returns (directives: seq<Directive>)
    requires DistinctNames(base) && DistinctNames(extra)
    ensures DistinctNames(directives)
    ensures forall name :: SourcesOf(directives, name) == Overlaid(base, extra, name)
  {
    directives := base;
    for i := 0 to |extra|
      invariant DistinctNames(directives)
      invariant forall name :: SourcesOf(directives, name) == Overlaid(base, extra[..i], name)
    {
      var own := extra[i];
      NextDirective(extra, i);
      SetKeepsDistinct(directives, own.name, own.sources);
      SourcesAfterEachSet(directives, own.name, own.sources);
      directives := SetSources(directives, own.name, own.sources);
    }
    assert extra[..|extra|] == extra;
  }

  function Overlaid(base: seq<Directive>, extra: seq<Directive>, name: string): Option<seq<string>> {
    if SourcesOf(extra, name).Some? then SourcesOf(extra, name) else SourcesOf(base, name)
  }

  lemma SourcesAfterEachSet(ds: seq<Directive>, name: string, sources: seq<string>)
    ensures forall other :: (SourcesOf(SetSources(ds, name, sources), other)
                             == if other == name then Some(sources) else SourcesOf(ds, other))
  {
    forall other { SourcesAfterSet(ds, name, sources, other); }
  }

  method DefaultSets(defaults: seq<Directive>) returns (directives: seq<Directive>)
    requires DistinctNames(defaults)
    ensures DistinctNames(directives)
    ensures forall name :: SourcesOf(directives, name) == Base(false, defaults, None, name)
  {
    directives := [];
    for i := 0 to |defaults|
      invariant DistinctNames(directives)
      invariant forall name :: SourcesOf(directives, name) == Base(false, defaults[..i], None, name)
    {
      var entry := defaults[i];
      NextDirective(defaults, i);
      SourcesAfterEachSet(directives, entry.name, ToSet(entry.sources));
      SetKeepsDistinct(directives, entry.name, ToSet(entry.sources));
      directives := SetSources(directives, entry.name, ToSet(entry.sources));
    }
    assert defaults[..|defaults|] == defaults;
  }

  lemma {:induction false} NextDistinct(ds: seq<Directive>, i: nat)
    requires DistinctNames(ds) && i < |ds|
    ensures ds[..i + 1] == ds[..i] + [ds[i]] && SourcesOf(ds[..i], ds[i].name).None?
    decreases |ds|
  {
    DistinctFront(ds);
    if i < |ds| - 1 {
      var front := ds[..|ds| - 1];
      NextDistinct(front, i);
      assert front[..i + 1] == ds[..i + 1] && front[..i] == ds[..i];
    }
  }

  /** A base directive with the caller's values of that name merged in. */
  function Replaced(base: seq<Directive>, custom: seq<Directive>, name: string): Option<seq<string>> {
    var existing, own := SourcesOf(base, name), SourcesOf(custom, name);
    if existing.None? || own.None? then existing else Some(Merged(existing.value, own.value))
  }

  /** A caller's directive that the base does not have. */
  function Added(base: seq<Directive>, custom: seq<Directive>, name: string): Option<seq<string>> {
    var own := SourcesOf(custom, name);
    if SourcesOf(base, name).Some? || own.None? then None else Some(Merged([], own.value))
  }

  /** What one more directive of a record changes. */
  lemma NextDirective(custom: seq<Directive>, i: nat)
    requires DistinctNames(custom) && i < |custom|
    ensures SourcesOf(custom[..i], custom[i].name).None?
    ensures forall name :: (SourcesOf(custom[..i + 1], name)
                            == if name == custom[i].name then Some(custom[i].sources) else SourcesOf(custom[..i], name))
  {
    NextDistinct(custom, i);
    forall name { SourcesAppend(custom[..i], custom[i], name); }
  }

  // ----- Printing -----

  function Insert(d: Directive, sorted: seq<Directive>, before: Order): seq<Directive> {
    if sorted == [] || before(d.name, sorted[0].name) then [d] + sorted
    else [sorted[0]] + Insert(d, sorted[1..], before)
  }

  function SortByName(ds: seq<Directive>, before: Order): seq<Directive> {
    if ds == [] then [] else Insert(ds[0], SortByName(ds[1..], before), before)
  }

  function PrintDirective(d: Directive): string {
    d.name + " " + Join(Formatted(d.sources), ' ')
  }

  function PrintAll(ds: seq<Directive>): (r: seq<string>)
    ensures |r| == |ds| && forall i :: 0 <= i < |ds| ==> r[i] == PrintDirective(ds[i])
  {
    if ds == [] then [] else [PrintDirective(ds[0])] + PrintAll(ds[1..])
  }

  function FormatPolicy(ds: seq<Directive>, before: Order): string {
    JoinSpaced(PrintAll(SortByName(ds, before)), ';')
  }

  /** A strict total order of names. */
  ghost predicate TotalOrder(before: Order) {
    && (forall a :: !before(a, a))
    && (forall a, b :: a == b || before(a, b) || before(b, a))
    && (forall a, b, c :: before(a, b) && before(b, c) ==> before(a, c))
  }

  ghost predicate Ascending(ds: seq<Directive>, before: Order) {
    ds == [] || ((forall d :: d in ds[1..] ==> before(ds[0].name, d.name)) && Ascending(ds[1..], before))
  }

  lemma {:induction false} InsertAscending(d: Directive, sorted: seq<Directive>, before: Order)
    requires TotalOrder(before) && Ascending(sorted, before) && forall e :: e in sorted ==> e.name != d.name
    ensures Ascending(Insert(d, sorted, before), before)
    ensures forall e :: e in Insert(d, sorted, before) <==> e == d || e in sorted
  {
    if sorted != [] {
      var first := sorted[0];
      assert first in sorted;
      assert forall e :: e in sorted <==> e == first || e in sorted[1..];
      if before(d.name, first.name) {
        assert ([d] + sorted)[1..] == sorted;
        forall e | e in sorted ensures before(d.name, e.name) {
          assert e == first || before(first.name, e.name);
        }
      } else {
        InsertAscending(d, sorted[1..], before);
        assert before(first.name, d.name);
      }
    }
  }

  lemma {:induction false} SortAscending(ds: seq<Directive>, before: Order)
    requires TotalOrder(before) && DistinctNames(ds)
    ensures Ascending(SortByName(ds, before), before)
    ensures forall e :: e in SortByName(ds, before) <==> e in ds
  {
    if ds != [] {
      SortAscending(ds[1..], before);
      assert forall e :: e in ds <==> e == ds[0] || e in ds[1..];
      forall e | e in ds[1..] ensures e.name != ds[0].name {
        SourcesAreMembers(ds[1..], e.name, e.sources);
      }
      InsertAscending(ds[0], SortByName(ds[1..], before), before);
    }
  }

  lemma {:induction false} AscendingIsUnique(a: seq<Directive>, b: seq<Directive>, before: Order)
    requires TotalOrder(before) && Ascending(a, before) && Ascending(b, before)
    requires forall d :: d in a <==> d in b
    ensures a == b
  {
    assert b != [] ==> b[0] in b;
    if a != [] {
      assert a[0] in b;
      assert b[0] in a;
      assert a == [a[0]] + a[1..] && b == [b[0]] + b[1..];
      assert a[0] == b[0];
      forall d ensures d in a[1..] <==> d in b[1..] {
        assert d in a <==> d in b;
      }
      AscendingIsUnique(a[1..], b[1..], before);
    }
  }

  /** The text does not depend on the order in which directives were given. */
  lemma OrderIsIrrelevant(a: seq<Directive>, b: seq<Directive>, before: Order)
    requires TotalOrder(before) && DistinctNames(a) && DistinctNames(b)
    requires forall name :: SourcesOf(a, name) == SourcesOf(b, name)
    ensures FormatPolicy(a, before) == FormatPolicy(b, before)
  {
    SortAscending(a, before);
    SortAscending(b, before);
    forall d: Directive ensures d in a <==> d in b {
      SourcesAreMembers(a, d.name, d.sources);
      SourcesAreMembers(b, d.name, d.sources);
      assert SourcesOf(a, d.name) == SourcesOf(b, d.name);
    }
    AscendingIsUnique(SortByName(a, before), SortByName(b, before), before);
  }

  // ----- Reading a policy (section 2.2.1 of Content Security Policy Level 3) -----

  predicate IsSpace(c: char) {
    c in "\t\n\r " || c as int == 12
  }

  function SkipSpace(s: string): (r: string)
    ensures |r| <= |s| && (r != "" ==> !IsSpace(r[0]))
  {
    if s != "" && IsSpace(s[0]) then SkipSpace(s[1..]) else s
  }

  function WordLength(s: string): (n: nat)
    ensures n <= |s| && (s != "" && !IsSpace(s[0]) ==> n > 0)
  {
    if s == "" || IsSpace(s[0]) then 0 else 1 + WordLength(s[1..])
  }

  /** The runs between white space. */
  function Words(s: string): seq<string>
    decreases |s|
  {
    var rest := SkipSpace(s);
    if rest == "" then [] else [rest[..WordLength(rest)]] + Words(rest[WordLength(rest)..])
  }

  function Lower(s: string): string {
    if s == "" then ""
    else [if 'A' <= s[0] <= 'Z' then (s[0] as int + 32) as char else s[0]] + Lower(s[1..])
  }

  predicate IsAscii(s: string) {
    forall c :: c in s ==> c as int < 0x80
  }

  /** The words of a token; one that is not an ASCII string has none. */
  function TokenWords(token: string): seq<string> {
    if IsAscii(token) then Words(token) else []
  }

  function AllWords(tokens: seq<string>): (r: seq<seq<string>>)
    ensures |r| == |tokens| && forall i :: 0 <= i < |tokens| ==> r[i] == TokenWords(tokens[i])
  {
    if tokens == [] then [] else [TokenWords(tokens[0])] + AllWords(tokens[1..])
  }

  /** One directive a token; tokens without words and repeated names are skipped. */
  function ParseTokens(tokens: seq<seq<string>>): seq<Directive> {
    if tokens == [] then []
    else
      var so, words := ParseTokens(tokens[..|tokens| - 1]), tokens[|tokens| - 1];
      if words == [] || SourcesOf(so, Lower(words[0])).Some? then so
      else so + [Directive(Lower(words[0]), words[1..])]
  }

  function ParsePolicy(text: string): seq<Directive> {
    ParseTokens(AllWords(Split(text, ';')))
  }

  predicate IsToken(s: string) {
    s != "" && forall c :: c in s ==> !IsSpace(c) && c != ';' && c as int < 0x80
  }

  predicate IsName(s: string) {
    IsToken(s) && forall c :: c in s ==> !('A' <= c <= 'Z')
  }

  predicate Printable(d: Directive) {
    IsName(d.name) && forall source :: source in d.sources ==> IsToken(source)
  }

  lemma {:induction false} LowerName(s: string)
    requires forall c :: c in s ==> !('A' <= c <= 'Z')
    ensures Lower(s) == s
  {
    if s != "" {
      assert s[0] in s;
      assert forall c :: c in s[1..] ==> c in s;
      LowerName(s[1..]);
      assert s == [s[0]] + s[1..];
    }
  }

  lemma {:induction false} WordLengthOf(word: string, rest: string)
    requires forall c :: c in word ==> !IsSpace(c)
    requires rest == "" || IsSpace(rest[0])
    ensures WordLength(word + rest) == |word|
  {
    if word != "" {
      assert word[0] in word;
      assert (word + rest)[1..] == word[1..] + rest;
      WordLengthOf(word[1..], rest);
    } else {
      assert word + rest == rest;
    }
  }

  lemma FirstWord(word: string, rest: string)
    requires IsToken(word) && (rest == "" || IsSpace(rest[0]))
    ensures Words(word + rest) == [word] + Words(rest)
  {
    assert word[0] in word && (word + rest)[0] == word[0];
    WordLengthOf(word, rest);
    assert (word + rest)[..|word|] == word && (word + rest)[|word|..] == rest;
  }

  lemma {:induction false} WordsOfJoined(words: seq<string>)
    requires forall w :: w in words ==> IsToken(w)
    ensures Words(" " + Join(words, ' ')) == words
  {
    var text := Join(words, ' ');
    assert (" " + text)[1..] == text;
    if words != [] {
      assert words[0] in words;
      var rest := if |words| == 1 then "" else " " + Join(words[1..], ' ');
      assert text == words[0] + rest;
      FirstWord(words[0], rest);
      if |words| == 1 {
        assert Words("") == [];
      } else {
        WordsOfJoined(words[1..]);
      }
      assert words[0][0] in words[0];
      assert text[0] == words[0][0];
    }
  }

  lemma TokenConcat(a: string, b: string)
    requires IsToken(a) && IsToken(b)
    ensures IsToken(a + b)
  {
  }

  lemma PrintedToken(value: string)
    requires IsToken(value)
    ensures IsToken(FormatValue(value))
  {
    var word := Unquoted(value);
    assert forall c :: c in word ==> c in value;
    if word in KEYWORDS {
      assert word != "";
      TokenConcat("'", word);
      TokenConcat("'" + word, "'");
    }
  }

  lemma {:induction false} FormattedTokens(values: seq<string>)
    requires forall v :: v in values ==> IsToken(v)
    ensures forall v :: v in Formatted(values) ==> IsToken(v)
  {
    forall i | 0 <= i < |values| ensures IsToken(Formatted(values)[i]) {
      assert values[i] in values;
      PrintedToken(values[i]);
    }
  }

  function InPrintedForm(d: Directive): Directive {
    Directive(d.name, Formatted(d.sources))
  }

  function Shown(ds: seq<Directive>): (r: seq<Directive>)
    ensures |r| == |ds|
    ensures forall i :: 0 <= i < |ds| ==> r[i] == InPrintedForm(ds[i])
  {
    if ds == [] then [] else [InPrintedForm(ds[0])] + Shown(ds[1..])
  }

  function InPrint(sources: Option<seq<string>>): Option<seq<string>> {
    if sources.None? then None else Some(Formatted(sources.value))
  }

  lemma IndentedWords(s: string)
    requires s != "" && !IsSpace(s[0])
    ensures Words(" " + s) == Words(s)
  {
    assert (" " + s)[1..] == s;
    assert SkipSpace(" " + s) == s && SkipSpace(s) == s;
  }

  lemma DirectiveKeepsOut(d: Directive)
    requires Printable(d)
    ensures ';' !in PrintDirective(d) && IsAscii(PrintDirective(d)) && IsAscii(" " + PrintDirective(d))
  {
    FormattedTokens(d.sources);
    JoinedKeepsOut(Formatted(d.sources));
  }

  lemma WordsOfPrinted(name: string, words: seq<string>)
    requires IsToken(name) && forall w :: w in words ==> IsToken(w)
    ensures Words(name + " " + Join(words, ' ')) == [name] + words
    ensures Words(" " + (name + " " + Join(words, ' '))) == [name] + words
  {
    var rest := " " + Join(words, ' ');
    var text := name + " " + Join(words, ' ');
    FirstWord(name, rest);
    WordsOfJoined(words);
    assert text == name + rest;
    assert name[0] in name && text[0] == name[0];
    IndentedWords(text);
  }

  lemma WordsOfDirective(d: Directive)
    requires Printable(d)
    ensures Words(PrintDirective(d)) == [d.name] + Formatted(d.sources)
    ensures Words(" " + PrintDirective(d)) == [d.name] + Formatted(d.sources)
  {
    FormattedTokens(d.sources);
    WordsOfPrinted(d.name, Formatted(d.sources));
  }

  lemma {:induction false} JoinedKeepsOut(words: seq<string>)
    requires forall w :: w in words ==> IsToken(w)
    ensures ';' !in Join(words, ' ') && IsAscii(Join(words, ' '))
  {
    if words != [] {
      assert words[0] in words;
      JoinedKeepsOut(words[1..]);
    }
  }

  lemma {:induction false} ShownNames(ds: seq<Directive>, name: string)
    ensures SourcesOf(Shown(ds), name) == InPrint(SourcesOf(ds, name))
  {
    if ds != [] {
      ShownNames(ds[1..], name);
    }
  }

  predicate ReadsAs(words: seq<string>, d: Directive) {
    words == [d.name] + d.sources && Lower(d.name) == d.name
  }

  lemma PrintedReadsAs(d: Directive)
    requires Printable(d)
    ensures ReadsAs(TokenWords(PrintDirective(d)), Directive(d.name, Formatted(d.sources)))
    ensures ReadsAs(TokenWords(" " + PrintDirective(d)), Directive(d.name, Formatted(d.sources)))
  {
    DirectiveKeepsOut(d);
    WordsOfDirective(d);
    LowerName(d.name);
  }

  lemma {:induction false} TokensRead(ds: seq<Directive>, tokens: seq<seq<string>>)
    requires DistinctNames(ds) && |tokens| == |ds| && forall i :: 0 <= i < |ds| ==> ReadsAs(tokens[i], ds[i])
    ensures ParseTokens(tokens) == ds
    decreases |ds|
  {
    if ds != [] {
      var n := |ds| - 1;
      var front, last := ds[..n], tokens[n];
      DistinctFront(ds);
      forall i | 0 <= i < n ensures ReadsAs(tokens[..n][i], front[i]) {
        assert ReadsAs(tokens[i], ds[i]);
      }
      TokensRead(front, tokens[..n]);
      assert ReadsAs(last, ds[n]);
      TokenAdds(front, last, ds[n]);
      assert front + [ds[n]] == ds;
    }
  }

  lemma TokenAdds(so: seq<Directive>, words: seq<string>, d: Directive)
    requires ReadsAs(words, d) && SourcesOf(so, d.name).None?
    ensures words != [] && SourcesOf(so, Lower(words[0])).None?
    ensures so + [Directive(Lower(words[0]), words[1..])] == so + [d]
  {
    assert words[0] == d.name && words[1..] == d.sources;
  }

  lemma {:induction false} ShownDistinct(ds: seq<Directive>)
    requires DistinctNames(ds)
    ensures DistinctNames(Shown(ds))
  {
    if ds != [] {
      ShownDistinct(ds[1..]);
      ShownNames(ds[1..], ds[0].name);
    }
  }

  lemma {:induction false} AscendingIsDistinct(ds: seq<Directive>, before: Order)
    requires TotalOrder(before) && Ascending(ds, before)
    ensures DistinctNames(ds)
  {
    if ds != [] {
      AscendingIsDistinct(ds[1..], before);
      if SourcesOf(ds[1..], ds[0].name).Some? {
        SourcesAreMembers(ds[1..], ds[0].name, SourcesOf(ds[1..], ds[0].name).value);
      }
    }
  }

  lemma PrintedReadsBack(ds: seq<Directive>)
    requires DistinctNames(Shown(ds)) && forall d :: d in ds ==> Printable(d)
    ensures ParsePolicy(JoinSpaced(PrintAll(ds), ';')) == Shown(ds)
  {
    if ds == [] {
      assert Words("") == [];
      assert AllWords([""]) == [[]];
    } else {
      var printed := PrintAll(ds);
      forall i | 0 <= i < |printed| ensures ';' !in printed[i] {
        assert ds[i] in ds;
        DirectiveKeepsOut(ds[i]);
      }
      SplitJoinSpaced(printed, ';');
      var tokens := [printed[0]] + Indented(printed[1..]);
      forall i | 0 <= i < |ds| ensures ReadsAs(AllWords(tokens)[i], Shown(ds)[i]) {
        assert ds[i] in ds;
        PrintedReadsAs(ds[i]);
      }
      TokensRead(Shown(ds), AllWords(tokens));
    }
  }

  /** Parsing the printed policy gives back the directives, sorted, each source in its printed form. */
  lemma PolicyReadsBack(ds: seq<Directive>, before: Order)
    requires TotalOrder(before) && DistinctNames(ds) && forall d :: d in ds ==> Printable(d)
    ensures ParsePolicy(FormatPolicy(ds, before)) == Shown(SortByName(ds, before))
    ensures forall name :: SourcesOf(ParsePolicy(FormatPolicy(ds, before)), name) == InPrint(SourcesOf(ds, name))
  {
    var sorted := SortByName(ds, before);
    SortAscending(ds, before);
    AscendingIsDistinct(sorted, before);
    ShownDistinct(sorted);
    PrintedReadsBack(sorted);
    forall name ensures SourcesOf(sorted, name) == SourcesOf(ds, name) {
      SameSources(sorted, ds, name);
    }
    forall name { ShownNames(sorted, name); }
  }

  lemma SameSources(a: seq<Directive>, b: seq<Directive>, name: string)
    requires DistinctNames(a) && DistinctNames(b) && forall d :: d in a <==> d in b
    ensures SourcesOf(a, name) == SourcesOf(b, name)
  {
    if SourcesOf(a, name).Some? {
      SourcesAreMembers(a, name, SourcesOf(a, name).value);
      SourcesAreMembers(b, name, SourcesOf(a, name).value);
    } else if SourcesOf(b, name).Some? {
      SourcesAreMembers(a, name, SourcesOf(b, name).value);
      SourcesAreMembers(b, name, SourcesOf(b, name).value);
    }
  }

  // ----- The policy of a call -----

  /** No two sources differ only in their quotes. */
  ghost predicate QuotesApart(values: seq<string>) {
    forall i, j :: 0 <= i < j < |values| ==> Unquoted(values[i]) != Unquoted(values[j])
  }

  lemma PrintedApartEach(a: string, b: string)
    requires Unquoted(a) != Unquoted(b)
    ensures FormatValue(a) != FormatValue(b)
  {
    UnquotedPrint(a);
    UnquotedPrint(b);
  }

  lemma UnquotedPrint(value: string)
    ensures Unquoted(FormatValue(value)) == Unquoted(value)
  {
    var word := Unquoted(value);
    assert ("'" + word + "'")[1..] == word + "'" && (word + "'")[..|word|] == word;
  }

  lemma {:induction false} PrintedApart(values: seq<string>)
    requires QuotesApart(values)
    ensures Distinct(Formatted(values))
    decreases |values|
  {
    if values != [] {
      var n := |values| - 1;
      var front := Formatted(values[..n]);
      PrintedApart(values[..n]);
      forall i | 0 <= i < n ensures front[i] != FormatValue(values[n]) {
        PrintedApartEach(values[i], values[n]);
      }
      DistinctAppend(front, FormatValue(values[n]));
    }
  }

  lemma {:induction false} RemoveHolds(values: seq<string>, x: string)
    ensures forall v :: v in Remove(values, x) <==> v in values && v != x
  {
    if values != [] {
      RemoveHolds(values[1..], x);
      assert values == [values[0]] + values[1..];
    }
  }

  ghost predicate Tokens(values: seq<string>) {
    forall v :: v in values ==> IsToken(v)
  }

  lemma StrictTokens(sources: seq<string>, nonce: Option<string>)
    requires Tokens(sources) && (nonce.Some? ==> nonce.value == "" || IsToken(nonce.value))
    ensures Tokens(Strict(sources, nonce))
  {
    RemoveHolds(sources, "http:");
    RemoveHolds(Remove(sources, "http:"), "https:");
    assert IsToken("'strict-dynamic'");
    if nonce.Some? && nonce.value != "" {
      NonceToken(nonce.value);
    }
  }

  lemma NonceToken(nonce: string)
    requires IsToken(nonce)
    ensures IsToken("'nonce-" + nonce + "'")
  {
    assert IsToken("'nonce-");
    TokenConcat("'nonce-", nonce);
    TokenConcat("'nonce-" + nonce, "'");
  }

  lemma OwedIsPrintable(strict: bool, defaults: seq<Directive>, custom: seq<Directive>,
      nonce: Option<string>, name: string)
    requires DistinctNames(defaults) && DistinctNames(custom)
    requires (forall d :: d in defaults ==> Printable(d)) && (forall d :: d in custom ==> Printable(d))
    requires nonce.Some? ==> nonce.value == "" || IsToken(nonce.value)
    ensures var owed := Owed(strict, defaults, custom, nonce, name);
      owed.Some? ==> Printable(Directive(name, owed.value))
  {
    var plain, own := SourcesOf(defaults, name), SourcesOf(custom, name);
    if plain.Some? {
      SourcesAreMembers(defaults, name, plain.value);
      assert Printable(Directive(name, plain.value));
      ToSetHolds(plain.value);
      StrictTokens(ToSet(plain.value), nonce);
    }
    if own.Some? {
      SourcesAreMembers(custom, name, own.value);
      assert Printable(Directive(name, own.value));
      var existing := Base(strict, defaults, nonce, name).GetOr([]);
      assert Tokens(existing) && Tokens(own.value);
      MergedTokens(existing, own.value);
    }
  }

  lemma MergedTokens(existing: seq<string>, values: seq<string>)
    requires Tokens(existing) && Tokens(values)
    ensures Tokens(Merged(existing, values))
  {
    if NONE in values || "none" in values {
    } else {
      forall x | x in Merged(existing, values) ensures IsToken(x) {
        var v := MergedFrom(existing, values, x);
        PrintedToken(v);
      }
    }
  }

  /** The caller gives values under the name, or the default's sources are apart but for their quotes. */
  ghost predicate PrintsApart(strict: bool, defaults: seq<Directive>, custom: seq<Directive>,
      nonce: Option<string>, name: string)
  {
    var base := Base(strict, defaults, nonce, name);
    SourcesOf(custom, name).Some? || (base.Some? ==> QuotesApart(base.value))
  }

  /**
   * What is owed prints without repeats: always under a name the caller gives, else if
   * the default's sources are apart.
   */
  lemma OwedPrintsOnce(strict: bool, defaults: seq<Directive>, custom: seq<Directive>,
      nonce: Option<string>, name: string)
    requires PrintsApart(strict, defaults, custom, nonce, name)
    ensures
      var owed := Owed(strict, defaults, custom, nonce, name);
      owed.Some? ==> Distinct(Formatted(owed.value))
  {
    var base, own := Base(strict, defaults, nonce, name), SourcesOf(custom, name);
    if own.Some? {
      MergedIsASet(base.GetOr([]), own.value);
    } else if base.Some? {
      PrintedApart(base.value);
    }
  }

  /**
   * The policy of a call, read by the standard's parser: under every name exactly
   * what is owed there, and no source twice under a name the caller gives, or
   * where the default sources are apart but for their quotes.
   */
  method BuildPolicy(strict: bool, defaults: seq<Directive>, custom: seq<Directive>,
      nonce: Option<string>, before: Order)
    returns (policy: string)
    requires DistinctNames(defaults) && DistinctNames(custom) && TotalOrder(before)
    requires (forall d :: d in defaults ==> Printable(d)) && (forall d :: d in custom ==> Printable(d))
    requires nonce.Some? ==> nonce.value == "" || IsToken(nonce.value)
    ensures forall name :: SourcesOf(ParsePolicy(policy), name) == InPrint(Owed(strict, defaults, custom, nonce, name))
    ensures forall name :: PrintsApart(strict, defaults, custom, nonce, name) ==>
      SourcesOf(ParsePolicy(policy), name).Some? ==> Distinct(SourcesOf(ParsePolicy(policy), name).value)
  {
    var directives := BuildDirectives(strict, defaults, custom, nonce);
    forall d | d in directives ensures Printable(d) {
      SourcesAreMembers(directives, d.name, d.sources);
      assert SourcesOf(directives, d.name) == Owed(strict, defaults, custom, nonce, d.name);
      OwedIsPrintable(strict, defaults, custom, nonce, d.name);
    }
    PolicyReadsBack(directives, before);
    policy := FormatPolicy(directives, before);
    forall name | PrintsApart(strict, defaults, custom, nonce, name) && SourcesOf(ParsePolicy(policy), name).Some?
      ensures Distinct(SourcesOf(ParsePolicy(policy), name).value)
    {
      OwedPrintsOnce(strict, defaults, custom, nonce, name);
    }
  }
}
