/**
 * Two sweeps of posthog-js's own store, written apart: the repair of the
 * person-info records at load, and the re-masking of their urls. `rewrite` is
 * the redaction of one url.
 */
module PersistenceRepair {
  import opened Optional
  import opened Json
  import DeepRedaction

  type Rewriter = DeepRedaction.Rewriter

  const CLIENT_SESSION_PROPS: string := "$client_session_props"
  const INITIAL_PERSON_INFO: string := "$initial_person_info"
  const PROPS: string := "props"
  const PERSON_INFO_STRING_FIELDS: seq<string> := ["r", "u"]

  datatype Type = ObjectType | BooleanType | NumberType | StringType

  /** `typeof` */
  function TypeOf(v: Json): Type {
    match v
    case Bool(_) => BooleanType
    case Num(_) => NumberType
    case Str(_) => StringType
    case _ => ObjectType
  }

  function Truthy(v: Option<Json>): bool {
    match v
    case None => false
    case Some(Null) => false
    case Some(Bool(b)) => b
    case Some(Num(n)) => n != 0.0
    case Some(Str(s)) => s != ""
    case Some(_) => true
  }

  datatype Dropped = Dropped(field: string, valueType: Type)

  /** The record to write, and what was wrong with the stored one. */
  datatype Repair = Repair(value: seq<Entry>, dropped: seq<Dropped>, redacted: seq<string>)

  // ----- The repair -----

  /** One field: a non-string is dropped, a string is scrubbed. */
  function RepairField(so: Repair, field: string, rewrite: Rewriter): Repair {
    match Get(so.value, field)
    case None => so
    case Some(Str(s)) =>
      if rewrite(s) == s then so
      else so.(value := Put(so.value, field, Str(rewrite(s))), redacted := so.redacted + [field])
    case Some(v) => so.(value := Delete(so.value, field), dropped := so.dropped + [Dropped(field, TypeOf(v))])
  }

  function RepairFields(so: Repair, fields: seq<string>, rewrite: Rewriter): Repair {
    if fields == [] then so
    else RepairField(RepairFields(so, fields[..|fields| - 1], rewrite), fields[|fields| - 1], rewrite)
  }

  function RepairPersonInfoFields(record: seq<Entry>, rewrite: Rewriter): Option<Repair> {
    var done := RepairFields(Repair(record, [], []), PERSON_INFO_STRING_FIELDS, rewrite);
    if done.dropped == [] && done.redacted == [] then None else Some(done)
  }

  /** The loop over the two fields, on a copy. */
  method SweepPersonInfoFields(record: seq<Entry>, rewrite: Rewriter) returns (r: Option<Repair>)
    ensures r == RepairPersonInfoFields(record, rewrite)
  {
    var value, dropped: seq<Dropped>, redacted: seq<string> := record, [], [];
    for i := 0 to |PERSON_INFO_STRING_FIELDS|
      invariant Repair(value, dropped, redacted)
        == RepairFields(Repair(record, [], []), PERSON_INFO_STRING_FIELDS[..i], rewrite)
    {
      assert PERSON_INFO_STRING_FIELDS[..i + 1][..i] == PERSON_INFO_STRING_FIELDS[..i];
      var field := PERSON_INFO_STRING_FIELDS[i];
      var stored := Get(value, field);
      if stored.Some? {
        if !stored.value.Str? {
          dropped := dropped + [Dropped(field, TypeOf(stored.value))];
          value := Delete(value, field);
        } else {
          var scrubbed := rewrite(stored.value.s);
          if scrubbed != stored.value.s {
            value := Put(value, field, Str(scrubbed));
            redacted := redacted + [field];
          }
        }
      }
    }
    assert PERSON_INFO_STRING_FIELDS[..2] == PERSON_INFO_STRING_FIELDS;
    return if |dropped| == 0 && |redacted| == 0 then None else Some(Repair(value, dropped, redacted));
  }

  function RepairInitialPersonInfo(stored: Option<Json>, rewrite: Rewriter): Option<Repair> {
    match stored
    case Some(Obj(record)) => RepairPersonInfoFields(record, rewrite)
    case _ => None
  }

  function DropHazardousProps(stored: seq<Entry>, props: Option<Json>): Option<Repair> {
    if !Truthy(props) || TypeOf(props.value) == ObjectType then None
    else Some(Repair(Delete(stored, PROPS), [Dropped(PROPS, TypeOf(props.value))], []))
  }

  function RepairClientSessionProps(stored: Option<Json>, rewrite: Rewriter): Option<Repair> {
    match stored
    case Some(Obj(record)) =>
      var props := Get(record, PROPS);
      if props.None? || !props.value.Obj? then DropHazardousProps(record, props)
      else
        (match RepairPersonInfoFields(props.value.entries, rewrite)
         case None => None
         case Some(repair) => Some(repair.(value := Put(record, PROPS, Obj(repair.value)))))
    case _ => None
  }

  // ----- The re-masking -----

  /** The record matches the schema: `u` a string, `r` a string or absent. */
  predicate IsPersonInfo(record: seq<Entry>) {
    && Get(record, "u").Some? && Get(record, "u").value.Str?
    && (Get(record, "r").Some? ==> Get(record, "r").value.Str?)
  }

  function RedactPersonInfo(record: seq<Entry>, rewrite: Rewriter): Option<seq<Entry>>
    requires IsPersonInfo(record)
  {
    var u := Get(record, "u").value.s;
    var withU := Put(record, "u", Str(rewrite(u)));
    var r := Get(record, "r");
    var redacted := if r.Some? then Put(withU, "r", Str(rewrite(r.value.s))) else withU;
    if rewrite(u) == u && (r.Some? ==> rewrite(r.value.s) == r.value.s) then None else Some(redacted)
  }

  function RemaskInitial(stored: Option<Json>, rewrite: Rewriter): Option<seq<Entry>> {
    if stored.Some? && stored.value.Obj? && IsPersonInfo(stored.value.entries) then
      RedactPersonInfo(stored.value.entries, rewrite)
    else None
  }

  function RemaskSession(stored: Option<Json>, rewrite: Rewriter): Option<seq<Entry>> {
    if stored.None? || !stored.value.Obj? then None
    else
      var props := Get(stored.value.entries, PROPS);
      if props.None? || !props.value.Obj? || !IsPersonInfo(props.value.entries) then None
      else
        match RedactPersonInfo(props.value.entries, rewrite)
        case None => None
        case Some(redacted) => Some(Put(stored.value.entries, PROPS, Obj(redacted)))
  }

  // ----- posthog-js's own store -----

  function Look(store: map<string, Json>, key: string): Option<Json> {
    if key in store then Some(store[key]) else None
  }

  function Write(store: map<string, Json>, key: string, value: Option<seq<Entry>>): map<string, Json> {
    if value.None? then store else store[key := Obj(value.value)]
  }

  function ValueOf(repair: Option<Repair>): Option<seq<Entry>> {
    if repair.None? then None else Some(repair.value.value)
  }

  /** Every site that needs it is rewritten. */
  function RepairStore(store: map<string, Json>, rewrite: Rewriter): map<string, Json> {
    var store1 :=
      Write(store, CLIENT_SESSION_PROPS, ValueOf(RepairClientSessionProps(Look(store, CLIENT_SESSION_PROPS), rewrite)));
    Write(store1, INITIAL_PERSON_INFO, ValueOf(RepairInitialPersonInfo(Look(store, INITIAL_PERSON_INFO), rewrite)))
  }

  function Remask(store: map<string, Json>, rewrite: Rewriter): map<string, Json> {
    var store1 := Write(store, INITIAL_PERSON_INFO, RemaskInitial(Look(store, INITIAL_PERSON_INFO), rewrite));
    Write(store1, CLIENT_SESSION_PROPS, RemaskSession(Look(store, CLIENT_SESSION_PROPS), rewrite))
  }

  class Persistence {
    var props: map<string, Json>
    ghost var writes: nat

    constructor (props: map<string, Json>)
      ensures this.props == props && writes == 0
    {
      this.props := props;
      writes := 0;
    }

    method Register(key: string, value: seq<Entry>)
      modifies this
      ensures props == old(props)[key := Obj(value)] && writes == old(writes) + 1
    {
      props := props[key := Obj(value)];
      writes := writes + 1;
    }

    /** The guard's sweep over both sites. */
    method RepairPersonInfo(rewrite: Rewriter) returns (reported: seq<string>)
      modifies this
      ensures props == RepairStore(old(props), rewrite)
      ensures CLIENT_SESSION_PROPS in reported <==>
        RepairClientSessionProps(Look(old(props), CLIENT_SESSION_PROPS), rewrite).Some?
      ensures INITIAL_PERSON_INFO in reported <==>
        RepairInitialPersonInfo(Look(old(props), INITIAL_PERSON_INFO), rewrite).Some?
      ensures writes == old(writes) + |reported|
    {
      reported := [];
      var session := RepairClientSessionProps(Look(props, CLIENT_SESSION_PROPS), rewrite);
      var initial := RepairInitialPersonInfo(Look(props, INITIAL_PERSON_INFO), rewrite);
      if session.Some? {
        Register(CLIENT_SESSION_PROPS, session.value.value);
        reported := reported + [CLIENT_SESSION_PROPS];
      }
      if initial.Some? {
        Register(INITIAL_PERSON_INFO, initial.value.value);
        reported := reported + [INITIAL_PERSON_INFO];
      }
    }

    /** `remaskPersistedUrls`: one write for all updates, or none. */
    method RemaskPersistedUrls(rewrite: Rewriter)
      modifies this
      ensures props == Remask(old(props), rewrite)
      ensures writes == old(writes) + if RemaskInitial(Look(old(props), INITIAL_PERSON_INFO), rewrite).None?
                                      && RemaskSession(Look(old(props), CLIENT_SESSION_PROPS), rewrite).None?
                                   then 0 else 1
    {
      var initial := RemaskInitial(Look(props, INITIAL_PERSON_INFO), rewrite);
      var session := RemaskSession(Look(props, CLIENT_SESSION_PROPS), rewrite);
      var updates: map<string, Json> := map[];
      if initial.Some? {
        updates := updates[INITIAL_PERSON_INFO := Obj(initial.value)];
      }
      if session.Some? {
        updates := updates[CLIENT_SESSION_PROPS := Obj(session.value)];
      }
      if |updates| > 0 {
        props := props + updates;
        writes := writes + 1;
      }
    }
  }

  // ----- One record -----

  /** The fields posthog-js reads as strings are absent or strings with nothing to redact. */
  ghost predicate Healthy(record: seq<Entry>, rewrite: Rewriter) {
    forall f :: f in PERSON_INFO_STRING_FIELDS && Get(record, f).Some? ==>
      Get(record, f).value.Str? && rewrite(Get(record, f).value.s) == Get(record, f).value.s
  }

  lemma FieldIsRepaired(so: Repair, field: string, rewrite: Rewriter, other: string)
    requires DeepRedaction.Settles(rewrite)
    ensures var after := RepairField(so, field, rewrite);
      && (other != field ==> Get(after.value, other) == Get(so.value, other))
      && (Get(after.value, field).Some? ==>
            && Get(after.value, field).value.Str?
            && rewrite(Get(after.value, field).value.s) == Get(after.value, field).value.s)
      && (after == so <==> (Get(so.value, field).Some? ==>
            Get(so.value, field).value.Str? && rewrite(Get(so.value, field).value.s) == Get(so.value, field).value.s))
  {
    match Get(so.value, field)
    case None =>
    case Some(Str(s)) =>
      GetPut(so.value, field, Str(rewrite(s)), other);
      GetPut(so.value, field, Str(rewrite(s)), field);
    case Some(_) =>
      GetDelete(so.value, field, other);
      GetDelete(so.value, field, field);
  }

  lemma TwoFields(so: Repair, rewrite: Rewriter)
    ensures RepairFields(so, PERSON_INFO_STRING_FIELDS, rewrite)
      == RepairField(RepairField(so, "r", rewrite), "u", rewrite)
  {
    assert PERSON_INFO_STRING_FIELDS[..1] == ["r"] && ["r"][..0] == [];
    assert RepairFields(so, ["r"], rewrite) == RepairField(so, "r", rewrite);
  }

  /** What the two-field sweep does to any field. */
  lemma RecordIsRepaired(record: seq<Entry>, rewrite: Rewriter)
    requires DeepRedaction.Settles(rewrite)
    ensures RepairPersonInfoFields(record, rewrite).None? <==> Healthy(record, rewrite)
    ensures RepairPersonInfoFields(record, rewrite).Some? ==>
      && Healthy(RepairPersonInfoFields(record, rewrite).value.value, rewrite)
      && forall f :: f !in PERSON_INFO_STRING_FIELDS ==>
        Get(RepairPersonInfoFields(record, rewrite).value.value, f) == Get(record, f)
  {
    var start := Repair(record, [], []);
    var afterR := RepairField(start, "r", rewrite);
    var afterU := RepairField(afterR, "u", rewrite);
    TwoFields(start, rewrite);
    FieldIsRepaired(start, "r", rewrite, "u");
    FieldIsRepaired(afterR, "u", rewrite, "r");
    forall f | f !in PERSON_INFO_STRING_FIELDS ensures Get(afterU.value, f) == Get(record, f) {
      FieldIsRepaired(start, "r", rewrite, f);
      FieldIsRepaired(afterR, "u", rewrite, f);
    }
    assert forall f :: f in PERSON_INFO_STRING_FIELDS <==> f == "r" || f == "u";
  }

  // ----- Both sites -----

  /** What posthog-js reads at a site is safe and already redacted. */
  ghost predicate InitialHealthy(stored: Option<Json>, rewrite: Rewriter) {
    stored.Some? && stored.value.Obj? ==> Healthy(stored.value.entries, rewrite)
  }

  /** `'r' in props` throws on a truthy primitive and nothing else. */
  predicate Hazardous(props: Option<Json>) {
    || (props.Some? && props.value.Bool? && props.value != Bool(false))
    || (props.Some? && props.value.Num? && props.value != Num(0.0))
    || (props.Some? && props.value.Str? && props.value != Str(""))
  }

  ghost predicate SessionHealthy(stored: Option<Json>, rewrite: Rewriter) {
    stored.Some? && stored.value.Obj? ==>
      var props := Get(stored.value.entries, PROPS);
      !Hazardous(props) && (props.Some? && props.value.Obj? ==> Healthy(props.value.entries, rewrite))
  }

  lemma InitialIsRepaired(stored: Option<Json>, rewrite: Rewriter)
    requires DeepRedaction.Settles(rewrite)
    ensures var repair := RepairInitialPersonInfo(stored, rewrite);
      && (repair.None? <==> InitialHealthy(stored, rewrite))
      && (repair.Some? ==>
            && stored.Some? && stored.value.Obj? && Healthy(repair.value.value, rewrite)
            && forall f :: f !in PERSON_INFO_STRING_FIELDS ==>
              Get(repair.value.value, f) == Get(stored.value.entries, f))
  {
    if stored.Some? && stored.value.Obj? {
      RecordIsRepaired(stored.value.entries, rewrite);
    }
  }

  lemma SessionIsRepaired(stored: Option<Json>, rewrite: Rewriter)
    requires DeepRedaction.Settles(rewrite)
    ensures var repair := RepairClientSessionProps(stored, rewrite);
      && (repair.None? <==> SessionHealthy(stored, rewrite))
      && (repair.Some? ==>
            && stored.Some? && stored.value.Obj? && SessionHealthy(Some(Obj(repair.value.value)), rewrite)
            && forall f :: f != PROPS ==> Get(repair.value.value, f) == Get(stored.value.entries, f))
  {
    if stored.Some? && stored.value.Obj? {
      var record := stored.value.entries;
      var props := Get(record, PROPS);
      if props.Some? && props.value.Obj? {
        RecordIsRepaired(props.value.entries, rewrite);
        var fixed := RepairPersonInfoFields(props.value.entries, rewrite);
        if fixed.Some? {
          forall f: string
            ensures Get(Put(record, PROPS, Obj(fixed.value.value)), f) ==
                    if f == PROPS then Some(Obj(fixed.value.value)) else Get(record, f)
          {
            GetPut(record, PROPS, Obj(fixed.value.value), f);
          }
        }
      } else {
        forall f: string ensures Get(Delete(record, PROPS), f) == if f == PROPS then None else Get(record, f) {
          GetDelete(record, PROPS, f);
        }
      }
    }
  }

  // ----- Results -----

  /**
   * One repair makes both records healthy, touches nothing else, and leaves no
   * work: a second repair reports nothing and the independent re-masking writes
   * nothing.
   */
  lemma RepairLeavesNoWork(store: map<string, Json>, rewrite: Rewriter)
    requires DeepRedaction.Settles(rewrite)
    ensures var after := RepairStore(store, rewrite);
      && SessionHealthy(Look(after, CLIENT_SESSION_PROPS), rewrite)
      && InitialHealthy(Look(after, INITIAL_PERSON_INFO), rewrite)
      && (forall k :: k != CLIENT_SESSION_PROPS && k != INITIAL_PERSON_INFO ==> Look(after, k) == Look(store, k))
      && RepairClientSessionProps(Look(after, CLIENT_SESSION_PROPS), rewrite).None?
      && RepairInitialPersonInfo(Look(after, INITIAL_PERSON_INFO), rewrite).None?
      && RemaskInitial(Look(after, INITIAL_PERSON_INFO), rewrite).None?
      && RemaskSession(Look(after, CLIENT_SESSION_PROPS), rewrite).None?
      && Remask(after, rewrite) == after
  {
    var after := RepairStore(store, rewrite);
    assert CLIENT_SESSION_PROPS[1] != INITIAL_PERSON_INFO[1];
    SessionIsRepaired(Look(store, CLIENT_SESSION_PROPS), rewrite);
    InitialIsRepaired(Look(store, INITIAL_PERSON_INFO), rewrite);
    SessionIsRepaired(Look(after, CLIENT_SESSION_PROPS), rewrite);
    InitialIsRepaired(Look(after, INITIAL_PERSON_INFO), rewrite);
  }

  /** posthog-js calls string methods on both fields without looking at their type. */
  ghost predicate ReadThrows(record: seq<Entry>) {
    exists f :: f in PERSON_INFO_STRING_FIELDS && Get(record, f).Some? && !Get(record, f).value.Str?
  }

  ghost predicate InitialThrows(stored: Option<Json>) {
    stored.Some? && stored.value.Obj? && ReadThrows(stored.value.entries)
  }

  ghost predicate SessionThrows(stored: Option<Json>) {
    stored.Some? && stored.value.Obj? &&
    var props := Get(stored.value.entries, PROPS);
    Hazardous(props) || (props.Some? && props.value.Obj? && ReadThrows(props.value.entries))
  }

  ghost predicate CaptureThrows(store: map<string, Json>) {
    InitialThrows(Look(store, INITIAL_PERSON_INFO)) || SessionThrows(Look(store, CLIENT_SESSION_PROPS))
  }

  /** The outage is over after a repair, and a field is dropped only where it was the outage. */
  lemma CaptureIsRevived(store: map<string, Json>, rewrite: Rewriter)
    requires DeepRedaction.Settles(rewrite)
    ensures !CaptureThrows(RepairStore(store, rewrite))
  {
    RepairLeavesNoWork(store, rewrite);
  }

  lemma DroppedExactlyWhenReadThrows(record: seq<Entry>, rewrite: Rewriter)
    requires DeepRedaction.Settles(rewrite)
    ensures ReadThrows(record) <==>
      RepairPersonInfoFields(record, rewrite).Some? && RepairPersonInfoFields(record, rewrite).value.dropped != []
  {
    var start := Repair(record, [], []);
    var afterR := RepairField(start, "r", rewrite);
    TwoFields(start, rewrite);
    FieldIsRepaired(start, "r", rewrite, "u");
    assert forall f :: f in PERSON_INFO_STRING_FIELDS <==> f == "r" || f == "u";
  }

  /**
   * The re-masking is the narrower sweep: it writes a record exactly when the
   * record has the full string shape and the repair would write it too, and the
   * two then store the same fields.
   */
  lemma RemaskAgreesWithRepair(record: seq<Entry>, rewrite: Rewriter)
    requires DeepRedaction.Settles(rewrite)
    ensures RemaskInitial(Some(Obj(record)), rewrite).Some? <==>
      Shaped(record) && RepairPersonInfoFields(record, rewrite).Some?
    ensures RemaskInitial(Some(Obj(record)), rewrite).Some? ==>
      forall f :: Get(RemaskInitial(Some(Obj(record)), rewrite).value, f)
        == Get(RepairPersonInfoFields(record, rewrite).value.value, f)
  {
    RecordIsRepaired(record, rewrite);
    assert forall f :: f in PERSON_INFO_STRING_FIELDS <==> f == "r" || f == "u";
    if RemaskInitial(Some(Obj(record)), rewrite).Some? {
      forall f: string
        ensures Get(RemaskInitial(Some(Obj(record)), rewrite).value, f)
          == Get(RepairPersonInfoFields(record, rewrite).value.value, f)
      {
        RemaskedField(record, rewrite, f);
        RepairedField(record, rewrite, f);
      }
    }
  }

  /** A string rewritten; anything else is gone. */
  function Scrubbed(v: Option<Json>, rewrite: Rewriter): Option<Json> {
    if v.Some? && v.value.Str? then Some(Str(rewrite(v.value.s))) else None
  }

  /** `after` has both fields of `before` scrubbed and every other one as it was. */
  ghost predicate ScrubbedFrom(after: seq<Entry>, before: seq<Entry>, rewrite: Rewriter) {
    forall f :: Get(after, f) == if f == "r" || f == "u" then Scrubbed(Get(before, f), rewrite) else Get(before, f)
  }

  /** A string `u`, and a string `r` or none. */
  ghost predicate Shaped(record: seq<Entry>) {
    && (exists u :: Get(record, "u") == Some(Str(u)))
    && (Get(record, "r") == None || exists r :: Get(record, "r") == Some(Str(r)))
  }

  lemma RemaskedField(record: seq<Entry>, rewrite: Rewriter, f: string)
    requires RemaskInitial(Some(Obj(record)), rewrite).Some?
    ensures Get(RemaskInitial(Some(Obj(record)), rewrite).value, f) ==
      if f == "r" || f == "u" then Scrubbed(Get(record, f), rewrite) else Get(record, f)
  {
    var u, r := Get(record, "u").value.s, Get(record, "r");
    var withU := Put(record, "u", Str(rewrite(u)));
    GetPut(record, "u", Str(rewrite(u)), f);
    if r.Some? {
      GetPut(withU, "r", Str(rewrite(r.value.s)), f);
    }
  }

  lemma RepairedField(record: seq<Entry>, rewrite: Rewriter, f: string)
    requires DeepRedaction.Settles(rewrite) && RepairPersonInfoFields(record, rewrite).Some?
    ensures Get(RepairPersonInfoFields(record, rewrite).value.value, f) ==
      if f == "r" || f == "u" then Scrubbed(Get(record, f), rewrite) else Get(record, f)
  {
    var start := Repair(record, [], []);
    var afterR := RepairField(start, "r", rewrite);
    TwoFields(start, rewrite);
    FieldAfter(start, "r", rewrite, f);
    FieldAfter(afterR, "u", rewrite, f);
  }

  lemma FieldAfter(so: Repair, field: string, rewrite: Rewriter, f: string)
    ensures Get(RepairField(so, field, rewrite).value, f) ==
            if f == field then Scrubbed(Get(so.value, f), rewrite) else Get(so.value, f)
  {
    match Get(so.value, field)
    case None =>
    case Some(Str(s)) => GetPut(so.value, field, Str(rewrite(s)), f);
    case Some(_) => GetDelete(so.value, field, f);
  }

  // ----- The whole store -----

  lemma RecordIsScrubbed(record: seq<Entry>, rewrite: Rewriter)
    requires DeepRedaction.Settles(rewrite)
    ensures RepairPersonInfoFields(record, rewrite).Some? ==>
      ScrubbedFrom(RepairPersonInfoFields(record, rewrite).value.value, record, rewrite)
    ensures RepairPersonInfoFields(record, rewrite).None? ==> ScrubbedFrom(record, record, rewrite)
  {
    RecordIsRepaired(record, rewrite);
    if RepairPersonInfoFields(record, rewrite).Some? {
      forall f: string
        ensures Get(RepairPersonInfoFields(record, rewrite).value.value, f) ==
          if f == "r" || f == "u" then Scrubbed(Get(record, f), rewrite) else Get(record, f)
      {
        RepairedField(record, rewrite, f);
      }
    } else {
      assert forall f :: f in PERSON_INFO_STRING_FIELDS <==> f == "r" || f == "u";
    }
  }

  /** `props` is scrubbed if an object, gone if hazardous, else as it was; nothing else moves. */
  ghost predicate PropsScrubbedFrom(after: seq<Entry>, before: seq<Entry>, rewrite: Rewriter) {
    && (forall f :: f != "props" ==> Get(after, f) == Get(before, f))
    && var was, now := Get(before, "props"), Get(after, "props");
      if was.Some? && was.value.Obj? then
        now.Some? && now.value.Obj? && ScrubbedFrom(now.value.entries, was.value.entries, rewrite)
      else now == if Hazardous(was) then None else was
  }

  lemma SessionIsScrubbed(record: seq<Entry>, rewrite: Rewriter)
    requires DeepRedaction.Settles(rewrite)
    ensures var repair := RepairClientSessionProps(Some(Obj(record)), rewrite);
      PropsScrubbedFrom(if repair.Some? then repair.value.value else record, record, rewrite)
  {
    var props := Get(record, PROPS);
    if props.Some? && props.value.Obj? {
      RecordIsScrubbed(props.value.entries, rewrite);
      var fixed := RepairPersonInfoFields(props.value.entries, rewrite);
      if fixed.Some? {
        forall f: string
          ensures Get(Put(record, PROPS, Obj(fixed.value.value)), f) ==
                  if f == PROPS then Some(Obj(fixed.value.value)) else Get(record, f)
        {
          GetPut(record, PROPS, Obj(fixed.value.value), f);
        }
      }
    } else {
      forall f: string ensures Get(Delete(record, PROPS), f) == if f == PROPS then None else Get(record, f) {
        GetDelete(record, PROPS, f);
      }
    }
  }

  /** What a repair leaves in the store, key by key. */
  lemma RepairedStoreExactly(store: map<string, Json>, rewrite: Rewriter)
    requires DeepRedaction.Settles(rewrite)
    ensures var after := RepairStore(store, rewrite);
      && after.Keys == store.Keys
      && forall k :: k in store ==>
        if k == "$initial_person_info" && store[k].Obj? then
          after[k].Obj? && ScrubbedFrom(after[k].entries, store[k].entries, rewrite)
        else if k == "$client_session_props" && store[k].Obj? then
          after[k].Obj? && PropsScrubbedFrom(after[k].entries, store[k].entries, rewrite)
        else after[k] == store[k]
  {
    assert CLIENT_SESSION_PROPS[1] != INITIAL_PERSON_INFO[1];
    var session, initial := Look(store, CLIENT_SESSION_PROPS), Look(store, INITIAL_PERSON_INFO);
    if session.Some? && session.value.Obj? {
      SessionIsScrubbed(session.value.entries, rewrite);
    }
    if initial.Some? && initial.value.Obj? {
      RecordIsScrubbed(initial.value.entries, rewrite);
    }
  }

  /** The report of one record: the fields that were no strings, by their `typeof`, and those rewritten. */
  lemma ReportExactly(record: seq<Entry>, rewrite: Rewriter)
    requires RepairPersonInfoFields(record, rewrite).Some?
    ensures var repair := RepairPersonInfoFields(record, rewrite).value;
      && repair.dropped == Unfit(record, "r") + Unfit(record, "u")
      && repair.redacted == Marked(record, "r", rewrite) + Marked(record, "u", rewrite)
  {
    var start := Repair(record, [], []);
    var afterR := RepairField(start, "r", rewrite);
    TwoFields(start, rewrite);
    FieldIsReported(start, "r", rewrite);
    FieldIsReported(afterR, "u", rewrite);
    FieldAfter(start, "r", rewrite, "u");
    assert [] + Unfit(record, "r") == Unfit(record, "r");
    assert [] + Marked(record, "r", rewrite) == Marked(record, "r", rewrite);
  }

  lemma FieldIsReported(so: Repair, field: string, rewrite: Rewriter)
    ensures RepairField(so, field, rewrite).dropped == so.dropped + Unfit(so.value, field)
    ensures RepairField(so, field, rewrite).redacted == so.redacted + Marked(so.value, field, rewrite)
  {
    assert so.dropped + [] == so.dropped && so.redacted + [] == so.redacted;
  }

  /** What is reported of a field that is no string. */
  function Unfit(record: seq<Entry>, field: string): seq<Dropped> {
    var v := Get(record, field);
    if v.None? || v.value.Str? then []
    else if v.value.Bool? then [Dropped(field, BooleanType)]
    else if v.value.Num? then [Dropped(field, NumberType)]
    else [Dropped(field, ObjectType)]
  }

  function Marked(record: seq<Entry>, field: string, rewrite: Rewriter): seq<string> {
    var v := Get(record, field);
    if v.Some? && v.value.Str? && rewrite(v.value.s) != v.value.s then [field] else []
  }

  /** The report of a hazardous `props`. */
  lemma HazardIsReported(record: seq<Entry>, rewrite: Rewriter)
    requires Hazardous(Get(record, "props"))
    ensures var repair := RepairClientSessionProps(Some(Obj(record)), rewrite);
      && repair.Some? && repair.value.redacted == []
      && repair.value.dropped == [Dropped("props",
                                          if Get(record, "props").value.Bool? then BooleanType
                                          else if Get(record, "props").value.Num? then NumberType
                                          else StringType)]
  {
  }

  lemma RemaskedRecord(record: seq<Entry>, rewrite: Rewriter)
    requires Shaped(record)
    ensures IsPersonInfo(record)
    ensures RedactPersonInfo(record, rewrite).Some? ==>
      ScrubbedFrom(RedactPersonInfo(record, rewrite).value, record, rewrite)
    ensures RedactPersonInfo(record, rewrite).None? ==> ScrubbedFrom(record, record, rewrite)
  {
    if RedactPersonInfo(record, rewrite).Some? {
      forall f: string
        ensures Get(RedactPersonInfo(record, rewrite).value, f) ==
          if f == "r" || f == "u" then Scrubbed(Get(record, f), rewrite) else Get(record, f)
      {
        RemaskedField(record, rewrite, f);
      }
    }
  }

  /** What a re-masking leaves in the store: the shaped records scrubbed, all else as it was. */
  lemma RemaskedStoreExactly(store: map<string, Json>, rewrite: Rewriter)
    ensures var after := Remask(store, rewrite);
      && after.Keys == store.Keys
      && forall k :: k in store ==>
        if k == "$initial_person_info" && store[k].Obj? && Shaped(store[k].entries) then
          after[k].Obj? && ScrubbedFrom(after[k].entries, store[k].entries, rewrite)
        else if k == "$client_session_props" && store[k].Obj? && PropsShaped(store[k].entries) then
          && after[k].Obj? && PropsShaped(after[k].entries)
          && PropsScrubbedFrom(after[k].entries, store[k].entries, rewrite)
        else after[k] == store[k]
  {
    assert CLIENT_SESSION_PROPS[1] != INITIAL_PERSON_INFO[1];
    var session, initial := Look(store, CLIENT_SESSION_PROPS), Look(store, INITIAL_PERSON_INFO);
    if session.Some? && session.value.Obj? {
      RemaskedSession(session.value.entries, rewrite);
    }
    if initial.Some? && initial.value.Obj? && Shaped(initial.value.entries) {
      RemaskedRecord(initial.value.entries, rewrite);
    }
  }

  ghost predicate PropsShaped(record: seq<Entry>) {
    Get(record, "props").Some? && Get(record, "props").value.Obj? && Shaped(Get(record, "props").value.entries)
  }

  lemma RemaskedSession(record: seq<Entry>, rewrite: Rewriter)
    ensures var after := RemaskSession(Some(Obj(record)), rewrite);
      && (after.Some? ==> PropsShaped(record))
      && (PropsShaped(record) ==>
        var now := if after.Some? then after.value else record;
        PropsShaped(now) && PropsScrubbedFrom(now, record, rewrite))
  {
    var props := Get(record, PROPS);
    if PropsShaped(record) {
      RemaskedRecord(props.value.entries, rewrite);
      var redacted := RedactPersonInfo(props.value.entries, rewrite);
      if redacted.Some? {
        forall f: string
          ensures Get(Put(record, PROPS, Obj(redacted.value)), f) ==
                  if f == PROPS then Some(Obj(redacted.value)) else Get(record, f)
        {
          GetPut(record, PROPS, Obj(redacted.value), f);
        }
      }
    }
  }

  /** All of it for the url redaction itself. */
  lemma RepairWithUrlRedaction(store: map<string, Json>, names: set<string>)
    ensures var rewrite := DeepRedaction.UrlRewriter(names);
      var after := RepairStore(store, rewrite);
      !CaptureThrows(after) && RepairStore(after, rewrite) == after && Remask(after, rewrite) == after
  {
    DeepRedaction.UrlRewriterSettles(names);
    RepairLeavesNoWork(store, DeepRedaction.UrlRewriter(names));
    CaptureIsRevived(store, DeepRedaction.UrlRewriter(names));
  }
}
