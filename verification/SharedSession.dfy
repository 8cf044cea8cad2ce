/**
 * Resuming the visitor's most recently active session when the browser crosses
 * between sites that share a cookie: which of this origin's own record and the
 * shared cookies holds it, and what is written so that the analytics library's
 * load rule picks that one.
 */
module SharedSession {
  import opened Optional
  import opened Text
  import opened Json

  const SESSION_KEY: string := "$sesid"
  const CLIENT_SESSION_PROPS: string := "$client_session_props"
  const CONSENT_KEY_PREFIX: string := "__ph_opt_in_out_"
  const SESSION_IDLE_TIMEOUT_MS: int := 30 * 60 * 1000
  const MAX_SAFE_INTEGER: int := 9007199254740991

  // ----- Sessions -----

  datatype StoredSession = StoredSession(activity: int, id: string, start: int)

  predicate IsTimestamp(n: int) {
    0 < n <= MAX_SAFE_INTEGER
  }

  /** A tuple the library itself would resume. */
  type Session = s: StoredSession | IsTimestamp(s.activity) && s.id != "" && IsTimestamp(s.start)
    witness StoredSession(1, "s", 1)

  function ReadTimestamp(v: Json): Option<int> {
    if v.Num? && v.value.Floor as real == v.value && IsTimestamp(v.value.Floor) then Some(v.value.Floor) else None
  }

  /** The session a record holds; a missing start is completed with the activity time. */
  function SessionOf(record: seq<Entry>): Option<Session> {
    match Get(record, SESSION_KEY)
    case Some(Arr(stored)) =>
      if |stored| < 2 then None
      else
        var activity, start := ReadTimestamp(stored[0]), ReadTimestamp(if |stored| == 2 then stored[0] else stored[2]);
        if activity.None? || !stored[1].Str? || stored[1].s == "" || start.None? then None
        else Some(StoredSession(activity.value, stored[1].s, start.value))
    case _ => None
  }

  /**
   * Exactly the tuples that are adopted: an activity time, an id, and a start
   * that only a two-element tuple may leave to the activity time.
   */
  lemma SessionOfExactly(record: seq<Entry>, s: Session)
    ensures SessionOf(record) == Some(s) <==>
      var stored := Get(record, SESSION_KEY);
      && stored.Some? && stored.value.Arr? && |stored.value.items| >= 2
      && stored.value.items[0] == Num(s.activity as real) && stored.value.items[1] == Str(s.id)
      && (if |stored.value.items| == 2 then s.start == s.activity else stored.value.items[2] == Num(s.start as real))
  {
    assert (s.activity as real).Floor == s.activity && (s.start as real).Floor == s.start;
  }

  predicate IsSafeInteger(v: Json) {
    v.Num? && v.value.Floor as real == v.value && 1 <= v.value.Floor <= 9007199254740991
  }

  /** A tuple is resumable exactly when its times are positive safe integers and its id is not empty. */
  lemma ResumableExactly(record: seq<Entry>)
    ensures SessionOf(record).Some? <==>
      var stored := Get(record, "$sesid");
      && stored.Some? && stored.value.Arr? && |stored.value.items| >= 2
      && IsSafeInteger(stored.value.items[0])
      && stored.value.items[1].Str? && stored.value.items[1] != Str("")
      && (|stored.value.items| > 2 ==> IsSafeInteger(stored.value.items[2]))
  {
  }

  /** What the library writes when it resets the session. */
  predicate IsCleared(stored: Json) {
    stored.Arr? && stored.items != [] && forall part :: part in stored.items ==> part == Null
  }

  function Tuple(session: Session): Json {
    Arr([Num(session.activity as real), Str(session.id), Num(session.start as real)])
  }

  /** The record with the session in it, without another session's entry properties. */
  function WithSession(record: seq<Entry>, session: Session): seq<Entry> {
    var next := Put(record, SESSION_KEY, Tuple(session));
    match Get(next, CLIENT_SESSION_PROPS)
    case Some(Obj(props)) =>
      if Get(props, "sessionId") != Some(Str(session.id)) then Delete(next, CLIENT_SESSION_PROPS) else next
    case _ => next
  }

  predicate MoreRecent(candidate: Session, current: Session) {
    candidate.activity > current.activity
  }

  /** The first of the sessions with the latest activity. */
  function Latest(sessions: seq<Option<Session>>): Option<Session> {
    if sessions == [] then None
    else
      var latest, last := Latest(sessions[..|sessions| - 1]), sessions[|sessions| - 1];
      if last.Some? && (latest.None? || MoreRecent(last.value, latest.value)) then last else latest
  }

  /** Every session before position j was active earlier, and none was active later. */
  ghost predicate IsFirstMaximum(sessions: seq<Option<Session>>, j: nat)
    requires j < |sessions|
  {
    && sessions[j].Some?
    && (forall i :: 0 <= i < j && sessions[i].Some? ==> MoreRecent(sessions[j].value, sessions[i].value))
    && (forall i :: 0 <= i < |sessions| && sessions[i].Some? ==> !MoreRecent(sessions[i].value, sessions[j].value))
  }

  lemma {:induction false} LatestIsFirstMaximum(sessions: seq<Option<Session>>) returns (j: nat)
    ensures Latest(sessions).None? <==> forall i :: 0 <= i < |sessions| ==> sessions[i].None?
    ensures Latest(sessions).Some? ==>
      j < |sessions| && sessions[j] == Latest(sessions) && IsFirstMaximum(sessions, j)
  {
    j := 0;
    if sessions != [] {
      var front, last := sessions[..|sessions| - 1], sessions[|sessions| - 1];
      j := LatestIsFirstMaximum(front);
      assert forall i :: 0 <= i < |front| ==> sessions[i] == front[i];
      if last.Some? && (Latest(front).None? || MoreRecent(last.value, Latest(front).value)) {
        j := |front|;
      }
    }
  }

  method LatestSession(sessions: seq<Option<Session>>) returns (latest: Option<Session>)
    ensures latest == Latest(sessions)
  {
    latest := None;
    for i := 0 to |sessions|
      invariant latest == Latest(sessions[..i])
    {
      var session := sessions[i];
      assert sessions[..i + 1][..i] == sessions[..i];
      if session.Some? && (latest.None? || MoreRecent(session.value, latest.value)) {
        latest := session;
      }
    }
    assert sessions[..|sessions|] == sessions;
  }

  // ----- Cookies -----

  type Decoder = string -> Option<string>

  function TrimSpaces(s: string): string {
    if s != "" && s[0] == ' ' then TrimSpaces(s[1..]) else s
  }

  /** Every value stored under `name`, in browser order; a value that does not decode is None. */
  function CookieValues(pairs: seq<string>, name: string, decode: Decoder): seq<Option<string>> {
    if pairs == [] then []
    else
      var trimmed := TrimSpaces(pairs[|pairs| - 1]);
      CookieValues(pairs[..|pairs| - 1], name, decode)
      + if StartsWith(trimmed, name + "=") then [decode(trimmed[|name| + 1..])] else []
  }

  method ReadCookieValues(header: string, name: string, decode: Decoder) returns (values: seq<Option<string>>)
    ensures values == CookieValues(Split(header, ';'), name, decode)
  {
    var prefix, pairs := name + "=", Split(header, ';');
    values := [];
    for i := 0 to |pairs|
      invariant values == CookieValues(pairs[..i], name, decode)
    {
      var trimmed := TrimSpaces(pairs[i]);
      assert pairs[..i + 1][..i] == pairs[..i];
      if StartsWith(trimmed, prefix) {
        values := values + [decode(trimmed[|prefix|..])];
      }
    }
    assert pairs[..|pairs|] == pairs;
  }

  datatype Cookie = Cookie(name: string, value: string)

  /** What a browser can put in a cookie header (sections 4.1.1 and 5.4 of RFC 6265). */
  predicate WellFormed(c: Cookie) {
    && (c.name == "" || c.name[0] != ' ') && '=' !in c.name && ';' !in c.name
    && ';' !in c.value
  }

  function Pairs(cookies: seq<Cookie>): (r: seq<string>)
    ensures |r| == |cookies| && forall i :: 0 <= i < |cookies| ==> r[i] == cookies[i].name + "=" + cookies[i].value
  {
    if cookies == [] then [] else [cookies[0].name + "=" + cookies[0].value] + Pairs(cookies[1..])
  }

  /** Cookies separated by `; `, as a browser sends and reports them. */
  function Header(cookies: seq<Cookie>): string {
    JoinSpaced(Pairs(cookies), ';')
  }

  function ValuesNamed(cookies: seq<Cookie>, name: string, decode: Decoder): seq<Option<string>> {
    if cookies == [] then []
    else
      var last := cookies[|cookies| - 1];
      ValuesNamed(cookies[..|cookies| - 1], name, decode) + if last.name == name then [decode(last.value)] else []
  }

  /** A prefix test finds exactly the cookies of that name. */
  lemma PrefixIsTheName(c: Cookie, name: string)
    requires '=' !in c.name && '=' !in name
    ensures StartsWith(c.name + "=" + c.value, name + "=") <==> c.name == name
  {
    var text := c.name + "=" + c.value;
    CutAt(c.name, c.value, '=');
    if StartsWith(text, name + "=") {
      var rest := text[|name| + 1..];
      assert text == name + ['='] + rest;
      CutAt(name, rest, '=');
    }
  }

  /** Reading pairs, indented or not, gives the values of the cookies of that name. */
  lemma {:induction false} PairsHoldTheValues(cookies: seq<Cookie>, pairs: seq<string>, name: string, decode: Decoder)
    requires '=' !in name && forall c :: c in cookies ==> WellFormed(c)
    requires |pairs| == |cookies|
    requires forall i :: 0 <= i < |pairs| ==>
      || pairs[i] == cookies[i].name + "=" + cookies[i].value
      || pairs[i] == " " + (cookies[i].name + "=" + cookies[i].value)
    ensures CookieValues(pairs, name, decode) == ValuesNamed(cookies, name, decode)
  {
    if cookies != [] {
      var n := |cookies| - 1;
      var last, pair := cookies[n], pairs[n];
      PairsHoldTheValues(cookies[..n], pairs[..n], name, decode);
      var text := last.name + "=" + last.value;
      assert last in cookies;
      assert text[0] != ' ' && (pair == text || pair[1..] == text);
      assert TrimSpaces(pair) == text;
      PrefixIsTheName(last, name);
      assert text[|last.name| + 1..] == last.value;
    }
  }

  /** Reading a browser's header gives the values of the cookies of that name, in their order. */
  lemma CookiesReadBack(cookies: seq<Cookie>, name: string, decode: Decoder)
    requires '=' !in name && forall c :: c in cookies ==> WellFormed(c)
    ensures CookieValues(Split(Header(cookies), ';'), name, decode) == ValuesNamed(cookies, name, decode)
  {
    if cookies == [] {
      assert CookieValues([""], name, decode) == CookieValues([], name, decode) + [];
    } else {
      var pairs := Pairs(cookies);
      forall i | 0 <= i < |pairs| ensures ';' !in pairs[i] {
        assert cookies[i] in cookies;
      }
      SplitJoinSpaced(pairs, ';');
      PairsHoldTheValues(cookies, [pairs[0]] + Indented(pairs[1..]), name, decode);
    }
  }

  function Sanitized(token: string): string {
    if token == "" then ""
    else
      (match token[0] case '+' => "PL" case '/' => "SL" case '=' => "EQ" case c => [c]) + Sanitized(token[1..])
  }

  lemma {:induction false} SanitizedConcat(a: string, b: string)
    ensures Sanitized(a + b) == Sanitized(a) + Sanitized(b)
  {
    if a == "" {
      assert a + b == b;
    } else {
      assert (a + b)[1..] == a[1..] + b;
      SanitizedConcat(a[1..], b);
    }
  }

  /** Each of the three characters is spelled out, wherever it is; every other one stays. */
  lemma SanitizedExactly(a: string, c: char, b: string)
    ensures Sanitized("") == ""
    ensures Sanitized(a + [c] + b) ==
            Sanitized(a)
            + (if c == '+' then "PL" else if c == '/' then "SL" else if c == '=' then "EQ" else [c])
            + Sanitized(b)
  {
    SanitizedConcat(a + [c], b);
    SanitizedConcat(a, [c]);
    assert [c][1..] == "";
  }

  function PersistenceName(token: string): string {
    "ph_" + Sanitized(token) + "_posthog"
  }

  /** A persistence name has no `=`, so the prefix test is exact for it. */
  lemma {:induction false} SanitizedHasNoEquals(token: string)
    ensures '=' !in Sanitized(token) && '=' !in PersistenceName(token)
  {
    if token != "" {
      SanitizedHasNoEquals(token[1..]);
    }
  }

  // ----- The decision -----

  datatype Outcome =
    | OptedOut | NoCookieSession | AlreadyCurrent | UnreadableLocalRecord | LocalSessionNotComparable | Resumed

  /** The outcome, and the session to write if one is. */
  datatype Decision = Decision(outcome: Outcome, adopted: Option<Session>)

  predicate StillActive(session: Session, now: int) {
    now - session.activity <= SESSION_IDLE_TIMEOUT_MS
  }

  function ActiveOnly(sessions: seq<Option<Session>>, now: int): seq<Option<Session>> {
    if sessions == [] then []
    else
      var last := sessions[|sessions| - 1];
      ActiveOnly(sessions[..|sessions| - 1], now) + if last.Some? && StillActive(last.value, now) then [last] else []
  }

  function DecideOverUnresumable(stored: Json, cookies: seq<Option<Session>>, now: int): Decision {
    if !IsCleared(stored) then Decision(LocalSessionNotComparable, None)
    else
      match Latest(ActiveOnly(cookies, now))
      case None => Decision(LocalSessionNotComparable, None)
      case Some(active) => Decision(Resumed, Some(active))
  }

  /** `local` is this origin's record: empty if there is none, None if it is unreadable. */
  function Decide(optedOut: bool, cookies: seq<Option<Session>>, local: Option<seq<Entry>>, now: int): Decision {
    if optedOut then Decision(OptedOut, None)
    else
      var latest := Latest(cookies);
      if latest.None? then Decision(NoCookieSession, None)
      else if local.None? then Decision(UnreadableLocalRecord, None)
      else
        match Get(local.value, SESSION_KEY)
        case Some(stored) =>
          (match SessionOf(local.value)
           case None => DecideOverUnresumable(stored, cookies, now)
           case Some(own) =>
             if !MoreRecent(latest.value, own) then Decision(AlreadyCurrent, None) else Decision(Resumed, latest))
        case None =>
          if cookies[0].Some? && !MoreRecent(latest.value, cookies[0].value) then Decision(AlreadyCurrent, None)
          else Decision(Resumed, latest)
  }

  /** The record after the decision has been carried out. */
  function After(record: seq<Entry>, adopted: Option<Session>): seq<Entry> {
    if adopted.None? then record else WithSession(record, adopted.value)
  }

  // ----- The library's load rule -----

  /** This origin's own session if its record has the key, else the first cookie's. */
  function Loaded(record: seq<Entry>, cookies: seq<Option<Session>>): Option<Session> {
    if Get(record, SESSION_KEY).Some? then SessionOf(record) else if cookies == [] then None else cookies[0]
  }

  ghost predicate Candidate(s: Session, record: seq<Entry>, cookies: seq<Option<Session>>) {
    SessionOf(record) == Some(s) || Some(s) in cookies
  }

  /** One of the candidates, none of which was active later; nothing if there is none. */
  ghost predicate IsNewest(r: Option<Session>, record: seq<Entry>, cookies: seq<Option<Session>>) {
    && (r.Some? ==> Candidate(r.value, record, cookies))
    && forall s: Session :: Candidate(s, record, cookies) ==> r.Some? && !MoreRecent(s, r.value)
  }

  /** Entry properties of a session other than this one. */
  predicate NamesAnother(props: Option<Json>, session: Session) {
    props.Some? && props.value.Obj? && Get(props.value.entries, "sessionId") != Some(Str(session.id))
  }

  /** What a write changes: the session key, and entry properties that name another session. */
  lemma WriteChangesOnlyTheSession(record: seq<Entry>, session: Session, key: string)
    ensures Get(WithSession(record, session), key) ==
            if key == "$sesid" then
              Some(Arr([Num(session.activity as real), Str(session.id), Num(session.start as real)]))
            else if key == "$client_session_props" && NamesAnother(Get(record, key), session) then None
            else Get(record, key)
  {
    var next := Put(record, SESSION_KEY, Tuple(session));
    GetPut(record, SESSION_KEY, Tuple(session), key);
    GetPut(record, SESSION_KEY, Tuple(session), CLIENT_SESSION_PROPS);
    GetDelete(next, CLIENT_SESSION_PROPS, key);
  }

  /** A written session is read back as it was. */
  lemma WrittenIsRead(record: seq<Entry>, session: Session)
    ensures SessionOf(WithSession(record, session)) == Some(session)
  {
    WriteChangesOnlyTheSession(record, session, SESSION_KEY);
    assert (session.activity as real).Floor == session.activity && (session.start as real).Floor == session.start;
  }

  lemma LatestIsNewestCookie(cookies: seq<Option<Session>>)
    ensures Latest(cookies).Some? ==> Latest(cookies) in cookies
    ensures forall s: Session :: Some(s) in cookies ==> Latest(cookies).Some? && !MoreRecent(s, Latest(cookies).value)
  {
    var j := LatestIsFirstMaximum(cookies);
  }

  /**
   * With consent, and a readable local record whose session is resumable or
   * absent, the load rule ends up with the newest of the local session and every
   * cookie's.
   */
  lemma LoadsTheNewest(cookies: seq<Option<Session>>, record: seq<Entry>, now: int)
    requires Get(record, SESSION_KEY).Some? ==> SessionOf(record).Some?
    ensures IsNewest(Loaded(After(record, Decide(false, cookies, Some(record), now).adopted), cookies), record, cookies)
  {
    var adopted := Decide(false, cookies, Some(record), now).adopted;
    LatestIsNewestCookie(cookies);
    if adopted.Some? {
      WrittenIsRead(record, adopted.value);
      WriteChangesOnlyTheSession(record, adopted.value, SESSION_KEY);
    } else if Get(record, SESSION_KEY).None? && cookies != [] {
      assert cookies[0] in cookies;
    }
  }

  lemma LatestAppend(sessions: seq<Option<Session>>, last: Option<Session>)
    ensures Latest(sessions + [last]) ==
            if last.Some? && (Latest(sessions).None? || MoreRecent(last.value, Latest(sessions).value)) then last
            else Latest(sessions)
  {
    assert (sessions + [last])[..|sessions|] == sessions;
  }

  lemma {:induction false} LatestOfActive(cookies: seq<Option<Session>>, now: int)
    ensures Latest(ActiveOnly(cookies, now)) ==
            if Latest(cookies).Some? && StillActive(Latest(cookies).value, now) then Latest(cookies) else None
  {
    if cookies != [] {
      var front, last := cookies[..|cookies| - 1], cookies[|cookies| - 1];
      LatestOfActive(front, now);
      LatestAppend(front, last);
      assert front + [last] == cookies;
      var active := ActiveOnly(front, now);
      if last.Some? && StillActive(last.value, now) {
        LatestAppend(active, last);
      } else {
        assert active + [] == active;
      }
    }
  }

  lemma ClearedIsNotResumable(record: seq<Entry>)
    requires Get(record, SESSION_KEY).Some? && IsCleared(Get(record, SESSION_KEY).value)
    ensures SessionOf(record).None?
  {
    var stored := Get(record, SESSION_KEY).value.items;
    assert stored[0] in stored;
  }

  /** A cleared local tuple takes the newest cookie session exactly when that one is not idle. */
  lemma ClearedTakesTheNewestActive(cookies: seq<Option<Session>>, record: seq<Entry>, now: int)
    requires Get(record, SESSION_KEY).Some? && IsCleared(Get(record, SESSION_KEY).value)
    ensures var d := Decide(false, cookies, Some(record), now);
      && (d.outcome == Resumed <==> Latest(cookies).Some? && StillActive(Latest(cookies).value, now))
      && d.adopted == (if d.outcome == Resumed then Latest(cookies) else None)
      && (d.outcome == Resumed ==>
            IsNewest(Loaded(After(record, d.adopted), cookies), record, cookies))
  {
    ClearedIsNotResumable(record);
    LatestOfActive(cookies, now);
    LatestIsNewestCookie(cookies);
    if Latest(cookies).Some? {
      WrittenIsRead(record, Latest(cookies).value);
      WriteChangesOnlyTheSession(record, Latest(cookies).value, SESSION_KEY);
    }
  }

  /**
   * When the load rule is left without the newest session: exactly when a cookie
   * holds one and the local tuple is neither resumable nor a cleared one that
   * some cookie session, still active, can replace.
   */
  lemma LoadsTheNewestExactly(cookies: seq<Option<Session>>, record: seq<Entry>, now: int)
    ensures
      IsNewest(Loaded(After(record, Decide(false, cookies, Some(record), now).adopted), cookies), record, cookies) <==>
      (|| Get(record, SESSION_KEY).None?
       || SessionOf(record).Some?
       || Latest(cookies).None?
       || (IsCleared(Get(record, SESSION_KEY).value) && StillActive(Latest(cookies).value, now)))
  {
    LatestIsNewestCookie(cookies);
    if Get(record, SESSION_KEY).None? || SessionOf(record).Some? {
      LoadsTheNewest(cookies, record, now);
    } else if Latest(cookies).Some? {
      if IsCleared(Get(record, SESSION_KEY).value) {
        ClearedTakesTheNewestActive(cookies, record, now);
      }
      assert Candidate(Latest(cookies).value, record, cookies);
    }
  }

  /** With a readable record and a cookie session, nothing needs writing exactly when the load rule is already right. */
  lemma AlreadyCurrentExactly(cookies: seq<Option<Session>>, record: seq<Entry>, now: int)
    requires Latest(cookies).Some?
    ensures Decide(false, cookies, Some(record), now).outcome == AlreadyCurrent <==>
            IsNewest(Loaded(record, cookies), record, cookies)
  {
    LatestIsNewestCookie(cookies);
    assert Candidate(Latest(cookies).value, record, cookies);
    if Get(record, SESSION_KEY).None? {
      assert cookies[0] in cookies;
    }
  }

  predicate HoldsCleared(local: Option<seq<Entry>>) {
    && local.Some? && Get(local.value, SESSION_KEY).Some?
    && IsCleared(Get(local.value, SESSION_KEY).value)
  }

  function AfterLocal(local: Option<seq<Entry>>, adopted: Option<Session>): Option<seq<Entry>> {
    if local.None? then None else Some(After(local.value, adopted))
  }

  lemma WriteSettles(cookies: seq<Option<Session>>, record: seq<Entry>, now: int, later: int)
    requires Decide(false, cookies, Some(record), now).adopted.Some?
    ensures var first := Decide(false, cookies, Some(record), now);
      && (HoldsCleared(Some(record)) ==> StillActive(Latest(cookies).value, now))
      && Decide(false, cookies, Some(After(record, first.adopted)), later) == Decision(AlreadyCurrent, None)
  {
    var first := Decide(false, cookies, Some(record), now);
    LatestOfActive(cookies, now);
    WrittenIsRead(record, first.adopted.value);
    WriteChangesOnlyTheSession(record, first.adopted.value, SESSION_KEY);
    if HoldsCleared(Some(record)) {
      ClearedIsNotResumable(record);
    }
  }

  /**
   * When a second call writes: the tuple is cleared and the newest cookie session, idle
   * at first, is active by its clock.
   */
  lemma SecondCallWritesExactly(optedOut: bool, cookies: seq<Option<Session>>,
      local: Option<seq<Entry>>, now: int, later: int)
    ensures var first := Decide(optedOut, cookies, local, now);
      Decide(optedOut, cookies, AfterLocal(local, first.adopted), later).adopted.Some? <==>
      (&& !optedOut && HoldsCleared(local) && Latest(cookies).Some?
       && !StillActive(Latest(cookies).value, now) && StillActive(Latest(cookies).value, later))
  {
    if !optedOut && Latest(cookies).Some? && local.Some? {
      if Decide(false, cookies, local, now).adopted.Some? {
        WriteSettles(cookies, local.value, now, later);
      } else if HoldsCleared(local) {
        ClearedTakesTheNewestActive(cookies, local.value, now);
        ClearedTakesTheNewestActive(cookies, local.value, later);
      }
    }
  }

  /**
   * A second call that is not made at an earlier time writes nothing, whatever
   * the record holds; after a write no call does, at whatever time.
   */
  lemma SecondCallWritesNothing(optedOut: bool, cookies: seq<Option<Session>>,
      local: Option<seq<Entry>>, now: int, later: int)
    ensures var first := Decide(optedOut, cookies, local, now);
      var second := Decide(optedOut, cookies, AfterLocal(local, first.adopted), later);
      && (later >= now ==> second.adopted.None?)
      && (first.adopted.Some? ==> second == Decision(AlreadyCurrent, None))
  {
    SecondCallWritesExactly(optedOut, cookies, local, now, later);
    if Decide(optedOut, cookies, local, now).adopted.Some? {
      WriteSettles(cookies, local.value, now, later);
    }
  }

  // ----- Where the promises fail -----

  const COOKIE_SESSION: Session := StoredSession(1, "s", 1)

  lemma OnlyOne(now: int)
    ensures Latest([Some(COOKIE_SESSION)]) == Some(COOKIE_SESSION)
    ensures ActiveOnly([Some(COOKIE_SESSION)], now) ==
            if StillActive(COOKIE_SESSION, now) then [Some(COOKIE_SESSION)] else []
  {
    assert [Some(COOKIE_SESSION)][..0] == [];
    assert Latest([]).None? && ActiveOnly([], now) == [];
  }

  /** A local tuple that is neither resumable nor cleared: the cookie's session is not loaded. */
  lemma NotComparableExample(now: int)
    ensures var record, cookies := [Entry(SESSION_KEY, Str("x"))], [Some(COOKIE_SESSION)];
      && Decide(false, cookies, Some(record), now) == Decision(LocalSessionNotComparable, None)
      && !IsNewest(Loaded(record, cookies), record, cookies)
  {
    var record, cookies := [Entry(SESSION_KEY, Str("x"))], [Some(COOKIE_SESSION)];
    OnlyOne(now);
    assert Get(record, SESSION_KEY) == Some(Str("x"));
    assert Candidate(COOKIE_SESSION, record, cookies);
  }

  /** An idle cookie session over a cleared tuple, and a clock set back between two calls: the second one writes. */
  lemma ClockSetBackExample()
    ensures var record, cookies := [Entry(SESSION_KEY, Arr([Null]))], [Some(COOKIE_SESSION)];
      && Decide(false, cookies, Some(record), 1800002) == Decision(LocalSessionNotComparable, None)
      && Decide(false, cookies, Some(record), 1) == Decision(Resumed, Some(COOKIE_SESSION))
  {
    var record := [Entry(SESSION_KEY, Arr([Null]))];
    OnlyOne(1800002);
    OnlyOne(1);
    assert Get(record, SESSION_KEY) == Some(Arr([Null])) && IsCleared(Arr([Null]));
    assert Latest([]).None?;
  }

  // ----- Over the browser's storage -----

  datatype Codec = Codec(parse: string -> Option<Json>, render: Json -> string, decodeUri: Decoder)

  class Storage {
    var items: map<string, string>

    constructor (items: map<string, string>)
      ensures this.items == items
    {
      this.items := items;
    }
  }

  function GetItem(items: map<string, string>, key: string): Option<string> {
    if key in items then Some(items[key]) else None
  }

  /** The record stored under a name: empty if there is none, None if it is not an object. */
  function StoredRecord(items: map<string, string>, name: string, codec: Codec): Option<seq<Entry>> {
    match GetItem(items, name)
    case None => Some([])
    case Some(raw) =>
      match codec.parse(raw)
      case Some(Obj(entries)) => Some(entries)
      case _ => None
  }

  function SessionIn(value: Option<string>, codec: Codec): Option<Session> {
    match value
    case None => None
    case Some(text) =>
      match codec.parse(text)
      case Some(Obj(entries)) => SessionOf(entries)
      case _ => None
  }

  function SessionsIn(values: seq<Option<string>>, codec: Codec): seq<Option<Session>> {
    seq(|values|, i requires 0 <= i < |values| => SessionIn(values[i], codec))
  }

  function CookieSessions(header: string, name: string, codec: Codec): seq<Option<Session>> {
    SessionsIn(CookieValues(Split(header, ';'), name, codec.decodeUri), codec)
  }

  /** The cookie decides; a stored value counts only when the cookie lookup has none. */
  function Consent(header: string, items: map<string, string>, token: string, codec: Codec): Option<string> {
    var values := CookieValues(Split(header, ';'), CONSENT_KEY_PREFIX + token, codec.decodeUri);
    if values != [] && values[0].Some? then values[0] else GetItem(items, CONSENT_KEY_PREFIX + token)
  }

  predicate IsOptedOut(header: string, items: map<string, string>, token: string, codec: Codec) {
    var stored := Consent(header, items, token, codec);
    stored.Some? && stored.value in ["0", "false", "no"]
  }

  /** A consent answer that denies. */
  predicate Denies(answer: Option<string>) {
    answer == Some("0") || answer == Some("false") || answer == Some("no")
  }

  /**
   * Consent over a browser's cookies: the first consent cookie decides if it
   * decodes, whatever is stored; the storage decides otherwise; and without
   * consent nothing is written.
   */
  lemma ConsentDecides(cookies: seq<Cookie>, items: map<string, string>, token: string, now: int, codec: Codec)
    requires '=' !in token && forall c :: c in cookies ==> WellFormed(c)
    ensures
      var values := ValuesNamed(cookies, "__ph_opt_in_out_" + token, codec.decodeUri);
      var denied := if values != [] && values[0].Some? then Denies(values[0])
                    else "__ph_opt_in_out_" + token in items && Denies(Some(items["__ph_opt_in_out_" + token]));
      Resume(items, token, Header(cookies), now, codec).0 == OptedOut <==> denied
    ensures Resume(items, token, Header(cookies), now, codec).0 == OptedOut ==>
      Resume(items, token, Header(cookies), now, codec).1 == items
  {
    CookiesReadBack(cookies, CONSENT_KEY_PREFIX + token, codec.decodeUri);
    OptedOutExactly(items, token, Header(cookies), now, codec);
  }

  lemma OptedOutExactly(items: map<string, string>, token: string, header: string, now: int, codec: Codec)
    ensures Resume(items, token, header, now, codec).0 == OptedOut <==> Denies(Consent(header, items, token, codec))
    ensures Resume(items, token, header, now, codec).0 == OptedOut ==>
      Resume(items, token, header, now, codec).1 == items
  {
    var stored := Consent(header, items, token, codec);
    assert IsOptedOut(header, items, token, codec) <==> Denies(stored);
  }

  /** The outcome of a call, and the storage after it. */
  function Resume(items: map<string, string>, token: string, header: string, now: int, codec: Codec)
    : (Outcome, map<string, string>)
  {
    var name := PersistenceName(token);
    var record := StoredRecord(items, name, codec);
    var d := Decide(IsOptedOut(header, items, token, codec), CookieSessions(header, name, codec), record, now);
    (d.outcome,
     if d.adopted.None? || record.None? then items
     else items[name := codec.render(Obj(WithSession(record.value, d.adopted.value)))])
  }

  /** `JSON.parse(JSON.stringify(v))` gives v back, for the record a call writes. */
  predicate WrittenParses(items: map<string, string>, token: string, header: string, now: int, codec: Codec) {
    var name := PersistenceName(token);
    var record := StoredRecord(items, name, codec);
    var d := Decide(IsOptedOut(header, items, token, codec), CookieSessions(header, name, codec), record, now);
    d.adopted.Some? && record.Some? ==>
      var written := Obj(WithSession(record.value, d.adopted.value));
      codec.parse(codec.render(written)) == Some(written)
  }

  /** The record's name is no consent key, so a write leaves the consent as it was. */
  lemma WriteKeepsConsent(items: map<string, string>, token: string, header: string, now: int, codec: Codec)
    ensures var after := Resume(items, token, header, now, codec).1;
      && Consent(header, after, token, codec) == Consent(header, items, token, codec)
      && (forall key :: key in items && key != PersistenceName(token) ==> key in after && after[key] == items[key])
  {
    assert CONSENT_KEY_PREFIX[0] != PersistenceName(token)[0];
    assert (CONSENT_KEY_PREFIX + token)[0] == CONSENT_KEY_PREFIX[0];
  }

  /** A call's effect on the record, read back from the storage. */
  lemma StoredAfter(items: map<string, string>, token: string, header: string, now: int, codec: Codec)
    requires WrittenParses(items, token, header, now, codec)
    ensures
      var name := PersistenceName(token);
      var local := StoredRecord(items, name, codec);
      var first := Decide(IsOptedOut(header, items, token, codec), CookieSessions(header, name, codec), local, now);
      StoredRecord(Resume(items, token, header, now, codec).1, name, codec) == AfterLocal(local, first.adopted)
  {
  }

  /** Over the storage: a second call at the same time or later leaves it alone, and after a write any call does. */
  lemma ResumedStorageStays(items: map<string, string>, token: string, header: string,
      now: int, later: int, codec: Codec)
    requires WrittenParses(items, token, header, now, codec)
    ensures var after := Resume(items, token, header, now, codec).1;
      var second := Resume(after, token, header, later, codec);
      && (later >= now ==> second.1 == after)
      && (after != items ==> second == (AlreadyCurrent, after))
  {
    var name := PersistenceName(token);
    var optedOut, cookies := IsOptedOut(header, items, token, codec), CookieSessions(header, name, codec);
    WriteKeepsConsent(items, token, header, now, codec);
    StoredAfter(items, token, header, now, codec);
    SecondCallWritesNothing(optedOut, cookies, StoredRecord(items, name, codec), now, later);
  }

  /**
   * In the browser's own terms: with consent and a readable record whose session
   * is resumable or absent, what the library then loads from storage and cookies
   * is the newest session there was, and no second call touches the storage.
   */
  lemma ResumedStorageLoadsTheNewest(items: map<string, string>, token: string, header: string, now: int, later: int,
    codec: Codec)
    requires !IsOptedOut(header, items, token, codec) && WrittenParses(items, token, header, now, codec)
    requires StoredRecord(items, PersistenceName(token), codec).Some?
    requires var record := StoredRecord(items, PersistenceName(token), codec).value;
      Get(record, SESSION_KEY).Some? ==> SessionOf(record).Some?
    ensures
      var name := PersistenceName(token);
      var after := Resume(items, token, header, now, codec).1;
      var cookies := CookieSessions(header, name, codec);
      && StoredRecord(after, name, codec).Some?
      && IsNewest(Loaded(StoredRecord(after, name, codec).value, cookies),
                  StoredRecord(items, name, codec).value, cookies)
      && Resume(after, token, header, later, codec).1 == after
      && (forall key :: key in items && key != name ==> key in after && after[key] == items[key])
  {
    var name := PersistenceName(token);
    var record := StoredRecord(items, name, codec).value;
    var cookies := CookieSessions(header, name, codec);
    LoadsTheNewest(cookies, record, now);
    WriteKeepsConsent(items, token, header, now, codec);
    StoredAfter(items, token, header, now, codec);
    SecondCallWritesExactly(false, cookies, Some(record), now, later);
    if HoldsCleared(Some(record)) {
      ClearedIsNotResumable(record);
    }
  }

  /** Rewrites this origin's record so that the library resumes the most recently active session. */
  method ResumeSharedSession(storage: Storage, token: string, header: string, now: int, codec: Codec)
    returns (outcome: Outcome)
    modifies storage
    ensures (outcome, storage.items) == Resume(old(storage.items), token, header, now, codec)
  {
    var name := PersistenceName(token);
    if IsOptedOut(header, storage.items, token, codec) {
      return OptedOut;
    }
    var values := ReadCookieValues(header, name, codec.decodeUri);
    var cookies := SessionsIn(values, codec);
    var latest := LatestSession(cookies);
    if latest.None? {
      return NoCookieSession;
    }
    var local := StoredRecord(storage.items, name, codec);
    if local.None? {
      return UnreadableLocalRecord;
    }
    var record := local.value;
    if Get(record, SESSION_KEY).Some? {
      var own := SessionOf(record);
      if own.None? {
        outcome := ResumeOverCleared(storage, name, record, cookies, now, codec);
        return;
      }
      if !MoreRecent(latest.value, own.value) {
        return AlreadyCurrent;
      }
    } else {
      var loaded := cookies[0];
      if loaded.Some? && !MoreRecent(latest.value, loaded.value) {
        return AlreadyCurrent;
      }
    }
    storage.items := storage.items[name := codec.render(Obj(WithSession(record, latest.value)))];
    return Resumed;
  }

  method ResumeOverCleared(storage: Storage, name: string, record: seq<Entry>, cookies: seq<Option<Session>>, now: int,
    codec: Codec) returns (outcome: Outcome)
    requires Get(record, SESSION_KEY).Some?
    modifies storage
    ensures var d := DecideOverUnresumable(Get(record, SESSION_KEY).value, cookies, now);
      && outcome == d.outcome
      && storage.items ==
         if d.adopted.None? then old(storage.items)
         else old(storage.items)[name := codec.render(Obj(WithSession(record, d.adopted.value)))]
  {
    if !IsCleared(Get(record, SESSION_KEY).value) {
      return LocalSessionNotComparable;
    }
    var active := LatestSession(ActiveOnly(cookies, now));
    if active.None? {
      return LocalSessionNotComparable;
    }
    storage.items := storage.items[name := codec.render(Obj(WithSession(record, active.value)))];
    return Resumed;
  }
}
