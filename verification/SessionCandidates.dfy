/**
 * The shared session from outside: which sessions a browser's cookies and the
 * stored item hold, read off their texts, and what resuming makes of them.
 */
module SessionCandidates {
  import opened Optional
  import opened Text
  import opened Json
  import opened SharedSession

  // ----- What a text holds -----

  /** A tuple that is adopted as `s`: only one of two elements leaves its start to the activity time. */
  predicate IsTupleOf(stored: Json, s: Session) {
    && stored.Arr? && |stored.items| >= 2
    && stored.items[0] == Num(s.activity as real) && stored.items[1] == Str(s.id)
    && (if |stored.items| == 2 then s.start == s.activity else stored.items[2] == Num(s.start as real))
  }

  /** The text parses to an object with such a tuple in it. */
  ghost predicate Holds(text: string, codec: Codec, s: Session) {
    var v := codec.parse(text);
    && v.Some? && v.value.Obj? && Get(v.value.entries, "$sesid").Some?
    && IsTupleOf(Get(v.value.entries, "$sesid").value, s)
  }

  predicate Named(c: Cookie, token: string) {
    c.name == "ph_" + Sanitized(token) + "_posthog"
  }

  ghost predicate CookieHolds(c: Cookie, token: string, codec: Codec, s: Session) {
    && Named(c, token) && codec.decodeUri(c.value).Some?
    && Holds(codec.decodeUri(c.value).value, codec, s)
  }

  ghost predicate ItemHolds(items: map<string, string>, token: string, codec: Codec, s: Session) {
    var name := "ph_" + Sanitized(token) + "_posthog";
    name in items && Holds(items[name], codec, s)
  }

  /** Some cookie of the token holds the session, or the stored item does. */
  ghost predicate IsCandidate(items: map<string, string>, cookies: seq<Cookie>, token: string, codec: Codec, s: Session)
  {
    ItemHolds(items, token, codec, s) || exists c :: c in cookies && CookieHolds(c, token, codec, s)
  }

  /** The stored item is there and parses to an object with a session key in it, whatever that is. */
  predicate ItemHasKey(items: map<string, string>, token: string, codec: Codec) {
    var name := "ph_" + Sanitized(token) + "_posthog";
    && name in items
    && var v := codec.parse(items[name]);
       v.Some? && v.value.Obj? && Get(v.value.entries, "$sesid").Some?
  }

  /** The library loads its own item's session if that has the key, else the first cookie's of its name. */
  ghost predicate Loads(items: map<string, string>, cookies: seq<Cookie>, token: string, codec: Codec, s: Session) {
    if ItemHasKey(items, token, codec) then ItemHolds(items, token, codec, s)
    else exists i :: 0 <= i < |cookies| && FirstNamed(cookies, token, i) && CookieHolds(cookies[i], token, codec, s)
  }

  predicate FirstNamed(cookies: seq<Cookie>, token: string, i: nat)
    requires i < |cookies|
  {
    Named(cookies[i], token) && forall j :: 0 <= j < i ==> !Named(cookies[j], token)
  }

  // ----- The texts and the sessions read from them -----

  lemma HoldsExactly(text: string, codec: Codec, s: Session)
    ensures SessionIn(Some(text), codec) == Some(s) <==> Holds(text, codec, s)
  {
    match codec.parse(text)
    case Some(Obj(entries)) => SessionOfExactly(entries, s);
    case _ =>
  }

  lemma {:induction false} ValuesMembers(cookies: seq<Cookie>, name: string, decode: Decoder, v: Option<string>)
    ensures v in ValuesNamed(cookies, name, decode) <==>
            exists c :: c in cookies && c.name == name && decode(c.value) == v
  {
    if cookies != [] {
      var front, last := cookies[..|cookies| - 1], cookies[|cookies| - 1];
      ValuesMembers(front, name, decode, v);
      assert cookies == front + [last];
      assert forall c :: c in cookies <==> c in front || c == last;
    }
  }

  /** The first value is the first cookie's of the name. */
  lemma {:induction false} FirstValue(cookies: seq<Cookie>, token: string, decode: Decoder)
    ensures var values := ValuesNamed(cookies, "ph_" + Sanitized(token) + "_posthog", decode);
      && (values != [] <==> exists i :: 0 <= i < |cookies| && FirstNamed(cookies, token, i))
      && (forall i :: 0 <= i < |cookies| && FirstNamed(cookies, token, i) ==>
            values != [] && values[0] == decode(cookies[i].value))
  {
    if cookies != [] {
      var n := |cookies| - 1;
      var front, last := cookies[..n], cookies[n];
      FirstValue(front, token, decode);
      forall i | 0 <= i < n ensures FirstNamed(front, token, i) <==> FirstNamed(cookies, token, i) {
        assert forall j :: 0 <= j <= i ==> front[j] == cookies[j];
      }
      if ValuesNamed(front, "ph_" + Sanitized(token) + "_posthog", decode) == [] {
        NoneNamed(front, token);
        assert FirstNamed(cookies, token, n) <==> Named(last, token);
      } else {
        var i :| 0 <= i < n && FirstNamed(front, token, i);
        assert FirstNamed(cookies, token, i) && !FirstNamed(cookies, token, n);
      }
    }
  }

  lemma {:induction false} NoneNamed(cookies: seq<Cookie>, token: string)
    requires forall i :: 0 <= i < |cookies| ==> !FirstNamed(cookies, token, i)
    ensures forall i :: 0 <= i < |cookies| ==> !Named(cookies[i], token)
  {
    if cookies != [] {
      var front := cookies[..|cookies| - 1];
      forall i | 0 <= i < |front| ensures !FirstNamed(front, token, i) {
        assert forall j :: 0 <= j <= i ==> front[j] == cookies[j];
        assert !FirstNamed(cookies, token, i);
      }
      NoneNamed(front, token);
      assert forall i :: 0 <= i < |front| ==> front[i] == cookies[i];
      assert !FirstNamed(cookies, token, |front|);
    }
  }

  lemma CookieSessionsRead(cookies: seq<Cookie>, token: string, codec: Codec)
    requires forall c :: c in cookies ==> WellFormed(c)
    ensures CookieSessions(Header(cookies), PersistenceName(token), codec)
         == SessionsIn(ValuesNamed(cookies, "ph_" + Sanitized(token) + "_posthog", codec.decodeUri), codec)
  {
    SanitizedHasNoEquals(token);
    CookiesReadBack(cookies, PersistenceName(token), codec.decodeUri);
  }

  /** A session is read from the cookies exactly when one of them holds it. */
  lemma CookieCandidates(cookies: seq<Cookie>, token: string, codec: Codec, s: Session)
    requires forall c :: c in cookies ==> WellFormed(c)
    ensures Some(s) in CookieSessions(Header(cookies), PersistenceName(token), codec) <==>
            exists c :: c in cookies && CookieHolds(c, token, codec, s)
  {
    var values := ValuesNamed(cookies, "ph_" + Sanitized(token) + "_posthog", codec.decodeUri);
    var sessions := SessionsIn(values, codec);
    CookieSessionsRead(cookies, token, codec);
    if Some(s) in sessions {
      var i :| 0 <= i < |sessions| && sessions[i] == Some(s);
      HoldsExactly(values[i].value, codec, s);
      ValueIsHeld(cookies, token, codec, s, values[i]);
    }
    if c :| c in cookies && CookieHolds(c, token, codec, s) {
      var v := codec.decodeUri(c.value);
      HoldsExactly(v.value, codec, s);
      ValuesMembers(cookies, "ph_" + Sanitized(token) + "_posthog", codec.decodeUri, v);
      var i :| 0 <= i < |values| && values[i] == v;
      assert sessions[i] == Some(s);
    }
  }

  lemma ValueIsHeld(cookies: seq<Cookie>, token: string, codec: Codec, s: Session, v: Option<string>)
    requires v in ValuesNamed(cookies, "ph_" + Sanitized(token) + "_posthog", codec.decodeUri)
    requires v.Some? && Holds(v.value, codec, s)
    ensures exists c :: c in cookies && CookieHolds(c, token, codec, s)
  {
    ValuesMembers(cookies, "ph_" + Sanitized(token) + "_posthog", codec.decodeUri, v);
    var c :| c in cookies && c.name == "ph_" + Sanitized(token) + "_posthog" && codec.decodeUri(c.value) == v;
    assert CookieHolds(c, token, codec, s);
  }

  /** The stored record's session is the one its item holds; an absent item is an empty record. */
  lemma ItemCandidates(items: map<string, string>, token: string, codec: Codec, s: Session)
    requires StoredRecord(items, PersistenceName(token), codec).Some?
    ensures var record := StoredRecord(items, PersistenceName(token), codec).value;
      && (SessionOf(record) == Some(s) <==> ItemHolds(items, token, codec, s))
      && (Get(record, SESSION_KEY).Some? <==> ItemHasKey(items, token, codec))
  {
    var name := PersistenceName(token);
    if name in items {
      HoldsExactly(items[name], codec, s);
    }
  }

  lemma LoadsExactly(items: map<string, string>, cookies: seq<Cookie>, token: string, codec: Codec, s: Session)
    requires forall c :: c in cookies ==> WellFormed(c)
    requires StoredRecord(items, PersistenceName(token), codec).Some?
    ensures Loaded(StoredRecord(items, PersistenceName(token), codec).value,
                   CookieSessions(Header(cookies), PersistenceName(token), codec)) == Some(s)
       <==> Loads(items, cookies, token, codec, s)
  {
    ItemCandidates(items, token, codec, s);
    if !ItemHasKey(items, token, codec) {
      FirstCookieLoads(cookies, token, codec, s);
    }
  }

  lemma FirstCookieLoads(cookies: seq<Cookie>, token: string, codec: Codec, s: Session)
    requires forall c :: c in cookies ==> WellFormed(c)
    ensures var sessions := CookieSessions(Header(cookies), PersistenceName(token), codec);
      (sessions != [] && sessions[0] == Some(s)) <==>
      exists i :: 0 <= i < |cookies| && FirstNamed(cookies, token, i) && CookieHolds(cookies[i], token, codec, s)
  {
    var values := ValuesNamed(cookies, "ph_" + Sanitized(token) + "_posthog", codec.decodeUri);
    CookieSessionsRead(cookies, token, codec);
    FirstValue(cookies, token, codec.decodeUri);
    if values != [] && values[0].Some? {
      HoldsExactly(values[0].value, codec, s);
    }
  }

  // ----- Results -----

  /** There being consent, no session is found exactly when no cookie of the token holds one. */
  lemma NoCookieSessionExactly(items: map<string, string>, token: string, cookies: seq<Cookie>, now: int, codec: Codec)
    requires forall c :: c in cookies ==> WellFormed(c)
    requires Resume(items, token, Header(cookies), now, codec).0 != OptedOut
    ensures Resume(items, token, Header(cookies), now, codec).0 == NoCookieSession <==>
            forall c, s :: c in cookies ==> !CookieHolds(c, token, codec, s)
  {
    FoundExactly(cookies, token, codec);
    NotFoundExactly(items, token, Header(cookies), now, codec);
  }

  lemma FoundExactly(cookies: seq<Cookie>, token: string, codec: Codec)
    requires forall c :: c in cookies ==> WellFormed(c)
    ensures Latest(CookieSessions(Header(cookies), PersistenceName(token), codec)).None? <==>
            forall c, s :: c in cookies ==> !CookieHolds(c, token, codec, s)
  {
    var sessions := CookieSessions(Header(cookies), PersistenceName(token), codec);
    LatestIsNewestCookie(sessions);
    if Latest(sessions).Some? {
      CookieCandidates(cookies, token, codec, Latest(sessions).value);
    }
    if c, s :| c in cookies && CookieHolds(c, token, codec, s) {
      CookieCandidates(cookies, token, codec, s);
    }
  }

  lemma NotFoundExactly(items: map<string, string>, token: string, header: string, now: int, codec: Codec)
    ensures Resume(items, token, header, now, codec).0 == NoCookieSession <==>
      && Resume(items, token, header, now, codec).0 != OptedOut
      && Latest(CookieSessions(header, PersistenceName(token), codec)).None?
  {
  }

  /** Held by a cookie of the token, and no cookie of the token holds one active later. */
  ghost predicate IsNewestCookie(cookies: seq<Cookie>, token: string, codec: Codec, r: Session) {
    && (exists c :: c in cookies && CookieHolds(c, token, codec, r))
    && forall c, s :: c in cookies && CookieHolds(c, token, codec, s) ==> s.activity <= r.activity
  }

  lemma LatestIsNewestHeld(cookies: seq<Cookie>, token: string, codec: Codec, r: Session)
    requires forall c :: c in cookies ==> WellFormed(c)
    ensures var latest := Latest(CookieSessions(Header(cookies), PersistenceName(token), codec));
      && (latest == Some(r) ==> IsNewestCookie(cookies, token, codec, r))
      && (IsNewestCookie(cookies, token, codec, r) ==> latest.Some? && latest.value.activity == r.activity)
  {
    var sessions := CookieSessions(Header(cookies), PersistenceName(token), codec);
    LatestIsNewestCookie(sessions);
    CookieCandidates(cookies, token, codec, r);
    forall c, s | c in cookies && CookieHolds(c, token, codec, s) ensures Some(s) in sessions {
      CookieCandidates(cookies, token, codec, s);
    }
    if Latest(sessions).Some? {
      CookieCandidates(cookies, token, codec, Latest(sessions).value);
    }
  }

  predicate ItemUnreadable(items: map<string, string>, token: string, codec: Codec) {
    var name := "ph_" + Sanitized(token) + "_posthog";
    name in items && (codec.parse(items[name]).None? || !codec.parse(items[name]).value.Obj?)
  }

  /** The key holds one `null` or more and nothing else. */
  predicate ItemCleared(items: map<string, string>, token: string, codec: Codec) {
    ItemHasKey(items, token, codec) &&
    var stored := Get(codec.parse(items["ph_" + Sanitized(token) + "_posthog"]).value.entries, "$sesid").value;
    stored.Arr? && |stored.items| > 0 && forall part :: part in stored.items ==> part == Null
  }

  /** Some cookie's newest session was active within the last half hour. */
  ghost predicate NewestIsActive(cookies: seq<Cookie>, token: string, codec: Codec, now: int) {
    exists r :: IsNewestCookie(cookies, token, codec, r) && now - r.activity <= 1800000
  }

  /** The library would load a session that no cookie's is newer than. */
  ghost predicate LoadsNewest(items: map<string, string>, cookies: seq<Cookie>, token: string, codec: Codec) {
    exists r ::
      && Loads(items, cookies, token, codec, r)
      && forall c, s :: c in cookies && CookieHolds(c, token, codec, s) ==> s.activity <= r.activity
  }

  lemma ItemIsRecord(items: map<string, string>, token: string, codec: Codec)
    ensures var record := StoredRecord(items, PersistenceName(token), codec);
      && (record.None? <==> ItemUnreadable(items, token, codec))
      && (record.Some? ==>
            && (Get(record.value, SESSION_KEY).Some? <==> ItemHasKey(items, token, codec))
            && (SessionOf(record.value).Some? <==> exists s :: ItemHolds(items, token, codec, s))
            && (Get(record.value, SESSION_KEY).Some? ==>
                  (IsCleared(Get(record.value, SESSION_KEY).value) <==> ItemCleared(items, token, codec))))
  {
    var record := StoredRecord(items, PersistenceName(token), codec);
    if record.Some? {
      if SessionOf(record.value).Some? {
        ItemCandidates(items, token, codec, SessionOf(record.value).value);
      }
      if s :| ItemHolds(items, token, codec, s) {
        ItemCandidates(items, token, codec, s);
      }
    }
  }

  lemma NewestLoadedExactly(items: map<string, string>, cookies: seq<Cookie>, token: string, codec: Codec)
    requires forall c :: c in cookies ==> WellFormed(c)
    requires StoredRecord(items, PersistenceName(token), codec).Some?
    ensures var sessions := CookieSessions(Header(cookies), PersistenceName(token), codec);
      var loaded := Loaded(StoredRecord(items, PersistenceName(token), codec).value, sessions);
      Latest(sessions).Some? ==>
      (LoadsNewest(items, cookies, token, codec) <==>
       loaded.Some? && !MoreRecent(Latest(sessions).value, loaded.value))
  {
    var sessions := CookieSessions(Header(cookies), PersistenceName(token), codec);
    var loaded := Loaded(StoredRecord(items, PersistenceName(token), codec).value, sessions);
    if Latest(sessions).Some? {
      var latest := Latest(sessions).value;
      LatestIsNewestHeld(cookies, token, codec, latest);
      if loaded.Some? {
        LoadsExactly(items, cookies, token, codec, loaded.value);
      }
      forall r | Loads(items, cookies, token, codec, r) ensures loaded == Some(r) {
        LoadsExactly(items, cookies, token, codec, r);
      }
    }
  }

  lemma DecidedOutcome(sessions: seq<Option<Session>>, local: Option<seq<Entry>>, now: int)
    requires Latest(sessions).Some? && local.Some?
    ensures var d, loaded := Decide(false, sessions, local, now), Loaded(local.value, sessions);
      var stored := Get(local.value, SESSION_KEY);
      && (d.outcome == LocalSessionNotComparable <==>
          && stored.Some? && SessionOf(local.value).None?
          && !(IsCleared(stored.value) && StillActive(Latest(sessions).value, now)))
      && (d.outcome == AlreadyCurrent <==> loaded.Some? && !MoreRecent(Latest(sessions).value, loaded.value))
      && d.outcome != OptedOut && d.outcome != NoCookieSession && d.outcome != UnreadableLocalRecord
      && d.adopted == if d.outcome == Resumed then Latest(sessions) else None
  {
    LatestOfActive(sessions, now);
    LatestIsNewestCookie(sessions);
  }

  /**
   * Every outcome there being consent, by what the texts hold. A local tuple that is
   * no session gives way only if it is cleared and the newest cookie session is not
   * idle; otherwise the call resumes exactly when the library would load a session
   * that some cookie's is newer than.
   */
  lemma OutcomeExactly(items: map<string, string>, token: string, cookies: seq<Cookie>, now: int, codec: Codec)
    requires forall c :: c in cookies ==> WellFormed(c)
    requires Resume(items, token, Header(cookies), now, codec).0 != OptedOut
    requires exists c, s :: c in cookies && CookieHolds(c, token, codec, s)
    ensures Resume(items, token, Header(cookies), now, codec).0 ==
      if ItemUnreadable(items, token, codec) then UnreadableLocalRecord
      else if ItemHasKey(items, token, codec) && !exists s :: ItemHolds(items, token, codec, s) then
        if ItemCleared(items, token, codec) && NewestIsActive(cookies, token, codec, now) then Resumed
        else LocalSessionNotComparable
      else if LoadsNewest(items, cookies, token, codec) then AlreadyCurrent
      else Resumed
  {
    var sessions := CookieSessions(Header(cookies), PersistenceName(token), codec);
    var local := StoredRecord(items, PersistenceName(token), codec);
    LatestIsNewestCookie(sessions);
    var c, s :| c in cookies && CookieHolds(c, token, codec, s);
    CookieCandidates(cookies, token, codec, s);
    ItemIsRecord(items, token, codec);
    if local.Some? {
      NewestLoadedExactly(items, cookies, token, codec);
      DecidedOutcome(sessions, local, now);
      ActiveExactly(cookies, token, codec, now);
    }
  }

  lemma ActiveExactly(cookies: seq<Cookie>, token: string, codec: Codec, now: int)
    requires forall c :: c in cookies ==> WellFormed(c)
    ensures var latest := Latest(CookieSessions(Header(cookies), PersistenceName(token), codec));
      latest.Some? ==> (StillActive(latest.value, now) <==> NewestIsActive(cookies, token, codec, now))
  {
    var latest := Latest(CookieSessions(Header(cookies), PersistenceName(token), codec));
    if latest.Some? {
      LatestIsNewestHeld(cookies, token, codec, latest.value);
      forall r | IsNewestCookie(cookies, token, codec, r) ensures r.activity == latest.value.activity {
        LatestIsNewestHeld(cookies, token, codec, r);
      }
    }
  }

  /** `w` is the record with that session in it, and without another one's entry properties. */
  ghost predicate HasSession(w: seq<Entry>, record: seq<Entry>, r: Session) {
    forall key :: Get(w, key) ==
      if key == "$sesid" then Some(Arr([Num(r.activity as real), Str(r.id), Num(r.start as real)]))
      else if key == "$client_session_props" && NamesAnother(Get(record, key), r) then None
      else Get(record, key)
  }

  /** The entries of the stored item; none if it is absent. */
  ghost predicate ItemEntries(items: map<string, string>, token: string, codec: Codec, record: seq<Entry>) {
    var name := "ph_" + Sanitized(token) + "_posthog";
    if name in items then codec.parse(items[name]) == Some(Obj(record)) else record == []
  }

  /** What a call stores. */
  lemma ResumedItems(items: map<string, string>, token: string, header: string, now: int, codec: Codec)
    ensures var (outcome, after) := Resume(items, token, header, now, codec);
      var local, name := StoredRecord(items, PersistenceName(token), codec), PersistenceName(token);
      var latest := Latest(CookieSessions(header, name, codec));
      if outcome != Resumed then after == items
      else
        && latest.Some? && local.Some?
        && after == items[name := codec.render(Obj(WithSession(local.value, latest.value)))]
  {
    var sessions := CookieSessions(header, PersistenceName(token), codec);
    var local := StoredRecord(items, PersistenceName(token), codec);
    if Latest(sessions).Some? && local.Some? {
      DecidedOutcome(sessions, local, now);
    }
  }

  lemma WithSessionHasIt(record: seq<Entry>, r: Session)
    ensures HasSession(WithSession(record, r), record, r)
  {
    forall key {
      WriteChangesOnlyTheSession(record, r, key);
    }
  }

  lemma RecordEntries(items: map<string, string>, token: string, codec: Codec, record: seq<Entry>)
    ensures StoredRecord(items, PersistenceName(token), codec) == Some(record) <==>
            ItemEntries(items, token, codec, record)
  {
  }

  /**
   * The storage afterwards: as it was unless the call resumes; then the one item is
   * written, as it was but for a newest cookie session in it.
   */
  lemma WrittenExactly(items: map<string, string>, token: string, cookies: seq<Cookie>, now: int, codec: Codec)
    returns (record: seq<Entry>, w: seq<Entry>, r: Session)
    requires forall c :: c in cookies ==> WellFormed(c)
    ensures Resume(items, token, Header(cookies), now, codec).0 != Resumed ==>
      Resume(items, token, Header(cookies), now, codec).1 == items
    ensures Resume(items, token, Header(cookies), now, codec).0 == Resumed ==>
      && ItemEntries(items, token, codec, record)
      && IsNewestCookie(cookies, token, codec, r) && HasSession(w, record, r)
      && Resume(items, token, Header(cookies), now, codec).1
         == items["ph_" + Sanitized(token) + "_posthog" := codec.render(Obj(w))]
  {
    var sessions := CookieSessions(Header(cookies), PersistenceName(token), codec);
    var local := StoredRecord(items, PersistenceName(token), codec);
    record, w, r := [], [], StoredSession(1, "s", 1);
    ResumedItems(items, token, Header(cookies), now, codec);
    if Latest(sessions).Some? && local.Some? {
      record, r := local.value, Latest(sessions).value;
      w := WithSession(record, r);
      LatestIsNewestHeld(cookies, token, codec, r);
      WithSessionHasIt(record, r);
      RecordEntries(items, token, codec, record);
    }
  }

  /** The stored item is absent, or parses to an object whose session key is absent or holds a session. */
  ghost predicate ItemReadable(items: map<string, string>, token: string, codec: Codec) {
    var name := "ph_" + Sanitized(token) + "_posthog";
    name !in items ||
    (&& codec.parse(items[name]).Some? && codec.parse(items[name]).value.Obj?
     && (ItemHasKey(items, token, codec) ==> exists s :: ItemHolds(items, token, codec, s)))
  }

  lemma ReadableRecord(items: map<string, string>, token: string, codec: Codec)
    requires ItemReadable(items, token, codec)
    ensures StoredRecord(items, PersistenceName(token), codec).Some?
    ensures var record := StoredRecord(items, PersistenceName(token), codec).value;
      Get(record, SESSION_KEY).Some? ==> SessionOf(record).Some?
  {
    if ItemHasKey(items, token, codec) {
      var s :| ItemHolds(items, token, codec, s);
      ItemCandidates(items, token, codec, s);
    }
  }

  /**
   * The law in the browser's own terms. With consent, an item that is absent or
   * readable, and cookies as a browser sends them: what the library loads after
   * the call is a session that some cookie of the token or the item held before
   * it, and none of those was active later; if there is one at all, one is loaded.
   */
  lemma NewestCandidateIsLoaded(items: map<string, string>, token: string, cookies: seq<Cookie>, now: int, codec: Codec)
    requires forall c :: c in cookies ==> WellFormed(c)
    requires Resume(items, token, Header(cookies), now, codec).0 != OptedOut
    requires ItemReadable(items, token, codec) && WrittenParses(items, token, Header(cookies), now, codec)
    ensures var after := Resume(items, token, Header(cookies), now, codec).1;
      && (forall r :: Loads(after, cookies, token, codec, r) ==>
            && IsCandidate(items, cookies, token, codec, r)
            && forall s :: IsCandidate(items, cookies, token, codec, s) ==> s.activity <= r.activity)
      && (forall s :: IsCandidate(items, cookies, token, codec, s) ==>
            exists r :: Loads(after, cookies, token, codec, r))
  {
    var name, header := PersistenceName(token), Header(cookies);
    var after, sessions := Resume(items, token, header, now, codec).1, CookieSessions(header, name, codec);
    ReadableRecord(items, token, codec);
    var record := StoredRecord(items, name, codec).value;
    ResumedStorageLoadsTheNewest(items, token, header, now, now, codec);
    var loaded := Loaded(StoredRecord(after, name, codec).value, sessions);
    forall s: Session
      ensures Candidate(s, record, sessions) <==> IsCandidate(items, cookies, token, codec, s)
      ensures loaded == Some(s) <==> Loads(after, cookies, token, codec, s)
    {
      CookieCandidates(cookies, token, codec, s);
      ItemCandidates(items, token, codec, s);
      LoadsExactly(after, cookies, token, codec, s);
    }
    forall s | IsCandidate(items, cookies, token, codec, s)
      ensures exists r :: Loads(after, cookies, token, codec, r)
    {
      assert Candidate(s, record, sessions);
      assert Loads(after, cookies, token, codec, loaded.value);
    }
  }
}
