// What every run of the session service keeps.

module SessionProofs {
  import opened Sessions

  // ---------- cache, table and tokens agree ----------

  ghost predicate HandedOut(h: History, sid: Sid, gen: int) {
    exists t :: t in h.minted && t.kind == Refresh && t.session == sid && t.gen == gen
  }

  predicate SamePlace(x: Token, y: Token) {
    x.kind == y.kind && x.session == y.session && x.gen == y.gen
  }

  ghost predicate CacheAgrees(t: Tables, c: Cache, h: History) {
    forall sid :: sid in c.sessions ==>
      && sid in h.owner && sid in h.newest
      && c.sessions[sid].gen == h.newest[sid]
      && c.sessions[sid].minGlobalVer <= Version(t, h.owner[sid])
  }

  ghost predicate RowsAgree(t: Tables, h: History) {
    forall k :: k in t.sessions ==>
      && k.session in h.owner && h.owner[k.session] == k.user
      && k.session in h.newest && t.sessions[k].gen == h.newest[k.session]
  }

  ghost predicate TokensAgree(t: Tables, h: History) {
    && (forall x :: x in h.minted ==>
          && x.session in h.owner && h.owner[x.session] == x.user
          && x.session in h.newest && 1 <= x.gen <= h.newest[x.session]
          && x.globalVer <= Version(t, x.user))
    && (forall x, y :: x in h.minted && y in h.minted && SamePlace(x, y) ==> x == y)
    && (forall sid :: sid in h.newest ==> h.newest[sid] >= 1)
    && (forall sid, g :: sid in h.newest && 1 <= g <= h.newest[sid] ==> HandedOut(h, sid, g))
  }

  /** Whenever a session is cached and has a row their generations agree with each other and with the newest
      token; a session's tokens form one chain 1, 2, 3, …, one pair each; and no version runs ahead. */
  ghost predicate Consistent(s: State) {
    && s.hist.owner.Keys == s.hist.newest.Keys
    && CacheAgrees(s.tables, s.cache, s.hist)
    && RowsAgree(s.tables, s.hist)
    && TokensAgree(s.tables, s.hist)
  }

  /** Handing out a generation one above the newest keeps the tokens a chain. */
  lemma MintKeepsTokens(t: Tables, h: History, k: Key, gen: int, globalVer: nat)
    requires h.owner.Keys == h.newest.Keys + {k.session} && TokensAgree(t, h)
    requires h.owner[k.session] == k.user && globalVer <= Version(t, k.user)
    requires gen == (if k.session in h.newest then h.newest[k.session] + 1 else 1)
    ensures TokensAgree(t, h.(newest := h.newest[k.session := gen], minted := h.minted + Pair(k, gen, globalVer)))
  {
    var h1 := h.(newest := h.newest[k.session := gen], minted := h.minted + Pair(k, gen, globalVer));
    forall sid, g | sid in h1.newest && 1 <= g <= h1.newest[sid]
      ensures HandedOut(h1, sid, g)
    {
      if sid == k.session && g == gen {
        assert Token(Refresh, k.user, k.session, gen, globalVer) in h1.minted;
      } else {
        assert HandedOut(h, sid, g);
        var x :| x in h.minted && x.kind == Refresh && x.session == sid && x.gen == g;
        assert x in h1.minted;
      }
    }
  }

  lemma TheftConsistent(s: State, k: Key)
    requires Consistent(s)
    ensures Consistent(HandleTheft(s, k))
  {
    var s1 := HandleTheft(s, k);
    assert forall sid, g :: HandedOut(s.hist, sid, g) ==> HandedOut(s1.hist, sid, g);
  }

  /** Moving a row and the newest generation of its session up together keeps every row in agreement. */
  lemma BumpKeepsRows(t: Tables, h: History, k: Key, gen: int)
    requires RowsAgree(t, h) && BumpApplies(t, k, gen)
    ensures RowsAgree(BumpGen(t, k, gen, gen + 1), h.(newest := h.newest[k.session := gen + 1]))
  {
    forall x | x in t.sessions && x.session == k.session
      ensures x == k
    {
      assert x.user == h.owner[x.session] == k.user;
    }
  }

  lemma RotateConsistent(s: State, k: Key, gen: int, globalVer: nat)
    requires Consistent(s) && globalVer <= Version(s.tables, k.user)
    ensures Consistent(Rotate(s, k, gen, globalVer).0)
  {
    if BumpApplies(s.tables, k, gen) {
      var s1 := Rotate(s, k, gen, globalVer).0;
      var tables := BumpGen(s.tables, k, gen, gen + 1);
      MintKeepsTokens(tables, s.hist, k, gen + 1, globalVer);
      BumpKeepsRows(s.tables, s.hist, k, gen);
      assert s1.tables == tables && TokensAgree(s1.tables, s1.hist);
      assert RowsAgree(s1.tables, s1.hist);
      assert CacheAgrees(s1.tables, s1.cache, s1.hist);
    }
  }

  lemma RefreshConsistent(s: State, t: Token)
    requires Consistent(s) && t in s.hist.minted
    ensures Consistent(RefreshToken(s, t).0)
  {
    TheftConsistent(s, KeyOf(t));
    if t.session in s.cache.sessions {
      RotateConsistent(s, KeyOf(t), s.cache.sessions[t.session].gen, s.cache.sessions[t.session].minGlobalVer);
    } else if KeyOf(t) in s.tables.sessions {
      RotateConsistent(s, KeyOf(t), s.tables.sessions[KeyOf(t)].gen, Version(s.tables, t.user));
    }
  }

  lemma StartConsistent(s: State, u: Uid, sid: Sid, expiresAt: int)
    requires Consistent(s) && sid !in s.hist.owner
    ensures Consistent(Start(s, u, sid, expiresAt))
  {
    var h := s.hist.(owner := s.hist.owner[sid := u]);
    assert forall x, g :: HandedOut(s.hist, x, g) ==> HandedOut(h, x, g);
    var tables := s.tables.(sessions := s.tables.sessions[Key(u, sid) := Row(1, expiresAt)]);
    MintKeepsTokens(tables, h, Key(u, sid), 1, Version(s.tables, u));
  }

  lemma ConsistentStep(s: State, e: Event)
    requires Consistent(s)
    ensures Consistent(Step(s, e))
  {
    if Enabled(s, e) {
      match e
      case LogIn(u, sid, expiresAt) => StartConsistent(s, u, sid, expiresAt);
      case RefreshCall(t) => RefreshConsistent(s, t);
      case CounterEvicted(u) =>
        assert forall sid, g :: HandedOut(s.hist, sid, g) ==> HandedOut(Step(s, e).hist, sid, g);
      case _ =>
    }
  }

  lemma {:induction false} CacheAgreesWithStore(es: seq<Event>)
    ensures Consistent(Run(EMPTY, es))
    decreases |es|
  {
    if es != [] {
      CacheAgreesWithStore(es[..|es| - 1]);
      ConsistentStep(Run(EMPTY, es[..|es| - 1]), es[|es| - 1]);
    }
  }

  // ---------- what a caller sees ----------

  /** The version a token of `sid` is held against: the cached one while the session is cached. */
  function RequiredVersion(s: State, t: Token): nat {
    if t.session in s.cache.sessions then s.cache.sessions[t.session].minGlobalVer else Version(s.tables, t.user)
  }

  /** Exactly the newest refresh token of a live session, at the required version, rotates. Replay is reported
      exactly for an older token of a session that is still cached or stored, and each refusal is told apart. */
  lemma RefreshOutcome(s: State, t: Token)
    requires Consistent(s) && Enabled(s, RefreshCall(t))
    ensures var r, known := RefreshToken(s, t).1, t.session in s.cache.sessions || KeyOf(t) in s.tables.sessions;
      && (r.Rotated? <==> && t.gen == s.hist.newest[t.session]
                          && KeyOf(t) in s.tables.sessions
                          && t.globalVer >= RequiredVersion(s, t))
      && (r == ReplayDetected <==> known && t.gen < s.hist.newest[t.session])
      && (r == SessionNotFound <==> !known)
      && (r == TokenRevoked <==> known && t.gen == s.hist.newest[t.session] && t.globalVer < RequiredVersion(s, t))
      && (r == ConcurrentRotation <==>
            && t.session in s.cache.sessions && KeyOf(t) !in s.tables.sessions
            && t.gen == s.hist.newest[t.session] && t.globalVer >= RequiredVersion(s, t))
  {
  }

  /** The pair that comes back is the next generation's, of the same user and session, at the required version;
      it was never handed out, it is the newest, it is what the row and the cache now hold, and no other session
      changed. */
  lemma RotatedPair(s: State, t: Token)
    requires Consistent(s) && Enabled(s, RefreshCall(t)) && RefreshToken(s, t).1.Rotated?
    ensures var (s1, r) := RefreshToken(s, t);
      && r.access == Token(Access, t.user, t.session, t.gen + 1, RequiredVersion(s, t))
      && r.refresh == Token(Refresh, t.user, t.session, t.gen + 1, RequiredVersion(s, t))
      && r.access !in s.hist.minted && r.refresh !in s.hist.minted
      && s1.hist.minted == s.hist.minted + {r.access, r.refresh}
      && s1.hist.newest == s.hist.newest[t.session := t.gen + 1]
      && s1.tables.sessions == s.tables.sessions[KeyOf(t) := Row(t.gen + 1, s.tables.sessions[KeyOf(t)].expiresAt)]
      && s1.tables.revocations == s.tables.revocations
      && s1.cache.sessions == s.cache.sessions[t.session := CachedSession(t.gen + 1, RequiredVersion(s, t))]
      && s1.cache.thefts == s.cache.thefts
  {
  }

  /** A refusal that is not a replay changes nothing. */
  lemma RefusalChangesNothing(s: State, t: Token)
    requires RefreshToken(s, t).1 != ReplayDetected && !RefreshToken(s, t).1.Rotated?
    ensures RefreshToken(s, t).0 == s
  {
  }

  /** An access token is accepted exactly when it is the newest generation, at the required version, and its
      session is cached or its row is still within its first lifetime; it stands for its own user, and the
      session is cached from then on as it was judged. */
  lemma ValidateOutcome(s: State, t: Token, now: int)
    requires Consistent(s) && Enabled(s, ValidateCall(t, now))
    ensures var (s1, r) := ValidateToken(s, t, now);
      && (r.Valid? <==>
            && t.gen == s.hist.newest[t.session]
            && t.globalVer >= RequiredVersion(s, t)
            && (t.session in s.cache.sessions
                || (KeyOf(t) in s.tables.sessions && now <= s.tables.sessions[KeyOf(t)].expiresAt)))
      && (r.Valid? ==> r == Valid(t.user)
                       && s1 == s.(cache := s.cache.(sessions :=
                            s.cache.sessions[t.session := CachedSession(t.gen, RequiredVersion(s, t))])))
      && (!r.Valid? ==> r == Rejected && s1 == s)
  {
    if t.session in s.cache.sessions {
      assert s.cache.sessions[t.session := s.cache.sessions[t.session]] == s.cache.sessions;
    }
  }

  // ---------- replays kill the session ----------

  function CountThefts(thefts: seq<Key>, u: Uid): nat {
    if thefts == [] then 0
    else CountThefts(thefts[..|thefts| - 1], u) + (if thefts[|thefts| - 1].user == u then 1 else 0)
  }

  lemma CountSnoc(thefts: seq<Key>, k: Key, u: Uid)
    ensures CountThefts(thefts + [k], u) == CountThefts(thefts, u) + (if k.user == u then 1 else 0)
  {
    assert (thefts + [k])[..|thefts + [k]| - 1] == thefts;
  }

  ghost predicate Dead(s: State, k: Key) {
    && k.session in s.hist.owner && s.hist.owner[k.session] == k.user
    && k !in s.tables.sessions && k.session !in s.cache.sessions
  }

  /** Sessions with a handled replay are dead and were killed once; each user's replays are accounted for. */
  ghost predicate TheftsHandled(s: State) {
    && (forall k :: k in s.hist.thefts ==> Dead(s, k))
    && (forall i, j :: 0 <= i < j < |s.hist.thefts| ==> s.hist.thefts[i] != s.hist.thefts[j])
    && (forall u :: u in s.cache.thefts ==> s.cache.thefts[u] < 3)
    && (forall u :: Accounted(s, u))
  }

  /** The replays of one user: those that led to version bumps, the cached count and the counts lost. */
  ghost predicate Accounted(s: State, u: Uid) {
    CountThefts(s.hist.thefts, u) == 3 * Get(s.hist.bumps, u) + Get(s.cache.thefts, u) + Get(s.hist.lost, u)
  }

  lemma DeadStep(s: State, e: Event, k: Key)
    requires Consistent(s) && Dead(s, k)
    ensures Dead(Step(s, e), k)
  {
  }

  /** A replay is only ever found for a session that is cached or stored. */
  lemma TheftHandled(s: State, k: Key)
    requires Consistent(s) && TheftsHandled(s) && k.session in s.hist.owner && s.hist.owner[k.session] == k.user
    requires k.session in s.cache.sessions || k in s.tables.sessions
    ensures TheftsHandled(HandleTheft(s, k))
  {
    assert k !in s.hist.thefts;
    forall u
      ensures Accounted(HandleTheft(s, k), u)
    {
      TheftCounted(s, k, u);
    }
  }

  lemma TheftCounted(s: State, k: Key, u: Uid)
    requires Accounted(s, u) && (k.user in s.cache.thefts ==> s.cache.thefts[k.user] < 3)
    ensures Accounted(HandleTheft(s, k), u)
  {
    CountSnoc(s.hist.thefts, k, u);
  }

  lemma NoReplayNoTheft(s: State, t: Token)
    requires !RefreshToken(s, t).1.ReplayDetected?
    ensures var s1 := RefreshToken(s, t).0;
            && s1.hist.thefts == s.hist.thefts && s1.hist.bumps == s.hist.bumps && s1.hist.lost == s.hist.lost
            && s1.cache.thefts == s.cache.thefts
  {
  }

  lemma TheftsHandledStep(s: State, e: Event)
    requires Consistent(s) && TheftsHandled(s)
    ensures TheftsHandled(Step(s, e))
  {
    forall k | k in s.hist.thefts
      ensures Dead(Step(s, e), k)
    {
      DeadStep(s, e, k);
    }
    if Enabled(s, e) && e.RefreshCall? {
      if RefreshToken(s, e.token).1.ReplayDetected? {
        TheftHandled(s, KeyOf(e.token));
      } else {
        NoReplayNoTheft(s, e.token);
        assert forall u :: Accounted(s, u) ==> Accounted(Step(s, e), u);
      }
    } else {
      assert forall u :: Accounted(s, u) ==> Accounted(Step(s, e), u);
    }
  }

  /** Per user, replays = 3 × the version bumps they caused + the cached count + the counts lost with the
      cache; and no session is ever reported twice. */
  lemma {:induction false} TheftAccounting(es: seq<Event>)
    ensures TheftsHandled(Run(EMPTY, es))
    decreases |es|
  {
    if es != [] {
      var rest := es[..|es| - 1];
      TheftAccounting(rest);
      CacheAgreesWithStore(rest);
      TheftsHandledStep(Run(EMPTY, rest), es[|es| - 1]);
    }
  }

  /** A user's third counted replay raises the stored version by one, and starts the count again; an earlier one
      only counts. Nobody else's version or count changes. */
  lemma ThirdReplayBumps(s: State, k: Key)
    requires TheftsHandled(s)
    ensures var s1, n := HandleTheft(s, k), if k.user in s.cache.thefts then s.cache.thefts[k.user] else 0;
      && Version(s1.tables, k.user) == Version(s.tables, k.user) + (if n == 2 then 1 else 0)
      && (if n == 2 then k.user !in s1.cache.thefts
          else k.user in s1.cache.thefts && s1.cache.thefts[k.user] == n + 1)
      && (forall u :: u != k.user ==>
            Version(s1.tables, u) == Version(s.tables, u) && Get(s1.cache.thefts, u) == Get(s.cache.thefts, u))
      && s1.tables.sessions == s.tables.sessions - {k} && s1.cache.sessions == s.cache.sessions - {k.session}
  {
  }

  /** How often the user logged out everywhere. */
  function LogoutAlls(es: seq<Event>, u: Uid): nat {
    if es == [] then 0
    else LogoutAlls(es[..|es| - 1], u) + (if es[|es| - 1] == LogoutAllCall(u) then 1 else 0)
  }

  /** The part of the stored version that replays did not cause. */
  function Uncaused(s: State, u: Uid): int {
    Version(s.tables, u) - Get(s.hist.bumps, u)
  }

  lemma TheftCausesItsBump(s: State, k: Key, u: Uid)
    ensures Uncaused(HandleTheft(s, k), u) == Uncaused(s, u)
  {
  }

  lemma RefreshCausesItsBump(s: State, t: Token, u: Uid)
    ensures Uncaused(RefreshToken(s, t).0, u) == Uncaused(s, u)
  {
    TheftCausesItsBump(s, KeyOf(t), u);
  }

  lemma VersionStep(s: State, e: Event, u: Uid)
    ensures Uncaused(Step(s, e), u) == Uncaused(s, u) + (if e == LogoutAllCall(u) then 1 else 0)
  {
    if Enabled(s, e) && e.RefreshCall? {
      RefreshCausesItsBump(s, e.token, u);
    }
  }

  /** In every run a user's stored version counts the logouts everywhere and the replays, in threes, that bumped it. */
  lemma {:induction false} VersionCounts(es: seq<Event>, u: Uid)
    ensures Version(Run(EMPTY, es).tables, u) == LogoutAlls(es, u) + Get(Run(EMPTY, es).hist.bumps, u)
    decreases |es|
  {
    if es != [] {
      VersionCounts(es[..|es| - 1], u);
      VersionStep(Run(EMPTY, es[..|es| - 1]), es[|es| - 1], u);
    }
  }

  lemma {:induction false} ConsistentRun(s: State, es: seq<Event>)
    requires Consistent(s)
    ensures Consistent(Run(s, es))
    decreases |es|
  {
    if es != [] {
      ConsistentRun(s, es[..|es| - 1]);
      ConsistentStep(Run(s, es[..|es| - 1]), es[|es| - 1]);
    }
  }

  lemma {:induction false} DeadRun(s: State, es: seq<Event>, k: Key)
    requires Consistent(s) && Dead(s, k)
    ensures Dead(Run(s, es), k)
    decreases |es|
  {
    if es != [] {
      DeadRun(s, es[..|es| - 1], k);
      ConsistentRun(s, es[..|es| - 1]);
      DeadStep(Run(s, es[..|es| - 1]), es[|es| - 1], k);
    }
  }

  lemma ReplayKills(s: State, t: Token)
    requires Consistent(s) && Enabled(s, RefreshCall(t)) && RefreshToken(s, t).1.ReplayDetected?
    ensures Consistent(Step(s, RefreshCall(t))) && Dead(Step(s, RefreshCall(t)), KeyOf(t))
  {
    ConsistentStep(s, RefreshCall(t));
    assert RefreshToken(s, t).0 == HandleTheft(s, KeyOf(t));
  }

  /** However the service is used after a replay was handled, no token of that session is refreshed or
      validated again, and no second replay is reported for it. */
  lemma KilledSessionsStayDead(before: seq<Event>, replayed: Token, after: seq<Event>, t: Token, now: int)
    requires var s := Run(EMPTY, before);
             Enabled(s, RefreshCall(replayed)) && RefreshToken(s, replayed).1.ReplayDetected?
    requires KeyOf(t) == KeyOf(replayed)
    ensures var s := Run(Step(Run(EMPTY, before), RefreshCall(replayed)), after);
            && RefreshToken(s, t).1 == SessionNotFound
            && ValidateToken(s, t, now).1 == Rejected
  {
    var s0 := Run(EMPTY, before);
    CacheAgreesWithStore(before);
    ReplayKills(s0, replayed);
    DeadRun(Step(s0, RefreshCall(replayed)), after, KeyOf(replayed));
  }

  // ---------- global revocation ----------

  /** From here on, tokens of user `u`'s session `sid` below version `v` are cut off. */
  ghost predicate CutOff(s: State, u: Uid, sid: Sid, v: nat) {
    && Version(s.tables, u) >= v
    && (sid in s.cache.sessions ==> s.cache.sessions[sid].minGlobalVer >= v)
  }

  lemma CutOffRefresh(s: State, t: Token, u: Uid, sid: Sid, v: nat)
    requires Consistent(s) && CutOff(s, u, sid, v) && t in s.hist.minted
    requires sid in s.hist.owner && s.hist.owner[sid] == u
    ensures CutOff(RefreshToken(s, t).0, u, sid, v)
    ensures RefreshToken(s, t).0.hist.owner == s.hist.owner
  {
  }

  lemma CutOffStep(s: State, e: Event, u: Uid, sid: Sid, v: nat)
    requires Consistent(s) && CutOff(s, u, sid, v)
    requires sid in s.hist.owner && s.hist.owner[sid] == u
    ensures CutOff(Step(s, e), u, sid, v)
    ensures sid in Step(s, e).hist.owner && Step(s, e).hist.owner[sid] == u
  {
    if Enabled(s, e) && e.RefreshCall? {
      CutOffRefresh(s, e.token, u, sid, v);
    }
  }

  lemma {:induction false} CutOffRun(s: State, es: seq<Event>, u: Uid, sid: Sid, v: nat)
    requires Consistent(s) && CutOff(s, u, sid, v)
    requires sid in s.hist.owner && s.hist.owner[sid] == u
    ensures CutOff(Run(s, es), u, sid, v)
    ensures sid in Run(s, es).hist.owner && Run(s, es).hist.owner[sid] == u
    decreases |es|
  {
    if es != [] {
      CutOffRun(s, es[..|es| - 1], u, sid, v);
      ConsistentRun(s, es[..|es| - 1]);
      CutOffStep(Run(s, es[..|es| - 1]), es[|es| - 1], u, sid, v);
    }
  }

  /** Once the user's version is v and the session has left the cache, no token of the session below v is
      refreshed or validated in any later run. */
  lemma GlobalRevocation(before: seq<Event>, after: seq<Event>, u: Uid, sid: Sid, v: nat, t: Token, now: int)
    requires var s := Run(EMPTY, before);
             && Version(s.tables, u) >= v && sid !in s.cache.sessions
             && sid in s.hist.owner && s.hist.owner[sid] == u
    requires t.user == u && t.session == sid && t.globalVer < v
    ensures var s := Run(Run(EMPTY, before), after);
            && !RefreshToken(s, t).1.Rotated?
            && !ValidateToken(s, t, now).1.Valid?
  {
    CacheAgreesWithStore(before);
    CutOffRun(Run(EMPTY, before), after, u, sid, v);
  }

  /** Logging out everywhere stops a token that was good until then exactly when its session is not cached. */
  lemma LogoutAllTakesHoldIff(s: State, t: Token)
    requires Consistent(s) && Enabled(s, RefreshCall(t)) && RefreshToken(s, t).1.Rotated?
    ensures var r := RefreshToken(Step(s, LogoutAllCall(t.user)), t).1;
            && (r == TokenRevoked <==> t.session !in s.cache.sessions)
            && (r.Rotated? <==> t.session in s.cache.sessions)
  {
  }

  /** The same for access tokens. */
  lemma LogoutAllStopsAccessIff(s: State, t: Token, now: int)
    requires Consistent(s) && Enabled(s, ValidateCall(t, now)) && ValidateToken(s, t, now).1.Valid?
    ensures ValidateToken(Step(s, LogoutAllCall(t.user)), t, now).1.Valid? <==> t.session in s.cache.sessions
  {
  }

  /** A session that is cached and still has its row, held by its newest token at the cached version. */
  ghost predicate KeptAlive(s: State, t: Token) {
    && Consistent(s) && Enabled(s, RefreshCall(t)) && t.session in s.cache.sessions
    && RefreshToken(s, t).1.Rotated?
  }

  function CachedVersion(s: State, sid: Sid): nat {
    if sid in s.cache.sessions then s.cache.sessions[sid].minGlobalVer else 0
  }

  lemma RefreshKeepsAlive(s: State, t: Token)
    requires KeptAlive(s, t)
    ensures var next := RefreshToken(s, t).1.refresh;
            && KeptAlive(Step(s, RefreshCall(t)), next)
            && KeyOf(next) == KeyOf(t) && next.gen == t.gen + 1
            && next.globalVer == CachedVersion(Step(s, RefreshCall(t)), t.session) == CachedVersion(s, t.session)
            && Step(s, RefreshCall(t)).tables.revocations == s.tables.revocations
  {
    ConsistentStep(s, RefreshCall(t));
  }

  /** Every session is in that state right after its login, whatever happened before. */
  lemma FreshSessionKeptAlive(before: seq<Event>, u: Uid, sid: Sid, expiresAt: int)
    requires sid !in Run(EMPTY, before).hist.owner
    ensures var s := Run(EMPTY, before);
            KeptAlive(Step(s, LogIn(u, sid, expiresAt)), Token(Refresh, u, sid, 1, Version(s.tables, u)))
  {
    CacheAgreesWithStore(before);
    ConsistentStep(Run(EMPTY, before), LogIn(u, sid, expiresAt));
  }

  /** A cached session outlives a logout everywhere for as long as its holder keeps refreshing: any number of
      refreshes later its newest token, minted since, still rotates. */
  lemma {:induction false} CachedSessionOutlivesLogoutAll(s: State, t: Token, n: nat)
    returns (es: seq<Event>, last: Token)
    requires KeptAlive(s, t)
    ensures |es| == n && forall e :: e in es ==> e.RefreshCall?
    ensures var s1 := Run(Step(s, LogoutAllCall(t.user)), es);
            && KeptAlive(s1, last)
            && Version(s1.tables, t.user) == Version(s.tables, t.user) + 1
            && KeyOf(last) == KeyOf(t) && last.gen == t.gen + n
            && CachedVersion(s1, t.session) == CachedVersion(s, t.session)
            && last.globalVer <= Version(s.tables, t.user)
  {
    var s0 := Step(s, LogoutAllCall(t.user));
    if n == 0 {
      ConsistentStep(s, LogoutAllCall(t.user));
      es, last := [], t;
    } else {
      var before, prev := CachedSessionOutlivesLogoutAll(s, t, n - 1);
      var s1 := Run(s0, before);
      RefreshKeepsAlive(s1, prev);
      es := before + [RefreshCall(prev)];
      last := RefreshToken(s1, prev).1.refresh;
      assert es[..|es| - 1] == before;
    }
  }

  /** After any history, a user logs in and logs out everywhere; the session's holder can then refresh any
      number of times, and the last access token is accepted. */
  lemma LogoutAllMissesFreshSession(before: seq<Event>, u: Uid, sid: Sid, expiresAt: int, n: nat, now: int)
    returns (es: seq<Event>, last: Token)
    requires sid !in Run(EMPTY, before).hist.owner
    ensures |es| == n && forall e :: e in es ==> e.RefreshCall?
    ensures var s := Run(EMPTY, before);
            var s1 := Run(Step(Step(s, LogIn(u, sid, expiresAt)), LogoutAllCall(u)), es);
            && RefreshToken(s1, last).1.Rotated?
            && ValidateToken(s1, last.(kind := Access), now).1.Valid?
            && KeyOf(last) == Key(u, sid) && last.gen == n + 1
            && last.globalVer < Version(s1.tables, u)
  {
    var s := Run(EMPTY, before);
    FreshSessionKeptAlive(before, u, sid, expiresAt);
    es, last := CachedSessionOutlivesLogoutAll(Step(s, LogIn(u, sid, expiresAt)), Token(Refresh, u, sid, 1, Version(s.tables, u)), n);
  }

  /** After any history, a session that was logged out right after its login still refreshes. */
  lemma LoggedOutSessionRefreshes(before: seq<Event>, u: Uid, sid: Sid, expiresAt: int)
    requires sid !in Run(EMPTY, before).hist.owner
    ensures var s := Run(EMPTY, before);
            var t := Token(Refresh, u, sid, 1, Version(s.tables, u));
            RefreshToken(Step(Step(s, LogIn(u, sid, expiresAt)), LogoutCall(t)), t).1.Rotated?
  {
    FreshSessionKeptAlive(before, u, sid, expiresAt);
  }

  /** After any history, a session logs in, refreshes, and is evicted from the cache once its row's first
      lifetime is over: its newest access token is rejected while its newest refresh token still rotates. */
  lemma RefreshDoesNotRenewAccess(before: seq<Event>, u: Uid, sid: Sid, expiresAt: int, now: int)
    returns (es: seq<Event>, access: Token, refresh: Token)
    requires sid !in Run(EMPTY, before).hist.owner && expiresAt < now
    ensures var s := Run(EMPTY, before);
            var s1 := Run(s, es);
            && es == [LogIn(u, sid, expiresAt), RefreshCall(Token(Refresh, u, sid, 1, Version(s.tables, u))), CacheEvicts(sid)]
            && {access, refresh} == Pair(Key(u, sid), 2, Version(s.tables, u)) && {access, refresh} <= s1.hist.minted
            && access.kind == Access && refresh.kind == Refresh
            && ValidateToken(s1, access, now).1 == Rejected
            && RefreshToken(s1, refresh).1.Rotated?
  {
    var s := Run(EMPTY, before);
    var v := Version(s.tables, u);
    var t := Token(Refresh, u, sid, 1, v);
    FreshSessionKeptAlive(before, u, sid, expiresAt);
    RunThree(s, LogIn(u, sid, expiresAt), RefreshCall(t), CacheEvicts(sid));
    es := [LogIn(u, sid, expiresAt), RefreshCall(t), CacheEvicts(sid)];
    access, refresh := Token(Access, u, sid, 2, v), Token(Refresh, u, sid, 2, v);
  }

  lemma RunSnoc(s: State, es: seq<Event>, e: Event)
    ensures Run(s, es + [e]) == Step(Run(s, es), e)
  {
    assert (es + [e])[..|es + [e]| - 1] == es;
  }

  lemma RunThree(s: State, a: Event, b: Event, c: Event)
    ensures Run(s, [a, b, c]) == Step(Step(Step(s, a), b), c)
  {
    RunSnoc(s, [], a);
    RunSnoc(s, [a], b);
    RunSnoc(s, [a, b], c);
    assert [] + [a] == [a] && [a] + [b] == [a, b] && [a, b] + [c] == [a, b, c];
  }

  /** Logging out only drops the cache entry: the token still rotates whenever its row and version allow it. */
  lemma LogoutLeavesTokenUsableIff(s: State, t: Token)
    requires Consistent(s) && Enabled(s, LogoutCall(t))
    ensures RefreshToken(Step(s, LogoutCall(t)), t).1.Rotated? <==>
      && KeyOf(t) in s.tables.sessions
      && t.gen == s.hist.newest[t.session]
      && t.globalVer >= Version(s.tables, t.user)
  {
  }
}
