// The session objects: the store over the Scylla tables and the service with
// its cache. Every method takes the step of the same name in Sessions.dfy, and
// says what its caller may rely on: in a state the service can be in, called with
// a token it handed out, it leaves another such state.

module AuthServiceObjects {
  import opened Prelude
  import S = Sessions
  import P = SessionProofs

  class SessionStore {
    var sessions: map<S.Key, S.Row>
    var revocations: map<S.Uid, nat>

    ghost function View(): S.Tables
      reads this
    {
      S.Tables(sessions, revocations)
    }

    constructor ()
      ensures View() == S.Tables(map[], map[])
    {
      sessions, revocations := map[], map[];
    }

    method GetSession(k: S.Key) returns (row: Option<S.Row>)
      ensures row == if k in sessions then Some(sessions[k]) else None
    {
      row := if k in sessions then Some(sessions[k]) else None;
    }

    method StoreSession(k: S.Key, row: S.Row)
      modifies this
      ensures View() == old(View()).(sessions := old(sessions)[k := row])
    {
      sessions := sessions[k := row];
    }

    /** UPDATE … IF gen = ?: the comparison and the write are one step. */
    method AtomicBumpGen(k: S.Key, expected: int, gen: int) returns (applied: bool)
      modifies this
      ensures applied == S.BumpApplies(old(View()), k, expected)
      ensures applied <==> k in old(sessions) && old(sessions)[k].gen == expected
      ensures sessions == if applied then old(sessions)[k := S.Row(gen, old(sessions)[k].expiresAt)] else old(sessions)
      ensures View() == S.BumpGen(old(View()), k, expected, gen)
    {
      applied := k in sessions && sessions[k].gen == expected;
      if applied {
        sessions := sessions[k := sessions[k].(gen := gen)];
      }
    }

    method GetUserRevocation(u: S.Uid) returns (version: Option<nat>)
      ensures version == if u in revocations then Some(revocations[u]) else None
    {
      version := if u in revocations then Some(revocations[u]) else None;
    }

    method BumpUserGlobalVer(u: S.Uid) returns (version: nat)
      modifies this
      ensures View() == S.BumpVersion(old(View()), u)
      ensures version == S.Version(View(), u)
      ensures version == (if u in old(revocations) then old(revocations)[u] else 0) + 1
      ensures revocations == old(revocations)[u := version] && sessions == old(sessions)
    {
      var record := GetUserRevocation(u);
      version := (if record.Some? then record.value else 0) + 1;
      revocations := revocations[u := version];
    }

    method DeleteSession(k: S.Key)
      modifies this
      ensures View() == old(View()).(sessions := old(sessions) - {k})
    {
      sessions := sessions - {k};
    }
  }

  class AuthService {
    const store: SessionStore
    var cachedSessions: map<S.Sid, S.CachedSession>
    var theftCounts: map<S.Uid, nat>

    ghost var hist: S.History

    ghost function View(): S.State
      reads this, store
    {
      S.State(store.View(), S.Cache(cachedSessions, theftCounts), hist)
    }

    /** What every run keeps: cache, rows and tokens agree, and every replay found is accounted for. */
    ghost predicate Valid()
      reads this, store
    {
      P.Consistent(View()) && P.TheftsHandled(View())
    }

    /** The state after a call that took the step `e`. */
    twostate lemma StepKeepsValid(e: S.Event)
      requires old(Valid()) && S.Enabled(old(View()), e) && View() == S.Step(old(View()), e)
      ensures Valid()
    {
      P.ConsistentStep(old(View()), e);
      P.TheftsHandledStep(old(View()), e);
    }

    constructor ()
      ensures Valid() && View() == S.EMPTY && fresh(store)
    {
      store := new SessionStore();
      cachedSessions, theftCounts := map[], map[];
      hist := S.EMPTY.hist;
      new;
      P.CacheAgreesWithStore([]);
      P.TheftAccounting([]);
    }

    /** Remembers a pair of tokens handed out. */
    ghost method Record(k: S.Key, gen: int, globalVer: nat)
      modifies `hist
      ensures hist == old(hist).(newest := old(hist).newest[k.session := gen],
                                 minted := old(hist).minted + S.Pair(k, gen, globalVer))
    {
      hist := hist.(newest := hist.newest[k.session := gen], minted := hist.minted + S.Pair(k, gen, globalVer));
    }

    method UserVersion(u: S.Uid) returns (version: nat)
      ensures version == S.Version(store.View(), u)
    {
      var record := store.GetUserRevocation(u);
      version := if record.Some? then record.value else 0;
    }

    method MintSessionTokenPair(u: S.Uid, sid: S.Sid, expiresAt: int) returns (access: S.Token, refresh: S.Token)
      modifies this, store
      ensures View() == S.Start(old(View()), u, sid, expiresAt)
      ensures old(Valid()) && sid !in old(hist).owner ==> Valid() && access !in old(hist).minted && refresh !in old(hist).minted
      ensures var version := if u in old(store.revocations) then old(store.revocations)[u] else 0;
              && refresh == S.Token(S.Refresh, u, sid, 1, version) && access == S.Token(S.Access, u, sid, 1, version)
              && store.sessions == old(store.sessions)[S.Key(u, sid) := S.Row(1, expiresAt)]
              && cachedSessions == old(cachedSessions)[sid := S.CachedSession(1, version)]
    {
      store.StoreSession(S.Key(u, sid), S.Row(1, expiresAt));
      var version := UserVersion(u);
      refresh := S.Token(S.Refresh, u, sid, 1, version);
      access := S.Token(S.Access, u, sid, 1, version);
      cachedSessions := cachedSessions[sid := S.CachedSession(1, version)];
      hist := hist.(owner := hist.owner[sid := u]);
      Record(S.Key(u, sid), 1, version);
      if old(Valid()) && sid !in old(hist).owner {
        StepKeepsValid(S.LogIn(u, sid, expiresAt));
      }
    }

    /** A pair comes back exactly to the newest token of a live session at the required version, and it is the
        next generation's, never handed out before; after a reported replay the session is dead. */
    method RefreshToken(presented: S.Presented) returns (r: S.RefreshResult)
      modifies this, store
      ensures presented.Verified? ==> (View(), r) == S.RefreshToken(old(View()), presented.token)
      ensures presented.Unverified? ==> View() == old(View()) && r == S.RefreshUnverified(presented.error)
      ensures old(Valid()) && Issued(old(hist), presented, S.Refresh) ==>
        && Valid()
        && (r.Rotated? ==>
              && r.refresh == S.Token(S.Refresh, presented.token.user, presented.token.session, presented.token.gen + 1,
                                      P.RequiredVersion(old(View()), presented.token))
              && r.access == r.refresh.(kind := S.Access)
              && r.refresh !in old(hist).minted && r.access !in old(hist).minted && {r.access, r.refresh} <= hist.minted
              && hist.newest[presented.token.session] == r.refresh.gen)
        && (r.Rotated? <==>
              && presented.token.gen == old(hist).newest[presented.token.session]
              && S.KeyOf(presented.token) in old(store.sessions)
              && presented.token.globalVer >= P.RequiredVersion(old(View()), presented.token))
        && (r.ReplayDetected? ==> P.Dead(View(), S.KeyOf(presented.token)))
        && (presented.token.gen < old(hist).newest[presented.token.session] ==> r.ReplayDetected? || r.SessionNotFound?)
    {
      r := TakeRefresh(presented);
      if old(Valid()) && Issued(old(hist), presented, S.Refresh) {
        StepKeepsValid(S.RefreshCall(presented.token));
        P.RefreshOutcome(old(View()), presented.token);
        if r.Rotated? {
          P.RotatedPair(old(View()), presented.token);
        }
        if r.ReplayDetected? {
          P.ReplayKills(old(View()), presented.token);
        }
      }
    }

    /** The presented string verified as a token of this kind that the service handed out. */
    static ghost predicate Issued(h: S.History, presented: S.Presented, kind: S.Kind) {
      presented.Verified? && presented.token in h.minted && presented.token.kind == kind
    }

    /** The call itself, cache first. */
    method TakeRefresh(presented: S.Presented) returns (r: S.RefreshResult)
      modifies this, store
      ensures presented.Verified? ==> (View(), r) == S.RefreshToken(old(View()), presented.token)
      ensures presented.Unverified? ==> View() == old(View()) && r == S.RefreshUnverified(presented.error)
    {
      if presented.Unverified? {
        return S.RefreshUnverified(presented.error);
      }
      var t := presented.token;
      var k := S.KeyOf(t);
      if t.session in cachedSessions {
        var entry := cachedSessions[t.session];
        if t.gen != entry.gen {
          HandleTheftDetected(k);
          return S.ReplayDetected;
        }
        if t.globalVer < entry.minGlobalVer {
          return S.TokenRevoked;
        }
        r := Rotate(k, entry.gen, entry.minGlobalVer);
        return;
      }

      var row := store.GetSession(k);
      if row.None? {
        return S.SessionNotFound;
      }
      if t.gen != row.value.gen {
        HandleTheftDetected(k);
        return S.ReplayDetected;
      }
      var version := UserVersion(t.user);
      if t.globalVer < version {
        return S.TokenRevoked;
      }
      r := Rotate(k, row.value.gen, version);
    }

    /** The conditional update, the new pair and the new cache entry; both paths of a refresh end here. */
    method Rotate(k: S.Key, gen: int, globalVer: nat) returns (r: S.RefreshResult)
      modifies this, store
      ensures (View(), r) == S.Rotate(old(View()), k, gen, globalVer)
    {
      var applied := store.AtomicBumpGen(k, gen, gen + 1);
      if !applied {
        return S.ConcurrentRotation;
      }
      var refresh := S.Token(S.Refresh, k.user, k.session, gen + 1, globalVer);
      var access := S.Token(S.Access, k.user, k.session, gen + 1, globalVer);
      cachedSessions := cachedSessions[k.session := S.CachedSession(gen + 1, globalVer)];
      Record(k, gen + 1, globalVer);
      return S.Rotated(access, refresh);
    }

    /** Accepted means: the newest generation, at the version the session is held to, of a session that is
        cached or whose row is within its first lifetime. */
    method ValidateToken(presented: S.Presented, now: int) returns (r: S.ValidateResult)
      modifies `cachedSessions
      ensures presented.Verified? ==> (View(), r) == S.ValidateToken(old(View()), presented.token, now)
      ensures presented.Unverified? ==> View() == old(View()) && r == S.AccessUnverified(presented.error)
      ensures old(Valid()) && Issued(hist, presented, S.Access) ==>
        && Valid()
        && (r.Valid? ==> r.user == presented.token.user && presented.token.session in cachedSessions)
        && (r.Valid? <==>
              && presented.token.gen == hist.newest[presented.token.session]
              && presented.token.globalVer >= P.RequiredVersion(old(View()), presented.token)
              && (presented.token.session in old(cachedSessions)
                  || (S.KeyOf(presented.token) in store.sessions
                      && now <= store.sessions[S.KeyOf(presented.token)].expiresAt)))
    {
      r := TakeValidate(presented, now);
      if old(Valid()) && Issued(hist, presented, S.Access) {
        StepKeepsValid(S.ValidateCall(presented.token, now));
        P.ValidateOutcome(old(View()), presented.token, now);
      }
    }

    /** The call itself, cache first. */
    method TakeValidate(presented: S.Presented, now: int) returns (r: S.ValidateResult)
      modifies `cachedSessions
      ensures presented.Verified? ==> (View(), r) == S.ValidateToken(old(View()), presented.token, now)
      ensures presented.Unverified? ==> View() == old(View()) && r == S.AccessUnverified(presented.error)
    {
      if presented.Unverified? {
        return S.AccessUnverified(presented.error);
      }
      var t := presented.token;
      if t.session in cachedSessions {
        var entry := cachedSessions[t.session];
        if t.gen != entry.gen || t.globalVer < entry.minGlobalVer {
          return S.Rejected;
        }
        return S.Valid(t.user);
      }
      var row := store.GetSession(S.KeyOf(t));
      if row.None? || now > row.value.expiresAt || t.gen != row.value.gen {
        return S.Rejected;
      }
      var version := UserVersion(t.user);
      if t.globalVer < version {
        return S.Rejected;
      }
      cachedSessions := cachedSessions[t.session := S.CachedSession(row.value.gen, version)];
      return S.Valid(t.user);
    }

    /** The token keeps refreshing exactly when its row is there, it is the newest and its version is not revoked. */
    method Logout(presented: S.Presented)
      modifies `cachedSessions
      ensures presented.Unverified? ==> View() == old(View())
      ensures presented.Verified? ==> View() == S.Forget(old(View()), presented.token.session)
      ensures old(Valid()) && Issued(hist, presented, S.Refresh) ==>
        && Valid()
        && (S.RefreshToken(View(), presented.token).1.Rotated? <==>
              && S.KeyOf(presented.token) in store.sessions
              && presented.token.gen == hist.newest[presented.token.session]
              && presented.token.globalVer >= S.Version(store.View(), presented.token.user))
    {
      if presented.Verified? {
        cachedSessions := cachedSessions - {presented.token.session};
        if old(Valid()) && Issued(hist, presented, S.Refresh) {
          StepKeepsValid(S.LogoutCall(presented.token));
          P.LogoutLeavesTokenUsableIff(old(View()), presented.token);
        }
      }
    }

    /** A refresh token that was good until now is refused from now on exactly when its session is not cached. */
    method LogoutAllDevices(u: S.Uid)
      modifies store
      ensures View() == old(View()).(tables := S.BumpVersion(old(View()).tables, u))
      ensures store.sessions == old(store.sessions)
      ensures store.revocations ==
        old(store.revocations)[u := (if u in old(store.revocations) then old(store.revocations)[u] else 0) + 1]
      ensures old(Valid()) ==>
        && Valid()
        && forall t :: t in hist.minted && t.kind == S.Refresh && t.user == u && S.RefreshToken(old(View()), t).1.Rotated? ==>
             (S.RefreshToken(View(), t).1 == S.TokenRevoked <==> t.session !in cachedSessions)
    {
      var version := store.BumpUserGlobalVer(u);
      if old(Valid()) {
        StepKeepsValid(S.LogoutAllCall(u));
        forall t | t in hist.minted && t.kind == S.Refresh && t.user == u && S.RefreshToken(old(View()), t).1.Rotated?
          ensures S.RefreshToken(View(), t).1 == S.TokenRevoked <==> t.session !in cachedSessions
        {
          P.LogoutAllTakesHoldIff(old(View()), t);
        }
      }
    }

    method HandleTheftDetected(k: S.Key)
      modifies this, store
      ensures View() == S.HandleTheft(old(View()), k)
      ensures old(Valid()) && k.session in hist.owner && hist.owner[k.session] == k.user ==> P.Dead(View(), k)
      ensures old(Valid()) ==>
        && S.Version(store.View(), k.user) == S.Version(old(store.View()), k.user)
             + (if k.user in old(theftCounts) && old(theftCounts)[k.user] == 2 then 1 else 0)
        && forall u :: u != k.user ==> S.Version(store.View(), u) == S.Version(old(store.View()), u)
    {
      var attempts := RecordTheftAttempt(k.user);
      if attempts >= S.THEFT_THRESHOLD {
        var version := store.BumpUserGlobalVer(k.user);
        theftCounts := theftCounts - {k.user};
        hist := hist.(bumps := hist.bumps[k.user := S.Get(hist.bumps, k.user) + 1]);
      }
      store.DeleteSession(k);
      cachedSessions := cachedSessions - {k.session};
      hist := hist.(thefts := hist.thefts + [k]);
      assert attempts >= S.THEFT_THRESHOLD ==> theftCounts == old(theftCounts) - {k.user};
      if old(Valid()) {
        P.ThirdReplayBumps(old(View()), k);
      }
    }

    method RecordTheftAttempt(u: S.Uid) returns (attempts: nat)
      modifies `theftCounts
      ensures attempts == S.Get(old(theftCounts), u) + 1
      ensures theftCounts == old(theftCounts)[u := attempts]
    {
      attempts := 1;
      if u in theftCounts {
        attempts := theftCounts[u] + 1;
      }
      theftCounts := theftCounts[u := attempts];
    }
  }
}
