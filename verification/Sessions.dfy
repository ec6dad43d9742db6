// Session rotation: services/auth/internal/service/auth_service.go over the
// tables of services/auth/internal/scyllastore/session_store.go, one replica,
// each call one step. AuthService.dfy holds the objects that take these steps.

module Sessions {

  type Uid = nat
  type Sid = nat

  datatype Key = Key(user: Uid, session: Sid)
  datatype Row = Row(gen: int, expiresAt: int)
  datatype Tables = Tables(sessions: map<Key, Row>, revocations: map<Uid, nat>)

  // CachedSession, and the theft counter that shares the cache.
  datatype CachedSession = CachedSession(gen: int, minGlobalVer: nat)
  datatype Cache = Cache(sessions: map<Sid, CachedSession>, thefts: map<Uid, nat>)

  datatype Kind = Refresh | Access
  datatype Token = Token(kind: Kind, user: Uid, session: Sid, gen: int, globalVer: nat)

  // What happened so far: who owns each session, its newest generation, every
  // token handed out, the replays handled, and per user the version bumps those
  // caused and the counts lost with the cache.
  datatype History = History(
    owner: map<Sid, Uid>,
    newest: map<Sid, int>,
    minted: set<Token>,
    thefts: seq<Key>,
    bumps: map<Uid, nat>,
    lost: map<Uid, nat>)

  datatype State = State(tables: Tables, cache: Cache, hist: History)

  datatype RefreshResult =
    | Rotated(access: Token, refresh: Token)
    | ReplayDetected
    | TokenRevoked
    | SessionNotFound
    | ConcurrentRotation
    | RefreshUnverified(error: TokenError)

  datatype ValidateResult = Valid(user: Uid) | Rejected | AccessUnverified(error: TokenError)

  // What verifying a presented token string yields.
  datatype TokenError = TokenExpired | InvalidToken
  datatype Presented = Verified(token: Token) | Unverified(error: TokenError)

  datatype Event =
    | LogIn(user: Uid, session: Sid, expiresAt: int)
    | RefreshCall(token: Token)
    | ValidateCall(token: Token, now: int)
    | LogoutCall(token: Token)
    | LogoutAllCall(user: Uid)
    | CacheEvicts(session: Sid)
    | CounterEvicted(user: Uid)
    | RowExpires(key: Key)

  const THEFT_THRESHOLD: nat := 3

  function Get<T>(m: map<T, nat>, k: T): nat {
    if k in m then m[k] else 0
  }

  function KeyOf(t: Token): Key {
    Key(t.user, t.session)
  }

  // ---------- the store ----------

  /** The user's global version; a user without a revocation row has version 0. */
  function Version(t: Tables, u: Uid): nat {
    Get(t.revocations, u)
  }

  function BumpVersion(t: Tables, u: Uid): Tables {
    t.(revocations := t.revocations[u := Version(t, u) + 1])
  }

  /** The conditional update of AtomicBumpGen: no effect unless the row exists with the expected generation. */
  predicate BumpApplies(t: Tables, k: Key, expected: int) {
    k in t.sessions && t.sessions[k].gen == expected
  }

  function BumpGen(t: Tables, k: Key, expected: int, gen: int): Tables {
    if BumpApplies(t, k, expected) then t.(sessions := t.sessions[k := t.sessions[k].(gen := gen)]) else t
  }

  // ---------- the calls ----------

  /** handleTheftDetected: count, bump the user's version at the threshold, then kill the session. */
  function HandleTheft(s: State, k: Key): State {
    var attempts := Get(s.cache.thefts, k.user) + 1;
    var escalates := attempts >= THEFT_THRESHOLD;
    var tables := if escalates then BumpVersion(s.tables, k.user) else s.tables;
    State(
      tables.(sessions := tables.sessions - {k}),
      Cache(s.cache.sessions - {k.session},
            if escalates then s.cache.thefts - {k.user} else s.cache.thefts[k.user := attempts]),
      s.hist.(thefts := s.hist.thefts + [k],
              bumps := if escalates then s.hist.bumps[k.user := Get(s.hist.bumps, k.user) + 1] else s.hist.bumps))
  }

  /** Hands out the pair of one generation, and caches the generation with the version it carries. */
  function Mint(s: State, k: Key, gen: int, globalVer: nat): State {
    s.(cache := s.cache.(sessions := s.cache.sessions[k.session := CachedSession(gen, globalVer)]),
       hist := s.hist.(newest := s.hist.newest[k.session := gen],
                       minted := s.hist.minted + Pair(k, gen, globalVer)))
  }

  function Pair(k: Key, gen: int, globalVer: nat): set<Token> {
    {Token(Refresh, k.user, k.session, gen, globalVer), Token(Access, k.user, k.session, gen, globalVer)}
  }

  /** The conditional update and, when it applies, the new pair. */
  function Rotate(s: State, k: Key, gen: int, globalVer: nat): (State, RefreshResult) {
    if !BumpApplies(s.tables, k, gen) then (s, ConcurrentRotation) else
    (Mint(s.(tables := BumpGen(s.tables, k, gen, gen + 1)), k, gen + 1, globalVer),
     Rotated(Token(Access, k.user, k.session, gen + 1, globalVer),
             Token(Refresh, k.user, k.session, gen + 1, globalVer)))
  }

  function RefreshToken(s: State, t: Token): (State, RefreshResult) {
    var k := KeyOf(t);
    if t.session in s.cache.sessions then
      var c := s.cache.sessions[t.session];
      if t.gen != c.gen then (HandleTheft(s, k), ReplayDetected)
      else if t.globalVer < c.minGlobalVer then (s, TokenRevoked)
      else Rotate(s, k, c.gen, c.minGlobalVer)
    else if k !in s.tables.sessions then (s, SessionNotFound)
    else
      var gen := s.tables.sessions[k].gen;
      if t.gen != gen then (HandleTheft(s, k), ReplayDetected)
      else if t.globalVer < Version(s.tables, t.user) then (s, TokenRevoked)
      else Rotate(s, k, gen, Version(s.tables, t.user))
  }

  function ValidateToken(s: State, t: Token, now: int): (State, ValidateResult) {
    var k := KeyOf(t);
    if t.session in s.cache.sessions then
      var c := s.cache.sessions[t.session];
      (s, if t.gen != c.gen || t.globalVer < c.minGlobalVer then Rejected else Valid(t.user))
    else if k !in s.tables.sessions || now > s.tables.sessions[k].expiresAt
            || t.gen != s.tables.sessions[k].gen || t.globalVer < Version(s.tables, t.user) then (s, Rejected)
    else
      (s.(cache := s.cache.(sessions := s.cache.sessions[t.session :=
           CachedSession(s.tables.sessions[k].gen, Version(s.tables, t.user))])),
       Valid(t.user))
  }

  /** mintSessionTokenPair for a session id drawn by the call. */
  function Start(s: State, u: Uid, sid: Sid, expiresAt: int): State {
    var tables := s.tables.(sessions := s.tables.sessions[Key(u, sid) := Row(1, expiresAt)]);
    Mint(s.(tables := tables, hist := s.hist.(owner := s.hist.owner[sid := u])),
         Key(u, sid), 1, Version(s.tables, u))
  }

  function Forget(s: State, sid: Sid): State {
    s.(cache := s.cache.(sessions := s.cache.sessions - {sid}))
  }

  function LoseCounter(s: State, u: Uid): State {
    s.(cache := s.cache.(thefts := s.cache.thefts - {u}),
       hist := s.hist.(lost := s.hist.lost[u := Get(s.hist.lost, u) + Get(s.cache.thefts, u)]))
  }

  /** Session ids are drawn fresh; a call gets past verification only with a token that was handed out. */
  predicate Enabled(s: State, e: Event) {
    match e
    case LogIn(_, sid, _) => sid !in s.hist.owner
    case RefreshCall(t) => t in s.hist.minted && t.kind == Refresh
    case ValidateCall(t, _) => t in s.hist.minted && t.kind == Access
    case LogoutCall(t) => t in s.hist.minted && t.kind == Refresh
    case _ => true
  }

  function Step(s: State, e: Event): State {
    if !Enabled(s, e) then s else
    match e
    case LogIn(u, sid, expiresAt) => Start(s, u, sid, expiresAt)
    case RefreshCall(t) => RefreshToken(s, t).0
    case ValidateCall(t, now) => ValidateToken(s, t, now).0
    case LogoutCall(t) => Forget(s, t.session)
    case LogoutAllCall(u) => s.(tables := BumpVersion(s.tables, u))
    case CacheEvicts(sid) => Forget(s, sid)
    case CounterEvicted(u) => LoseCounter(s, u)
    case RowExpires(k) => s.(tables := s.tables.(sessions := s.tables.sessions - {k}))
  }

  function Run(s: State, es: seq<Event>): State {
    if es == [] then s else Step(Run(s, es[..|es| - 1]), es[|es| - 1])
  }

  const EMPTY := State(Tables(map[], map[]), Cache(map[], map[]), History(map[], map[], {}, [], map[], map[]))
}
