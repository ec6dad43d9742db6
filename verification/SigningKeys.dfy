// The signing-key lifecycle: pkg/token/eddsa_maker.go over the signing_keys table
// of pkg/token/scylla_keystore.go, one maker process, restarts included.
// SigningKeyMaker.dfy holds the objects.

module SigningKeys {
  import opened Prelude

  // Nanoseconds, as time.Duration.
  const SECOND := 1_000_000_000
  const DAY := 24 * 60 * 60 * SECOND
  const MIN_KEY_TTL := 90 * DAY
  const NO_TTL_LIFETIME := 10 * 365 * DAY
  const ROTATION_MARGIN := 60 * DAY
  const ROTATED_KEY_RETENTION := 7 * DAY
  // default_time_to_live of signing_keys: what storeKey inserts is gone after this.
  const ROW_TTL := 30 * DAY

  // "eddsa-key-" and the unix second the key was made in.
  datatype Kid = Kid(second: int)
  // A key pair; its public half stands for it.
  type KeyPair = nat

  datatype Status = Active | Retired

  // A row of signing_keys with the instants its cells expire: the key cells live
  // from the insert, the status and expiry cells from the last write to them.
  datatype KeyRow = KeyRow(key: KeyPair, keyUntil: int, status: Status, expiresAt: int, statusUntil: int)

  // The maker's fields. The signing key is privateKeys[currentKid].
  datatype Maker = Maker(
    currentKid: Option<Kid>,
    publicKeys: map<Kid, KeyPair>,
    privateKeys: map<Kid, KeyPair>,
    expires: map<Kid, int>)

  // A signed token, with the instant its key was stored. It is live before `exp`,
  // which its claims give in whole seconds.
  datatype Token = Token(kid: Kid, key: KeyPair, keyStored: int, issued: int, exp: int)

  datatype State = State(
    now: int,
    ttl: int,
    maker: Maker,
    rows: map<Kid, KeyRow>,
    stored: map<Kid, int>,
    tokens: set<Token>)

  // A token is dated by a second reading of the clock, `delay` after the one the
  // signing key was checked by.
  datatype Event =
    | Wait(duration: nat)
    | RotateKey(key: KeyPair)
    | CreateToken(duration: nat, key: KeyPair, delay: nat)
    | Restart(current: Option<Kid>, key: KeyPair)

  /** The last whole second up to `t`. */
  function WholeSeconds(t: int): int {
    t / SECOND * SECOND
  }

  /** The id of a key made now. */
  function NewKid(now: int): Kid {
    Kid(now / SECOND)
  }

  // ---------- the store ----------

  /** A row the status query lists. */
  predicate Listed(r: KeyRow, now: int) {
    now < r.statusUntil
  }

  predicate HasKey(r: KeyRow, now: int) {
    now < r.keyUntil
  }

  function StoreKey(rows: map<Kid, KeyRow>, kid: Kid, key: KeyPair, ttl: int, now: int): map<Kid, KeyRow> {
    rows[kid := KeyRow(key, now + ROW_TTL, Active, now + ttl, now + ROW_TTL)]
  }

  /** An UPDATE also writes a row that is not there, or no longer there, without its key cells. */
  function RetireKey(rows: map<Kid, KeyRow>, kid: Kid, now: int): map<Kid, KeyRow> {
    var row := if kid in rows then rows[kid] else KeyRow(0, now, Retired, now, now);
    rows[kid := row.(status := Retired,
                     expiresAt := now + ROTATED_KEY_RETENTION,
                     statusUntil := now + ROTATED_KEY_RETENTION)]
  }

  /** The active keys loadCurrentKID may return one of. */
  function ActiveKids(rows: map<Kid, KeyRow>, now: int): set<Kid> {
    set kid | kid in rows && Listed(rows[kid], now) && rows[kid].status == Active
  }

  /** The key set updateJWKSCache writes. */
  function StoredJwks(rows: map<Kid, KeyRow>, now: int): map<Kid, KeyPair> {
    map kid | kid in rows && Listed(rows[kid], now) && HasKey(rows[kid], now) && now <= rows[kid].expiresAt
      :: rows[kid].key
  }

  // ---------- the maker ----------

  /** The expiry the maker notes for a key made now; without a lifetime it is ten years. */
  function KeyExpiry(ttl: int, now: int): int {
    if ttl <= 0 then now + NO_TTL_LIFETIME else now + ttl
  }

  function Add(m: Maker, kid: Kid, key: KeyPair, expiresAt: int): Maker {
    Maker(Some(kid), m.publicKeys[kid := key], m.privateKeys[kid := key], m.expires[kid := expiresAt])
  }

  function Rotate(s: State, key: KeyPair): State {
    var kid := NewKid(s.now);
    var retired := if s.maker.currentKid.Some? then RetireKey(s.rows, s.maker.currentKid.value, s.now) else s.rows;
    s.(maker := Add(s.maker, kid, key, KeyExpiry(s.ttl, s.now)),
       rows := StoreKey(retired, kid, key, s.ttl, s.now),
       stored := s.stored[kid := s.now])
  }

  /** Whether the current key may still sign: it is there and outlives the rotation margin. */
  predicate CanSign(m: Maker, now: int) {
    && m.currentKid.Some?
    && m.currentKid.value in m.privateKeys
    && (m.currentKid.value !in m.expires || now + ROTATION_MARGIN < m.expires[m.currentKid.value])
  }

  function EnsureSigningKey(s: State, key: KeyPair): State {
    if CanSign(s.maker, s.now) then s else Rotate(s, key)
  }

  function Sign(s: State, duration: nat): State
    requires s.maker.currentKid.Some? && s.maker.currentKid.value in s.maker.privateKeys
    requires s.maker.currentKid.value in s.stored
  {
    var kid := s.maker.currentKid.value;
    s.(tokens := s.tokens + {Token(kid, s.maker.privateKeys[kid], s.stored[kid], s.now, WholeSeconds(s.now + duration))})
  }

  /** The second clock reading, once the signing key was checked. */
  function Checked(s: State, key: KeyPair, delay: nat): State {
    EnsureSigningKey(s, key).(now := s.now + delay)
  }

  /** Signs if there is a key, as after every check. */
  function Mint(s: State, duration: nat): State {
    if s.maker.currentKid.Some? && s.maker.currentKid.value in s.maker.privateKeys
       && s.maker.currentKid.value in s.stored
    then Sign(s, duration) else s
  }

  /** The constructor's load loop: listed rows with a readable key, private keys of the active ones. */
  function Load(rows: map<Kid, KeyRow>, current: Option<Kid>, now: int): Maker {
    var loaded := set kid | kid in rows && Listed(rows[kid], now) && HasKey(rows[kid], now);
    Maker(if current.Some? && current.value in loaded && rows[current.value].status == Active then current else None,
          map kid | kid in loaded :: rows[kid].key,
          map kid | kid in loaded && rows[kid].status == Active :: rows[kid].key,
          map kid | kid in loaded :: rows[kid].expiresAt)
  }

  function Reload(s: State, current: Option<Kid>): State {
    s.(maker := Load(s.rows, current, s.now))
  }

  /** getValidPublicKey. */
  function PublicKey(m: Maker, kid: Kid, now: int): Option<KeyPair> {
    if kid in m.publicKeys && !(kid in m.expires && now > m.expires[kid]) then Some(m.publicKeys[kid]) else None
  }

  // ---------- runs ----------

  /** Two keys are never made within one second. */
  predicate CanRotate(s: State) {
    NewKid(s.now) !in s.rows
  }

  predicate Enabled(s: State, e: Event) {
    match e
    case Wait(_) => true
    case RotateKey(_) => CanRotate(s)
    case CreateToken(_, _, _) => CanSign(s.maker, s.now) || CanRotate(s)
    case Restart(current, _) =>
      && (if current.Some? then current.value in ActiveKids(s.rows, s.now) else ActiveKids(s.rows, s.now) == {})
      && (Load(s.rows, current, s.now).currentKid.Some? || CanRotate(s))
  }

  /** A process start over the rows that are there. */
  function Started(s: State, key: KeyPair): State {
    if s.maker.currentKid.Some? then s else Rotate(s, key)
  }

  function Step(s: State, e: Event): State {
    if !Enabled(s, e) then s else
    match e
    case Wait(d) => s.(now := s.now + d)
    case RotateKey(key) => Rotate(s, key)
    case CreateToken(d, key, delay) =>
      Mint(Checked(s, key, delay), d)
    case Restart(current, key) => Started(Reload(s, current), key)
  }

  function Run(s: State, es: seq<Event>): State {
    if es == [] then s else Step(Run(s, es[..|es| - 1]), es[|es| - 1])
  }

  /** The first start, on an empty table; key lifetimes below the minimum are raised to it. */
  function FirstStart(now: int, keyTTL: int, key: KeyPair): State {
    var ttl := if keyTTL < MIN_KEY_TTL then MIN_KEY_TTL else keyTTL;
    Started(State(now, ttl, Load(map[], None, now), map[], map[], {}), key)
  }
}
