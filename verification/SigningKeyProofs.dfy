// How long a signed token can be verified.

module SigningKeyProofs {
  import opened Prelude
  import opened SigningKeys

  // ---------- what every run keeps ----------

  /** A row's cells, from the instant its key was stored and what was written to it since. */
  ghost predicate RowKept(r: KeyRow, kid: Kid, stored: int, ttl: int, now: int) {
    && kid == NewKid(stored) && stored <= now
    && r.keyUntil == stored + ROW_TTL
    && (r.status == Active ==> r.statusUntil == r.keyUntil && r.expiresAt == stored + ttl)
    && (r.status == Retired ==> r.statusUntil == r.expiresAt)
  }

  /** The current key is the newest one, its row is active, and any other active row is already gone. */
  ghost predicate CurrentKept(s: State) {
    && s.maker.currentKid.Some? && s.rows.Keys == s.stored.Keys
    && var c := s.maker.currentKid.value;
    && c in s.rows && c in s.maker.publicKeys && c in s.maker.privateKeys && c in s.maker.expires
    && s.rows[c].status == Active
    && s.maker.privateKeys[c] == s.maker.publicKeys[c] == s.rows[c].key
    && s.maker.expires[c] == s.rows[c].expiresAt
    && forall kid :: kid in s.rows ==>
         s.stored[kid] <= s.stored[c] && (s.rows[kid].status == Active ==> kid == c || s.rows[kid].keyUntil <= s.now)
  }

  ghost predicate TokenKept(s: State, t: Token) {
    && t.kid in s.rows && t.kid in s.stored && s.stored[t.kid] == t.keyStored && s.rows[t.kid].key == t.key
    && t.keyStored <= t.issued <= s.now
    && (s.rows[t.kid].status == Retired ==> t.issued + ROTATED_KEY_RETENTION <= s.rows[t.kid].expiresAt)
  }

  ghost predicate KeysKept(s: State) {
    && s.ttl >= MIN_KEY_TTL
    && s.rows.Keys == s.stored.Keys
    && s.maker.publicKeys.Keys == s.maker.expires.Keys <= s.rows.Keys
    && (forall kid :: kid in s.rows ==> RowKept(s.rows[kid], kid, s.stored[kid], s.ttl, s.now))
    && CurrentKept(s)
    && (forall t :: t in s.tokens ==> TokenKept(s, t))
  }

  /** KeysKept for a maker that has loaded no current key: every active row is gone. */
  ghost predicate Keyless(s: State) {
    && s.ttl >= MIN_KEY_TTL
    && s.rows.Keys == s.stored.Keys
    && s.maker.publicKeys.Keys == s.maker.expires.Keys <= s.rows.Keys
    && (forall kid :: kid in s.rows ==> RowKept(s.rows[kid], kid, s.stored[kid], s.ttl, s.now))
    && s.maker.currentKid.None?
    && (forall kid :: kid in s.rows && s.rows[kid].status == Active ==> s.rows[kid].keyUntil <= s.now)
    && (forall t :: t in s.tokens ==> TokenKept(s, t))
  }

  lemma RotateKeeps(s: State, key: KeyPair)
    requires KeysKept(s) || Keyless(s)
    requires CanRotate(s)
    ensures KeysKept(Rotate(s, key))
  {
    var s1 := Rotate(s, key);
    forall kid | kid in s1.rows
      ensures RowKept(s1.rows[kid], kid, s1.stored[kid], s1.ttl, s1.now)
    {
      if kid in s.rows {
        assert RowKept(s.rows[kid], kid, s.stored[kid], s.ttl, s.now);
      }
    }
    forall t | t in s1.tokens
      ensures TokenKept(s1, t)
    {
      assert TokenKept(s, t);
    }
  }

  /** What a maker signs: a token under its own key, which it can look up for the key's lifetime. */
  lemma MintKeeps(s: State, duration: nat)
    requires KeysKept(s)
    ensures KeysKept(Mint(s, duration))
    ensures var t, s1 := SignedBy(s, duration), Mint(s, duration);
            && t in s1.tokens && s1.maker == s.maker && s1.now == t.issued && s1.ttl == s.ttl
            && s.maker.expires[t.kid] == t.keyStored + s.ttl
  {
    var s1 := Mint(s, duration);
    var c := s.maker.currentKid.value;
    assert RowKept(s.rows[c], c, s.stored[c], s.ttl, s.now);
    forall t | t in s1.tokens
      ensures TokenKept(s1, t)
    {
      if t in s.tokens {
        assert TokenKept(s, t);
      }
    }
  }

  function SignedBy(s: State, duration: nat): Token
    requires KeysKept(s)
  {
    var kid := s.maker.currentKid.value;
    Token(kid, s.maker.privateKeys[kid], s.stored[kid], s.now, WholeSeconds(s.now + duration))
  }

  lemma ReloadKeeps(s: State, current: Option<Kid>)
    requires KeysKept(s)
    requires if current.Some? then current.value in ActiveKids(s.rows, s.now) else ActiveKids(s.rows, s.now) == {}
    ensures var s1 := Reload(s, current); if current.Some? then KeysKept(s1) else Keyless(s1)
  {
    var s1 := Reload(s, current);
    if current.Some? {
      assert RowKept(s.rows[current.value], current.value, s.stored[current.value], s.ttl, s.now);
    } else {
      forall kid | kid in s.rows && s.rows[kid].status == Active
        ensures s.rows[kid].keyUntil <= s.now
      {
        assert kid !in ActiveKids(s.rows, s.now);
        assert RowKept(s.rows[kid], kid, s.stored[kid], s.ttl, s.now);
      }
    }
    forall t | t in s1.tokens
      ensures TokenKept(s1, t)
    {
      assert TokenKept(s, t);
    }
  }

  lemma WaitKeeps(s: State, d: nat)
    requires KeysKept(s)
    ensures KeysKept(s.(now := s.now + d))
  {
    var s1 := s.(now := s.now + d);
    forall kid | kid in s1.rows
      ensures RowKept(s1.rows[kid], kid, s1.stored[kid], s1.ttl, s1.now)
    {
      assert RowKept(s.rows[kid], kid, s.stored[kid], s.ttl, s.now);
    }
    forall t | t in s1.tokens
      ensures TokenKept(s1, t)
    {
      assert TokenKept(s, t);
    }
  }

  lemma NewKeyLasts(s: State, key: KeyPair)
    requires s.ttl >= MIN_KEY_TTL
    ensures var m := Rotate(s, key).maker;
            m.currentKid.Some? && m.currentKid.value in m.expires
            && s.now + ROTATION_MARGIN < m.expires[m.currentKid.value]
  {
  }

  lemma EnsureKeeps(s: State, key: KeyPair)
    requires KeysKept(s) && (CanSign(s.maker, s.now) || CanRotate(s))
    ensures var s1 := EnsureSigningKey(s, key);
            && KeysKept(s1) && s1.ttl == s.ttl && s1.now == s.now
            && s.now + ROTATION_MARGIN < s1.maker.expires[s1.maker.currentKid.value]
  {
    if !CanSign(s.maker, s.now) {
      RotateKeeps(s, key);
      NewKeyLasts(s, key);
    }
  }

  lemma CheckedKeeps(s: State, key: KeyPair, delay: nat)
    requires KeysKept(s) && (CanSign(s.maker, s.now) || CanRotate(s))
    ensures var s1 := Checked(s, key, delay);
            && KeysKept(s1) && s1.ttl == s.ttl && s1.now == s.now + delay
            && s.now + ROTATION_MARGIN < s1.maker.expires[s1.maker.currentKid.value]
  {
    EnsureKeeps(s, key);
    var s0, s1 := EnsureSigningKey(s, key), Checked(s, key, delay);
    WaitKeeps(s0, delay);
    assert s1 == s0.(now := s0.now + delay);
  }

  lemma KeysKeptStep(s: State, e: Event)
    requires KeysKept(s)
    ensures KeysKept(Step(s, e))
  {
    if Enabled(s, e) {
      match e
      case Wait(d) => WaitKeeps(s, d);
      case RotateKey(key) => RotateKeeps(s, key);
      case CreateToken(d, key, delay) =>
        CheckedKeeps(s, key, delay);
        MintKeeps(Checked(s, key, delay), d);
      case Restart(current, key) =>
        ReloadKeeps(s, current);
        if current.None? {
          RotateKeeps(Reload(s, current), key);
        }
    }
  }

  lemma {:induction false} KeysKeptRun(s: State, es: seq<Event>)
    requires KeysKept(s)
    ensures KeysKept(Run(s, es))
    decreases |es|
  {
    if es != [] {
      KeysKeptRun(s, es[..|es| - 1]);
      KeysKeptStep(Run(s, es[..|es| - 1]), es[|es| - 1]);
    }
  }

  lemma FirstStartKeeps(now: int, keyTTL: int, key: KeyPair)
    ensures KeysKept(FirstStart(now, keyTTL, key))
  {
    var ttl := if keyTTL < MIN_KEY_TTL then MIN_KEY_TTL else keyTTL;
    var s := State(now, ttl, Load(map[], None, now), map[], map[], {});
    assert Keyless(s);
    RotateKeeps(s, key);
  }

  // ---------- what single calls do ----------

  /** Minting makes a new key exactly when there is no current key, its private half is missing, or it has sixty
      days or less to live. */
  lemma ChecksKey(s: State, key: KeyPair)
    ensures var good := && s.maker.currentKid.Some? && s.maker.currentKid.value in s.maker.privateKeys
                        && (s.maker.currentKid.value in s.maker.expires ==>
                              s.now + 5_184_000_000_000_000 < s.maker.expires[s.maker.currentKid.value]);
            EnsureSigningKey(s, key) == if good then s else Rotate(s, key)
  {
  }

  /** A new key signs from then on, for its lifetime or, without one, ten years, and stays verifiable beside the
      old ones; its row lives thirty days; the past key is good for seven more days in the table. */
  lemma RotateReads(s: State, key: KeyPair)
    requires s.maker.currentKid.Some? ==> s.maker.currentKid.value in s.rows
    requires Kid(s.now / 1_000_000_000) !in s.rows
    ensures var s1, kid := Rotate(s, key), Kid(s.now / 1_000_000_000);
            && s1.now == s.now && s1.ttl == s.ttl && s1.tokens == s.tokens
            && s1.maker == Maker(Some(kid), s.maker.publicKeys[kid := key], s.maker.privateKeys[kid := key],
                 s.maker.expires[kid := s.now + if s.ttl <= 0 then 315_360_000_000_000_000 else s.ttl])
            && s1.stored == s.stored[kid := s.now]
            && s1.rows.Keys == s.rows.Keys + {kid}
            && s1.rows[kid] == KeyRow(key, s.now + 2_592_000_000_000_000, Active, s.now + s.ttl, s.now + 2_592_000_000_000_000)
            && (forall k :: k in s.rows && s.maker.currentKid != Some(k) ==> s1.rows[k] == s.rows[k])
            && (forall k :: k in s.rows && s.maker.currentKid == Some(k) ==>
                  s1.rows[k] == KeyRow(s.rows[k].key, s.rows[k].keyUntil, Retired,
                                       s.now + 604_800_000_000_000, s.now + 604_800_000_000_000))
  {
  }

  /** A start loads the keys whose status and key cells are both there, with their noted expiry, the private halves
      of the active ones, and the current key if it is one of those. */
  lemma LoadReads(rows: map<Kid, KeyRow>, current: Option<Kid>, now: int)
    ensures var m := Load(rows, current, now);
            && (forall kid :: kid in m.publicKeys <==> kid in rows && now < rows[kid].statusUntil && now < rows[kid].keyUntil)
            && m.expires.Keys == m.publicKeys.Keys
            && (forall kid :: kid in m.publicKeys ==>
                  m.publicKeys[kid] == rows[kid].key && m.expires[kid] == rows[kid].expiresAt)
            && (forall kid :: kid in m.privateKeys <==> kid in m.publicKeys && rows[kid].status == Active)
            && (forall kid :: kid in m.privateKeys ==> m.privateKeys[kid] == rows[kid].key)
            && m.currentKid == if current.Some? && current.value in m.privateKeys then current else None
  {
  }

  /** A start over no active key makes one; key lifetimes below ninety days are raised to that. */
  lemma StartReads(now: int, keyTTL: int, key: KeyPair)
    ensures var s, kid := FirstStart(now, keyTTL, key), Kid(now / 1_000_000_000);
            && s.ttl == (if keyTTL < 7_776_000_000_000_000 then 7_776_000_000_000_000 else keyTTL)
            && s.maker.currentKid == Some(kid) && s.maker.publicKeys == map[kid := key] && s.maker.expires == map[kid := now + s.ttl]
            && s.rows.Keys == {kid} && s.rows[kid].key == key && s.now == now && s.tokens == {}
  {
  }

  /** A key is found up to and including the last instant noted for it; without a note, always. */
  lemma LookupReads(m: Maker, kid: Kid, now: int)
    ensures PublicKey(m, kid, now) ==
      if kid in m.publicKeys && (kid in m.expires ==> now <= m.expires[kid]) then Some(m.publicKeys[kid]) else None
  {
  }

  /** The key set written to the table, and the keys a start may take for its current one. */
  lemma TableReads(rows: map<Kid, KeyRow>, now: int, kid: Kid)
    ensures kid in StoredJwks(rows, now) <==>
      kid in rows && now < rows[kid].statusUntil && now < rows[kid].keyUntil && now <= rows[kid].expiresAt
    ensures kid in StoredJwks(rows, now) ==> StoredJwks(rows, now)[kid] == rows[kid].key
    ensures kid in ActiveKids(rows, now) <==> kid in rows && now < rows[kid].statusUntil && rows[kid].status == Active
  {
  }

  /** A token names the current key, is signed with its private half, and expires in whole seconds. */
  lemma MintReads(s: State, duration: nat)
    requires KeysKept(s)
    ensures var c := s.maker.currentKid.value;
            Mint(s, duration) == s.(tokens := s.tokens +
              {Token(c, s.maker.privateKeys[c], s.stored[c], s.now,
                     (s.now + duration) / 1_000_000_000 * 1_000_000_000)})
  {
  }

  // ---------- within one process ----------

  /** The maker can verify `t` at every instant before it expires; a key is good up to and including its own
      last instant. */
  ghost predicate Covers(m: Maker, t: Token) {
    && t.kid in m.publicKeys && m.publicKeys[t.kid] == t.key
    && t.kid in m.expires && t.exp - 1 <= m.expires[t.kid]
  }

  /** The token CreateToken(duration, key, delay) signs in `s`, and the state it leaves. */
  lemma SignedToken(s: State, duration: nat, key: KeyPair, delay: nat) returns (t: Token, s1: State)
    requires KeysKept(s) && Enabled(s, CreateToken(duration, key, delay))
    ensures KeysKept(Checked(s, key, delay)) && t == SignedBy(Checked(s, key, delay), duration)
    ensures s1 == Step(s, CreateToken(duration, key, delay)) && KeysKept(s1)
    ensures t in s1.tokens && s1.now == t.issued == s.now + delay && s1.ttl == s.ttl
    ensures t.issued + duration - SECOND < t.exp == WholeSeconds(t.issued + duration) <= t.issued + duration
    ensures t.kid == s1.maker.currentKid.value
    ensures t.kid in s1.maker.publicKeys && s1.maker.publicKeys[t.kid] == t.key
    ensures t.kid in s1.maker.expires && s1.maker.expires[t.kid] == t.keyStored + s.ttl
    ensures s.now + ROTATION_MARGIN < t.keyStored + s.ttl
  {
    CheckedKeeps(s, key, delay);
    MintKeeps(Checked(s, key, delay), duration);
    t, s1 := SignedBy(Checked(s, key, delay), duration), Mint(Checked(s, key, delay), duration);
  }

  /** A token with this header, key and times was signed, and is covered if its last instant is within its
      key's lifetime. */
  ghost predicate Signs(s: State, kid: Kid, key: KeyPair, exp: int) {
    exists t :: t in s.tokens && t.kid == kid && t.key == key && t.issued == s.now && t.exp == exp
      && (exp - 1 <= t.keyStored + s.ttl ==> Covers(s.maker, t))
  }

  lemma MintSigns(s: State, duration: nat, key: KeyPair, delay: nat)
    requires KeysKept(s) && Enabled(s, CreateToken(duration, key, delay))
    ensures var s1 := Mint(Checked(s, key, delay), duration);
            && KeysKept(s1) && s1.maker.currentKid.Some? && s1.maker.currentKid.value in s1.maker.privateKeys
            && Signs(s1, s1.maker.currentKid.value, s1.maker.privateKeys[s1.maker.currentKid.value],
                     WholeSeconds(s.now + delay + duration))
  {
    var t, s1 := SignedToken(s, duration, key, delay);
    assert s1.maker.privateKeys[t.kid] == t.key;
  }

  lemma CoversStep(s: State, e: Event, t: Token)
    requires KeysKept(s) && Covers(s.maker, t) && !e.Restart?
    ensures Covers(Step(s, e).maker, t)
  {
  }

  ghost predicate NoRestart(es: seq<Event>) {
    forall i :: 0 <= i < |es| ==> !es[i].Restart?
  }

  lemma {:induction false} CoversRun(s: State, es: seq<Event>, t: Token)
    requires KeysKept(s) && Covers(s.maker, t) && NoRestart(es)
    ensures Covers(Run(s, es).maker, t)
    decreases |es|
  {
    if es != [] {
      CoversRun(s, es[..|es| - 1], t);
      KeysKeptRun(s, es[..|es| - 1]);
      CoversStep(Run(s, es[..|es| - 1]), es[|es| - 1], t);
    }
  }

  /** Within one process, a token finds its own public key at every instant before it expires, whatever is
      signed and rotated meanwhile, exactly when it never was live or its last instant is within its key's
      lifetime. */
  lemma LiveTokenVerifiesIff(s: State, duration: nat, key: KeyPair, delay: nat) returns (t: Token, s1: State)
    requires KeysKept(s) && Enabled(s, CreateToken(duration, key, delay))
    ensures KeysKept(Checked(s, key, delay)) && t == SignedBy(Checked(s, key, delay), duration)
    ensures t.exp == WholeSeconds(s.now + delay + duration) <= s.now + delay + duration
    ensures s.now + ROTATION_MARGIN < t.keyStored + s.ttl
    ensures s1 == Step(s, CreateToken(duration, key, delay)) && t in s1.tokens
    ensures (forall es :: NoRestart(es) && Run(s1, es).now < t.exp ==> Finds(Run(s1, es), t))
       <==> t.exp <= t.issued || t.exp - 1 <= t.keyStored + s.ttl
  {
    t, s1 := SignedToken(s, duration, key, delay);
    if t.exp <= t.issued || t.exp - 1 <= t.keyStored + s.ttl {
      forall es | NoRestart(es) && Run(s1, es).now < t.exp
        ensures Finds(Run(s1, es), t)
      {
        ClockOnlyAdvances(s1, es);
        CoversRun(s1, es, t);
      }
    } else {
      OutlivesItsKey(s1, t);
    }
  }

  lemma OutlivesItsKey(s: State, t: Token)
    requires t.kid in s.maker.expires && s.now < t.exp && s.maker.expires[t.kid] < t.exp - 1
    ensures exists es :: NoRestart(es) && Run(s, es).now < t.exp && !Finds(Run(s, es), t)
  {
    var after := s.maker.expires[t.kid] + 1;
    var es := [Wait(if after > s.now then after - s.now else 0)];
    RunOne(s, es[0]);
    assert NoRestart(es) && !Finds(Run(s, es), t);
  }

  predicate Finds(s: State, t: Token) {
    PublicKey(s.maker, t.kid, s.now) == Some(t.key)
  }

  lemma RunOne(s: State, e: Event)
    ensures Run(s, [e]) == Step(s, e)
  {
    assert [e][..0] == [];
  }

  lemma RunTwo(s: State, e: Event, f: Event)
    ensures Run(s, [e, f]) == Step(Step(s, e), f)
  {
    RunOne(s, e);
    assert [e, f][..1] == [e];
  }

  /** Sixty days between the check and the expiry are always within it: after any run, a token that expires at
      most that long after its key was checked can be verified until it expires. */
  lemma LiveTokenVerifies(start: State, before: seq<Event>, duration: nat, key: KeyPair, delay: nat, after: seq<Event>)
    requires KeysKept(start) && delay + duration <= ROTATION_MARGIN && NoRestart(after)
    requires Enabled(Run(start, before), CreateToken(duration, key, delay))
    ensures var s := Run(start, before);
            KeysKept(Checked(s, key, delay))
            && var t, s1 := SignedBy(Checked(s, key, delay), duration), Run(Step(s, CreateToken(duration, key, delay)), after);
               s1.now < t.exp ==> Finds(s1, t)
  {
    KeysKeptRun(start, before);
    var t, s1 := LiveTokenVerifiesIff(Run(start, before), duration, key, delay);
  }

  /** A token signed within the first thirty days of a first start is the first key's. */
  lemma SignedAfterStart(now: int, keyTTL: int, key: KeyPair, wait: nat, duration: nat, delay: nat)
    returns (t: Token, s: State)
    requires wait < 30 * DAY
    ensures s == Run(FirstStart(now, keyTTL, key), [Wait(wait), CreateToken(duration, key, delay)]) && KeysKept(s)
    ensures t in s.tokens && t.keyStored == now && t.issued == s.now == now + wait + delay
    ensures t.exp == WholeSeconds(t.issued + duration) && t.issued + duration - SECOND < t.exp
    ensures t.kid in s.maker.expires
    ensures s.maker.expires[t.kid] == now + (if keyTTL < MIN_KEY_TTL then MIN_KEY_TTL else keyTTL)
  {
    var s0, e := FirstStart(now, keyTTL, key), CreateToken(duration, key, delay);
    FirstStartKeeps(now, keyTTL, key);
    RunTwo(s0, Wait(wait), e);
    WaitKeeps(s0, wait);
    var s1 := Step(s0, Wait(wait));
    StartedKeySigns(now, keyTTL, key, wait);
    t, s := SignedToken(s1, duration, key, delay);
  }

  lemma StartedKeySigns(now: int, keyTTL: int, key: KeyPair, wait: nat)
    requires wait < 30 * DAY
    ensures var s0 := FirstStart(now, keyTTL, key);
            && CanSign(s0.maker, now + wait) && s0.now == now
            && s0.stored[s0.maker.currentKid.value] == now
            && s0.ttl == if keyTTL < MIN_KEY_TTL then MIN_KEY_TTL else keyTTL
  {
  }

  /** Sixty days after the dating need not be: thirty days into a ninety-day key's life, with two seconds
      between the readings, such a token is still live when its key is not found any more. */
  lemma SixtyDayTokenOutlivesKey(now: int, key: KeyPair) returns (t: Token, es: seq<Event>)
    ensures var s := Run(FirstStart(now, MIN_KEY_TTL, key),
                         [Wait(30 * DAY - 1), CreateToken(60 * DAY, key, 2 * SECOND)]);
            && t in s.tokens && t.exp == WholeSeconds(t.issued + 60 * DAY)
            && NoRestart(es) && Run(s, es).now < t.exp && !Finds(Run(s, es), t)
  {
    var s: State;
    t, s := SignedAfterStart(now, MIN_KEY_TTL, key, 30 * DAY - 1, 60 * DAY, 2 * SECOND);
    OutlivesItsKey(s, t);
    es :| NoRestart(es) && Run(s, es).now < t.exp && !Finds(Run(s, es), t);
  }

  // ---------- across restarts ----------

  function NextSecond(now: int): int {
    (now / SECOND + 1) * SECOND
  }

  /** When a key can be made next: now, or in the next second when this one already has its key. */
  function EarliestRotation(s: State): int {
    if CanRotate(s) then s.now else NextSecond(s.now)
  }

  lemma SameSecond(now: int, later: int)
    requires now <= later < NextSecond(now)
    ensures NewKid(later) == NewKid(now) && NextSecond(later) == NextSecond(now)
  {
  }

  /** No key is made before `from`. */
  ghost predicate NoKeyBefore(s: State, from: int) {
    s.now < from ==> NewKid(s.now) in s.rows && from == NextSecond(s.now)
  }

  /** The key of `t` stays accepted for seven days after `from` at least. */
  ghost predicate Spared(s: State, t: Token, from: int) {
    && NoKeyBefore(s, from)
    && t in s.tokens && t.kid in s.rows
    && (s.rows[t.kid].status == Retired ==> from + ROTATED_KEY_RETENTION <= s.rows[t.kid].expiresAt)
  }

  lemma LaterStillNone(s: State, d: nat, from: int)
    requires NoKeyBefore(s, from)
    ensures NoKeyBefore(s.(now := s.now + d), from)
  {
    if s.now + d < from {
      SameSecond(s.now, s.now + d);
    }
  }

  lemma RotateSpares(s: State, key: KeyPair, t: Token, from: int)
    requires Spared(s, t, from) && CanRotate(s)
    ensures Spared(Rotate(s, key), t, from)
  {
  }

  lemma EnsureSpares(s: State, key: KeyPair, t: Token, from: int)
    requires Spared(s, t, from) && (CanSign(s.maker, s.now) || CanRotate(s))
    ensures Spared(EnsureSigningKey(s, key), t, from)
  {
    if !CanSign(s.maker, s.now) {
      RotateSpares(s, key, t, from);
    }
  }

  lemma CreateSpares(s: State, d: nat, key: KeyPair, delay: nat, t: Token, from: int)
    requires Spared(s, t, from) && (CanSign(s.maker, s.now) || CanRotate(s))
    ensures Spared(Mint(Checked(s, key, delay), d), t, from)
  {
    EnsureSpares(s, key, t, from);
    var s1 := EnsureSigningKey(s, key);
    assert s1.now == s.now;
    LaterStillNone(s1, delay, from);
  }

  lemma SparedStep(s: State, e: Event, t: Token, from: int)
    requires KeysKept(s) && Spared(s, t, from)
    ensures Spared(Step(s, e), t, from)
  {
    if Enabled(s, e) {
      match e
      case Wait(d) => LaterStillNone(s, d, from);
      case RotateKey(key) => RotateSpares(s, key, t, from);
      case CreateToken(d, key, delay) => CreateSpares(s, d, key, delay, t, from);
      case Restart(current, key) =>
        if Reload(s, current).maker.currentKid.None? {
          RotateSpares(Reload(s, current), key, t, from);
        }
    }
  }

  /** Until `t` expires the maker covers it. */
  ghost predicate CoversWhileLive(s: State, t: Token) {
    t in s.tokens && (s.now < t.exp ==> Covers(s.maker, t))
  }

  /** A token that expires while its key cells are there and its key is spared is still covered after a restart. */
  lemma ReloadCovers(s: State, current: Option<Kid>, t: Token, from: int)
    requires KeysKept(s) && Spared(s, t, from) && s.now < t.exp
    requires t.exp <= from + ROTATED_KEY_RETENTION && t.exp <= t.keyStored + ROW_TTL
    ensures Covers(Reload(s, current).maker, t)
  {
    assert TokenKept(s, t);
    assert RowKept(s.rows[t.kid], t.kid, s.stored[t.kid], s.ttl, s.now);
  }

  lemma CoversWhileLiveStep(s: State, e: Event, t: Token, from: int)
    requires KeysKept(s) && CoversWhileLive(s, t) && Spared(s, t, from)
    requires t.exp <= from + ROTATED_KEY_RETENTION && t.exp <= t.keyStored + ROW_TTL
    ensures CoversWhileLive(Step(s, e), t)
  {
    if s.now < t.exp {
      if !e.Restart? {
        CoversStep(s, e, t);
      } else if Enabled(s, e) {
        ReloadCovers(s, e.current, t, from);
        assert TokenKept(s, t);
      }
    }
  }

  lemma {:induction false} CoversWhileLiveRun(s: State, es: seq<Event>, t: Token, from: int)
    requires KeysKept(s) && CoversWhileLive(s, t) && Spared(s, t, from)
    requires t.exp <= from + ROTATED_KEY_RETENTION && t.exp <= t.keyStored + ROW_TTL
    ensures CoversWhileLive(Run(s, es), t) && Spared(Run(s, es), t, from)
    decreases |es|
  {
    if es != [] {
      CoversWhileLiveRun(s, es[..|es| - 1], t, from);
      KeysKeptRun(s, es[..|es| - 1]);
      CoversWhileLiveStep(Run(s, es[..|es| - 1]), es[|es| - 1], t, from);
      SparedStep(Run(s, es[..|es| - 1]), es[|es| - 1], t, from);
    }
  }

  /** Whatever the rows are, some restart is possible once a key can be made or the newest key is still listed. */
  lemma SomeRestart(s: State) returns (current: Option<Kid>)
    requires KeysKept(s)
    ensures Enabled(s, Restart(current, 0))
  {
    var c := s.maker.currentKid.value;
    assert RowKept(s.rows[c], c, s.stored[c], s.ttl, s.now);
    if s.now < s.rows[c].keyUntil {
      current := Some(c);
    } else {
      current := None;
      NoActiveLeft(s);
      SecondsPassed(s);
    }
  }

  /** A restart does not load a key whose cells or status are gone. */
  lemma RestartDrops(s: State, current: Option<Kid>, t: Token)
    requires KeysKept(s) && Enabled(s, Restart(current, 0)) && t.kid in s.rows
    requires !HasKey(s.rows[t.kid], s.now) || !Listed(s.rows[t.kid], s.now)
    ensures !Finds(Step(s, Restart(current, 0)), t)
  {
    assert t.kid !in Reload(s, current).maker.publicKeys;
    assert CanRotate(s) ==> NewKid(s.now) != t.kid;
  }

  /** A restart once the key cells are gone forgets the token's key. */
  lemma RestartForgets(s: State, t: Token) returns (es: seq<Event>)
    requires KeysKept(s) && t in s.tokens && s.now < t.exp && t.keyStored + ROW_TTL < t.exp
    ensures Run(s, es).now < t.exp && !Finds(Run(s, es), t)
  {
    assert TokenKept(s, t);
    assert RowKept(s.rows[t.kid], t.kid, s.stored[t.kid], s.ttl, s.now);
    var gone := t.keyStored + ROW_TTL;
    var wait := Wait(if gone > s.now then gone - s.now else 0);
    var s1 := Step(s, wait);
    WaitKeeps(s, wait.duration);
    var current := SomeRestart(s1);
    RestartDrops(s1, current, t);
    es := [wait, Restart(current, 0)];
    RunTwo(s, wait, Restart(current, 0));
  }

  lemma SecondsUsed(s: State)
    requires KeysKept(s)
    ensures forall kid :: kid in s.rows ==> kid.second <= NewKid(s.now).second
  {
    forall kid | kid in s.rows
      ensures kid.second <= NewKid(s.now).second
    {
      assert RowKept(s.rows[kid], kid, s.stored[kid], s.ttl, s.now);
    }
  }

  lemma RotationWait(s: State) returns (wait: nat)
    requires KeysKept(s)
    ensures s.now + wait == EarliestRotation(s)
    ensures KeysKept(s.(now := s.now + wait)) && CanRotate(s.(now := s.now + wait))
  {
    wait := EarliestRotation(s) - s.now;
    WaitKeeps(s, wait);
    if !CanRotate(s) {
      SecondsUsed(s);
      assert NewKid(NextSecond(s.now)).second == NewKid(s.now).second + 1;
    }
  }

  /** The signing key, rotated as soon as possible, is forgotten by a restart seven days later. */
  lemma RotationForgets(s: State, t: Token) returns (es: seq<Event>)
    requires KeysKept(s) && t in s.tokens && s.maker.currentKid == Some(t.kid)
    requires EarliestRotation(s) + ROTATED_KEY_RETENTION < t.exp
    ensures Run(s, es).now < t.exp && !Finds(Run(s, es), t)
  {
    var wait := RotationWait(s);
    var s1 := Step(s, Wait(wait));
    var s2 := Step(s1, RotateKey(0));
    RotateKeeps(s1, 0);
    RetiredUntil(s1, t.kid);
    var rest := RetirementForgets(s2, t);
    es := [Wait(wait), RotateKey(0)] + rest;
    RunTwo(s, Wait(wait), RotateKey(0));
    RunConcat(s, [Wait(wait), RotateKey(0)], rest);
  }

  lemma RetirementForgets(s: State, t: Token) returns (es: seq<Event>)
    requires KeysKept(s) && t.kid in s.rows && s.rows[t.kid].statusUntil == s.now + ROTATED_KEY_RETENTION
    ensures Run(s, es).now == s.now + ROTATED_KEY_RETENTION && !Finds(Run(s, es), t)
  {
    var s1 := Step(s, Wait(ROTATED_KEY_RETENTION));
    WaitKeeps(s, ROTATED_KEY_RETENTION);
    var current := SomeRestart(s1);
    RestartDrops(s1, current, t);
    es := [Wait(ROTATED_KEY_RETENTION), Restart(current, 0)];
    RunTwo(s, Wait(ROTATED_KEY_RETENTION), Restart(current, 0));
  }

  lemma RetiredUntil(s: State, kid: Kid)
    requires KeysKept(s) && CanRotate(s) && s.maker.currentKid == Some(kid)
    ensures kid in Rotate(s, 0).rows
    ensures Rotate(s, 0).rows[kid].statusUntil == s.now + ROTATED_KEY_RETENTION
  {
  }

  lemma {:induction false} RunConcat(s: State, xs: seq<Event>, ys: seq<Event>)
    ensures Run(s, xs + ys) == Run(Run(s, xs), ys)
    decreases |ys|
  {
    if ys == [] {
      assert xs + ys == xs;
    } else {
      RunConcat(s, xs, ys[..|ys| - 1]);
      assert (xs + ys)[..|xs + ys| - 1] == xs + ys[..|ys| - 1];
    }
  }

  lemma NoActiveLeft(s: State)
    requires KeysKept(s) && s.rows[s.maker.currentKid.value].keyUntil <= s.now
    ensures ActiveKids(s.rows, s.now) == {}
  {
    forall kid | kid in s.rows && s.rows[kid].status == Active
      ensures !Listed(s.rows[kid], s.now)
    {
      assert RowKept(s.rows[kid], kid, s.stored[kid], s.ttl, s.now);
    }
  }

  /** A month after the newest key was stored, a new key gets a new id. */
  lemma SecondsPassed(s: State)
    requires KeysKept(s) && s.rows[s.maker.currentKid.value].keyUntil <= s.now
    ensures CanRotate(s)
  {
    var c := s.maker.currentKid.value;
    assert RowKept(s.rows[c], c, s.stored[c], s.ttl, s.now);
    forall kid | kid in s.rows
      ensures kid.second < NewKid(s.now).second
    {
      assert RowKept(s.rows[kid], kid, s.stored[kid], s.ttl, s.now);
      SecondsGrow(s.stored[kid], s.now);
    }
  }

  lemma SecondsGrow(a: int, b: int)
    requires a + SECOND <= b
    ensures NewKid(a).second < NewKid(b).second
  {
  }

  /** Across restarts, a token can be verified at every instant before it expires in every later run exactly
      when it never was live, or expires both within thirty days of its key's storage, the lifetime of the
      key's row, and within seven days of the earliest rotation. A token for at most seven days always meets
      the last condition. */
  lemma TokenSurvivesRestartsIff(s: State, duration: nat, key: KeyPair, delay: nat) returns (t: Token, s1: State)
    requires KeysKept(s) && Enabled(s, CreateToken(duration, key, delay))
    ensures KeysKept(Checked(s, key, delay)) && t == SignedBy(Checked(s, key, delay), duration)
    ensures s1 == Step(s, CreateToken(duration, key, delay)) && t in s1.tokens
    ensures (forall es :: Run(s1, es).now < t.exp ==> Finds(Run(s1, es), t))
       <==> || t.exp <= t.issued
            || (t.exp <= t.keyStored + ROW_TTL && t.exp <= EarliestRotation(s1) + ROTATED_KEY_RETENTION)
    ensures duration <= ROTATED_KEY_RETENTION ==> t.exp <= EarliestRotation(s1) + ROTATED_KEY_RETENTION
  {
    t, s1 := SignedToken(s, duration, key, delay);
    if t.exp <= t.issued
       || (t.exp <= t.keyStored + ROW_TTL && t.exp <= EarliestRotation(s1) + ROTATED_KEY_RETENTION) {
      SurvivesEveryRun(s1, t);
    } else if t.keyStored + ROW_TTL < t.exp {
      var es := RestartForgets(s1, t);
      assert !Finds(Run(s1, es), t);
    } else {
      var es := RotationForgets(s1, t);
      assert !Finds(Run(s1, es), t);
    }
  }

  lemma SurvivesEveryRun(s: State, t: Token)
    requires KeysKept(s) && t in s.tokens && s.now == t.issued && s.maker.currentKid == Some(t.kid)
    requires t.exp - 1 <= t.keyStored + s.ttl ==> Covers(s.maker, t)
    requires || t.exp <= t.issued
             || (t.exp <= t.keyStored + ROW_TTL && t.exp <= EarliestRotation(s) + ROTATED_KEY_RETENTION)
    ensures forall es :: Run(s, es).now < t.exp ==> Finds(Run(s, es), t)
  {
    forall es | Run(s, es).now < t.exp
      ensures Finds(Run(s, es), t)
    {
      ClockOnlyAdvances(s, es);
      CoversWhileLiveRun(s, es, t, EarliestRotation(s));
    }
  }

  /** An input the maker receives: three and a half weeks after the first start a token for a week is signed,
      and a later restart forgets its key while it is live. */
  lemma WeekTokenForgotten(now: int, keyTTL: int, key: KeyPair) returns (t: Token, es: seq<Event>)
    ensures var s := Run(FirstStart(now, keyTTL, key), [Wait(24 * DAY), CreateToken(7 * DAY, key, 0)]);
            && t in s.tokens && t.exp == WholeSeconds(t.issued + 7 * DAY)
            && Run(s, es).now < t.exp && !Finds(Run(s, es), t)
  {
    var s: State;
    t, s := SignedAfterStart(now, keyTTL, key, 24 * DAY, 7 * DAY, 0);
    es := RestartForgets(s, t);
  }

  lemma {:induction false} ClockOnlyAdvances(s: State, es: seq<Event>)
    ensures s.now <= Run(s, es).now
    decreases |es|
  {
    if es != [] {
      ClockOnlyAdvances(s, es[..|es| - 1]);
    }
  }

  /** Whenever the key set is written, it has the key of every short token whose key cells are still there. */
  lemma StoredJwksCoversTokens(s: State, t: Token)
    requires KeysKept(s) && t in s.tokens && s.now < t.exp
    requires t.exp - t.issued <= ROTATED_KEY_RETENTION && t.exp <= t.keyStored + ROW_TTL
    ensures t.kid in StoredJwks(s.rows, s.now) && StoredJwks(s.rows, s.now)[t.kid] == t.key
  {
    assert TokenKept(s, t);
    assert RowKept(s.rows[t.kid], t.kid, s.stored[t.kid], s.ttl, s.now);
  }
}
