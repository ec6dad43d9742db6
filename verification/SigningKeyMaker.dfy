// The signing-key objects: the key store over signing_keys and the maker that
// signs, rotates and looks keys up. Their methods take the steps of SigningKeys.dfy.

module SigningKeyObjects {
  import opened Prelude
  import K = SigningKeys
  import P = SigningKeyProofs

  class KeyStore {
    var rows: map<K.Kid, K.KeyRow>
    var jwks: map<K.Kid, K.KeyPair>

    ghost var stored: map<K.Kid, int>

    constructor ()
      ensures rows == map[] && stored == map[]
    {
      rows, jwks, stored := map[], map[], map[];
    }

    /** The ids of the rows that still have a status, in some order, each once. */
    method LoadAllKids(now: int) returns (kids: seq<K.Kid>)
      ensures forall kid :: kid in kids <==> kid in rows && now < rows[kid].statusUntil
      ensures forall i, j :: 0 <= i < j < |kids| ==> kids[i] != kids[j]
    {
      kids := [];
      var todo := rows.Keys;
      while todo != {}
        invariant todo <= rows.Keys
        invariant forall kid :: kid in kids <==> kid in rows && kid !in todo && K.Listed(rows[kid], now)
        invariant forall i, j :: 0 <= i < j < |kids| ==> kids[i] != kids[j]
      {
        var kid :| kid in todo;
        todo := todo - {kid};
        if now < rows[kid].statusUntil {
          kids := kids + [kid];
        }
      }
    }

    /** Some active key, if there is one. */
    method LoadCurrentKid(now: int) returns (kid: Option<K.Kid>)
      ensures if kid.Some? then kid.value in K.ActiveKids(rows, now) else K.ActiveKids(rows, now) == {}
      ensures kid.Some? ==>
        kid.value in rows && now < rows[kid.value].statusUntil && rows[kid.value].status == K.Active
      ensures kid.None? ==> forall k :: k in rows && now < rows[k].statusUntil ==> rows[k].status != K.Active
    {
      var active := set k | k in rows && now < rows[k].statusUntil && rows[k].status == K.Active;
      if active == {} {
        assert K.ActiveKids(rows, now) == active;
        assert forall k :: k in rows && now < rows[k].statusUntil && rows[k].status == K.Active ==> k in active;
        return None;
      }
      var k :| k in active;
      return Some(k);
    }

    method StoreKey(kid: K.Kid, key: K.KeyPair, ttl: int, now: int)
      modifies this
      ensures rows == K.StoreKey(old(rows), kid, key, ttl, now)
      ensures rows == old(rows)[kid := K.KeyRow(key, now + 2_592_000_000_000_000, K.Active, now + ttl,
                                                now + 2_592_000_000_000_000)]
      ensures stored == old(stored)[kid := now]
      ensures jwks == K.StoredJwks(rows, now)
    {
      rows := rows[kid := K.KeyRow(key, now + K.ROW_TTL, K.Active, now + ttl, now + K.ROW_TTL)];
      stored := stored[kid := now];
      UpdateJwksCache(now);
    }

    /** From now on the key is in the key set for seven days, or until its cells are gone if that is sooner;
        every other row stays as it was. */
    method RetireKey(kid: K.Kid, now: int)
      modifies `rows
      ensures rows == K.RetireKey(old(rows), kid, now)
      ensures rows - {kid} == old(rows) - {kid}
      ensures forall t :: t >= now ==>
        (kid in K.StoredJwks(rows, t) <==>
          kid in old(rows) && t < now + 604_800_000_000_000 && t < old(rows)[kid].keyUntil)
    {
      var until := now + K.ROTATED_KEY_RETENTION;
      var row := if kid in rows then rows[kid] else K.KeyRow(0, now, K.Retired, now, now);
      rows := rows[kid := row.(status := K.Retired, expiresAt := until, statusUntil := until)];
    }

    /** Writes the key set of the rows that are listed, readable and not past their expiry. */
    method UpdateJwksCache(now: int)
      modifies `jwks
      ensures jwks == K.StoredJwks(rows, now)
    {
      var kids := LoadAllKids(now);
      var keys: map<K.Kid, K.KeyPair> := map[];
      var i := 0;
      while i < |kids|
        invariant 0 <= i <= |kids|
        invariant forall kid :: kid in keys <==>
          kid in kids[..i] && K.HasKey(rows[kid], now) && now <= rows[kid].expiresAt
        invariant forall kid :: kid in keys ==> keys[kid] == rows[kid].key
      {
        var row := rows[kids[i]];
        if !(now > row.expiresAt) && now < row.keyUntil {
          keys := keys[kids[i] := row.key];
        }
        i := i + 1;
      }
      assert kids[..i] == kids;
      assert keys == K.StoredJwks(rows, now);
      jwks := keys;
    }
  }

  class EddsaMaker {
    const keyStore: KeyStore
    const keyTTL: int
    var currentKeyID: Option<K.Kid>
    var publicKeys: map<K.Kid, K.KeyPair>
    var privateKeysByKid: map<K.Kid, K.KeyPair>
    var expiresByKid: map<K.Kid, int>

    ghost var tokens: set<K.Token>

    ghost function Fields(): K.Maker
      reads this
    {
      K.Maker(currentKeyID, publicKeys, privateKeysByKid, expiresByKid)
    }

    ghost function View(now: int): K.State
      reads this, keyStore
    {
      K.State(now, keyTTL, Fields(), keyStore.rows, keyStore.stored, tokens)
    }

    /** A process start: load what the table has, and rotate when that gives no signing key. */
    constructor (keyStore: KeyStore, keyTTL: int, ghost tokens: set<K.Token>, key: K.KeyPair, now: int)
      modifies keyStore
      ensures this.keyStore == keyStore
      ensures this.keyTTL == if keyTTL < K.MIN_KEY_TTL then K.MIN_KEY_TTL else keyTTL
      ensures exists current: Option<K.Kid> ::
        && (if current.Some? then current.value in K.ActiveKids(old(keyStore.rows), now)
            else K.ActiveKids(old(keyStore.rows), now) == {})
        && View(now) == K.Started(
             K.State(now, this.keyTTL, K.Load(old(keyStore.rows), current, now),
                     old(keyStore.rows), old(keyStore.stored), tokens), key)
    {
      this.keyStore := keyStore;
      this.keyTTL := if keyTTL < K.MIN_KEY_TTL then K.MIN_KEY_TTL else keyTTL;
      this.tokens := tokens;
      currentKeyID, publicKeys, privateKeysByKid, expiresByKid := None, map[], map[], map[];
      new;
      var kids := this.keyStore.LoadAllKids(now);
      var current := this.keyStore.LoadCurrentKid(now);
      LoadKeys(kids, current, now);
      if currentKeyID.None? {
        var kid := RotateKey(key, now);
      }
    }

    method LoadKeys(kids: seq<K.Kid>, current: Option<K.Kid>, now: int)
      requires Fields() == K.Maker(None, map[], map[], map[])
      requires forall kid :: kid in kids <==> kid in keyStore.rows && K.Listed(keyStore.rows[kid], now)
      modifies this
      ensures Fields() == K.Load(keyStore.rows, current, now)
      ensures tokens == old(tokens)
    {
      var rows := keyStore.rows;
      var i := 0;
      while i < |kids|
        invariant 0 <= i <= |kids|
        invariant tokens == old(tokens)
        invariant rows == keyStore.rows
        invariant Fields() == AfterRows(rows, kids[..i], current, now)
      {
        LoadKey(kids[i], rows[kids[i]], current, now);
        assert kids[..i + 1][..i] == kids[..i];
        i := i + 1;
      }
      assert kids[..i] == kids;
      AllRowsLoaded(rows, kids, current, now);
    }

    /** What the fields hold once the rows of `visited` were. */
    static ghost predicate Loads(rows: map<K.Kid, K.KeyRow>, visited: seq<K.Kid>, current: Option<K.Kid>, now: int, m: K.Maker) {
      && (forall kid :: kid in m.publicKeys <==> kid in visited && kid in rows && K.HasKey(rows[kid], now))
      && m.expires.Keys == m.publicKeys.Keys
      && (forall kid :: kid in m.privateKeys <==> kid in m.publicKeys && rows[kid].status == K.Active)
      && (forall kid :: kid in m.publicKeys ==> m.publicKeys[kid] == rows[kid].key && m.expires[kid] == rows[kid].expiresAt)
      && (forall kid :: kid in m.privateKeys ==> m.privateKeys[kid] == rows[kid].key)
      && m.currentKid == (if current.Some? && current.value in m.privateKeys then current else None)
    }

    static function WithRow(m: K.Maker, kid: K.Kid, row: K.KeyRow, current: Option<K.Kid>, now: int): K.Maker {
      if !K.HasKey(row, now) then m else
      K.Maker(if row.status == K.Active && current == Some(kid) then current else m.currentKid,
              m.publicKeys[kid := row.key],
              if row.status == K.Active then m.privateKeys[kid := row.key] else m.privateKeys,
              m.expires[kid := row.expiresAt])
    }

    /** The fields after visiting rows one by one. */
    static function AfterRows(rows: map<K.Kid, K.KeyRow>, visited: seq<K.Kid>, current: Option<K.Kid>, now: int): K.Maker
      requires forall kid :: kid in visited ==> kid in rows
    {
      if visited == [] then K.Maker(None, map[], map[], map[]) else
      var kid := visited[|visited| - 1];
      WithRow(AfterRows(rows, visited[..|visited| - 1], current, now), kid, rows[kid], current, now)
    }

    static lemma WithRowLoads(rows: map<K.Kid, K.KeyRow>, before: seq<K.Kid>, kid: K.Kid,
                              current: Option<K.Kid>, now: int, m: K.Maker)
      requires kid in rows && Loads(rows, before, current, now, m)
      ensures Loads(rows, before + [kid], current, now, WithRow(m, kid, rows[kid], current, now))
    {
    }

    static lemma {:induction false} AfterRowsLoads(rows: map<K.Kid, K.KeyRow>, visited: seq<K.Kid>, current: Option<K.Kid>, now: int)
      requires forall kid :: kid in visited ==> kid in rows
      ensures Loads(rows, visited, current, now, AfterRows(rows, visited, current, now))
    {
      if visited != [] {
        var before, kid := visited[..|visited| - 1], visited[|visited| - 1];
        AfterRowsLoads(rows, before, current, now);
        WithRowLoads(rows, before, kid, current, now, AfterRows(rows, before, current, now));
        assert visited == before + [kid];
      }
    }

    static lemma AllRowsLoaded(rows: map<K.Kid, K.KeyRow>, visited: seq<K.Kid>, current: Option<K.Kid>, now: int)
      requires forall kid :: kid in visited <==> kid in rows && K.Listed(rows[kid], now)
      ensures AfterRows(rows, visited, current, now) == K.Load(rows, current, now)
    {
      AfterRowsLoads(rows, visited, current, now);
      var m, loaded := AfterRows(rows, visited, current, now), K.Load(rows, current, now);
      assert m.publicKeys == loaded.publicKeys;
      assert m.privateKeys == loaded.privateKeys;
      assert m.expires == loaded.expires;
    }

    method LoadKey(kid: K.Kid, row: K.KeyRow, current: Option<K.Kid>, now: int)
      modifies `publicKeys, `expiresByKid, `privateKeysByKid, `currentKeyID
      ensures Fields() == WithRow(old(Fields()), kid, row, current, now)
    {
      if now < row.keyUntil {
        publicKeys := publicKeys[kid := row.key];
        expiresByKid := expiresByKid[kid := row.expiresAt];
        if row.status == K.Active {
          privateKeysByKid := privateKeysByKid[kid := row.key];
          if current == Some(kid) {
            currentKeyID := current;
          }
        }
      }
    }

    /** The new key signs; the keys and tokens of a state the maker can be in stay in step. */
    method RotateKey(key: K.KeyPair, now: int) returns (kid: K.Kid)
      modifies this, keyStore
      ensures View(now) == K.Rotate(old(View(now)), key)
      ensures kid == K.NewKid(now) && keyStore.jwks == K.StoredJwks(keyStore.rows, now)
      ensures old(P.KeysKept(View(now)) && K.CanRotate(View(now))) ==> P.KeysKept(View(now))
    {
      kid := K.Kid(now / K.SECOND);
      var expiresAt := if keyTTL <= 0 then now + K.NO_TTL_LIFETIME else now + keyTTL;
      var past := SetCurrent(kid, key, expiresAt);
      StoreRotation(past, kid, key, now);
      if old(P.KeysKept(View(now)) && K.CanRotate(View(now))) {
        P.RotateKeeps(old(View(now)), key);
      }
    }

    /** The locked half: the maker's fields take the new key. */
    method SetCurrent(kid: K.Kid, key: K.KeyPair, expiresAt: int) returns (past: Option<K.Kid>)
      modifies `currentKeyID, `publicKeys, `privateKeysByKid, `expiresByKid
      ensures past == old(currentKeyID) && Fields() == K.Add(old(Fields()), kid, key, expiresAt)
    {
      past := currentKeyID;
      currentKeyID := Some(kid);
      publicKeys := publicKeys[kid := key];
      privateKeysByKid := privateKeysByKid[kid := key];
      expiresByKid := expiresByKid[kid := expiresAt];
    }

    /** The store's half: the past key is retired, the new one inserted and the key set rewritten. */
    method StoreRotation(past: Option<K.Kid>, kid: K.Kid, key: K.KeyPair, now: int)
      modifies keyStore
      ensures keyStore.rows ==
        K.StoreKey(if past.Some? then K.RetireKey(old(keyStore.rows), past.value, now) else old(keyStore.rows),
                   kid, key, keyTTL, now)
      ensures keyStore.stored == old(keyStore.stored)[kid := now]
      ensures keyStore.jwks == K.StoredJwks(keyStore.rows, now)
    {
      if past.Some? {
        keyStore.RetireKey(past.value, now);
      }
      keyStore.StoreKey(kid, key, keyTTL, now);
    }

    method EnsureCurrentSigningKey(key: K.KeyPair, now: int)
      modifies this, keyStore
      ensures View(now) == K.EnsureSigningKey(old(View(now)), key)
    {
      if currentKeyID.Some? && currentKeyID.value in privateKeysByKid {
        var kid := currentKeyID.value;
        if kid !in expiresByKid || now + K.ROTATION_MARGIN < expiresByKid[kid] {
          return;
        }
      }
      var kid := RotateKey(key, now);
    }

    /** Minting up to the signature, for access and refresh tokens alike; the clock is read once for the key and
        once for the token. In a state the maker can be in, the token is its own key's, and when it expires
        within the key's lifetime this process can verify it until then. */
    method CreateToken(duration: nat, key: K.KeyPair, now: int, issuedAt: int)
      returns (kid: K.Kid, signedWith: K.KeyPair, exp: int)
      requires now <= issuedAt
      modifies this, keyStore
      ensures View(issuedAt) == K.Mint(K.Checked(old(View(now)), key, issuedAt - now), duration)
      ensures currentKeyID == Some(kid) && kid in privateKeysByKid && signedWith == privateKeysByKid[kid]
      ensures exp == K.WholeSeconds(issuedAt + duration)
      ensures old(P.KeysKept(View(now)) && K.Enabled(View(now), K.CreateToken(duration, key, issuedAt - now))) ==>
        P.KeysKept(View(issuedAt)) && P.Signs(View(issuedAt), kid, signedWith, exp)
    {
      ghost var was := View(now);
      if P.KeysKept(was) && K.Enabled(was, K.CreateToken(duration, key, issuedAt - now)) {
        P.MintSigns(was, duration, key, issuedAt - now);
      }
      kid, signedWith, exp := TakeCreate(duration, key, now, issuedAt);
    }

    /** The call itself. */
    method TakeCreate(duration: nat, key: K.KeyPair, now: int, issuedAt: int)
      returns (kid: K.Kid, signedWith: K.KeyPair, exp: int)
      requires now <= issuedAt
      modifies this, keyStore
      ensures View(issuedAt) == K.Mint(K.Checked(old(View(now)), key, issuedAt - now), duration)
      ensures currentKeyID == Some(kid) && kid in privateKeysByKid && signedWith == privateKeysByKid[kid]
      ensures exp == K.WholeSeconds(issuedAt + duration)
    {
      EnsureCurrentSigningKey(key, now);
      assert View(issuedAt) == K.Checked(old(View(now)), key, issuedAt - now);
      kid, signedWith, exp := SignWithCurrent(duration, issuedAt);
    }

    method SignWithCurrent(duration: nat, issuedAt: int) returns (kid: K.Kid, signedWith: K.KeyPair, exp: int)
      requires currentKeyID.Some? && currentKeyID.value in privateKeysByKid
      modifies `tokens
      ensures View(issuedAt) == K.Mint(old(View(issuedAt)), duration)
      ensures currentKeyID == Some(kid) && signedWith == privateKeysByKid[kid]
      ensures exp == K.WholeSeconds(issuedAt + duration)
    {
      kid := currentKeyID.value;
      signedWith := privateKeysByKid[kid];
      exp := K.WholeSeconds(issuedAt + duration);
      if kid in keyStore.stored {
        tokens := tokens + {K.Token(kid, signedWith, keyStore.stored[kid], issuedAt, exp)};
      }
    }

    /** Every token this process covers finds its key until it expires, and no key is found that the exported
        set would not have. */
    method GetValidPublicKey(kid: K.Kid, now: int) returns (key: Option<K.KeyPair>)
      ensures key == K.PublicKey(Fields(), kid, now)
      ensures key == if kid in publicKeys && (kid in expiresByKid ==> now <= expiresByKid[kid]) then Some(publicKeys[kid])
                     else None
      ensures forall t: K.Token :: t.kid == kid && P.Covers(Fields(), t) && now < t.exp ==> key == Some(t.key)
    {
      if kid !in publicKeys {
        return None;
      }
      if kid in expiresByKid && now > expiresByKid[kid] {
        return None;
      }
      return Some(publicKeys[kid]);
    }

    /** The exported set is exactly what this maker itself would verify with. */
    method ExportPublicKeys(now: int) returns (keys: map<K.Kid, K.KeyPair>)
      ensures forall kid :: kid in keys <==> kid in publicKeys && (kid in expiresByKid ==> now <= expiresByKid[kid])
      ensures forall kid :: kid in keys <==> K.PublicKey(Fields(), kid, now).Some?
      ensures forall kid :: kid in keys ==> Some(keys[kid]) == K.PublicKey(Fields(), kid, now)
    {
      keys := map[];
      var todo := publicKeys.Keys;
      while todo != {}
        invariant todo <= publicKeys.Keys
        invariant forall kid :: kid in keys <==> kid !in todo && K.PublicKey(Fields(), kid, now).Some?
        invariant forall kid :: kid in keys ==> Some(keys[kid]) == K.PublicKey(Fields(), kid, now)
      {
        var kid :| kid in todo;
        todo := todo - {kid};
        if kid !in expiresByKid || now <= expiresByKid[kid] {
          keys := keys[kid := publicKeys[kid]];
        }
      }
    }
  }
}
