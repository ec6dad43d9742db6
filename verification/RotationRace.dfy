// RefreshToken in its own steps (services/auth/internal/service/auth_service.go),
// on any number of replicas at once: each call reads whatever its replica's cache
// holds, reads the row, updates it conditionally and signs, with any other call,
// deletion or expiry in between.

module RotationRace {
  import opened Prelude
  import opened Sessions

  // Where a call stands. `token` is the refresh token it was called with.
  datatype Call =
    | Presented(token: Token)
    | Missed(token: Token)
    | RowRead(token: Token)
    | Checked(token: Token, globalVer: nat)
    | Won(key: Key, gen: int, globalVer: nat)
    | Succeeded(key: Key, gen: int)
    | Theft(key: Key)
    | Failed

  // The session rows (their generations), every call ever made, the refresh
  // tokens in the order they were signed, and per session its owner and the
  // highest generation its row ever had.
  datatype Race = Race(
    rows: map<Key, int>,
    calls: seq<Call>,
    minted: seq<Token>,
    owner: map<Sid, Uid>,
    high: map<Sid, int>)

  datatype Move =
    | OpenSession(user: Uid, session: Sid, globalVer: nat)
    | Begin(presented: Token)
    | ReadCache(call: nat, entry: Option<CachedSession>)
    | ReadRow(call: nat)
    | ReadVersion(call: nat, version: nat)
    | CompareAndSet(call: nat)
    | Sign(call: nat, signs: bool)
    | KillSession(call: nat)
    | RowExpires(key: Key)

  predicate Enabled(r: Race, m: Move) {
    match m
    case OpenSession(_, sid, _) => sid !in r.owner
    case Begin(t) => t in r.minted
    case ReadCache(i, _) => i < |r.calls| && r.calls[i].Presented?
    case ReadRow(i) => i < |r.calls| && r.calls[i].Missed?
    case ReadVersion(i, _) => i < |r.calls| && r.calls[i].RowRead?
    case CompareAndSet(i) => i < |r.calls| && r.calls[i].Checked?
    case Sign(i, _) => i < |r.calls| && r.calls[i].Won?
    case KillSession(i) => i < |r.calls| && r.calls[i].Theft?
    case RowExpires(_) => true
  }

  function AfterCache(t: Token, entry: Option<CachedSession>): Call {
    match entry
    case None => Missed(t)
    case Some(c) =>
      if t.gen != c.gen then Theft(KeyOf(t))
      else if t.globalVer < c.minGlobalVer then Failed
      else Checked(t, c.minGlobalVer)
  }

  function AfterRow(r: Race, t: Token): Call {
    if KeyOf(t) !in r.rows then Failed
    else if t.gen != r.rows[KeyOf(t)] then Theft(KeyOf(t))
    else RowRead(t)
  }

  /** The conditional update expects the presented generation, which both paths compared with what they read. */
  function Cas(r: Race, i: nat): Race
    requires i < |r.calls| && r.calls[i].Checked?
  {
    var Checked(t, v) := r.calls[i];
    var k := KeyOf(t);
    if k in r.rows && r.rows[k] == t.gen then
      r.(rows := r.rows[k := t.gen + 1],
         high := r.high[t.session := t.gen + 1],
         calls := r.calls[i := Won(k, t.gen + 1, v)])
    else r.(calls := r.calls[i := Failed])
  }

  function Signed(r: Race, i: nat): Race
    requires i < |r.calls| && r.calls[i].Won?
  {
    var Won(k, gen, v) := r.calls[i];
    r.(minted := r.minted + [Token(Refresh, k.user, k.session, gen, v)],
       calls := r.calls[i := Succeeded(k, gen)])
  }

  function Next(r: Race, m: Move): Race {
    if !Enabled(r, m) then r else
    match m
    case OpenSession(u, sid, v) =>
      r.(rows := r.rows[Key(u, sid) := 1],
         owner := r.owner[sid := u],
         high := r.high[sid := 1],
         calls := r.calls + [Won(Key(u, sid), 1, v)])
    case Begin(t) => r.(calls := r.calls + [Presented(t)])
    case ReadCache(i, entry) => r.(calls := r.calls[i := AfterCache(r.calls[i].token, entry)])
    case ReadRow(i) => r.(calls := r.calls[i := AfterRow(r, r.calls[i].token)])
    case ReadVersion(i, v) =>
      var t := r.calls[i].token;
      r.(calls := r.calls[i := if t.globalVer < v then Failed else Checked(t, v)])
    case CompareAndSet(i) => Cas(r, i)
    case Sign(i, signs) => if signs then Signed(r, i) else r.(calls := r.calls[i := Failed])
    case KillSession(i) => r.(rows := r.rows - {r.calls[i].key}, calls := r.calls[i := Failed])
    case RowExpires(k) => r.(rows := r.rows - {k})
  }

  function Run(r: Race, ms: seq<Move>): Race {
    if ms == [] then r else Next(Run(r, ms[..|ms| - 1]), ms[|ms| - 1])
  }

  const START := Race(map[], [], [], map[], map[])

  // ---------- one chain of generations ----------

  /** The generations of a session's refresh tokens, in the order they were signed. */
  function Chain(minted: seq<Token>, sid: Sid): seq<int> {
    if minted == [] then [] else
    var before := Chain(minted[..|minted| - 1], sid);
    var last := minted[|minted| - 1];
    if last.session == sid then before + [last.gen] else before
  }

  /** 1, 2, …, n. */
  function UpTo(n: nat): seq<int> {
    seq(n, i => i + 1)
  }

  lemma ChainSnoc(minted: seq<Token>, t: Token, sid: Sid)
    ensures Chain(minted + [t], sid) == Chain(minted, sid) + (if t.session == sid then [t.gen] else [])
  {
    assert (minted + [t])[..|minted + [t]| - 1] == minted;
  }

  /** A token that was signed is in its session's chain. */
  lemma {:induction false} InChain(minted: seq<Token>, t: Token)
    requires t in minted
    ensures t.gen in Chain(minted, t.session)
    decreases |minted|
  {
    if minted[|minted| - 1] != t {
      InChain(minted[..|minted| - 1], t);
    }
  }

  /** The generation a call has won and not yet, or already, signed. */
  predicate Holds(c: Call) {
    c.Won? || c.Succeeded?
  }

  ghost predicate SessionKept(r: Race, sid: Sid) {
    var n := |Chain(r.minted, sid)|;
    && Chain(r.minted, sid) == UpTo(n)
    && sid in r.high && n <= r.high[sid] <= n + 1
  }

  ghost predicate CallKept(r: Race, c: Call) {
    match c
    case Presented(t) => t in r.minted
    case Missed(t) => t in r.minted
    case RowRead(t) => t in r.minted
    case Checked(t, _) => t in r.minted
    case Won(k, gen, _) =>
      && k.session in r.owner && r.owner[k.session] == k.user && k.session in r.high
      && gen == |Chain(r.minted, k.session)| + 1 == r.high[k.session]
    case Succeeded(k, gen) => k.session in r.high && gen <= |Chain(r.minted, k.session)|
    case _ => true
  }

  ghost predicate Unforked(r: Race) {
    && (forall sid :: sid in r.owner ==> SessionKept(r, sid))
    && (forall t :: t in r.minted ==> t.session in r.owner && r.owner[t.session] == t.user)
    && (forall k :: k in r.rows ==>
          && k.session in r.owner && r.owner[k.session] == k.user
          && k.session in r.high && r.rows[k] == r.high[k.session])
    && (forall i :: 0 <= i < |r.calls| ==> CallKept(r, r.calls[i]))
    && DistinctHolders(r.calls)
  }

  ghost predicate DistinctHolders(calls: seq<Call>) {
    forall i, j :: 0 <= i < j < |calls| && Holds(calls[i]) && Holds(calls[j])
      ==> calls[i].key.session != calls[j].key.session || calls[i].gen != calls[j].gen
  }

  /** Presented generations were signed, so they are at most the chain's length. */
  lemma SignedGeneration(r: Race, t: Token)
    requires Unforked(r) && t in r.minted
    ensures 1 <= t.gen <= |Chain(r.minted, t.session)|
  {
    InChain(r.minted, t);
    assert SessionKept(r, t.session);
  }

  /** A conditional update applies only at the end of the chain, with no other winner outstanding. */
  lemma CasKeeps(r: Race, i: nat)
    requires Unforked(r) && i < |r.calls| && r.calls[i].Checked?
    ensures Unforked(Cas(r, i))
    ensures var t := r.calls[i].token;
            Cas(r, i).calls[i].Won? ==>
              && t.gen == |Chain(r.minted, t.session)|
              && forall j :: 0 <= j < |r.calls| && r.calls[j].Won? ==> r.calls[j].key.session != t.session
  {
    var t := r.calls[i].token;
    var k := KeyOf(t);
    assert CallKept(r, r.calls[i]);
    SignedGeneration(r, t);
    assert SessionKept(r, t.session);
    var r1 := Cas(r, i);
    if k in r.rows && r.rows[k] == t.gen {
      forall j | 0 <= j < |r.calls| && Holds(r.calls[j]) && r.calls[j].key.session == t.session
        ensures r.calls[j].Succeeded? && r.calls[j].gen <= t.gen
      {
        assert CallKept(r, r.calls[j]);
      }
      forall sid | sid in r1.owner
        ensures SessionKept(r1, sid)
      {
        assert SessionKept(r, sid);
      }
      forall j | 0 <= j < |r1.calls|
        ensures CallKept(r1, r1.calls[j])
      {
        assert CallKept(r, r.calls[j]);
      }
      forall x | x in r1.rows && x.session == t.session
        ensures x == k
      {
        assert r.owner[x.session] == x.user;
      }
    }
  }

  lemma SignedKeeps(r: Race, i: nat)
    requires Unforked(r) && i < |r.calls| && r.calls[i].Won?
    ensures Unforked(Signed(r, i))
  {
    var Won(k, gen, v) := r.calls[i];
    var t := Token(Refresh, k.user, k.session, gen, v);
    var r1 := Signed(r, i);
    assert CallKept(r, r.calls[i]);
    assert SessionKept(r, k.session);
    forall sid
      ensures Chain(r1.minted, sid) == Chain(r.minted, sid) + (if sid == k.session then [gen] else [])
    {
      ChainSnoc(r.minted, t, sid);
    }
    forall sid | sid in r1.owner
      ensures SessionKept(r1, sid)
    {
      assert SessionKept(r, sid);
      assert UpTo(gen) == UpTo(gen - 1) + [gen];
    }
    forall j | 0 <= j < |r1.calls|
      ensures CallKept(r1, r1.calls[j])
    {
      assert CallKept(r, r.calls[j]);
      if j != i && r.calls[j].Won? && r.calls[j].key.session == k.session {
        assert Holds(r.calls[i]) && Holds(r.calls[j]);
      }
    }
  }

  lemma OpenKeeps(r: Race, u: Uid, sid: Sid, v: nat)
    requires Unforked(r) && sid !in r.owner
    ensures Unforked(Next(r, OpenSession(u, sid, v)))
  {
    var r1 := Next(r, OpenSession(u, sid, v));
    NoTokens(r, sid);
    forall x | x in r1.owner
      ensures SessionKept(r1, x)
    {
      assert x != sid ==> SessionKept(r, x);
    }
    forall j | 0 <= j < |r1.calls|
      ensures CallKept(r1, r1.calls[j])
    {
      assert j < |r.calls| ==> CallKept(r, r.calls[j]);
    }
    forall i | 0 <= i < |r.calls| && Holds(r.calls[i]) && r.calls[i].key.session == sid
      ensures r.calls[i].gen != 1
    {
      assert CallKept(r, r.calls[i]);
    }
  }

  lemma NoTokens(r: Race, sid: Sid)
    requires Unforked(r) && sid !in r.owner
    ensures Chain(r.minted, sid) == []
  {
    var minted := r.minted;
    var i := 0;
    while i < |minted|
      invariant 0 <= i <= |minted|
      invariant Chain(minted[..i], sid) == []
    {
      ChainSnoc(minted[..i], minted[i], sid);
      assert minted[..i] + [minted[i]] == minted[..i + 1];
      assert minted[i] in minted;
      i := i + 1;
    }
    assert minted[..i] == minted;
  }

  /** Rows may go, and calls may become ones that hold nothing. */
  ghost predicate MovedQuietly(r: Race, r1: Race) {
    && r1 == r.(rows := r1.rows, calls := r1.calls)
    && (forall k :: k in r1.rows ==> k in r.rows && r1.rows[k] == r.rows[k])
    && (forall j :: 0 <= j < |r1.calls| ==>
          || (j < |r.calls| && r1.calls[j] == r.calls[j])
          || (!Holds(r1.calls[j]) && CallKept(r, r1.calls[j])))
  }

  lemma QuietlyKeeps(r: Race, r1: Race)
    requires Unforked(r) && MovedQuietly(r, r1)
    ensures Unforked(r1)
  {
    forall sid | sid in r1.owner
      ensures SessionKept(r1, sid)
    {
      assert SessionKept(r, sid);
    }
    forall j | 0 <= j < |r1.calls|
      ensures CallKept(r1, r1.calls[j])
    {
      assert j < |r.calls| ==> CallKept(r, r.calls[j]);
    }
  }

  /** Moves that touch neither the generations nor the tokens, and make no call a holder. */
  lemma QuietMoveKeeps(r: Race, m: Move)
    requires Unforked(r) && Enabled(r, m)
    requires !m.OpenSession? && !m.CompareAndSet? && !(m.Sign? && m.signs)
    ensures Unforked(Next(r, m))
  {
    if !m.Begin? && !m.RowExpires? {
      assert CallKept(r, r.calls[m.call]);
    }
    QuietlyKeeps(r, Next(r, m));
  }

  lemma UnforkedStep(r: Race, m: Move)
    requires Unforked(r)
    ensures Unforked(Next(r, m))
  {
    if Enabled(r, m) {
      match m
      case OpenSession(u, sid, v) => OpenKeeps(r, u, sid, v);
      case CompareAndSet(i) => CasKeeps(r, i);
      case Sign(i, signs) =>
        if signs {
          SignedKeeps(r, i);
        } else {
          QuietMoveKeeps(r, m);
        }
      case _ => QuietMoveKeeps(r, m);
    }
  }

  lemma {:induction false} UnforkedRun(ms: seq<Move>)
    ensures Unforked(Run(START, ms))
    decreases |ms|
  {
    if ms != [] {
      UnforkedRun(ms[..|ms| - 1]);
      UnforkedStep(Run(START, ms[..|ms| - 1]), ms[|ms| - 1]);
    }
  }

  /** Two calls that both succeeded in producing the same generation of the same session. */
  predicate SucceedAlike(c: Call, d: Call) {
    c.Succeeded? && d.Succeeded? && c.key.session == d.key.session && c.gen == d.gen
  }

  /** However the calls of all replicas interleave, no two refreshes succeed from the same generation of a
      session, and the refresh tokens signed for a session are generations 1, 2, 3, … in that order. */
  lemma NoForkedSessions(ms: seq<Move>)
    ensures var r := Run(START, ms);
      && (forall i, j :: 0 <= i < j < |r.calls| ==> !SucceedAlike(r.calls[i], r.calls[j]))
      && (forall sid :: Chain(r.minted, sid) == UpTo(|Chain(r.minted, sid)|))
  {
    UnforkedRun(ms);
    var r := Run(START, ms);
    forall i, j | 0 <= i < j < |r.calls|
      ensures !SucceedAlike(r.calls[i], r.calls[j])
    {
      if SucceedAlike(r.calls[i], r.calls[j]) {
        assert Holds(r.calls[i]) && Holds(r.calls[j]);
      }
    }
    forall sid
      ensures Chain(r.minted, sid) == UpTo(|Chain(r.minted, sid)|)
    {
      if sid in r.owner {
        assert SessionKept(r, sid);
      } else {
        NoTokens(r, sid);
      }
    }
  }

  // ---------- undisturbed calls ----------

  /** A conditional update applies exactly when the row is there with the presented generation, which it then
      moves up by one; the call is out otherwise, and the row as it was. */
  lemma CasAppliesIff(r: Race, i: nat)
    requires i < |r.calls| && r.calls[i].Checked?
    ensures var t, r1 := r.calls[i].token, Cas(r, i);
            var k := Key(t.user, t.session);
            if k in r.rows && r.rows[k] == t.gen
            then r1.calls[i] == Won(k, t.gen + 1, r.calls[i].globalVer) && r1.rows == r.rows[k := t.gen + 1]
            else r1.calls[i] == Failed && r1.rows == r.rows
  {
  }

  /** What a call concludes from what it reads: a cache entry or a row of another generation is a theft, a version
      above the token's is a refusal, and so is a missing row. */
  lemma ReadsConclude(r: Race, i: nat, entry: Option<CachedSession>, v: nat)
    requires i < |r.calls| && (r.calls[i].Presented? || r.calls[i].Missed? || r.calls[i].RowRead?)
    ensures var t := r.calls[i].token;
            var k := Key(t.user, t.session);
            && (r.calls[i].Presented? ==>
                  Next(r, ReadCache(i, entry)).calls[i] ==
                    if entry.None? then Missed(t)
                    else if entry.value.gen != t.gen then Theft(k)
                    else if entry.value.minGlobalVer > t.globalVer then Failed
                    else Checked(t, entry.value.minGlobalVer))
            && (r.calls[i].Missed? ==>
                  Next(r, ReadRow(i)).calls[i] ==
                    if k !in r.rows then Failed else if r.rows[k] != t.gen then Theft(k) else RowRead(t))
            && (r.calls[i].RowRead? ==>
                  Next(r, ReadVersion(i, v)).calls[i] == if v > t.globalVer then Failed else Checked(t, v))
  {
  }

  /** A handled theft takes the row with it. */
  lemma TheftKills(r: Race, i: nat)
    requires i < |r.calls| && r.calls[i].Theft?
    ensures Next(r, KillSession(i)).rows == r.rows - {r.calls[i].key} && Next(r, KillSession(i)).calls[i] == Failed
  {
  }

  lemma {:induction false} RunConcat(r: Race, xs: seq<Move>, ys: seq<Move>)
    ensures Run(r, xs + ys) == Run(Run(r, xs), ys)
    decreases |ys|
  {
    if ys == [] {
      assert xs + ys == xs;
    } else {
      RunConcat(r, xs, ys[..|ys| - 1]);
      assert (xs + ys)[..|xs + ys| - 1] == xs + ys[..|ys| - 1];
    }
  }

  lemma RunTwo(r: Race, a: Move, b: Move)
    ensures Run(r, [a, b]) == Next(Next(r, a), b)
  {
    assert [a, b][..1] == [a] && [a][..0] == [];
    assert Run(r, [a]) == Next(r, a);
  }

  lemma UpdateAndSign(r: Race, i: nat)
    requires i < |r.calls| && r.calls[i].Checked?
    requires KeyOf(r.calls[i].token) in r.rows && r.rows[KeyOf(r.calls[i].token)] == r.calls[i].token.gen
    ensures var t, v, r1 := r.calls[i].token, r.calls[i].globalVer, Run(r, [CompareAndSet(i), Sign(i, true)]);
            && r1.calls == r.calls[i := Succeeded(KeyOf(t), t.gen + 1)]
            && r1.rows == r.rows[KeyOf(t) := t.gen + 1]
            && r1.minted == r.minted + [Token(Refresh, t.user, t.session, t.gen + 1, v)]
  {
    RunTwo(r, CompareAndSet(i), Sign(i, true));
    var r1 := Next(r, CompareAndSet(i));
    assert r1.calls[i] == Won(KeyOf(r.calls[i].token), r.calls[i].token.gen + 1, r.calls[i].globalVer);
  }

  /** A call that nothing disturbs succeeds, from the cache or from the row: when the row has the presented
      generation and what it reads agrees, it leaves the next generation in the row and signed, at the version it
      read. */
  lemma UndisturbedCallSucceeds(r: Race, t: Token, entry: Option<CachedSession>, v: nat) returns (ms: seq<Move>)
    requires t in r.minted && Key(t.user, t.session) in r.rows && r.rows[Key(t.user, t.session)] == t.gen
    requires v <= t.globalVer && (entry.Some? ==> entry.value == CachedSession(t.gen, v))
    ensures var r1 := Run(r, ms);
            && r1.calls == r.calls + [Succeeded(Key(t.user, t.session), t.gen + 1)]
            && r1.rows == r.rows[Key(t.user, t.session) := t.gen + 1]
            && r1.minted == r.minted + [Token(Refresh, t.user, t.session, t.gen + 1, v)]
  {
    var i := |r.calls|;
    var looks := [Begin(t), ReadCache(i, entry)];
    RunTwo(r, Begin(t), ReadCache(i, entry));
    var r1 := Run(r, looks);
    if entry.None? {
      RunTwo(r1, ReadRow(i), ReadVersion(i, v));
      RunConcat(r, looks, [ReadRow(i), ReadVersion(i, v)]);
      looks := looks + [ReadRow(i), ReadVersion(i, v)];
      r1 := Run(r1, [ReadRow(i), ReadVersion(i, v)]);
    }
    assert r1.calls == r.calls + [Checked(t, v)] && r1.rows == r.rows && r1.minted == r.minted;
    UpdateAndSign(r1, i);
    RunConcat(r, looks, [CompareAndSet(i), Sign(i, true)]);
    ms := looks + [CompareAndSet(i), Sign(i, true)];
  }
}
