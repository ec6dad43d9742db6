// What every run of a note room keeps.

module NoteRoomProofs {
  import opened Prelude
  import opened Blocks
  import opened Updates
  import opened NoteRoom

  // ---------- send channels ----------

  /** No channel is misused, a channel is closed once its client is out, and the loop never waits for one. */
  ghost predicate ChannelsSafe(m: Members) {
    && m.clients <= m.chans.Keys
    && !m.blocked
    && forall c :: c in m.chans ==> ChannelSafe(m.chans[c], c in m.clients)
  }

  ghost predicate ChannelSafe(ch: Chan, member: bool) {
    && !ch.misused
    && ch.closes == (if member then 0 else 1)
    && |ch.queue| <= SEND_CAPACITY
    && |ch.queue| <= |ch.put|
    && ch.queue == ch.put[|ch.put| - |ch.queue|..]
  }

  lemma PutKeepsSafe(ch: Chan, w: Wire)
    requires ChannelSafe(ch, true) && !Full(ch)
    ensures ChannelSafe(Put(ch, w), true)
  {
    var ch1 := Put(ch, w);
    assert ch1.put[|ch1.put| - |ch1.queue|..] == ch.put[|ch.put| - |ch.queue|..] + [w];
  }

  lemma FanOutKeepsSafe(m: Members, w: Wire, skip: Client)
    requires ChannelsSafe(m)
    ensures ChannelsSafe(FanOut(m, w, skip))
  {
    var m1 := FanOut(m, w, skip);
    forall c | c in m1.chans
      ensures ChannelSafe(m1.chans[c], c in m1.clients)
    {
      if c in m.clients && c != skip && !Full(m.chans[c]) {
        PutKeepsSafe(m.chans[c], w);
      }
    }
  }

  lemma EnterKeepsSafe(m: Members, c: Client, v: Raw)
    requires ChannelsSafe(m) && c !in m.chans
    ensures ChannelsSafe(Enter(m, c, v))
  {
    var m1 := Enter(m, c, v);
    assert m1.chans[c].queue == m1.chans[c].put;
  }

  lemma ExitKeepsSafe(m: Members, c: Client)
    requires ChannelsSafe(m) && c in m.clients
    ensures ChannelsSafe(Exit(m, c))
  {
    FanOutKeepsSafe(m, Presence(c, false), c);
  }

  lemma DeliverKeepsSafe(m: Members, c: Client, f: Frame)
    requires ChannelsSafe(m)
    ensures ChannelsSafe(Deliver(m, c, f))
  {
    match f
    case IdentifyFrame(name) => FanOutKeepsSafe(m.(names := m.names[c := name]), Presence(c, true), c);
    case CursorFrame => FanOutKeepsSafe(m, Cursor(c), c);
    case Dropped =>
    case _ => FanOutKeepsSafe(m, Relay(f), c);
  }

  lemma TakeKeepsSafe(m: Members, c: Client)
    requires ChannelsSafe(m) && c in m.chans && m.chans[c].queue != []
    ensures ChannelsSafe(Take(m, c))
  {
    var ch1 := Take(m, c).chans[c];
    assert ch1.queue == ch1.put[|ch1.put| - |ch1.queue|..];
  }

  lemma ChannelsSafeStep(s: State, e: Event)
    requires ChannelsSafe(s.members)
    ensures ChannelsSafe(Step(s, e).members)
  {
    if Enabled(s, e) {
      match e
      case Join(c) => EnterKeepsSafe(s.members, c, s.content.currentValue);
      case Leave(c) =>
        if c in s.members.clients {
          ExitKeepsSafe(s.members, c);
        }
      case Broadcast(c, f) => DeliverKeepsSafe(s.members, c, f);
      case TimerFires =>
      case Drain(c) => TakeKeepsSafe(s.members, c);
    }
  }

  /** Every client's channel is closed at most once, exactly when the client is out, and is never written after. */
  lemma {:induction false} ChannelSafety(db: Store, loaded: bool, es: seq<Event>)
    ensures ChannelsSafe(Run(Hydrate(db, loaded), es).members)
    decreases |es|
  {
    if es != [] {
      ChannelSafety(db, loaded, es[..|es| - 1]);
      ChannelsSafeStep(Run(Hydrate(db, loaded), es[..|es| - 1]), es[|es| - 1]);
    }
  }

  /** What a frame from `c` looks like to the other members. */
  function Heard(c: Client, f: Frame): Wire
    requires !f.Dropped?
  {
    match f
    case IdentifyFrame(_) => Presence(c, true)
    case CursorFrame => Cursor(c)
    case _ => Relay(f)
  }

  /** Every member but the sender's own connection either gets the frame once, last, or is dropped and
      closed because its channel is full; the sender, and everyone not in the room, gets nothing. */
  lemma EveryoneElseHears(s: State, c: Client, f: Frame, d: Client)
    requires ChannelsSafe(s.members) && !s.ended && !s.crashed && d in s.members.chans
    requires !f.Dropped? && !Crashes(s.content, f)
    ensures var m, m1 := s.members, Step(s, Broadcast(c, f)).members;
            && d in m1.chans
            && (d == c || d !in m.clients ==> m1.chans[d] == m.chans[d] && (d in m1.clients <==> d in m.clients))
            && (d in m.clients && d != c ==>
                 if Slow(m, d) then d !in m1.clients && m1.chans[d] == Close(m.chans[d])
                 else && d in m1.clients
                      && m1.chans[d].put == m.chans[d].put + [Heard(c, f)]
                      && m1.chans[d].queue == m.chans[d].queue + [Heard(c, f)])
  {
    assert ChannelSafe(s.members.chans[d], d in s.members.clients);
  }

  /** What the others hear is what the frame says, and an identify frame's name is kept for the connection. */
  lemma FramesAsHeard(s: State, c: Client, f: Frame, d: Client)
    requires ChannelsSafe(s.members) && !s.ended && !s.crashed && !Crashes(s.content, f)
    requires d in s.members.clients && d != c && |s.members.chans[d].queue| < 64
    ensures var m, m1 := s.members, Step(s, Broadcast(c, f)).members;
            && m1.names == (if f.IdentifyFrame? then m.names[c := f.name] else m.names)
            && d in m1.clients && d in m1.chans
            && m1.chans[d].put == m.chans[d].put + match f
                 case IdentifyFrame(_) => [Presence(c, true)]
                 case CursorFrame => [Cursor(c)]
                 case Dropped => []
                 case PatchFrame(_) => [Relay(f)]
                 case UpdateFrame(_) => [Relay(f)]
                 case OtherFrame(_) => [Relay(f)]
  {
  }

  /** A joining client gets the value if it can be sent, then the presence list; nobody else hears of it. */
  lemma JoinerReceives(s: State, c: Client)
    requires ChannelsSafe(s.members) && !s.ended && !s.crashed && c !in s.members.chans
    ensures var m, m1 := s.members, Step(s, Join(c)).members;
            && m1.clients == m.clients + {c} && c in m1.chans
            && m1.chans[c].queue == m1.chans[c].put == (match s.content.currentValue
                 case Empty => [Init(None), PresenceList]
                 case Broken(_) => [PresenceList]
                 case v => [Init(Some(v)), PresenceList])
            && (forall d :: d in m.chans ==> d in m1.chans && m1.chans[d] == m.chans[d])
            && m1.names == m.names
  {
  }

  /** A leaving client is out and closed; if it had identified, each other member hears so or, being full, is
      dropped and closed; if not, nothing changes for them. */
  lemma LeaverAnnounced(s: State, c: Client, d: Client)
    requires ChannelsSafe(s.members) && !s.ended && !s.crashed && c in s.members.clients && d in s.members.clients
    ensures var m, m1 := s.members, Step(s, Leave(c)).members;
            && c !in m1.clients && c in m1.chans && m1.chans[c] == m.chans[c].(closes := 1)
            && d in m1.chans
            && (d != c ==>
                  if c !in m.names || m.names[c] == "" then d in m1.clients && m1.chans[d] == m.chans[d]
                  else if |m.chans[d].queue| >= 64 then d !in m1.clients && m1.chans[d] == m.chans[d].(closes := 1)
                  else && d in m1.clients
                       && m1.chans[d].put == m.chans[d].put + [Presence(c, false)]
                       && m1.chans[d].queue == m.chans[d].queue + [Presence(c, false)])
  {
    assert ChannelSafe(s.members.chans[c], true) && ChannelSafe(s.members.chans[d], true);
  }

  // ---------- the end of the loop ----------

  /** This leave empties the room: whoever else is a member is full and is dropped by the announcement. */
  predicate Empties(s: State, e: Event) {
    && !s.ended && !s.crashed && e.Leave? && e.client in s.members.clients
    && forall d :: d in s.members.clients && d != e.client ==>
         && e.client in s.members.names && s.members.names[e.client] != ""
         && d in s.members.chans && |s.members.chans[d].queue| >= 64
  }

  lemma EndsIff(s: State, e: Event)
    requires ChannelsSafe(s.members)
    ensures Step(s, e).ended <==> s.ended || Empties(s, e)
    ensures Empties(s, e) ==> Step(s, e).members.clients == {}
  {
    if e.Leave? && !s.ended && !s.crashed && e.client in s.members.clients {
      var m1 := Exit(s.members, e.client);
      forall d | d in s.members.clients
        ensures d in m1.clients <==>
          d != e.client && !(e.client in s.members.names && s.members.names[e.client] != "" && |s.members.chans[d].queue| >= 64)
      {
      }
      assert m1.clients <= s.members.clients;
    }
  }

  predicate EmptiesAt(start: State, es: seq<Event>, i: nat)
    requires i < |es|
  {
    Empties(Run(start, es[..i]), es[i])
  }

  ghost predicate Emptied(start: State, es: seq<Event>) {
    exists i :: 0 <= i < |es| && EmptiesAt(start, es, i)
  }

  lemma SameAtPrefix(start: State, es: seq<Event>, i: nat)
    requires i < |es| - 1
    ensures EmptiesAt(start, es[..|es| - 1], i) == EmptiesAt(start, es, i)
  {
    assert es[..|es| - 1][..i] == es[..i];
  }

  lemma EmptiedSnoc(start: State, es: seq<Event>)
    requires es != []
    ensures Emptied(start, es) <==> Emptied(start, es[..|es| - 1]) || EmptiesAt(start, es, |es| - 1)
  {
    forall i | 0 <= i < |es| - 1
      ensures EmptiesAt(start, es[..|es| - 1], i) == EmptiesAt(start, es, i)
    {
      SameAtPrefix(start, es, i);
    }
    if Emptied(start, es[..|es| - 1]) {
      var i :| 0 <= i < |es| - 1 && EmptiesAt(start, es[..|es| - 1], i);
      assert EmptiesAt(start, es, i);
    }
    if Emptied(start, es) {
      var i :| 0 <= i < |es| && EmptiesAt(start, es, i);
      assert i < |es| - 1 ==> EmptiesAt(start, es[..|es| - 1], i);
    }
  }

  /** The room has ended exactly when some leave left nobody in it. */
  lemma {:induction false} EndedIff(db: Store, loaded: bool, es: seq<Event>)
    ensures Run(Hydrate(db, loaded), es).ended <==> Emptied(Hydrate(db, loaded), es)
    decreases |es|
  {
    if es != [] {
      var n := |es| - 1;
      EndedIff(db, loaded, es[..n]);
      ChannelSafety(db, loaded, es[..n]);
      EndsIff(Run(Hydrate(db, loaded), es[..n]), es[n]);
      EmptiedSnoc(Hydrate(db, loaded), es);
    }
  }

  // ---------- document, buffer and tables ----------

  /** What a frame is taken in as, and by whom: a patch to merge, a nonempty legacy value to put in place,
      nothing else. */
  lemma FrameAccepted(s: State, c: Client, f: Frame)
    requires !s.ended && !s.crashed && !Crashes(s.content, f)
    ensures Step(s, Broadcast(c, f)).content.accepted == s.content.accepted + match f
              case PatchFrame(p) => [Accepted(Merge(p), c.user)]
              case UpdateFrame(v) => if v == Empty then [] else [Accepted(Replace(v), c.user)]
              case _ => []
  {
  }

  ghost predicate ChangesIds(v: Raw, p: Patch) {
    p.deleted != [] || exists id :: id in p.upserted && !(v.Object? && id in v.doc)
  }

  /** A patch is persisted at once exactly when it deletes, brings a new block or fills the buffer, a legacy
      value exactly when it fills the buffer; otherwise it waits under the timer and no table changes. */
  lemma PersistedAtOnceIff(s: State, db: Store, c: Client, f: Frame)
    requires Conserves(s.content, db) && !s.ended && !s.crashed && !Crashes(s.content, f)
    requires f.PatchFrame? || (f.UpdateFrame? && f.value != Empty)
    ensures var d, d1 := s.content, Step(s, Broadcast(c, f)).content;
            var atOnce := |d.buffer| + 1 >= 20 || (f.PatchFrame? && ChangesIds(d.currentValue, f.patch));
            && (d1.buffer == [] <==> atOnce)
            && (!atOnce ==> d1.flushTimer && d1.store == d.store
                            && d1.buffer == d.buffer + [Entry(d1.currentValue, c.user)])
            && (atOnce ==> !d1.flushTimer && d1.store.snapshot == d1.currentValue
                           && d1.store.log == d.store.log + d.buffer + [Entry(d1.currentValue, c.user)])
  {
    var d := s.content;
    assert d.store.log + (d.buffer + [Entry(Step(s, Broadcast(c, f)).content.currentValue, c.user)])
        == d.store.log + d.buffer + [Entry(Step(s, Broadcast(c, f)).content.currentValue, c.user)];
  }

  function Flushed(d: Content): int {
    |d.accepted| - |d.buffer|
  }

  /** The document is the fold of the accepted changes; log then buffer list them in order with their
      authors; the stored snapshot is the document as it was at the last flush. */
  ghost predicate Recorded(d: Content, db: Store) {
    && Survives(d.base, Changes(d.accepted))
    && d.currentValue == Fold(d.base, Changes(d.accepted))
    && (d.accepted != [] ==> !d.currentValue.Empty?)
    && 0 <= Flushed(d)
    && d.store.log + d.buffer == db.log + Entries(d.base, d.accepted)
    && |d.store.log| == |db.log| + Flushed(d)
    && d.store.snapshot == (if Flushed(d) == 0 then db.snapshot
                            else Fold(d.base, Changes(d.accepted[..Flushed(d)])))
  }

  /** Between events fewer than twenty entries wait, and they have a timer. */
  ghost predicate Conserves(d: Content, db: Store) {
    && Recorded(d, db)
    && |d.buffer| < FLUSH_THRESHOLD
    && (d.flushTimer <==> d.buffer != [])
  }

  lemma AcceptRecords(d: Content, db: Store, user: UserId, change: Change)
    requires Recorded(d, db)
    requires change.Replace? ==> !change.value.Empty?
    requires change.Merge? ==> !Panics(d.currentValue, change.patch)
    ensures Recorded(Accept(d, user, change), db)
  {
    var a := Accepted(change, user);
    var d1 := Accept(d, user, change);
    assert Changes(d1.accepted)[..|d.accepted|] == Changes(d.accepted);
    EntriesExtend(d.base, d.accepted, a);
    assert d1.accepted[..Flushed(d)] == d.accepted[..Flushed(d)];
    assert d1.store.log + d1.buffer == (d.store.log + d.buffer) + [Entry(d1.currentValue, user)];
  }

  lemma FlushRecords(d: Content, db: Store)
    requires Recorded(d, db)
    ensures Recorded(Flush(d), db)
  {
    assert d.accepted[..|d.accepted|] == d.accepted;
    assert d.store.log + d.buffer + [] == d.store.log + d.buffer;
  }

  lemma TakeFrameConserves(d: Content, db: Store, user: UserId, f: Frame)
    requires Conserves(d, db) && !Crashes(d, f)
    ensures Conserves(TakeFrame(d, user, f), db)
  {
    match f
    case PatchFrame(p) => TakePatchConserves(d, db, user, p);
    case UpdateFrame(v) => TakeUpdateConserves(d, db, user, v);
    case _ =>
  }

  lemma TakePatchConserves(d: Content, db: Store, user: UserId, p: Patch)
    requires Conserves(d, db) && !Panics(d.currentValue, p)
    ensures Conserves(TakePatch(d, user, p), db)
  {
    AcceptRecords(d, db, user, Merge(p));
    FlushRecords(Accept(d, user, Merge(p)), db);
  }

  lemma TakeUpdateConserves(d: Content, db: Store, user: UserId, v: Raw)
    requires Conserves(d, db)
    ensures Conserves(TakeUpdate(d, user, v), db)
  {
    if !v.Empty? {
      AcceptRecords(d, db, user, Replace(v));
      FlushRecords(Accept(d, user, Replace(v)).(flushTimer := true), db);
    }
  }

  lemma ConservesStep(s: State, db: Store, e: Event)
    requires Conserves(s.content, db)
    requires s.ended ==> s.content.buffer == []
    ensures Conserves(Step(s, e).content, db)
    ensures Step(s, e).ended ==> Step(s, e).content.buffer == []
  {
    FlushRecords(s.content, db);
    if e.Broadcast? && !Crashes(s.content, e.frame) {
      TakeFrameConserves(s.content, db, e.client.user, e.frame);
    }
  }

  /** In every run no accepted change is lost, repeated, reordered or attributed to someone else, fewer than
      twenty wait unflushed, what waits has a timer set, and nothing waits once the loop has ended. */
  lemma {:induction false} Conservation(db: Store, loaded: bool, es: seq<Event>)
    ensures var s := Run(Hydrate(db, loaded), es);
            Conserves(s.content, db) && (s.ended ==> s.content.buffer == [])
    decreases |es|
  {
    if es == [] {
      assert db.log + [] == db.log + Entries(Hydrate(db, loaded).content.base, []);
    } else {
      Conservation(db, loaded, es[..|es| - 1]);
      ConservesStep(Run(Hydrate(db, loaded), es[..|es| - 1]), db, es[|es| - 1]);
    }
  }

  // ---------- block-set durability ----------

  ghost predicate NoLegacyUpdates(es: seq<Event>) {
    forall i :: 0 <= i < |es| ==> !(es[i].Broadcast? && es[i].frame.UpdateFrame?)
  }

  ghost predicate SameBlockIds(d: Content) {
    Decode(d.store.snapshot).Keys == Decode(d.currentValue).Keys
  }

  /** Some change still in the buffer upserted `id`. */
  ghost predicate WaitingUpsert(d: Content, id: BlockId) {
    exists i :: 0 <= i < |d.accepted| && Flushed(d) <= i
      && d.accepted[i].change.Merge? && id in d.accepted[i].change.patch.upserted
  }

  /** The stored snapshot has the document's blocks, and differs only in blocks a waiting patch upserted. */
  ghost predicate Durable(d: Content) {
    && SameBlockIds(d)
    && forall id :: id in Decode(d.currentValue) && Decode(d.store.snapshot)[id] != Decode(d.currentValue)[id]
         ==> WaitingUpsert(d, id)
  }

  lemma TextPatchKeepsDurable(d: Content, user: UserId, p: Patch)
    requires Durable(d) && 0 <= Flushed(d)
    requires !Structural(Decode(d.currentValue), p) && !Panics(d.currentValue, p)
    ensures Durable(Accept(d, user, Merge(p)))
  {
    var d1 := Accept(d, user, Merge(p));
    var last := |d.accepted|;
    TextPatchKeepsIds(Decode(d.currentValue), p);
    forall id | id in Decode(d1.currentValue) && Decode(d1.store.snapshot)[id] != Decode(d1.currentValue)[id]
      ensures WaitingUpsert(d1, id)
    {
      if id in p.upserted {
        assert d1.accepted[last].change.patch == p;
      } else {
        assert WaitingUpsert(d, id);
        var i :| 0 <= i < |d.accepted| && Flushed(d) <= i
          && d.accepted[i].change.Merge? && id in d.accepted[i].change.patch.upserted;
        assert d1.accepted[i] == d.accepted[i];
      }
    }
  }

  lemma FlushKeepsDurable(d: Content)
    requires Durable(d) || (d.buffer != [] && !d.currentValue.Empty?)
    requires d.accepted != [] ==> !d.currentValue.Empty?
    requires 0 <= Flushed(d)
    ensures Durable(Flush(d))
  {
    if d.buffer == [] {
      assert forall id :: WaitingUpsert(d, id) ==> WaitingUpsert(Flush(d), id);
    }
  }

  lemma TakePatchKeepsDurable(d: Content, db: Store, user: UserId, p: Patch)
    requires Durable(d) && Conserves(d, db) && !Panics(d.currentValue, p)
    ensures Durable(TakePatch(d, user, p))
  {
    var d1 := Accept(d, user, Merge(p));
    if Structural(Decode(d.currentValue), p) || |d1.buffer| >= FLUSH_THRESHOLD {
      FlushKeepsDurable(d1);
    } else {
      TextPatchKeepsDurable(d, user, p);
      assert forall id :: WaitingUpsert(d1, id) ==> WaitingUpsert(TakePatch(d, user, p), id);
    }
  }

  lemma DurableStep(s: State, db: Store, e: Event)
    requires Durable(s.content) && Conserves(s.content, db)
    requires !(e.Broadcast? && e.frame.UpdateFrame?)
    ensures Durable(Step(s, e).content)
  {
    FlushKeepsDurable(s.content);
    if e.Broadcast? && e.frame.PatchFrame? && !Crashes(s.content, e.frame) {
      TakePatchKeepsDurable(s.content, db, e.client.user, e.frame.patch);
    }
  }

  lemma {:induction false} DurableRun(db: Store, loaded: bool, es: seq<Event>)
    requires NoLegacyUpdates(es)
    requires loaded || Decode(db.snapshot) == map[]
    ensures Durable(Run(Hydrate(db, loaded), es).content)
    decreases |es|
  {
    if es != [] {
      var rest := es[..|es| - 1];
      DurableRun(db, loaded, rest);
      Conservation(db, loaded, rest);
      DurableStep(Run(Hydrate(db, loaded), rest), db, es[|es| - 1]);
    }
  }

  /** The stored snapshot has the live document's blocks after every event of every run without legacy
      frames, exactly when hydration read the snapshot or there were no blocks to read. */
  lemma BlockSetDurability(db: Store, loaded: bool)
    ensures (forall es :: NoLegacyUpdates(es) ==> Durable(Run(Hydrate(db, loaded), es).content))
       <==> loaded || Decode(db.snapshot) == map[]
  {
    if loaded || Decode(db.snapshot) == map[] {
      forall es | NoLegacyUpdates(es)
        ensures Durable(Run(Hydrate(db, loaded), es).content)
      {
        DurableRun(db, loaded, es);
      }
    } else {
      var none: seq<Event> := [];
      assert NoLegacyUpdates(none) && !SameBlockIds(Run(Hydrate(db, loaded), none).content);
    }
  }

  /** A legacy full-document frame keeps the block ids durable exactly when it fills the buffer or brings no new ids. */
  lemma LegacyUpdateDurableIff(s: State, db: Store, c: Client, v: Raw)
    requires Conserves(s.content, db) && SameBlockIds(s.content) && !s.ended && !s.crashed && !v.Empty?
    ensures SameBlockIds(Step(s, Broadcast(c, UpdateFrame(v))).content)
       <==> |s.content.buffer| + 1 >= FLUSH_THRESHOLD || Decode(v).Keys == Decode(s.content.currentValue).Keys
  {
  }

  // ---------- passive replicas ----------

  /** Frames the server and the browsers read alike: not the legacy frame, which only the server takes into the
      document, nor one the server forwards undecoded and browsers act on. */
  predicate ReadAlike(f: Frame) {
    !f.UpdateFrame? && (f.OtherFrame? ==> f.reading.Ignored?)
  }

  ghost predicate PatchesAndPresence(es: seq<Event>) {
    forall i :: 0 <= i < |es| && es[i].Broadcast? ==> ReadAlike(es[i].frame)
  }

  /** Each member that has not spoken holds `doc`. */
  ghost predicate ListenersHold(m: Members, spoke: set<Client>, doc: Doc) {
    forall c :: c in m.clients && c in m.chans && c !in spoke ==> Replica(m.chans[c].put) == doc
  }

  ghost predicate ReplicasAgree(s: State) {
    && !s.content.currentValue.Scalar?
    && ListenersHold(s.members, s.spoke, Decode(s.content.currentValue))
  }

  lemma ReplicaAfter(frames: seq<Wire>, w: Wire)
    ensures Replica(frames + [w]) == Receive(Replica(frames), w)
  {
    var all := frames + [w];
    assert all[..|all| - 1] == frames;
  }

  lemma EnterReplica(m: Members, c: Client, v: Raw)
    requires !v.Scalar?
    ensures Replica(Enter(m, c, v).chans[c].put) == Decode(v)
  {
    var put := Enter(m, c, v).chans[c].put;
    if v.Broken? {
      assert put == [] + [PresenceList];
      ReplicaAfter([], PresenceList);
    } else {
      var first := Init(if v.Empty? then None else Some(v));
      assert put == ([] + [first]) + [PresenceList];
      ReplicaAfter([], first);
      ReplicaAfter([] + [first], PresenceList);
    }
  }

  /** Each listener that stays receives the frame exactly once. */
  lemma FanOutReplicas(m: Members, w: Wire, skip: Client, spoke: set<Client>, doc: Doc)
    requires ChannelsSafe(m) && ListenersHold(m, spoke, doc)
    requires skip in spoke || Receive(doc, w) == doc
    ensures ListenersHold(FanOut(m, w, skip), spoke, Receive(doc, w))
  {
    var m1 := FanOut(m, w, skip);
    forall c | c in m1.clients && c in m1.chans && c !in spoke
      ensures Replica(m1.chans[c].put) == Receive(doc, w)
    {
      if c != skip {
        ReplicaAfter(m.chans[c].put, w);
      }
    }
  }

  lemma IdentifyReplicas(m: Members, c: Client, name: string, spoke: set<Client>, doc: Doc)
    requires ChannelsSafe(m) && ListenersHold(m, spoke, doc)
    ensures ListenersHold(Deliver(m, c, IdentifyFrame(name)), spoke, doc)
  {
    var m1 := m.(names := m.names[c := name]);
    assert m1.chans == m.chans && m1.clients == m.clients;
    FanOutReplicas(m1, Presence(c, true), c, spoke, doc);
  }

  lemma ExitReplicas(m: Members, c: Client, spoke: set<Client>, doc: Doc)
    requires ChannelsSafe(m) && c in m.clients && ListenersHold(m, spoke, doc)
    ensures ListenersHold(Exit(m, c), spoke, doc)
  {
    FanOutReplicas(m, Presence(c, false), c, spoke, doc);
  }

  lemma DeliverReplicas(m: Members, c: Client, f: Frame, spoke: set<Client>, doc: Doc)
    requires ChannelsSafe(m) && ListenersHold(m, spoke, doc)
    requires f.PatchFrame? ==> c in spoke
    requires ReadAlike(f)
    ensures ListenersHold(Deliver(m, c, f), spoke, if f.PatchFrame? then Apply(doc, f.patch) else doc)
  {
    match f
    case PatchFrame(p) => FanOutReplicas(m, Relay(f), c, spoke, doc);
    case IdentifyFrame(name) => IdentifyReplicas(m, c, name, spoke, doc);
    case CursorFrame => FanOutReplicas(m, Cursor(c), c, spoke, doc);
    case OtherFrame(_) => FanOutReplicas(m, Relay(f), c, spoke, doc);
    case Dropped =>
  }

  lemma JoinReplicas(s: State, c: Client)
    requires ReplicasAgree(s) && ChannelsSafe(s.members) && c !in s.members.chans
    ensures ReplicasAgree(JoinStep(s, c))
  {
    EnterReplica(s.members, c, s.content.currentValue);
  }

  lemma BroadcastReplicas(s: State, c: Client, f: Frame)
    requires ReplicasAgree(s) && ChannelsSafe(s.members) && ReadAlike(f)
    ensures ReplicasAgree(BroadcastStep(s, c, f))
  {
    if !Crashes(s.content, f) {
      DeliverReplicas(s.members, c, f, BroadcastStep(s, c, f).spoke, Decode(s.content.currentValue));
    }
  }

  lemma ReplicasStep(s: State, e: Event)
    requires ReplicasAgree(s) && ChannelsSafe(s.members)
    requires e.Broadcast? ==> ReadAlike(e.frame)
    ensures ReplicasAgree(Step(s, e))
  {
    var doc := Decode(s.content.currentValue);
    if Enabled(s, e) {
      match e
      case Join(c) => JoinReplicas(s, c);
      case Leave(c) =>
        if c in s.members.clients {
          ExitReplicas(s.members, c, s.spoke, doc);
        }
      case TimerFires =>
      case Drain(c) =>
      case Broadcast(c, f) => BroadcastReplicas(s, c, f);
    }
  }

  /** After every event, a member that only listened since it joined holds the server's document. */
  lemma {:induction false} PassiveReplicas(db: Store, loaded: bool, es: seq<Event>)
    requires PatchesAndPresence(es) && !db.snapshot.Scalar?
    ensures ReplicasAgree(Run(Hydrate(db, loaded), es))
    decreases |es|
  {
    if es != [] {
      var rest := es[..|es| - 1];
      PassiveReplicas(db, loaded, rest);
      ChannelSafety(db, loaded, rest);
      ReplicasStep(Run(Hydrate(db, loaded), rest), es[|es| - 1]);
    }
  }

  /** The `i`th event is a document frame of `c`'s, and `c` did not join after it. */
  ghost predicate SpokeAt(start: State, es: seq<Event>, c: Client, i: nat) {
    && i < |es| && es[i].Broadcast? && es[i].client == c && IsDocument(es[i].frame)
    && forall j :: i < j < |es| ==> !Joins(start, es, c, j)
  }

  ghost predicate Joins(start: State, es: seq<Event>, c: Client, j: nat)
    requires j < |es|
  {
    es[j] == Join(c) && Enabled(Run(start, es[..j]), es[j])
  }

  ghost predicate SpokeSinceJoin(start: State, es: seq<Event>, c: Client) {
    exists i: nat :: SpokeAt(start, es, c, i)
  }

  lemma StillSpoke(start: State, es: seq<Event>, c: Client)
    requires es != [] && SpokeSinceJoin(start, es[..|es| - 1], c) && !Joins(start, es, c, |es| - 1)
    ensures SpokeSinceJoin(start, es, c)
  {
    var rest := es[..|es| - 1];
    var i: nat :| SpokeAt(start, rest, c, i);
    forall j | i < j < |es|
      ensures !Joins(start, es, c, j)
    {
      if j < |rest| {
        assert !Joins(start, rest, c, j);
        assert rest[..j] == es[..j];
      }
    }
    assert SpokeAt(start, es, c, i);
  }

  lemma SpokeStep(s: State, e: Event, c: Client)
    requires c in Step(s, e).spoke
    ensures || (c in s.spoke && !(e == Join(c) && Enabled(s, e)))
            || (e.Broadcast? && e.client == c && IsDocument(e.frame))
  {
  }

  predicate IsDocument(f: Frame) {
    match f
    case PatchFrame(_) => true
    case UpdateFrame(v) => v != Empty
    case _ => false
  }

  lemma {:induction false} SpokenIsRecorded(start: State, es: seq<Event>, c: Client)
    requires start.spoke == {} && c in Run(start, es).spoke
    ensures SpokeSinceJoin(start, es, c)
    decreases |es|
  {
    if es != [] {
      var n := |es| - 1;
      SpokeStep(Run(start, es[..n]), es[n], c);
      if es[n].Broadcast? && es[n].client == c && IsDocument(es[n].frame) {
        assert SpokeAt(start, es, c, n);
      } else {
        SpokenIsRecorded(start, es[..n], c);
        StillSpoke(start, es, c);
      }
    }
  }

  /** The same from the run itself: a member that sent no document frame since it joined holds the server's
      document. */
  lemma PassiveListener(db: Store, loaded: bool, es: seq<Event>, c: Client)
    requires PatchesAndPresence(es) && !db.snapshot.Scalar?
    requires !SpokeSinceJoin(Hydrate(db, loaded), es, c)
    ensures var s := Run(Hydrate(db, loaded), es);
            c in s.members.clients ==>
              c in s.members.chans && Replica(s.members.chans[c].put) == Decode(s.content.currentValue)
  {
    PassiveReplicas(db, loaded, es);
    ChannelSafety(db, loaded, es);
    if c in Run(Hydrate(db, loaded), es).spoke {
      SpokenIsRecorded(Hydrate(db, loaded), es, c);
    }
  }

  /** A legacy frame reaches today's browsers as a frame they ignore: a listener that is not dropped stays
      in agreement exactly when the frame changed nothing. */
  lemma LegacyUpdateReplicaIff(s: State, c: Client, v: Raw, d: Client)
    requires ReplicasAgree(s) && ChannelsSafe(s.members) && !s.ended && !s.crashed && !v.Empty?
    requires d in s.members.clients && d != c && d !in s.spoke && !Slow(s.members, d)
    ensures var s1 := Step(s, Broadcast(c, UpdateFrame(v)));
            && d in s1.members.clients
            && (Replica(s1.members.chans[d].put) == Decode(s1.content.currentValue)
                <==> Decode(v) == Decode(s.content.currentValue))
  {
    ReplicaAfter(s.members.chans[d].put, Relay(UpdateFrame(v)));
  }

  /** What it deletes is not there, and what it upserts and does not delete is there already. */
  ghost predicate PatchChangesNothing(doc: Doc, p: Patch) {
    && (forall id :: id in p.deleted ==> id !in doc)
    && (forall id :: id in p.upserted && id !in p.deleted ==> id in doc && doc[id] == p.upserted[id])
  }

  lemma UnchangedIff(doc: Doc, p: Patch)
    ensures Apply(doc, p) == doc <==> PatchChangesNothing(doc, p)
  {
    var got := Apply(doc, p);
    if got == doc {
      forall id | id in p.upserted && id !in p.deleted
        ensures id in doc && doc[id] == p.upserted[id]
      {
        assert id in got && got[id] == p.upserted[id];
      }
      forall id | id in p.deleted
        ensures id !in doc
      {
        assert id !in got;
      }
    }
    if PatchChangesNothing(doc, p) {
      assert forall id :: id in got <==> id in doc;
    }
  }

  /** A forwarded frame the server does not decode keeps such a listener in agreement exactly when what its
      browser makes of it is what it already had. */
  lemma ForwardedFrameReplicaIff(s: State, c: Client, reading: Reading, d: Client)
    requires ReplicasAgree(s) && ChannelsSafe(s.members) && !s.ended && !s.crashed
    requires d in s.members.clients && d != c && d !in s.spoke && !Slow(s.members, d)
    ensures var s1 := Step(s, Broadcast(c, OtherFrame(reading)));
            && d in s1.members.clients
            && (Replica(s1.members.chans[d].put) == Decode(s1.content.currentValue)
                <==> match reading
                     case Ignored => true
                     case AsInit(doc) => doc == Decode(s.content.currentValue)
                     case AsPatch(p) => PatchChangesNothing(Decode(s.content.currentValue), p))
  {
    ReplicaAfter(s.members.chans[d].put, Relay(OtherFrame(reading)));
    if reading.AsPatch? {
      UnchangedIff(Decode(s.content.currentValue), reading.patch);
    }
  }

  // ---------- crashes ----------

  lemma {:induction false} NullOnlyFromTheStore(db: Store, loaded: bool, es: seq<Event>)
    requires NoLegacyUpdates(es)
    ensures var s := Run(Hydrate(db, loaded), es);
            s.crashed || s.content.currentValue.Null? ==> loaded && db.snapshot.Null?
    decreases |es|
  {
    if es != [] {
      NullOnlyFromTheStore(db, loaded, es[..|es| - 1]);
    }
  }

  lemma RunOne(s: State, e: Event)
    ensures Run(s, [e]) == Step(s, e)
  {
    assert [e][..0] == [];
  }

  lemma RunTwo(s: State, e: Event, f: Event)
    ensures Run(s, [e, f]) == Step(Step(s, e), f)
  {
    RunOne(s, e);
    assert [e, f][..1] == [e];
  }

  /** Without legacy frames some run crashes exactly when the stored snapshot is null and was read. */
  lemma SomeRunCrashesIff(db: Store, loaded: bool)
    ensures (exists es :: NoLegacyUpdates(es) && Run(Hydrate(db, loaded), es).crashed)
       <==> loaded && db.snapshot.Null?
  {
    forall es | NoLegacyUpdates(es) && Run(Hydrate(db, loaded), es).crashed
      ensures loaded && db.snapshot.Null?
    {
      NullOnlyFromTheStore(db, loaded, es);
    }
    if loaded && db.snapshot.Null? {
      var es := [Broadcast(Client(0, 0), PatchFrame(Patch(map["id" := "{}"], [])))];
      RunOne(Hydrate(db, loaded), es[0]);
      assert "id" in es[0].frame.patch.upserted;
      assert NoLegacyUpdates(es) && Run(Hydrate(db, loaded), es).crashed;
    }
  }

  /** A live room crashes on a frame exactly when it is a patch that upserts something and the value is null;
      the crash changes neither tables nor channels, so what it loses is the buffer. */
  lemma CrashesIff(s: State, c: Client, f: Frame)
    requires !s.ended && !s.crashed
    ensures var s1 := Step(s, Broadcast(c, f));
            && (s1.crashed <==> f.PatchFrame? && s.content.currentValue == Null && f.patch.upserted.Keys != {})
            && (s1.crashed ==> s1 == s.(crashed := true))
  {
  }

  /** From any live room a legacy null and a patch with an upsert crash it. */
  lemma LegacyNullThenPatchCrashes(s: State, c: Client, d: Client, p: Patch)
    requires !s.ended && !s.crashed && p.upserted != map[]
    ensures Run(s, [Broadcast(c, UpdateFrame(Null)), Broadcast(d, PatchFrame(p))]).crashed
  {
    RunTwo(s, Broadcast(c, UpdateFrame(Null)), Broadcast(d, PatchFrame(p)));
  }

  /** Once the legacy null was flushed, every room opened on that snapshot crashes on its first upsert. */
  lemma StoredNullCrashesAgain(s: State, c: Client, d: Client, p: Patch)
    requires !s.ended && !s.crashed && p.upserted != map[]
    ensures var db := Run(s, [Broadcast(c, UpdateFrame(Null)), TimerFires]).content.store;
            db.snapshot == Null && Run(Hydrate(db, true), [Broadcast(d, PatchFrame(p))]).crashed
  {
    RunTwo(s, Broadcast(c, UpdateFrame(Null)), TimerFires);
    var db := Run(s, [Broadcast(c, UpdateFrame(Null)), TimerFires]).content.store;
    RunOne(Hydrate(db, true), Broadcast(d, PatchFrame(p)));
  }
}
