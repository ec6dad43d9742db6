// The room object itself: the fields of hub.go's room, and one method for each
// thing its loop, its timers and its clients' write pumps do. Each takes a step of
// NoteRoom.dfy, and keeps what every run keeps.

module NoteRoomObject {
  import opened Prelude
  import opened Blocks
  import opened Updates
  import opened NoteRoom
  import opened NoteRoomProofs

  class Room {
    var clients: set<Client>
    var chans: map<Client, Chan>
    var names: map<Client, string>
    var currentValue: Raw
    var buffer: seq<Entry>
    var flushTimer: bool
    var ended: bool
    var crashed: bool
    var store: Store

    ghost const db: Store
    ghost var blocked: bool
    ghost var base: Raw
    ghost var accepted: seq<Accepted>
    ghost var spoke: set<Client>

    ghost function Membership(): Members
      reads this
    {
      Members(clients, chans, names, blocked)
    }

    ghost function Document(): Content
      reads this
    {
      Content(currentValue, buffer, flushTimer, store, base, accepted)
    }

    ghost function View(): State
      reads this
    {
      State(Membership(), Document(), spoke, ended, crashed)
    }

    /** No channel is misused; log and buffer hold every accepted change since `db`, fewer than twenty of them
        in the buffer, under a timer; and nothing waits once the loop has ended. */
    ghost predicate Valid()
      reads this
    {
      && ChannelsSafe(Membership())
      && Conserves(Document(), db)
      && (ended ==> buffer == [])
    }

    twostate lemma StepKeepsValid(e: Event)
      requires old(Valid()) && View() == Step(old(View()), e)
      ensures Valid()
    {
      ChannelsSafeStep(old(View()), e);
      ConservesStep(old(View()), db, e);
    }

    /** Every member's channel is open. */
    static ghost predicate AllOpen(m: Members) {
      forall c :: c in m.clients ==> c in m.chans && m.chans[c].closes == 0 && !m.chans[c].misused
    }

    constructor (db: Store, loaded: bool)
      ensures Valid()
      ensures View() == Hydrate(db, loaded)
      ensures currentValue == (if loaded then db.snapshot else Empty) && store == db && this.db == db
      ensures clients == {} && buffer == [] && !flushTimer && !ended && !crashed && accepted == []
    {
      clients, chans, names, blocked := {}, map[], map[], false;
      currentValue := if loaded then db.snapshot else Empty;
      buffer, flushTimer, ended, crashed, store := [], false, false, false, db;
      base, accepted, spoke := if loaded then db.snapshot else Empty, [], {};
      this.db := db;
      new;
      ChannelSafety(db, loaded, []);
      Conservation(db, loaded, []);
    }

    /** A send that may wait. It is only used while the channel has room, so it never does. */
    method Send(c: Client, w: Wire)
      requires c in chans && chans[c].closes == 0 && !Full(chans[c])
      modifies `chans
      ensures chans == old(chans)[c := Put(old(chans[c]), w)]
    {
      var ch := chans[c];
      chans := chans[c := ch.(queue := ch.queue + [w], put := ch.put + [w])];
    }

    method SendInitialState(c: Client)
      requires c in chans && chans[c] == OPEN_CHANNEL
      modifies `chans
      ensures Membership() == NoteRoom.SendInitialState(old(Membership()), c, currentValue)
      ensures c in chans && chans[c].closes == 0 && |chans[c].queue| <= 1
    {
      match currentValue {
        case Empty => Send(c, Init(None));
        case Broken(_) =>
        case _ => Send(c, Init(Some(currentValue)));
      }
    }

    method Join(c: Client)
      requires Valid() && !ended && !crashed && c !in chans
      modifies this
      ensures Valid()
      ensures View() == JoinStep(old(View()), c)
    {
      ghost var was := View();
      Admit(c);
      spoke := spoke - {c};
      JoinedIs(was, View(), c);
      StepKeepsValid(Event.Join(c));
    }

    static lemma JoinedIs(s: State, s1: State, c: Client)
      requires s1.members == Enter(s.members, c, s.content.currentValue)
      requires s1.content == s.content && s1.spoke == s.spoke - {c} && s1.ended == s.ended && s1.crashed == s.crashed
      ensures s1 == JoinStep(s, c)
    {
    }

    method Admit(c: Client)
      requires c !in chans
      modifies `clients, `chans
      ensures Membership() == Enter(old(Membership()), c, currentValue)
    {
      clients := clients + {c};
      chans := chans[c := OPEN_CHANNEL];
      SendInitialState(c);
      Send(c, PresenceList);
    }

    /** A send that does not wait: a client whose channel is full is dropped and closed. */
    method SendOrDrop(c: Client, w: Wire)
      requires c in clients && c in chans && chans[c].closes == 0 && !chans[c].misused
      modifies `clients, `chans
      ensures chans == old(chans)[c := FanOutChan(old(chans[c]), w)]
      ensures clients == if Full(old(chans[c])) then old(clients) - {c} else old(clients)
    {
      var ch := chans[c];
      if |ch.queue| < SEND_CAPACITY {
        chans := chans[c := ch.(queue := ch.queue + [w], put := ch.put + [w])];
      } else {
        clients := clients - {c};
        chans := chans[c := ch.(closes := 1)];
      }
    }

    /** The range over r.clients, in whatever order, dropping clients as it goes. */
    method FanOut(w: Wire, skip: Client)
      requires AllOpen(Membership())
      modifies `clients, `chans
      ensures Membership() == NoteRoom.FanOut(old(Membership()), w, skip)
    {
      ghost var was := Membership();
      var todo := clients;
      while todo != {}
        invariant todo <= clients <= was.clients
        invariant forall c :: c in clients <==> c in was.clients && (c in todo || c == skip || !Slow(was, c))
        invariant chans.Keys == was.chans.Keys
        invariant forall c :: c in chans ==>
          chans[c] == if c in was.clients && c !in todo && c != skip then FanOutChan(was.chans[c], w) else was.chans[c]
      {
        var c :| c in todo;
        todo := todo - {c};
        if c != skip {
          SendOrDrop(c, w);
        }
      }
      assert clients == NoteRoom.FanOut(was, w, skip).clients;
      assert chans == NoteRoom.FanOut(was, w, skip).chans;
    }

    /** Takes a member out, telling the others if it had identified. */
    method Remove(c: Client)
      requires AllOpen(Membership()) && c in clients
      modifies `clients, `chans
      ensures Membership() == Exit(old(Membership()), c)
    {
      if c in names && names[c] != "" {
        FanOut(Presence(c, false), c);
      }
      clients := clients - {c};
      chans := chans[c := chans[c].(closes := 1)];
    }

    /** A leave that leaves nobody ends the room with everything in the tables; any other touches no document. */
    method Leave(c: Client)
      requires Valid() && !ended && !crashed
      modifies this
      ensures Valid()
      ensures View() == LeaveStep(old(View()), c)
      ensures old(c in clients) && clients == {} ==>
        && ended && buffer == [] && !flushTimer
        && store.log == db.log + Entries(base, accepted)
        && (accepted != [] ==> store.snapshot == currentValue)
      ensures !(old(c in clients) && clients == {}) ==> Document() == old(Document()) && !ended
      ensures accepted == old(accepted) && base == old(base) && currentValue == old(currentValue)
    {
      TakeLeave(c);
      StepKeepsValid(Event.Leave(c));
      assert store.log + [] == store.log;
      assert accepted[..|accepted|] == accepted;
    }

    /** The leave case of the loop. */
    method TakeLeave(c: Client)
      requires AllOpen(Membership()) && !ended && !crashed
      modifies this
      ensures View() == LeaveStep(old(View()), c)
    {
      if c !in clients {
        return;
      }
      Remove(c);
      if clients == {} {
        Flush();
        ended := true;
      }
    }

    /** Folds a patch into the document and persists it now or later, unless the merge panics. */
    method TakePatch(user: UserId, p: Patch) returns (panicked: bool)
      modifies `currentValue, `buffer, `flushTimer, `store, `accepted
      ensures panicked == Panics(old(currentValue), p)
      ensures Document() == if panicked then old(Document()) else NoteRoom.TakePatch(old(Document()), user, p)
    {
      var structural := IsStructural(currentValue, p);
      var merged := MergeSnapshot(currentValue, p);
      panicked := merged.None?;
      if panicked {
        return;
      }
      currentValue := merged.value;
      buffer := buffer + [Entry(currentValue, user)];
      accepted := accepted + [Accepted(Merge(p), user)];
      if structural || |buffer| >= FLUSH_THRESHOLD {
        Flush();
      } else {
        flushTimer := true;
      }
    }

    method TakeUpdate(user: UserId, v: Raw)
      modifies `currentValue, `buffer, `flushTimer, `store, `accepted
      ensures Document() == NoteRoom.TakeUpdate(old(Document()), user, v)
    {
      if !v.Empty? {
        currentValue := v;
        buffer := buffer + [Entry(v, user)];
        accepted := accepted + [Accepted(Replace(v), user)];
        flushTimer := true;
        if |buffer| >= FLUSH_THRESHOLD {
          Flush();
        }
      }
    }

    /** Passes a frame on to the other members in the form its type asks for. */
    method Deliver(c: Client, f: Frame)
      requires AllOpen(Membership())
      modifies `clients, `chans, `names
      ensures Membership() == NoteRoom.Deliver(old(Membership()), c, f)
    {
      match f {
        case IdentifyFrame(name) =>
          names := names[c := name];
          FanOut(Presence(c, true), c);
        case CursorFrame => FanOut(Cursor(c), c);
        case Dropped =>
        case _ => FanOut(Relay(f), c);
      }
    }

    /** One frame from the broadcast channel: fold it, persist it, then pass it on. */
    method HandleFrame(c: Client, f: Frame)
      requires Valid() && !ended && !crashed
      modifies this
      ensures Valid()
      ensures View() == BroadcastStep(old(View()), c, f)
      ensures crashed <==> f.PatchFrame? && old(currentValue) == Null && f.patch.upserted != map[]
    {
      TakeFrame(c, f);
      StepKeepsValid(Broadcast(c, f));
    }

    /** The broadcast case of the loop. */
    method TakeFrame(c: Client, f: Frame)
      requires AllOpen(Membership()) && !ended && !crashed
      modifies this
      ensures View() == BroadcastStep(old(View()), c, f)
    {
      match f {
        case PatchFrame(p) =>
          var panicked := TakePatch(c.user, p);
          if panicked {
            crashed := true;
            return;
          }
        case UpdateFrame(v) =>
          TakeUpdate(c.user, v);
        case _ =>
      }
      spoke := if IsDocumentFrame(f) then spoke + {c} else spoke;
      Deliver(c, f);
    }

    /** A timer, or Shutdown, flushes a room that has not crashed: the tables then hold everything. */
    method FlushNow()
      requires Valid() && !crashed
      modifies `buffer, `flushTimer, `store
      ensures Valid()
      ensures View() == Step(old(View()), TimerFires)
      ensures store.log == db.log + Entries(base, accepted)
      ensures if accepted != [] then store.snapshot == currentValue else store == old(store)
      ensures buffer == [] && !flushTimer && accepted == old(accepted) && currentValue == old(currentValue)
    {
      Flush();
      StepKeepsValid(TimerFires);
      assert store.log + [] == store.log;
      assert accepted[..|accepted|] == accepted;
    }

    /** Writes the buffered entries and the current snapshot. */
    method Flush()
      modifies `buffer, `flushTimer, `store
      ensures Document() == NoteRoom.Flush(old(Document()))
    {
      if |buffer| == 0 {
        flushTimer := false;
        return;
      }
      var batch, snapshot := buffer, currentValue;
      buffer := [];
      flushTimer := false;
      store := store.(log := store.log + batch);
      if !snapshot.Empty? {
        store := store.(snapshot := snapshot);
      }
    }

    /** The write pump takes the oldest frame. */
    method Drain(c: Client) returns (w: Wire)
      requires Valid() && Enabled(View(), Event.Drain(c))
      modifies `chans
      ensures Valid()
      ensures View() == Step(old(View()), Event.Drain(c))
      ensures w == old(chans[c].queue[0])
    {
      w := chans[c].queue[0];
      chans := chans[c := chans[c].(queue := chans[c].queue[1..])];
      StepKeepsValid(Event.Drain(c));
    }
  }
}
