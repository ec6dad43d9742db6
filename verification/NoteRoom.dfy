// The note room of services/notes/internal/realtime/hub.go, one loop event at a
// time, with every flush succeeding as one step. The state is a value here;
// Room.dfy holds the class whose methods take these steps.

module NoteRoom {
  import opened Prelude
  import opened Blocks
  import opened Updates

  // A *client pointer: the connection, and the user fixed when it was created.
  datatype Client = Client(id: nat, user: UserId)

  // What a client can put on the broadcast channel. An unreadable frame, or an
  // identify or cursor frame that does not decode, is Dropped; a frame the loop
  // forwards without understanding it is Other, and says what browsers make of it.
  datatype Frame =
    | PatchFrame(patch: Patch)
    | UpdateFrame(value: Raw)
    | IdentifyFrame(name: string)
    | CursorFrame
    | OtherFrame(reading: Reading)
    | Dropped

  // A browser ignores a forwarded frame, or takes it for an init or a patch.
  datatype Reading = Ignored | AsInit(doc: Doc) | AsPatch(patch: Patch)

  // What the room puts on a client's send channel.
  datatype Wire =
    | Init(value: Option<Raw>)
    | PresenceList
    | Presence(of: Client, joined: bool)
    | Cursor(of: Client)
    | Relay(frame: Frame)

  // A send channel: what is queued, everything ever put on it, how often it was
  // closed, and whether it was ever written or closed after being closed.
  datatype Chan = Chan(queue: seq<Wire>, put: seq<Wire>, closes: nat, misused: bool)

  // r.clients, with the channel of every client that ever joined and the names
  // they identified with. `blocked` records a blocking send to a full channel.
  datatype Members = Members(
    clients: set<Client>,
    chans: map<Client, Chan>,
    names: map<Client, string>,
    blocked: bool)

  // The document side of the room and the tables behind it, with the value the
  // room started from and every change it accepted since.
  datatype Content = Content(
    currentValue: Raw,
    buffer: seq<Entry>,
    flushTimer: bool,
    store: Store,
    base: Raw,
    accepted: seq<Accepted>)

  // `spoke` holds the clients that sent a document frame since they joined. When
  // the room crashed its process is gone, and with it the buffer.
  datatype State = State(members: Members, content: Content, spoke: set<Client>, ended: bool, crashed: bool)

  datatype Event =
    | Join(client: Client)
    | Leave(client: Client)
    | Broadcast(client: Client, frame: Frame)
    | TimerFires
    | Drain(client: Client)

  const SEND_CAPACITY: nat := 64

  // ---------- channels ----------

  const OPEN_CHANNEL := Chan([], [], 0, false)

  function Put(ch: Chan, w: Wire): Chan {
    if ch.closes > 0 then ch.(misused := true)
    else ch.(queue := ch.queue + [w], put := ch.put + [w])
  }

  function Close(ch: Chan): Chan {
    ch.(closes := ch.closes + 1, misused := ch.misused || ch.closes > 0)
  }

  predicate Full(ch: Chan) {
    |ch.queue| >= SEND_CAPACITY
  }

  /** Whether a non-blocking send to `c` fails, so that the fan-out drops it. */
  predicate Slow(m: Members, c: Client) {
    c in m.chans && Full(m.chans[c])
  }

  /** A blocking send to `c`: it blocks the loop when the channel is full. */
  function PutBlocking(m: Members, c: Client, w: Wire): Members
    requires c in m.chans
  {
    m.(chans := m.chans[c := Put(m.chans[c], w)], blocked := m.blocked || Full(m.chans[c]))
  }

  function FanOutChan(ch: Chan, w: Wire): Chan {
    if Full(ch) then Close(ch) else Put(ch, w)
  }

  /** A non-blocking send to every client but `skip`; a client that is full is dropped and closed. */
  function FanOut(m: Members, w: Wire, skip: Client): Members {
    Members(
      set c | c in m.clients && (c == skip || !Slow(m, c)),
      map c | c in m.chans :: if c in m.clients && c != skip then FanOutChan(m.chans[c], w) else m.chans[c],
      m.names,
      m.blocked)
  }

  // ---------- membership steps ----------

  function Name(m: Members, c: Client): string {
    if c in m.names then m.names[c] else ""
  }

  function SendInitialState(m: Members, c: Client, currentValue: Raw): Members
    requires c in m.chans
  {
    match currentValue
    case Empty => PutBlocking(m, c, Init(None))
    case Broken(_) => m
    case _ => PutBlocking(m, c, Init(Some(currentValue)))
  }

  function Enter(m: Members, c: Client, currentValue: Raw): Members {
    var m1 := m.(clients := m.clients + {c}, chans := m.chans[c := OPEN_CHANNEL]);
    PutBlocking(SendInitialState(m1, c, currentValue), c, PresenceList)
  }

  /** Tells the others when the client had identified, then takes it out and closes its channel. */
  function Exit(m: Members, c: Client): Members
    requires c in m.chans
  {
    var m1 := if Name(m, c) != "" then FanOut(m, Presence(c, false), c) else m;
    m1.(clients := m1.clients - {c}, chans := m1.chans[c := Close(m1.chans[c])])
  }

  /** What a frame does to the members once the document part is done. */
  function Deliver(m: Members, c: Client, f: Frame): Members {
    match f
    case IdentifyFrame(name) => FanOut(m.(names := m.names[c := name]), Presence(c, true), c)
    case CursorFrame => FanOut(m, Cursor(c), c)
    case Dropped => m
    case _ => FanOut(m, Relay(f), c)
  }

  /** writePump takes the oldest queued frame. */
  function Take(m: Members, c: Client): Members
    requires c in m.chans && m.chans[c].queue != []
  {
    m.(chans := m.chans[c := m.chans[c].(queue := m.chans[c].queue[1..])])
  }

  // ---------- document steps ----------

  function Flush(d: Content): Content {
    if d.buffer == [] then d.(flushTimer := false)
    else d.(store := Store(d.store.log + d.buffer,
                           if d.currentValue.Empty? then d.store.snapshot else d.currentValue),
            buffer := [],
            flushTimer := false)
  }

  /** Takes one change into the document and the buffer. */
  function Accept(d: Content, user: UserId, change: Change): Content {
    var v := ApplyChange(d.currentValue, change);
    d.(currentValue := v,
       buffer := d.buffer + [Entry(v, user)],
       accepted := d.accepted + [Accepted(change, user)])
  }

  /** Structural patches and full buffers flush at once, everything else arms the timer. */
  function TakePatch(d: Content, user: UserId, p: Patch): Content {
    var d1 := Accept(d, user, Merge(p));
    if Structural(Decode(d.currentValue), p) || |d1.buffer| >= FLUSH_THRESHOLD then Flush(d1)
    else d1.(flushTimer := true)
  }

  /** A legacy frame replaces the document and never counts as structural. */
  function TakeUpdate(d: Content, user: UserId, v: Raw): Content {
    if v.Empty? then d else
    var d1 := Accept(d, user, Replace(v)).(flushTimer := true);
    if |d1.buffer| >= FLUSH_THRESHOLD then Flush(d1) else d1
  }

  function TakeFrame(d: Content, user: UserId, f: Frame): Content {
    match f
    case PatchFrame(p) => TakePatch(d, user, p)
    case UpdateFrame(v) => TakeUpdate(d, user, v)
    case _ => d
  }

  predicate IsDocumentFrame(f: Frame) {
    f.PatchFrame? || (f.UpdateFrame? && !f.value.Empty?)
  }

  // ---------- loop events ----------

  function JoinStep(s: State, c: Client): State {
    s.(members := Enter(s.members, c, s.content.currentValue), spoke := s.spoke - {c})
  }

  /** A client that is not, or no longer, in the room is ignored; the last one out flushes and ends the loop. */
  function LeaveStep(s: State, c: Client): State {
    if c !in s.members.clients || c !in s.members.chans then s else
    var m := Exit(s.members, c);
    if m.clients == {} then State(m, Flush(s.content), s.spoke, true, s.crashed)
    else s.(members := m)
  }

  /** A patch frame whose merge panics. */
  predicate Crashes(d: Content, f: Frame) {
    f.PatchFrame? && Panics(d.currentValue, f.patch)
  }

  function BroadcastStep(s: State, c: Client, f: Frame): State {
    if Crashes(s.content, f) then s.(crashed := true) else
    State(Deliver(s.members, c, f),
          TakeFrame(s.content, c.user, f),
          if IsDocumentFrame(f) then s.spoke + {c} else s.spoke,
          s.ended,
          s.crashed)
  }

  /** The loop handles no event after it ended, and nothing happens after a crash; a client pointer joins once. */
  predicate Enabled(s: State, e: Event) {
    !s.crashed &&
    match e
    case Join(c) => !s.ended && c !in s.members.chans
    case Leave(_) => !s.ended
    case Broadcast(_, _) => !s.ended
    case TimerFires => true
    case Drain(c) => c in s.members.chans && s.members.chans[c].queue != []
  }

  function Step(s: State, e: Event): State {
    if !Enabled(s, e) then s else
    match e
    case Join(c) => JoinStep(s, c)
    case Leave(c) => LeaveStep(s, c)
    case Broadcast(c, f) => BroadcastStep(s, c, f)
    case TimerFires => s.(content := Flush(s.content))
    case Drain(c) => s.(members := Take(s.members, c))
  }

  function Run(s: State, es: seq<Event>): State {
    if es == [] then s else Step(Run(s, es[..|es| - 1]), es[|es| - 1])
  }

  /** A fresh room. Hydration reads the stored snapshot; when the read fails the room starts with no value. */
  function Hydrate(db: Store, loaded: bool): State {
    var base := if loaded then db.snapshot else Empty;
    State(Members({}, map[], map[], false), Content(base, [], false, db, base, []), {}, false, false)
  }

  // ---------- readings of a state ----------

  /** A browser's copy after one more frame: init resets it, a patch applies, the rest is ignored. */
  function Receive(before: Doc, w: Wire): Doc {
    match w
    case Init(v) => if v.Some? then Decode(v.value) else map[]
    case Relay(f) => Read(before, f)
    case _ => before
  }

  function Read(before: Doc, f: Frame): Doc {
    match f
    case PatchFrame(p) => Apply(before, p)
    case OtherFrame(AsInit(doc)) => doc
    case OtherFrame(AsPatch(p)) => Apply(before, p)
    case _ => before
  }

  /** A browser's copy after the frames put on its channel. */
  function Replica(frames: seq<Wire>): Doc {
    if frames == [] then map[] else Receive(Replica(frames[..|frames| - 1]), frames[|frames| - 1])
  }
}
