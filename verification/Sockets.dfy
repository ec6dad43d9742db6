// One room of the browser socket manager, web/src/lib/board-socket-manager.ts:
// each step is what one event-loop task does between two awaits, with listeners
// that do not call back. RoomConnection.dfy holds the entries themselves.

module Sockets {
  import opened Prelude

  type Msg = string

  datatype ReadyState = CONNECTING | OPEN | CLOSING | CLOSED

  // A WebSocket and the token its handlers closed over.
  datatype Socket = Socket(state: ReadyState, token: nat, sent: seq<Msg>)

  // One run of connectRoom's async body: still fetching its ticket, or past it, and
  // settled once its finally clause ran.
  datatype Attempt = Attempt(token: nat, fetching: bool, aborted: bool, settled: bool)

  // What became of a message handed to sendRoomMessage.
  datatype Fate = Sent | Queued | Discarded
  datatype Handed = Handed(msg: Msg, fate: Fate)

  // A room's entries in the module's maps, every socket and attempt it ever had,
  // and what was observed: the messages put on sockets, in order, each with the
  // socket it went to; what was handed over, in order; the sockets that announced
  // "open".
  datatype Room = Room(
    token: nat,
    pending: Option<nat>,
    registered: Option<nat>,
    queue: seq<Msg>,
    sockets: seq<Socket>,
    attempts: seq<Attempt>,
    wire: seq<(nat, Msg)>,
    handed: seq<Handed>,
    announced: seq<nat>)

  datatype Task =
    | Connect
    | TicketArrives(attempt: nat)
    | TicketFails(attempt: nat)
    | Settled(attempt: nat)
    | SocketOpens(socket: nat)
    | SocketCloses(socket: nat)
    | PeerCloses(socket: nat)
    | Disconnect
    | Send(msg: Msg)

  const NEW_ROOM := Room(0, None, None, [], [], [], [], [], [])

  /** The attempt the pending entry is about, when the entry matches the current token. */
  predicate PendingIsCurrent(r: Room) {
    r.pending.Some? && r.pending.value < |r.attempts| && r.attempts[r.pending.value].token == r.token
  }

  predicate RegisteredIs(r: Room, state: ReadyState) {
    r.registered.Some? && r.registered.value < |r.sockets| && r.sockets[r.registered.value].state == state
  }

  function Abort(attempts: seq<Attempt>, which: Option<nat>): seq<Attempt> {
    if which.Some? && which.value < |attempts| then
      attempts[which.value := attempts[which.value].(aborted := true)]
    else attempts
  }

  /** connectRoom up to its first await. */
  function ConnectStep(r: Room): Room {
    if RegisteredIs(r, OPEN) || PendingIsCurrent(r) then r else
    var r1 := r.(pending := None, attempts := Abort(r.attempts, r.pending));
    if RegisteredIs(r, CONNECTING) then r1 else
    r1.(token := r.token + 1,
        attempts := r1.attempts + [Attempt(r.token + 1, true, false, false)],
        pending := Some(|r1.attempts|))
  }

  /** The body once it has a ticket: superseded, or a new socket takes the room's entry. */
  function TicketStep(r: Room, i: nat): Room
    requires i < |r.attempts|
  {
    var a := r.attempts[i];
    var r1 := r.(attempts := r.attempts[i := a.(fetching := false)]);
    if a.aborted || a.token != r.token then r1
    else r1.(sockets := r.sockets + [Socket(CONNECTING, a.token, [])], registered := Some(|r.sockets|))
  }

  /** The finally clause: the pending entry goes if it is still this attempt's. */
  function SettledStep(r: Room, i: nat): Room
    requires i < |r.attempts|
  {
    r.(attempts := r.attempts[i := r.attempts[i].(settled := true)],
       pending := if r.pending == Some(i) then None else r.pending)
  }

  function SetState(sockets: seq<Socket>, i: nat, state: ReadyState): seq<Socket>
    requires i < |sockets|
  {
    sockets[i := sockets[i].(state := state)]
  }

  function Tagged(i: nat, msgs: seq<Msg>): seq<(nat, Msg)> {
    seq(|msgs|, k requires 0 <= k < |msgs| => (i, msgs[k]))
  }

  function WithFate(handed: seq<Handed>, from: Fate, to: Fate): seq<Handed> {
    seq(|handed|, k requires 0 <= k < |handed| =>
      if handed[k].fate == from then handed[k].(fate := to) else handed[k])
  }

  /** ws.send for each message, in order. */
  function PutAll(r: Room, i: nat, msgs: seq<Msg>): Room
    requires i < |r.sockets|
  {
    r.(sockets := r.sockets[i := r.sockets[i].(sent := r.sockets[i].sent + msgs)],
       wire := r.wire + Tagged(i, msgs))
  }

  /** The open handler: a stale socket closes itself, the current one flushes the queue and announces. */
  function OpenStep(r: Room, i: nat): Room
    requires i < |r.sockets|
  {
    if r.sockets[i].token != r.token then r.(sockets := SetState(r.sockets, i, CLOSING)) else
    var r1 := r.(sockets := SetState(r.sockets, i, OPEN));
    PutAll(r1, i, r.queue).(queue := [],
                            handed := WithFate(r.handed, Queued, Sent),
                            announced := r.announced + [i])
  }

  /** The close handler: a stale socket is ignored, the current one gives up the room's entry. */
  function CloseStep(r: Room, i: nat): Room
    requires i < |r.sockets|
  {
    var r1 := r.(sockets := SetState(r.sockets, i, CLOSED));
    if r.sockets[i].token != r.token then r1 else r1.(registered := None)
  }

  /** disconnectRoom: without a registered socket the queue is kept. */
  function DisconnectStep(r: Room): Room {
    var r1 := r.(token := r.token + 1, attempts := Abort(r.attempts, r.pending), pending := None);
    if !(r.registered.Some? && r.registered.value < |r.sockets|) then r1 else
    var i := r.registered.value;
    r1.(sockets := if r.sockets[i].state == CLOSED then r.sockets else SetState(r.sockets, i, CLOSING),
        registered := None,
        queue := [],
        handed := WithFate(r.handed, Queued, Discarded))
  }

  function SendStep(r: Room, m: Msg): Room {
    if RegisteredIs(r, OPEN) then
      PutAll(r, r.registered.value, [m]).(handed := r.handed + [Handed(m, Sent)])
    else
      r.(queue := r.queue + [m], handed := r.handed + [Handed(m, Queued)])
  }

  predicate Enabled(r: Room, t: Task) {
    match t
    case TicketArrives(i) => i < |r.attempts| && r.attempts[i].fetching
    case TicketFails(i) => i < |r.attempts| && r.attempts[i].fetching
    case Settled(i) => i < |r.attempts| && !r.attempts[i].fetching && !r.attempts[i].settled
    case SocketOpens(i) => i < |r.sockets| && r.sockets[i].state == CONNECTING
    case SocketCloses(i) => i < |r.sockets| && r.sockets[i].state != CLOSED
    case PeerCloses(i) => i < |r.sockets| && r.sockets[i].state == OPEN
    case _ => true
  }

  function Step(r: Room, t: Task): Room {
    if !Enabled(r, t) then r else
    match t
    case Connect => ConnectStep(r)
    case TicketArrives(i) => TicketStep(r, i)
    case TicketFails(i) => r.(attempts := r.attempts[i := r.attempts[i].(fetching := false)])
    case Settled(i) => SettledStep(r, i)
    case SocketOpens(i) => OpenStep(r, i)
    case SocketCloses(i) => CloseStep(r, i)
    case PeerCloses(i) => r.(sockets := SetState(r.sockets, i, CLOSING))
    case Disconnect => DisconnectStep(r)
    case Send(m) => SendStep(r, m)
  }

  function Run(r: Room, ts: seq<Task>): Room {
    if ts == [] then r else Step(Run(r, ts[..|ts| - 1]), ts[|ts| - 1])
  }

  // ---------- readings ----------

  /** The messages with one fate, in the order they were handed over. */
  function Having(handed: seq<Handed>, fate: Fate): seq<Msg> {
    if handed == [] then [] else
    var before := Having(handed[..|handed| - 1], fate);
    var last := handed[|handed| - 1];
    if last.fate == fate then before + [last.msg] else before
  }

  function Messages(wire: seq<(nat, Msg)>): seq<Msg> {
    seq(|wire|, k requires 0 <= k < |wire| => wire[k].1)
  }
}
