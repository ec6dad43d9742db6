// One room's entries in the module-level maps of web/src/lib/board-socket-manager.ts,
// and the functions and handlers that change them. Every function there reads and
// writes its own room's entries only, so an object holds one room's. Every method
// takes the step of the same name in Sockets.dfy, and so keeps what every run keeps.

module RoomConnectionObject {
  import opened Prelude
  import S = Sockets
  import P = SocketProofs

  class RoomConnection {
    // connectionTokens, pendingConnections, sockets and sendQueue, at this room.
    var token: nat
    var pending: Option<nat>
    var registered: Option<nat>
    var queue: seq<S.Msg>

    // The attempts and WebSocket objects the entries refer to, oldest first.
    var attempts: seq<S.Attempt>
    var webSockets: seq<S.Socket>

    ghost var wire: seq<(nat, S.Msg)>
    ghost var handed: seq<S.Handed>
    ghost var announced: seq<nat>

    ghost function View(): S.Room
      reads this
    {
      S.Room(token, pending, registered, queue, webSockets, attempts, wire, handed, announced)
    }

    ghost predicate Valid()
      reads this
    {
      P.Current(View()) && P.Accounted(View()) && P.PendingCurrent(View())
    }

    /** What is on sockets and what waits, in the order it was handed over. */
    ghost function Delivered(): seq<S.Msg>
      reads this
    {
      S.Messages(wire) + queue
    }

    twostate lemma StepKeepsValid(t: S.Task)
      requires old(Valid()) && View() == S.Step(old(View()), t)
      ensures Valid()
    {
      P.CurrentStep(old(View()), t);
      P.AccountedStep(old(View()), t);
      P.PendingCurrentStep(old(View()), t);
    }

    constructor ()
      ensures Valid() && View() == S.NEW_ROOM
    {
      token, pending, registered, queue := 0, None, None, [];
      attempts, webSockets := [], [];
      wire, handed, announced := [], [], [];
    }

    /** Whether the registered socket is in this state. */
    method RegisteredIs(state: S.ReadyState) returns (yes: bool)
      ensures yes == S.RegisteredIs(View(), state)
    {
      yes := registered.Some? && registered.value < |webSockets| && webSockets[registered.value].state == state;
    }

    method AbortPending()
      modifies `attempts
      ensures attempts == S.Abort(old(attempts), pending)
    {
      if pending.Some? && pending.value < |attempts| {
        var i := pending.value;
        attempts := attempts[i := attempts[i].(aborted := true)];
      }
    }

    /** With no open or connecting socket and every attempt settled, exactly one attempt starts fetching;
        otherwise nothing changes. */
    method ConnectRoom()
      requires Valid()
      modifies this
      ensures Valid() && View() == S.ConnectStep(old(View()))
      ensures (forall i :: 0 <= i < |old(attempts)| ==> old(attempts)[i].settled)
              && (old(registered).Some? ==> && old(webSockets)[old(registered).value].state != S.OPEN
                                            && old(webSockets)[old(registered).value].state != S.CONNECTING)
          ==> attempts == old(attempts) + [S.Attempt(old(token) + 1, true, false, false)] && token == old(token) + 1
      ensures || (old(registered).Some? && old(webSockets)[old(registered).value].state == S.OPEN)
              || (old(registered).Some? && old(webSockets)[old(registered).value].state == S.CONNECTING)
              || old(pending).Some?
          ==> View() == old(View())
      ensures pending.Some? ==> !attempts[pending.value].settled && attempts[pending.value].token == token
      ensures Delivered() == old(Delivered())
    {
      P.ConnectStartsIff(View());
      TakeConnect();
      StepKeepsValid(S.Connect);
    }

    /** The call itself, up to its first await. */
    method TakeConnect()
      modifies this
      ensures View() == S.ConnectStep(old(View()))
    {
      var open := RegisteredIs(S.OPEN);
      if open {
        return;
      }
      if pending.Some? && pending.value < |attempts| && attempts[pending.value].token == token {
        return;
      }
      AbortPending();
      pending := None;
      var connecting := RegisteredIs(S.CONNECTING);
      if connecting {
        return;
      }
      token := token + 1;
      pending := Some(|attempts|);
      attempts := attempts + [S.Attempt(token, true, false, false)];
    }

    /** The body of an attempt after its fetchTicket resolved. */
    method OnTicket(i: nat)
      requires Valid() && S.Enabled(View(), S.TicketArrives(i))
      modifies this
      ensures Valid() && View() == S.TicketStep(old(View()), i)
      ensures old(attempts)[i].aborted || old(attempts)[i].token != token ==>
        webSockets == old(webSockets) && registered == old(registered)
      ensures !old(attempts)[i].aborted && old(attempts)[i].token == token ==>
        && registered == Some(|old(webSockets)|)
        && webSockets == old(webSockets) + [S.Socket(S.CONNECTING, token, [])]
    {
      attempts := attempts[i := attempts[i].(fetching := false)];
      if !attempts[i].aborted && token == attempts[i].token {
        registered := Some(|webSockets|);
        webSockets := webSockets + [S.Socket(S.CONNECTING, attempts[i].token, [])];
      }
      StepKeepsValid(S.TicketArrives(i));
    }

    method OnTicketFailed(i: nat)
      requires Valid() && S.Enabled(View(), S.TicketFails(i))
      modifies `attempts
      ensures Valid() && View() == S.Step(old(View()), S.TicketFails(i))
    {
      attempts := attempts[i := attempts[i].(fetching := false)];
      StepKeepsValid(S.TicketFails(i));
    }

    /** The finally clause of connectRoom. */
    method OnSettled(i: nat)
      requires Valid() && S.Enabled(View(), S.Settled(i))
      modifies `pending, `attempts
      ensures Valid() && View() == S.SettledStep(old(View()), i)
      ensures pending != Some(i) && (old(pending) != Some(i) ==> pending == old(pending))
      ensures attempts == old(attempts)[i := old(attempts)[i].(settled := true)]
    {
      attempts := attempts[i := attempts[i].(settled := true)];
      if pending == Some(i) {
        pending := None;
      }
      StepKeepsValid(S.Settled(i));
    }

    /** ws.send on an open socket. */
    method Put(i: nat, m: S.Msg)
      requires i < |webSockets| && webSockets[i].state == S.OPEN
      modifies `webSockets, `wire
      ensures View() == S.PutAll(old(View()), i, [m])
    {
      webSockets := webSockets[i := webSockets[i].(sent := webSockets[i].sent + [m])];
      wire := wire + [(i, m)];
      assert S.Tagged(i, [m]) == [(i, m)];
    }

    method FlushQueue(i: nat)
      requires i < |webSockets| && webSockets[i].state == S.OPEN
      modifies `queue, `webSockets, `wire
      ensures View() == S.PutAll(old(View()), i, old(queue)).(queue := [])
    {
      var messages := queue;
      queue := [];
      ghost var emptied := View();
      PutNone(emptied, i);
      var k := 0;
      while k < |messages|
        invariant 0 <= k <= |messages|
        invariant View() == S.PutAll(emptied, i, messages[..k])
      {
        PutAllSnoc(emptied, i, messages[..k], messages[k]);
        Put(i, messages[k]);
        assert messages[..k + 1] == messages[..k] + [messages[k]];
        k := k + 1;
      }
      assert messages[..k] == messages;
    }

    static lemma PutNone(r: S.Room, i: nat)
      requires i < |r.sockets|
      ensures S.PutAll(r, i, []) == r
    {
      assert r.sockets[i].sent + [] == r.sockets[i].sent;
      assert r.sockets[i := r.sockets[i]] == r.sockets;
      assert r.wire + S.Tagged(i, []) == r.wire;
    }

    static lemma PutAllSnoc(r: S.Room, i: nat, msgs: seq<S.Msg>, m: S.Msg)
      requires i < |r.sockets|
      ensures S.PutAll(S.PutAll(r, i, msgs), i, [m]) == S.PutAll(r, i, msgs + [m])
    {
      assert S.Tagged(i, msgs + [m]) == S.Tagged(i, msgs) + S.Tagged(i, [m]);
      assert r.wire + S.Tagged(i, msgs + [m]) == (r.wire + S.Tagged(i, msgs)) + S.Tagged(i, [m]);
      assert r.sockets[i].sent + (msgs + [m]) == (r.sockets[i].sent + msgs) + [m];
    }

    /** The current socket gets everything that waited; a stale one gets nothing and closes. */
    method OnOpen(i: nat)
      requires Valid() && S.Enabled(View(), S.SocketOpens(i))
      modifies this
      ensures Valid() && View() == S.OpenStep(old(View()), i)
      ensures old(webSockets)[i].token == token ==>
        && queue == [] && registered == Some(i) && announced == old(announced) + [i]
        && webSockets[i] == S.Socket(S.OPEN, token, old(webSockets)[i].sent + old(queue))
      ensures old(webSockets)[i].token != token ==>
        && wire == old(wire) && queue == old(queue) && announced == old(announced)
        && webSockets[i] == old(webSockets)[i].(state := S.CLOSING)
      ensures Delivered() == old(Delivered())
    {
      TakeOpen(i);
      StepKeepsValid(S.SocketOpens(i));
      P.MessagesTagged(old(wire), i, old(queue));
    }

    /** The open handler itself. */
    method TakeOpen(i: nat)
      requires S.Enabled(View(), S.SocketOpens(i))
      modifies this
      ensures View() == S.OpenStep(old(View()), i)
    {
      webSockets := webSockets[i := webSockets[i].(state := S.OPEN)];
      if token != webSockets[i].token {
        webSockets := webSockets[i := webSockets[i].(state := S.CLOSING)];
        return;
      }
      FlushQueue(i);
      handed := S.WithFate(handed, S.Queued, S.Sent);
      announced := announced + [i];
    }

    /** What waits keeps waiting, and a stale socket's close leaves the registered one alone. */
    method OnClose(i: nat)
      requires Valid() && S.Enabled(View(), S.SocketCloses(i))
      modifies this
      ensures Valid() && View() == S.CloseStep(old(View()), i)
      ensures Delivered() == old(Delivered())
      ensures webSockets == old(webSockets)[i := old(webSockets)[i].(state := S.CLOSED)] && queue == old(queue)
      ensures registered == if old(registered) == Some(i) && webSockets[i].token == token then None else old(registered)
    {
      webSockets := webSockets[i := webSockets[i].(state := S.CLOSED)];
      if token == webSockets[i].token {
        registered := None;
      }
      StepKeepsValid(S.SocketCloses(i));
    }

    /** Afterwards no socket and no attempt there is carries the token, so none of them can register, send or
        announce. */
    method DisconnectRoom()
      requires Valid()
      modifies this
      ensures Valid() && View() == S.DisconnectStep(old(View()))
      ensures registered == None && pending == None
      ensures forall i :: 0 <= i < |webSockets| ==> webSockets[i].token != token
      ensures forall i :: 0 <= i < |attempts| ==> attempts[i].token != token
      ensures old(pending).Some? ==> attempts[old(pending).value].aborted
      ensures if old(registered).Some?
              then var i := old(registered).value;
                   && queue == []
                   && (webSockets[i].state == S.CLOSING || webSockets[i].state == S.CLOSED)
                   && webSockets == old(webSockets)[i := old(webSockets)[i].(state := webSockets[i].state)]
              else queue == old(queue) && webSockets == old(webSockets)
    {
      TakeDisconnect();
      StepKeepsValid(S.Disconnect);
    }

    /** The call itself. */
    method TakeDisconnect()
      modifies this
      ensures View() == S.DisconnectStep(old(View()))
    {
      token := token + 1;
      AbortPending();
      pending := None;
      if registered.None? || registered.value >= |webSockets| {
        return;
      }
      var i := registered.value;
      if webSockets[i].state != S.CLOSED {
        webSockets := webSockets[i := webSockets[i].(state := S.CLOSING)];
      }
      registered := None;
      queue := [];
      handed := S.WithFate(handed, S.Queued, S.Discarded);
    }

    /** The message comes after everything handed over before it, on the socket or in the queue. */
    method SendRoomMessage(m: S.Msg)
      requires Valid()
      modifies this
      ensures Valid() && View() == S.SendStep(old(View()), m)
      ensures Delivered() == old(Delivered()) + [m]
      ensures if old(registered).Some? && old(webSockets)[old(registered).value].state == S.OPEN
              then webSockets[registered.value].sent == old(webSockets)[registered.value].sent + [m] && queue == []
              else queue == old(queue) + [m] && webSockets == old(webSockets)
    {
      TakeSend(m);
      StepKeepsValid(S.Send(m));
      if S.RegisteredIs(old(View()), S.OPEN) {
        P.MessagesTagged(old(wire), old(registered).value, [m]);
      }
    }

    /** The call itself. */
    method TakeSend(m: S.Msg)
      modifies this
      ensures View() == S.SendStep(old(View()), m)
    {
      var open := RegisteredIs(S.OPEN);
      if open {
        Put(registered.value, m);
        handed := handed + [S.Handed(m, S.Sent)];
        return;
      }
      queue := queue + [m];
      handed := handed + [S.Handed(m, S.Queued)];
    }
  }
}
