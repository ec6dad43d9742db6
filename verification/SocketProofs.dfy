// What every run of the socket manager keeps for a room.

module SocketProofs {
  import opened Prelude
  import opened Sockets

  // ---------- which socket is the room's ----------

  /** Tokens are never reused: an attempt still fetching has no socket, and no two sockets or attempts share one. */
  ghost predicate TokensUnique(r: Room) {
    && (forall i :: 0 <= i < |r.attempts| ==> r.attempts[i].token <= r.token)
    && (forall i :: 0 <= i < |r.sockets| ==> r.sockets[i].token <= r.token)
    && (forall i, j :: 0 <= i < j < |r.attempts| ==> r.attempts[i].token != r.attempts[j].token)
    && (forall i, j :: 0 <= i < j < |r.sockets| ==> r.sockets[i].token != r.sockets[j].token)
    && (forall i, k :: 0 <= i < |r.sockets| && 0 <= k < |r.attempts| && r.attempts[k].fetching
          ==> r.sockets[i].token != r.attempts[k].token)
  }

  /** A socket that is live under the current token is the registered one, and a registered socket that is
      connecting or open carries the current token. */
  ghost predicate OneCurrent(r: Room) {
    && (r.registered.Some? ==> r.registered.value < |r.sockets|)
    && (forall i :: 0 <= i < |r.sockets| && r.sockets[i].token == r.token && r.sockets[i].state != CLOSED
          ==> r.registered == Some(i))
    && (RegisteredIs(r, OPEN) || RegisteredIs(r, CONNECTING) ==> r.sockets[r.registered.value].token == r.token)
  }

  ghost predicate Current(r: Room) {
    TokensUnique(r) && OneCurrent(r)
  }

  lemma ConnectKeeps(r: Room)
    requires Current(r)
    ensures Current(ConnectStep(r))
  {
  }

  lemma TicketKeeps(r: Room, i: nat)
    requires Current(r) && Enabled(r, TicketArrives(i))
    ensures Current(TicketStep(r, i))
  {
  }

  lemma OpenKeeps(r: Room, i: nat)
    requires Current(r) && Enabled(r, SocketOpens(i))
    ensures Current(OpenStep(r, i))
  {
    SameTokens(r, OpenStep(r, i));
  }

  lemma CloseKeeps(r: Room, i: nat)
    requires Current(r) && Enabled(r, SocketCloses(i))
    ensures Current(CloseStep(r, i))
  {
    SameTokens(r, CloseStep(r, i));
  }

  lemma DisconnectKeeps(r: Room)
    requires Current(r)
    ensures Current(DisconnectStep(r))
  {
    var r1 := DisconnectStep(r);
    assert forall i :: 0 <= i < |r.sockets| ==> r1.sockets[i].token == r.sockets[i].token;
    assert forall i :: 0 <= i < |r.attempts| ==> r1.attempts[i] == r.attempts[i].(aborted := r1.attempts[i].aborted);
  }

  lemma SendKeeps(r: Room, m: Msg)
    requires Current(r)
    ensures Current(SendStep(r, m))
  {
    SameTokens(r, SendStep(r, m));
  }

  /** Steps that give no socket or attempt a new token keep the tokens unique. */
  lemma SameTokens(r: Room, r1: Room)
    requires TokensUnique(r)
    requires r1.token == r.token && r1.attempts == r.attempts && |r1.sockets| == |r.sockets|
    requires forall i :: 0 <= i < |r.sockets| ==> r1.sockets[i].token == r.sockets[i].token
    ensures TokensUnique(r1)
  {
  }

  lemma AttemptKeeps(r: Room, r1: Room, i: nat)
    requires Current(r) && i < |r.attempts| && i < |r1.attempts|
    requires r1.attempts == r.attempts[i := r1.attempts[i]] && r1.attempts[i].token == r.attempts[i].token
    requires r1.attempts[i].fetching ==> r.attempts[i].fetching
    requires r1.sockets == r.sockets && r1.registered == r.registered && r1.token == r.token
    ensures Current(r1)
  {
  }

  lemma CurrentStep(r: Room, t: Task)
    requires Current(r)
    ensures Current(Step(r, t))
  {
    if Enabled(r, t) {
      match t
      case Connect => ConnectKeeps(r);
      case TicketArrives(i) => TicketKeeps(r, i);
      case TicketFails(i) => AttemptKeeps(r, Step(r, t), i);
      case Settled(i) => AttemptKeeps(r, Step(r, t), i);
      case SocketOpens(i) => OpenKeeps(r, i);
      case SocketCloses(i) => CloseKeeps(r, i);
      case PeerCloses(i) => SameTokens(r, Step(r, t));
      case Disconnect => DisconnectKeeps(r);
      case Send(m) => SendKeeps(r, m);
    }
  }

  /** A pending entry is the newest attempt's, under the current token, neither aborted nor settled, so
      connectRoom never meets the stale entry it would evict nor waits for one that is over; and an attempt
      under the current token that has not settled is the pending one. */
  ghost predicate PendingCurrent(r: Room) {
    && (r.pending.Some? ==>
          && r.pending.value == |r.attempts| - 1
          && r.attempts[r.pending.value].token == r.token
          && !r.attempts[r.pending.value].aborted && !r.attempts[r.pending.value].settled)
    && (forall i :: 0 <= i < |r.attempts| ==>
          && r.attempts[i].token <= r.token
          && (r.attempts[i].token == r.token && !r.attempts[i].settled ==> r.pending == Some(i))
          && (r.attempts[i].fetching ==> !r.attempts[i].settled))
  }

  lemma PendingCurrentStep(r: Room, t: Task)
    requires PendingCurrent(r)
    ensures PendingCurrent(Step(r, t))
  {
  }

  lemma {:induction false} PendingIsNeverStale(ts: seq<Task>)
    ensures PendingCurrent(Run(NEW_ROOM, ts))
    decreases |ts|
  {
    if ts != [] {
      PendingIsNeverStale(ts[..|ts| - 1]);
      PendingCurrentStep(Run(NEW_ROOM, ts[..|ts| - 1]), ts[|ts| - 1]);
    }
  }

  /** With no open or connecting socket registered and every attempt settled, connecting starts exactly one
      attempt, under a token of its own; otherwise it starts none, and one of the three is there. */
  lemma ConnectStartsIff(r: Room)
    requires Current(r) && PendingCurrent(r)
    ensures var r1 := ConnectStep(r);
            var busy := || (r.registered.Some? && r.sockets[r.registered.value].state == OPEN)
                        || (r.registered.Some? && r.sockets[r.registered.value].state == CONNECTING)
                        || r.pending.Some?;
            && (busy ==> r1 == r)
            && (!busy ==>
                  && r1.attempts == r.attempts + [Attempt(r.token + 1, true, false, false)]
                  && r1.token == r.token + 1 && r1.pending == Some(|r.attempts|)
                  && r1.sockets == r.sockets && r1.queue == r.queue && r1.registered == r.registered)
            && ((forall i :: 0 <= i < |r.attempts| ==> r.attempts[i].settled) ==> r.pending == None)
  {
  }

  /** The run of a connection that is lost and made again. */
  lemma Reconnects()
    ensures var r := Run(NEW_ROOM, [Connect, TicketArrives(0), Settled(0), SocketOpens(0), SocketCloses(0), Connect]);
            && |r.attempts| == 2 && r.attempts[1] == Attempt(2, true, false, false)
            && r.pending == Some(1) && r.registered == None
  {
    var first, rest := [Connect, TicketArrives(0), Settled(0)], [SocketOpens(0), SocketCloses(0), Connect];
    FirstConnection();
    var r := Run(NEW_ROOM, first);
    RunThree(r, SocketOpens(0), SocketCloses(0), Connect);
    RunConcat(NEW_ROOM, first, rest);
    assert first + rest == [Connect, TicketArrives(0), Settled(0), SocketOpens(0), SocketCloses(0), Connect];
  }

  lemma FirstConnection()
    ensures var r := Run(NEW_ROOM, [Connect, TicketArrives(0), Settled(0)]);
            && r.attempts == [Attempt(1, false, false, true)] && r.sockets == [Socket(CONNECTING, 1, [])]
            && r.pending == None && r.registered == Some(0) && r.token == 1 && r.queue == []
  {
    RunThree(NEW_ROOM, Connect, TicketArrives(0), Settled(0));
  }

  lemma RunSnoc(r: Room, ts: seq<Task>, t: Task)
    ensures Run(r, ts + [t]) == Step(Run(r, ts), t)
  {
    assert (ts + [t])[..|ts + [t]| - 1] == ts;
  }

  lemma RunThree(r: Room, a: Task, b: Task, c: Task)
    ensures Run(r, [a, b, c]) == Step(Step(Step(r, a), b), c)
  {
    RunSnoc(r, [], a);
    RunSnoc(r, [a], b);
    RunSnoc(r, [a, b], c);
    assert [] + [a] == [a] && [a] + [b] == [a, b] && [a, b] + [c] == [a, b, c];
  }

  lemma {:induction false} RunConcat(r: Room, xs: seq<Task>, ys: seq<Task>)
    ensures Run(r, xs + ys) == Run(Run(r, xs), ys)
    decreases |ys|
  {
    if ys == [] {
      assert xs + ys == xs;
    } else {
      RunConcat(r, xs, ys[..|ys| - 1]);
      assert (xs + ys)[..|xs + ys| - 1] == xs + ys[..|ys| - 1];
    }
  }

  // ---------- where the messages are ----------

  ghost predicate QueuedLast(handed: seq<Handed>) {
    forall i, j :: 0 <= i < j < |handed| && handed[i].fate == Queued ==> handed[j].fate == Queued
  }

  /** The messages `wire` says went to socket `i`. */
  function On(wire: seq<(nat, Msg)>, i: nat): seq<Msg> {
    if wire == [] then [] else
    var before := On(wire[..|wire| - 1], i);
    var last := wire[|wire| - 1];
    if last.0 == i then before + [last.1] else before
  }

  ghost predicate Accounted(r: Room) {
    && r.queue == Having(r.handed, Queued)
    && Messages(r.wire) == Having(r.handed, Sent)
    && QueuedLast(r.handed)
    && (RegisteredIs(r, OPEN) ==> r.queue == [])
    && (forall i :: 0 <= i < |r.sockets| ==> r.sockets[i].sent == On(r.wire, i))
    && (forall k :: 0 <= k < |r.wire| ==> r.wire[k].0 < |r.sockets|)
  }

  lemma HavingSnoc(handed: seq<Handed>, h: Handed, fate: Fate)
    ensures Having(handed + [h], fate) == Having(handed, fate) + (if h.fate == fate then [h.msg] else [])
  {
    assert (handed + [h])[..|handed + [h]| - 1] == handed;
  }

  lemma {:induction false} HavingNone(handed: seq<Handed>, fate: Fate)
    requires forall i :: 0 <= i < |handed| ==> handed[i].fate != fate
    ensures Having(handed, fate) == []
  {
    if handed != [] {
      HavingNone(handed[..|handed| - 1], fate);
    }
  }

  /** Turning the queued tail into another fate appends it to what had that fate, if nothing came after it. */
  lemma {:induction false} Requeue(handed: seq<Handed>, to: Fate, fate: Fate)
    requires QueuedLast(handed) && to != Queued
    ensures Having(WithFate(handed, Queued, to), fate) ==
      if fate == Queued then []
      else if fate == to then Having(handed, fate) + Having(handed, Queued)
      else Having(handed, fate)
  {
    if handed != [] {
      var before, last := handed[..|handed| - 1], handed[|handed| - 1];
      Requeue(before, to, fate);
      assert WithFate(handed, Queued, to)[..|handed| - 1] == WithFate(before, Queued, to);
      if last.fate != Queued {
        HavingNone(before, Queued);
      }
    }
  }

  lemma OnSnoc(wire: seq<(nat, Msg)>, w: (nat, Msg), j: nat)
    ensures On(wire + [w], j) == On(wire, j) + (if w.0 == j then [w.1] else [])
  {
    assert (wire + [w])[..|wire + [w]| - 1] == wire;
  }

  lemma {:induction false} OnTagged(wire: seq<(nat, Msg)>, i: nat, msgs: seq<Msg>, j: nat)
    ensures On(wire + Tagged(i, msgs), j) == On(wire, j) + (if i == j then msgs else [])
  {
    if msgs == [] {
      assert wire + Tagged(i, msgs) == wire;
    } else {
      var before, last := msgs[..|msgs| - 1], msgs[|msgs| - 1];
      OnTagged(wire, i, before, j);
      OnSnoc(wire + Tagged(i, before), (i, last), j);
      assert wire + Tagged(i, msgs) == (wire + Tagged(i, before)) + [(i, last)];
      assert before + [last] == msgs;
      assert i == j ==> On(wire, j) + msgs == (On(wire, j) + before) + [last];
    }
  }

  lemma MessagesTagged(wire: seq<(nat, Msg)>, i: nat, msgs: seq<Msg>)
    ensures Messages(wire + Tagged(i, msgs)) == Messages(wire) + msgs
  {
  }

  lemma SendAccounted(r: Room, m: Msg)
    requires Current(r) && Accounted(r)
    ensures Accounted(SendStep(r, m))
  {
    var open := RegisteredIs(r, OPEN);
    var h := Handed(m, if open then Sent else Queued);
    HavingSnoc(r.handed, h, Queued);
    HavingSnoc(r.handed, h, Sent);
    if open {
      assert forall k :: 0 <= k < |r.handed| ==> r.handed[k].fate != Queued by {
        NothingQueued(r.handed);
      }
      var i := r.registered.value;
      forall j | 0 <= j < |r.sockets|
        ensures SendStep(r, m).sockets[j].sent == On(SendStep(r, m).wire, j)
      {
        OnTagged(r.wire, i, [m], j);
      }
      MessagesTagged(r.wire, i, [m]);
    }
  }

  lemma {:induction false} NothingQueued(handed: seq<Handed>)
    requires Having(handed, Queued) == []
    ensures forall k :: 0 <= k < |handed| ==> handed[k].fate != Queued
  {
    if handed != [] {
      NothingQueued(handed[..|handed| - 1]);
    }
  }

  lemma OpenAccounted(r: Room, i: nat)
    requires Current(r) && Accounted(r) && Enabled(r, SocketOpens(i))
    ensures Accounted(OpenStep(r, i))
  {
    var r1 := OpenStep(r, i);
    if r.sockets[i].token == r.token {
      Requeue(r.handed, Sent, Queued);
      Requeue(r.handed, Sent, Sent);
      forall j | 0 <= j < |r1.sockets|
        ensures r1.sockets[j].sent == On(r1.wire, j)
      {
        OnTagged(r.wire, i, r.queue, j);
      }
      MessagesTagged(r.wire, i, r.queue);
      HavingNone(r1.handed, Queued);
    }
  }

  lemma DisconnectAccounted(r: Room)
    requires Current(r) && Accounted(r)
    ensures Accounted(DisconnectStep(r))
  {
    Requeue(r.handed, Discarded, Queued);
    Requeue(r.handed, Discarded, Sent);
  }

  lemma TicketAccounted(r: Room, i: nat)
    requires Accounted(r) && Enabled(r, TicketArrives(i))
    ensures Accounted(TicketStep(r, i))
  {
    NotYetUsed(r.wire, |r.sockets|);
  }

  lemma {:induction false} NotYetUsed(wire: seq<(nat, Msg)>, i: nat)
    requires forall k :: 0 <= k < |wire| ==> wire[k].0 < i
    ensures On(wire, i) == []
  {
    if wire != [] {
      NotYetUsed(wire[..|wire| - 1], i);
    }
  }

  lemma AccountedStep(r: Room, t: Task)
    requires Current(r) && Accounted(r)
    ensures Accounted(Step(r, t))
  {
    if Enabled(r, t) {
      match t
      case TicketArrives(i) => TicketAccounted(r, i);
      case SocketOpens(i) => OpenAccounted(r, i);
      case Disconnect => DisconnectAccounted(r);
      case Send(m) => SendAccounted(r, m);
      case _ =>
    }
  }

  /** In every run the messages put on sockets, then the queue, are the messages handed over, in order and
      each once, without those a disconnect discarded; an open registered socket means an empty queue; and at
      most one socket carries the current token. */
  lemma {:induction false} OrderedLossFree(ts: seq<Task>)
    ensures var r := Run(NEW_ROOM, ts); Current(r) && Accounted(r)
    decreases |ts|
  {
    if ts != [] {
      var r := Run(NEW_ROOM, ts[..|ts| - 1]);
      OrderedLossFree(ts[..|ts| - 1]);
      CurrentStep(r, ts[|ts| - 1]);
      AccountedStep(r, ts[|ts| - 1]);
    }
  }

  /** Only the socket with the current token ever sends or announces "open", and there is at most one. */
  lemma OnlyCurrentSpeaks(r: Room, t: Task)
    requires Current(r) && Accounted(r)
    ensures var r1 := Step(r, t);
      && r.wire <= r1.wire && r.announced <= r1.announced
      && (forall k :: |r.wire| <= k < |r1.wire| ==>
            && r1.wire[k].0 < |r1.sockets| && r1.sockets[r1.wire[k].0].token == r1.token
            && r1.registered == Some(r1.wire[k].0))
      && (forall k :: |r.announced| <= k < |r1.announced| ==>
            && r1.announced[k] < |r1.sockets|
            && r1.sockets[r1.announced[k]].token == r1.token
            && r1.registered == Some(r1.announced[k]) && r1.queue == [])
  {
  }

  /** Messages are dropped by a disconnect exactly when the room has a registered socket; otherwise the queue
      waits for the next connection. */
  lemma DisconnectDiscardsIff(r: Room)
    requires Current(r) && Accounted(r)
    ensures var r1 := Step(r, Disconnect);
      && (r1.queue == r.queue <==> r.queue == [] || r.registered.None?)
      && Having(r1.handed, Discarded) ==
           Having(r.handed, Discarded) + (if r.registered.Some? then r.queue else [])
  {
    Requeue(r.handed, Discarded, Discarded);
  }
}
