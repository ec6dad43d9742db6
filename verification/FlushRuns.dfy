// Runs of the flush protocol: what a clean run leaves in the tables, and that the
// room with one-step flushes (NoteRoom.dfy) is one of its runs.

module FlushRuns {
  import opened Prelude
  import opened Blocks
  import opened Updates
  import opened FlushProtocol
  import R = NoteRoom
  import P = NoteRoomProofs

  // ---------- runs without failed or overlapping writes ----------

  ghost predicate Settled(t: Tables) {
    forall f :: f in t.flights ==> !Active(f)
  }

  /** Flights write in the order they were taken; only the newest may still have writes to do. */
  ghost predicate InOrder(t: Tables) {
    && (forall i :: 0 <= i < |t.flights| ==> !t.flights[i].snapshot.Empty?)
    && (forall i :: 0 <= i < |t.flights| - 1 ==> !Active(t.flights[i]))
    && |t.logged| == |t.flights| - (if t.flights != [] && t.flights[|t.flights| - 1].phase == Logging then 1 else 0)
    && |t.stored| == |t.flights| - (if t.flights != [] && Active(t.flights[|t.flights| - 1]) then 1 else 0)
    && (forall i :: 0 <= i < |t.logged| ==> t.logged[i] == i)
    && (forall i :: 0 <= i < |t.stored| ==> t.stored[i] == Stored(t.flights[i].snapshot, t.flights[i].upto))
  }

  ghost predicate Clean(s: State) {
    && (s.journal.accepted != [] ==> !s.journal.currentValue.Empty?)
    && (s.journal.buffer != [] ==> s.journal.accepted != [])
    && (!s.tables.failed && !s.tables.overlapped ==> InOrder(s.tables))
  }

  lemma TakeClean(s: State)
    requires Clean(s)
    ensures Clean(Take(s))
  {
    var t, t1 := s.tables, Take(s).tables;
    if s.journal.buffer != [] && !t1.failed && !t1.overlapped && t.flights != [] {
      assert t.flights[|t.flights| - 1] in t.flights;
    }
  }

  lemma WriteClean(t: Tables, i: nat, o: Outcome)
    requires i < |t.flights| && Active(t.flights[i])
    requires !t.failed && !t.overlapped ==> InOrder(t)
    ensures var t1 := WriteStep(t, i, o); !t1.failed && !t1.overlapped ==> InOrder(t1)
  {
    if !t.failed && !t.overlapped && o == Ok {
      assert i == |t.flights| - 1;
      var t1 := WriteStep(t, i, o);
      assert t1.flights[i].snapshot == t.flights[i].snapshot && t1.flights[i].upto == t.flights[i].upto;
    }
  }

  lemma CleanStep(s: State, a: Act)
    requires Clean(s)
    ensures Clean(Step(s, a))
  {
    if Enabled(s, a) {
      match a
      case LoopTake => TakeClean(s);
      case TimerTake => TakeClean(s.(timers := s.timers.(calls := s.timers.calls - 1)));
      case ShutdownTake => TakeClean(s);
      case Write(i, o) => WriteClean(s.tables, i, o);
      case _ =>
    }
  }

  lemma {:induction false} CleanRun(db: Store, loaded: bool, acts: seq<Act>)
    ensures Clean(Run(Start(db, loaded), acts))
    decreases |acts|
  {
    if acts != [] {
      CleanRun(db, loaded, acts[..|acts| - 1]);
      CleanStep(Run(Start(db, loaded), acts[..|acts| - 1]), acts[|acts| - 1]);
    }
  }

  lemma PickAll(batches: seq<seq<Entry>>, logged: seq<nat>)
    requires |logged| == |batches| && forall i :: 0 <= i < |logged| ==> logged[i] == i
    ensures Pick(batches, logged) == batches
  {
  }

  /** When no write failed or overlapped and nothing is buffered or in flight, the log has gained every
      accepted change in order with its author, and the snapshot is the live document. */
  lemma NothingLost(db: Store, loaded: bool, acts: seq<Act>)
    ensures var s := Run(Start(db, loaded), acts);
            !s.tables.failed && !s.tables.overlapped && s.journal.buffer == [] && Settled(s.tables) ==>
              && s.tables.log == db.log + Entries(s.journal.base, s.journal.accepted)
              && (s.journal.accepted != [] ==> s.tables.snapshot == s.journal.currentValue)
  {
    var s := Run(Start(db, loaded), acts);
    var j, t := s.journal, s.tables;
    CleanRun(db, loaded, acts);
    ConservationOfUpdates(db, loaded, acts);
    PersistedStateIsPast(db, loaded, acts);
    if !t.failed && !t.overlapped && j.buffer == [] && Settled(t) {
      if t.flights != [] {
        assert t.flights[|t.flights| - 1] in t.flights;
      }
      PickAll(Batches(t.flights), t.logged);
      assert Concat(Batches(t.flights)) + [] == Concat(Batches(t.flights));
      assert j.accepted[..|j.accepted|] == j.accepted;
    }
  }

  // ---------- one flight's writes ----------

  /** Both writes of a flight, with nothing in between. */
  function BothWrites(i: nat): seq<Act> {
    [Write(i, Ok), Write(i, Ok)]
  }

  lemma BothWritesRun(s: State, i: nat)
    requires s.loop != Crashed
    requires i < |s.tables.flights| && s.tables.flights[i].phase == Logging && !s.tables.flights[i].snapshot.Empty?
    ensures var s1, f := Run(s, BothWrites(i)), s.tables.flights[i];
            && s1.journal == s.journal && s1.timers == s.timers && s1.loop == s.loop
            && s1.tables.flights == s.tables.flights[i := f.(phase := Done)]
            && s1.tables.log == s.tables.log + f.batch
            && s1.tables.snapshot == f.snapshot
            && s1.tables.stored == s.tables.stored + [Stored(f.snapshot, f.upto)]
            && s1.tables.failed == s.tables.failed && s1.tables.overlapped == s.tables.overlapped
  {
    RunTwo(s, Write(i, Ok), Write(i, Ok));
    var s1 := Step(s, Write(i, Ok));
    assert s1.tables.flights[i] == s.tables.flights[i].(phase := Upserting);
  }

  lemma RunOne(s: State, a: Act)
    ensures Run(s, [a]) == Step(s, a)
  {
    RunSnoc(s, [], a);
    assert [] + [a] == [a];
  }

  lemma RunTwo(s: State, a: Act, b: Act)
    ensures Run(s, [a, b]) == Step(Step(s, a), b)
  {
    RunOne(s, a);
    RunSnoc(s, [a], b);
    assert [a] + [b] == [a, b];
  }

  lemma RunThree(s: State, a: Act, b: Act, c: Act)
    ensures Run(s, [a, b, c]) == Step(Step(Step(s, a), b), c)
  {
    RunTwo(s, a, b);
    RunSnoc(s, [a, b], c);
    assert [a, b] + [c] == [a, b, c];
  }

  lemma {:induction false} RunConcat(s: State, xs: seq<Act>, ys: seq<Act>)
    ensures Run(s, xs + ys) == Run(Run(s, xs), ys)
    decreases |ys|
  {
    if ys == [] {
      assert xs + ys == xs;
    } else {
      var init, y := ys[..|ys| - 1], ys[|ys| - 1];
      RunConcat(s, xs, init);
      RunSnoc(s, xs + init, y);
      assert xs + ys == (xs + init) + [y];
    }
  }

  // ---------- the room with one-step flushes is a run of this protocol ----------

  /** The protocol state stands where the room stands, with every write done and none failed or overlapped. */
  ghost predicate Matches(d: R.Content, ended: bool, s: State) {
    && s.journal == Journal(d.base, d.accepted, d.currentValue, d.buffer)
    && s.tables.log == d.store.log && s.tables.snapshot == d.store.snapshot
    && s.timers.current.Some? == d.flushTimer
    && s.loop == (if ended then Ended else Idle)
    && Settled(s.tables) && !s.tables.failed && !s.tables.overlapped
  }

  /** A take and both its writes, with nothing in between, is what the room does as one step. */
  lemma FlushingIsFlush(d: R.Content, s: State, take: Act)
    requires Matches(d, false, s.(loop := Idle)) && (d.buffer != [] ==> !d.currentValue.Empty?)
    requires s.loop != Crashed
    requires take == ShutdownTake || (take == LoopTake && LoopFlushes(s.loop))
    ensures var n, s1 := |s.tables.flights|, Run(s, [take] + BothWrites(|s.tables.flights|));
            && Matches(R.Flush(d), false, s1.(loop := Idle))
            && (d.buffer != [] ==> n < |s1.tables.flights|)
            && s1.loop == Step(s, take).loop
  {
    var n := |s.tables.flights|;
    RunConcat(s, [take], BothWrites(n));
    RunOne(s, take);
    var s1 := Step(s, take);
    assert s1.journal == s.journal.(buffer := []);
    if d.buffer == [] {
      RunTwo(s1, Write(n, Ok), Write(n, Ok));
    } else {
      BothWritesRun(s1, n);
      var flights := Run(s1, BothWrites(n)).tables.flights;
      assert forall i :: 0 <= i < n ==> flights[i] == s.tables.flights[i];
    }
  }

  /** What the loop does after its own take: write, then carry on. */
  function FlushFrom(s: State): seq<Act> {
    [LoopTake] + BothWrites(|s.tables.flights|) + [LoopResume]
  }

  lemma FlushFromIsFlush(d: R.Content, s: State)
    requires Matches(d, false, s.(loop := Idle)) && (d.buffer != [] ==> !d.currentValue.Empty?)
    requires LoopFlushes(s.loop)
    ensures Matches(R.Flush(d), s.loop == LastLeft, Run(s, FlushFrom(s)))
  {
    var n := |s.tables.flights|;
    FlushingIsFlush(d, s, LoopTake);
    RunSnoc(s, [LoopTake] + BothWrites(n), LoopResume);
    var s1 := Run(s, [LoopTake] + BothWrites(n));
    if d.buffer != [] {
      assert s1.tables.flights[n] in s1.tables.flights;
    }
  }

  /** The protocol's acts for one document frame. */
  function FrameActs(d: R.Content, s: State, user: UserId, f: R.Frame): seq<Act> {
    match f
    case PatchFrame(p) =>
      var s1 := Step(s, AcceptPatch(p, user));
      [AcceptPatch(p, user)] + (if LoopFlushes(s1.loop) then FlushFrom(s1) else [LoopArm])
    case UpdateFrame(v) =>
      var s1 := Step(s, AcceptUpdate(v, user));
      [AcceptUpdate(v, user)] + (if LoopFlushes(s1.loop) then FlushFrom(s1) else [])
    case _ => []
  }

  lemma RunFirst(s: State, a: Act, rest: seq<Act>)
    ensures Run(s, [a] + rest) == Run(Step(s, a), rest)
  {
    RunConcat(s, [a], rest);
    RunOne(s, a);
  }

  lemma AcceptMatches(d: R.Content, s: State, user: UserId, p: Patch)
    requires Matches(d, false, s) && !Panics(d.currentValue, p)
    ensures var d1, s1 := R.Accept(d, user, Merge(p)), Step(s, AcceptPatch(p, user));
            && Matches(d1, false, s1.(loop := Idle))
            && s1.loop == Appended(Structural(Decode(d.currentValue), p), |d1.buffer|)
            && !d1.currentValue.Empty?
  {
  }

  lemma PatchMatches(d: R.Content, s: State, user: UserId, p: Patch)
    requires Matches(d, false, s) && !Panics(d.currentValue, p)
    ensures Matches(R.TakePatch(d, user, p), false, Run(s, FrameActs(d, s, user, R.PatchFrame(p))))
  {
    var s1 := Step(s, AcceptPatch(p, user));
    var d1 := R.Accept(d, user, Merge(p));
    AcceptMatches(d, s, user, p);
    if LoopFlushes(s1.loop) {
      FlushFromIsFlush(d1, s1);
      RunFirst(s, AcceptPatch(p, user), FlushFrom(s1));
    } else {
      RunFirst(s, AcceptPatch(p, user), [LoopArm]);
      RunOne(s1, LoopArm);
    }
  }

  lemma UpdateMatches(d: R.Content, s: State, user: UserId, v: Raw)
    requires Matches(d, false, s)
    ensures Matches(R.TakeUpdate(d, user, v), false, Run(s, FrameActs(d, s, user, R.UpdateFrame(v))))
  {
    var s1 := Step(s, AcceptUpdate(v, user));
    if !v.Empty? {
      var d1 := R.Accept(d, user, Replace(v)).(flushTimer := true);
      assert Matches(d1, false, s1.(loop := Idle));
      if LoopFlushes(s1.loop) {
        FlushFromIsFlush(d1, s1);
        RunFirst(s, AcceptUpdate(v, user), FlushFrom(s1));
      } else {
        RunFirst(s, AcceptUpdate(v, user), []);
      }
    } else {
      RunFirst(s, AcceptUpdate(v, user), []);
    }
  }

  /** The same for a room that may have crashed, where the loop stands nowhere. */
  ghost predicate RoomMatches(r: R.State, s: State) {
    && s.loop == (if r.crashed then Crashed else if r.ended then Ended else Idle)
    && Matches(r.content, r.ended, s.(loop := if r.ended then Ended else Idle))
  }

  /** One room event is a run of the protocol from any matching state. */
  lemma EventMatches(r: R.State, e: R.Event, s: State) returns (acts: seq<Act>)
    requires RoomMatches(r, s)
    requires r.content.buffer != [] ==> !r.content.currentValue.Empty?
    requires r.ended ==> r.content.buffer == []
    ensures RoomMatches(R.Step(r, e), Run(s, acts))
  {
    var d := r.content;
    acts := [];
    if R.Enabled(r, e) {
      match e {
        case Broadcast(c, f) =>
          acts := FrameActs(d, s, c.user, f);
          match f {
            case PatchFrame(p) =>
              if Panics(d.currentValue, p) {
                acts := [AcceptPatch(p, c.user)];
                RunOne(s, AcceptPatch(p, c.user));
              } else {
                PatchMatches(d, s, c.user, p);
              }
            case UpdateFrame(v) => UpdateMatches(d, s, c.user, v);
            case _ =>
          }
        case Leave(c) =>
          if c in r.members.clients && c in r.members.chans && R.Exit(r.members, c).clients == {} {
            var s1 := Step(s, LastLeave);
            FlushFromIsFlush(d, s1);
            RunFirst(s, LastLeave, FlushFrom(s1));
            acts := [LastLeave] + FlushFrom(s1);
          }
        case TimerFires =>
          FlushingIsFlush(d, s, ShutdownTake);
          acts := [ShutdownTake] + BothWrites(|s.tables.flights|);
        case _ =>
      }
    }
  }

  /** Every run of the room whose flushes are single successful steps is a run of this protocol with the
      same document, buffer, timer flag and tables, that crashes when the room does. */
  lemma {:induction false} AtomicFlushesAreARun(db: Store, loaded: bool, es: seq<R.Event>) returns (acts: seq<Act>)
    ensures var r := R.Run(R.Hydrate(db, loaded), es);
            RoomMatches(r, Run(Start(db, loaded), acts))
    decreases |es|
  {
    acts := [];
    if es != [] {
      var before := AtomicFlushesAreARun(db, loaded, es[..|es| - 1]);
      var r, s := R.Run(R.Hydrate(db, loaded), es[..|es| - 1]), Run(Start(db, loaded), before);
      P.Conservation(db, loaded, es[..|es| - 1]);
      var more := EventMatches(r, es[|es| - 1], s);
      RunConcat(Start(db, loaded), before, more);
      acts := before + more;
    }
  }
}
