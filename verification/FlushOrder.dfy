// The order in which flushes store their snapshots: when the writes still to come
// can put an older document over a newer one.

module FlushOrder {
  import opened Prelude
  import opened Blocks
  import opened Updates
  import opened FlushProtocol
  import opened FlushRuns

  // ---------- snapshots are never empty ----------

  ghost predicate Present(s: State) {
    && (s.journal.accepted != [] ==> !s.journal.currentValue.Empty?)
    && (s.journal.buffer != [] ==> s.journal.accepted != [])
    && forall i :: 0 <= i < |s.tables.flights| ==> !s.tables.flights[i].snapshot.Empty?
  }

  lemma PresentStep(s: State, a: Act)
    requires Present(s)
    ensures Present(Step(s, a))
  {
  }

  lemma {:induction false} PresentRun(db: Store, loaded: bool, acts: seq<Act>)
    ensures Present(Run(Start(db, loaded), acts))
    decreases |acts|
  {
    if acts != [] {
      PresentRun(db, loaded, acts[..|acts| - 1]);
      PresentStep(Run(Start(db, loaded), acts[..|acts| - 1]), acts[|acts| - 1]);
    }
  }

  // ---------- finishing a flight ----------

  /** The writes flight `i` still has to do. */
  function Finish(t: Tables, i: nat): seq<Act>
    requires i < |t.flights|
  {
    if t.flights[i].phase == Logging then BothWrites(i) else [Write(i, Ok)]
  }

  lemma FinishRuns(s: State, i: nat)
    requires s.loop != Crashed && i < |s.tables.flights|
    requires Active(s.tables.flights[i]) && !s.tables.flights[i].snapshot.Empty?
    ensures var s1, f := Run(s, Finish(s.tables, i)), s.tables.flights[i];
            && s1.loop == s.loop && s1.journal == s.journal && s1.timers == s.timers
            && s1.tables.flights == s.tables.flights[i := f.(phase := Done)]
            && s1.tables.snapshot == f.snapshot
            && s1.tables.stored == s.tables.stored + [Stored(f.snapshot, f.upto)]
            && s1.tables.failed == s.tables.failed && s1.tables.overlapped == s.tables.overlapped
  {
    if s.tables.flights[i].phase == Logging {
      BothWritesRun(s, i);
    } else {
      RunOne(s, Write(i, Ok));
      assert WriteStep(s.tables, i, Ok).flights == s.tables.flights[i := s.tables.flights[i].(phase := Done)];
    }
  }

  /** With two flights still writing, the older one can finish last and leave its snapshot stored. */
  lemma OlderCanFinishLast(s: State, i: nat, k: nat) returns (acts: seq<Act>)
    requires s.loop != Crashed && Present(s)
    requires i < k < |s.tables.flights| && Active(s.tables.flights[i]) && Active(s.tables.flights[k])
    ensures SuccessfulWrites(acts)
    ensures var t, t1 := s.tables, Run(s, acts).tables;
            && t1.snapshot == t.flights[i].snapshot
            && t1.stored == t.stored + [Stored(t.flights[k].snapshot, t.flights[k].upto),
                                        Stored(t.flights[i].snapshot, t.flights[i].upto)]
            && t1.flights == t.flights[k := t.flights[k].(phase := Done)][i := t.flights[i].(phase := Done)]
            && t1.failed == t.failed && t1.overlapped == t.overlapped
            && Run(s, acts).journal == s.journal && Run(s, acts).loop == s.loop
  {
    FinishRuns(s, k);
    var first := Finish(s.tables, k);
    var s1 := Run(s, first);
    FinishRuns(s1, i);
    RunConcat(s, first, Finish(s1.tables, i));
    acts := first + Finish(s1.tables, i);
  }

  // ---------- the exact condition ----------

  ghost predicate Increasing(stored: seq<Stored>) {
    forall i, k :: 0 <= i < k < |stored| ==> stored[i].upto < stored[k].upto
  }

  predicate SuccessfulWrites(acts: seq<Act>) {
    forall a :: a in acts ==> a.Write? && a.outcome == Ok
  }

  /** A flight with writes to do while a newer one also has, or while something as new is already stored. */
  ghost predicate Late(t: Tables, i: nat) {
    && i < |t.flights| && Active(t.flights[i])
    && ((exists k :: i < k < |t.flights| && Active(t.flights[k]))
        || (exists x :: x in t.stored && t.flights[i].upto <= x.upto))
  }

  ghost predicate NoneLate(t: Tables) {
    forall i :: 0 <= i < |t.flights| ==> !Late(t, i)
  }

  lemma WriteKeepsOrder(s: State, i: nat)
    requires NoneLate(s.tables) && Increasing(s.tables.stored)
    requires Enabled(s, Write(i, Ok))
    ensures var t1 := Step(s, Write(i, Ok)).tables; NoneLate(t1) && Increasing(t1.stored)
  {
    var t, t1 := s.tables, Step(s, Write(i, Ok)).tables;
    assert !Late(t, i);
    forall k | 0 <= k < |t.flights| && k != i
      ensures !Active(t1.flights[k])
    {
      assert !Late(t, k);
    }
    forall x | x in t.stored
      ensures x.upto < t.flights[i].upto
    {
    }
  }

  lemma {:induction false} WritesKeepOrder(s: State, acts: seq<Act>)
    requires NoneLate(s.tables) && Increasing(s.tables.stored) && SuccessfulWrites(acts)
    ensures var t1 := Run(s, acts).tables; NoneLate(t1) && Increasing(t1.stored)
    decreases |acts|
  {
    if acts != [] {
      var rest, last := acts[..|acts| - 1], acts[|acts| - 1];
      WritesKeepOrder(s, rest);
      assert last in acts;
      if Enabled(Run(s, rest), last) {
        WriteKeepsOrder(Run(s, rest), last.flight);
      }
    }
  }

  lemma OlderThanStored(s: State, i: nat, m: nat)
    requires s.loop != Crashed && Present(s)
    requires i < |s.tables.flights| && Active(s.tables.flights[i])
    requires m < |s.tables.stored| && s.tables.flights[i].upto <= s.tables.stored[m].upto
    ensures !Increasing(Run(s, Finish(s.tables, i)).tables.stored)
  {
    FinishRuns(s, i);
    var stored := Run(s, Finish(s.tables, i)).tables.stored;
    assert stored[m] == s.tables.stored[m] && stored[|stored| - 1].upto == s.tables.flights[i].upto;
  }

  lemma OlderThanActive(s: State, i: nat, k: nat) returns (writes: seq<Act>)
    requires s.loop != Crashed && Present(s) && Conserved(s.journal, s.tables.flights)
    requires i < k < |s.tables.flights| && Active(s.tables.flights[i]) && Active(s.tables.flights[k])
    ensures SuccessfulWrites(writes) && !Increasing(Run(s, writes).tables.stored)
  {
    writes := OlderCanFinishLast(s, i, k);
    var n, stored := |s.tables.stored|, Run(s, writes).tables.stored;
    assert s.tables.flights[i].upto < s.tables.flights[k].upto;
    assert stored[n].upto > stored[n + 1].upto;
  }

  lemma LateCanRegress(s: State, i: nat) returns (writes: seq<Act>)
    requires s.loop != Crashed && Present(s) && Conserved(s.journal, s.tables.flights) && Late(s.tables, i)
    ensures SuccessfulWrites(writes) && !Increasing(Run(s, writes).tables.stored)
  {
    if k :| i < k < |s.tables.flights| && Active(s.tables.flights[k]) {
      writes := OlderThanActive(s, i, k);
    } else {
      var x :| x in s.tables.stored && s.tables.flights[i].upto <= x.upto;
      var m :| 0 <= m < |s.tables.stored| && s.tables.stored[m] == x;
      OlderThanStored(s, i, m);
      writes := Finish(s.tables, i);
    }
  }

  /** Wherever a run stands with its snapshots stored in order so far, the successful writes still to come keep
      them in order, whichever way they interleave, exactly when no flight is late. */
  lemma StaysInOrderIff(db: Store, loaded: bool, acts: seq<Act>)
    requires var s := Run(Start(db, loaded), acts); s.loop != Crashed && Increasing(s.tables.stored)
    ensures var s := Run(Start(db, loaded), acts);
            (forall writes :: SuccessfulWrites(writes) ==> Increasing(Run(s, writes).tables.stored))
            <==> NoneLate(s.tables)
  {
    var s := Run(Start(db, loaded), acts);
    if NoneLate(s.tables) {
      forall writes | SuccessfulWrites(writes)
        ensures Increasing(Run(s, writes).tables.stored)
      {
        WritesKeepOrder(s, writes);
      }
    } else {
      var i :| 0 <= i < |s.tables.flights| && Late(s.tables, i);
      PresentRun(db, loaded, acts);
      ConservationOfUpdates(db, loaded, acts);
      var writes := LateCanRegress(s, i);
      assert SuccessfulWrites(writes);
    }
  }

  /** No flight is late in a run whose takes never fell into another flight's writes. */
  lemma NoOverlapNoneLate(db: Store, loaded: bool, acts: seq<Act>)
    ensures var t := Run(Start(db, loaded), acts).tables; !t.overlapped ==> NoneLate(t) && Increasing(t.stored)
  {
    SnapshotsOnlyAdvance(db, loaded, acts);
  }

  // ---------- a run that goes wrong ----------

  /** A change whose timer fires and takes it before anything else happens. */
  function TimedTake(s: State, v: Raw, user: UserId): seq<Act> {
    [AcceptUpdate(v, user), Fire(s.timers.created), TimerTake]
  }

  /** An idle room with no timers and nothing buffered. */
  predicate Quiet(s: State) {
    s.loop == Idle && s.journal.buffer == [] && s.timers == Timers(s.timers.created, {}, None, 0)
  }

  lemma TimedTakeRuns(s: State, v: Raw, user: UserId)
    requires Quiet(s) && !v.Empty?
    ensures var s1 := Run(s, TimedTake(s, v, user));
            && Quiet(s1)
            && s1.journal.currentValue == v
            && |s1.journal.accepted| == |s.journal.accepted| + 1
            && s1.tables == s.tables.(
                 flights := s.tables.flights + [Flight([Entry(v, user)], v, |s.journal.accepted| + 1, Logging)],
                 overlapped := s.tables.overlapped || exists f :: f in s.tables.flights && Active(f))
  {
    var id := s.timers.created;
    RunThree(s, AcceptUpdate(v, user), Fire(id), TimerTake);
    var s1 := Step(s, AcceptUpdate(v, user));
    assert s1.journal.buffer == [Entry(v, user)] && s1.timers == Timers(id + 1, {id}, Some(id), 0);
    var s2 := Step(s1, Fire(id));
    assert s2.timers == Timers(id + 1, {}, Some(id), 1);
  }

  /** Two timer flushes whose writes cross leave the older snapshot stored, with every write successful. */
  lemma OverlapRegresses(db: Store, v1: Raw, v2: Raw, user: UserId) returns (acts: seq<Act>)
    requires !v1.Empty? && !v2.Empty?
    ensures var s := Run(Start(db, true), acts);
            && !s.tables.failed && s.tables.overlapped
            && s.loop == Idle && s.journal.buffer == [] && Settled(s.tables)
            && s.journal.currentValue == v2
            && s.tables.snapshot == v1
            && s.tables.stored == [Stored(v2, 2), Stored(v1, 1)]
  {
    var s0 := Start(db, true);
    var first := TimedTake(s0, v1, user);
    var s1 := Run(s0, first);
    TimedTakeRuns(s0, v1, user);
    var second := TimedTake(s1, v2, user);
    var s2 := Run(s1, second);
    TimedTakeRuns(s1, v2, user);
    assert s1.tables.flights[0] in s1.tables.flights;
    RunConcat(s0, first, second);
    PresentRun(db, true, first + second);
    var writes := OlderCanFinishLast(s2, 0, 1);
    RunConcat(s0, first + second, writes);
    acts := first + second + writes;
  }
}
