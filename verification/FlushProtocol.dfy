// The flush protocol of services/notes/internal/realtime/hub.go in its own
// steps: the loop, timer goroutines and Shutdown interleave; a flush takes its
// batch under the lock and writes the two tables afterwards; any write may fail,
// with or without having been applied.

module FlushProtocol {
  import opened Prelude
  import opened Blocks
  import opened Updates

  // ---------- state ----------

  // The fields the room's mutex guards, with the history of accepted changes.
  datatype Journal = Journal(base: Raw, accepted: seq<Accepted>, currentValue: Raw, buffer: seq<Entry>)

  // Every timer ever created by AfterFunc, the armed ones, the one flushTimer
  // points to, and the number of started firings that have not taken the lock.
  datatype Timers = Timers(created: nat, armed: set<nat>, current: Option<nat>, calls: nat)

  datatype Phase = Logging | Upserting | Done

  // One flush from its take on; `upto` is the number of changes accepted by then.
  datatype Flight = Flight(batch: seq<Entry>, snapshot: Raw, upto: nat, phase: Phase)

  datatype Stored = Stored(value: Raw, upto: nat)

  // The flights in the order of their takes, the two tables, and what was ever
  // written to them. `overlapped` records a take during another flight's writes,
  // `failed` a write that reported an error.
  datatype Tables = Tables(
    flights: seq<Flight>,
    log: seq<Entry>,
    snapshot: Raw,
    logged: seq<nat>,
    stored: seq<Stored>,
    overlapped: bool,
    failed: bool)

  // Where the loop stands between two locked sections.
  datatype Loop =
    | Idle
    | Appended(structural: bool, bufLen: nat)
    | MustFlush
    | LastLeft
    | Writing(flight: nat, leaving: bool)
    | Ended
    | Crashed

  datatype State = State(journal: Journal, timers: Timers, tables: Tables, loop: Loop)

  datatype Outcome = Ok | FailedLost | FailedApplied

  datatype Act =
    | AcceptPatch(patch: Patch, user: UserId)
    | AcceptUpdate(value: Raw, user: UserId)
    | LoopArm
    | LoopTake
    | LoopResume
    | LastLeave
    | Fire(timer: nat)
    | TimerTake
    | ShutdownTake
    | Write(flight: nat, outcome: Outcome)

  // ---------- steps ----------

  function Append(j: Journal, c: Change, user: UserId): Journal {
    var v := ApplyChange(j.currentValue, c);
    Journal(j.base, j.accepted + [Accepted(c, user)], v, j.buffer + [Entry(v, user)])
  }

  /** Reset on the timer flushTimer points to, or AfterFunc when it points to none. */
  function Arm(t: Timers): Timers {
    match t.current
    case Some(id) => t.(armed := t.armed + {id})
    case None => Timers(t.created + 1, t.armed + {t.created}, Some(t.created), t.calls)
  }

  predicate Active(f: Flight) {
    f.phase != Done
  }

  /** The locked half of flush, from whichever goroutine. */
  function Take(s: State): State {
    if s.journal.buffer == [] then s.(timers := s.timers.(current := None)) else
    State(
      s.journal.(buffer := []),
      s.timers.(current := None),
      s.tables.(
        flights := s.tables.flights
                   + [Flight(s.journal.buffer, s.journal.currentValue, |s.journal.accepted|, Logging)],
        overlapped := s.tables.overlapped || exists f :: f in s.tables.flights && Active(f)),
      s.loop)
  }

  /** One table write of a flight. The log comes first, and an error ends the flight. */
  function WriteStep(t: Tables, i: nat, o: Outcome): Tables
    requires i < |t.flights| && Active(t.flights[i])
  {
    var f := t.flights[i];
    var next := if o != Ok || f.phase == Upserting || f.snapshot.Empty? then Done else Upserting;
    var t1 := t.(flights := t.flights[i := f.(phase := next)], failed := t.failed || o != Ok);
    if o == FailedLost then t1
    else if f.phase == Logging then t1.(log := t.log + f.batch, logged := t.logged + [i])
    else t1.(snapshot := f.snapshot, stored := t.stored + [Stored(f.snapshot, f.upto)])
  }

  predicate LoopFlushes(l: Loop) {
    l == MustFlush || l == LastLeft || (l.Appended? && (l.structural || l.bufLen >= FLUSH_THRESHOLD))
  }

  /** A panic in the loop takes the process down, timers and all. */
  predicate Enabled(s: State, a: Act) {
    s.loop != Crashed &&
    match a
    case AcceptPatch(_, _) => s.loop == Idle
    case AcceptUpdate(v, _) => s.loop == Idle && !v.Empty?
    case LoopArm => s.loop.Appended? && !LoopFlushes(s.loop)
    case LoopTake => LoopFlushes(s.loop)
    case LoopResume => s.loop.Writing? && s.loop.flight < |s.tables.flights| && !Active(s.tables.flights[s.loop.flight])
    case LastLeave => s.loop == Idle
    case Fire(t) => t in s.timers.armed
    case TimerTake => s.timers.calls > 0
    case ShutdownTake => true
    case Write(i, _) => i < |s.tables.flights| && Active(s.tables.flights[i])
  }

  function Step(s: State, a: Act): State {
    if !Enabled(s, a) then s else
    match a
    case AcceptPatch(p, user) =>
      if Panics(s.journal.currentValue, p) then s.(loop := Crashed) else
      var j := Append(s.journal, Merge(p), user);
      s.(journal := j, loop := Appended(Structural(Decode(s.journal.currentValue), p), |j.buffer|))
    case AcceptUpdate(v, user) =>
      var j := Append(s.journal, Replace(v), user);
      s.(journal := j, timers := Arm(s.timers),
         loop := if |j.buffer| >= FLUSH_THRESHOLD then MustFlush else Idle)
    case LoopArm => s.(timers := Arm(s.timers), loop := Idle)
    case LoopTake =>
      var leaving := s.loop == LastLeft;
      Take(s).(loop := if s.journal.buffer == [] then (if leaving then Ended else Idle)
                       else Writing(|s.tables.flights|, leaving))
    case LoopResume => s.(loop := if s.loop.leaving then Ended else Idle)
    case LastLeave => s.(loop := LastLeft)
    case Fire(t) => s.(timers := s.timers.(armed := s.timers.armed - {t}, calls := s.timers.calls + 1))
    case TimerTake =>
      var s1 := s.(timers := s.timers.(calls := s.timers.calls - 1));
      Take(s1)
    case ShutdownTake => Take(s)
    case Write(i, o) => s.(tables := WriteStep(s.tables, i, o))
  }

  function Run(s: State, acts: seq<Act>): State {
    if acts == [] then s else Step(Run(s, acts[..|acts| - 1]), acts[|acts| - 1])
  }

  function Start(db: Store, loaded: bool): State {
    var base := if loaded then db.snapshot else Empty;
    State(Journal(base, [], base, []),
          Timers(0, {}, None, 0),
          Tables([], db.log, db.snapshot, [], [], false, false),
          Idle)
  }

  function Batches(flights: seq<Flight>): seq<seq<Entry>> {
    seq(|flights|, i requires 0 <= i < |flights| => flights[i].batch)
  }

  // ---------- conservation ----------

  /** The batches taken, one after the other, then the buffer, are the accepted changes in order, each with
      its author; and every flight carries the document as it was at its take. */
  ghost predicate Conserved(j: Journal, flights: seq<Flight>) {
    && Survives(j.base, Changes(j.accepted))
    && j.currentValue == Fold(j.base, Changes(j.accepted))
    && Concat(Batches(flights)) + j.buffer == Entries(j.base, j.accepted)
    && (forall i :: 0 <= i < |flights| ==>
          && flights[i].batch != []
          && flights[i].upto <= |j.accepted| - |j.buffer|
          && flights[i].snapshot == Fold(j.base, Changes(j.accepted[..flights[i].upto])))
    && (forall i, k :: 0 <= i < k < |flights| ==> flights[i].upto < flights[k].upto)
    && |j.accepted| - |j.buffer| == (if flights == [] then 0 else flights[|flights| - 1].upto)
  }

  lemma AppendConserves(j: Journal, flights: seq<Flight>, c: Change, user: UserId)
    requires Conserved(j, flights) && !(c.Merge? && Panics(j.currentValue, c.patch))
    ensures Conserved(Append(j, c, user), flights)
  {
    var j1 := Append(j, c, user);
    assert Changes(j1.accepted)[..|j.accepted|] == Changes(j.accepted);
    EntriesExtend(j.base, j.accepted, Accepted(c, user));
    assert Concat(Batches(flights)) + j1.buffer == (Concat(Batches(flights)) + j.buffer) + [Entry(j1.currentValue, user)];
    forall i | 0 <= i < |flights|
      ensures j1.accepted[..flights[i].upto] == j.accepted[..flights[i].upto]
    {
    }
  }

  lemma TakeConserves(s: State)
    requires Conserved(s.journal, s.tables.flights)
    ensures Conserved(Take(s).journal, Take(s).tables.flights)
  {
    var j := s.journal;
    if j.buffer != [] {
      var flights, flights1 := s.tables.flights, Take(s).tables.flights;
      assert Batches(flights1) == Batches(flights) + [j.buffer];
      assert Batches(flights1)[..|flights1| - 1] == Batches(flights);
      assert Concat(Batches(flights1)) + [] == Concat(Batches(flights)) + j.buffer;
      assert j.accepted[..|j.accepted|] == j.accepted;
    }
  }

  lemma RephaseBatches(flights: seq<Flight>, i: nat, phase: Phase)
    requires i < |flights|
    ensures Batches(flights[i := flights[i].(phase := phase)]) == Batches(flights)
  {
  }

  lemma RephaseConserves(j: Journal, flights: seq<Flight>, i: nat, phase: Phase)
    requires i < |flights| && Conserved(j, flights)
    ensures Conserved(j, flights[i := flights[i].(phase := phase)])
  {
    RephaseBatches(flights, i, phase);
  }

  lemma WriteConserves(t: Tables, j: Journal, i: nat, o: Outcome)
    requires i < |t.flights| && Active(t.flights[i]) && Conserved(j, t.flights)
    ensures Conserved(j, WriteStep(t, i, o).flights)
  {
    RephaseConserves(j, t.flights, i, WriteStep(t, i, o).flights[i].phase);
  }

  lemma ConservedStep(s: State, a: Act)
    requires Conserved(s.journal, s.tables.flights)
    ensures Conserved(Step(s, a).journal, Step(s, a).tables.flights)
  {
    if Enabled(s, a) {
      match a
      case AcceptPatch(p, user) =>
        if !Panics(s.journal.currentValue, p) {
          AppendConserves(s.journal, s.tables.flights, Merge(p), user);
        }
      case AcceptUpdate(v, user) => AppendConserves(s.journal, s.tables.flights, Replace(v), user);
      case LoopTake => TakeConserves(s);
      case TimerTake => TakeConserves(s.(timers := s.timers.(calls := s.timers.calls - 1)));
      case ShutdownTake => TakeConserves(s);
      case Write(i, o) => WriteConserves(s.tables, s.journal, i, o);
      case _ =>
    }
  }

  /** Under any interleaving every accepted change is in exactly one batch or still in the buffer. */
  lemma {:induction false} ConservationOfUpdates(db: Store, loaded: bool, acts: seq<Act>)
    ensures var s := Run(Start(db, loaded), acts); Conserved(s.journal, s.tables.flights)
    decreases |acts|
  {
    if acts != [] {
      ConservationOfUpdates(db, loaded, acts[..|acts| - 1]);
      ConservedStep(Run(Start(db, loaded), acts[..|acts| - 1]), acts[|acts| - 1]);
    }
  }

  // ---------- no stranded edit ----------

  /** The timer the room points to will still fire, or a firing is waiting for the lock. */
  ghost predicate TimerPending(t: Timers) {
    t.current.Some? ==> t.current.value in t.armed || t.calls > 0
  }

  /** What may be in the buffer wherever the loop stands. */
  ghost predicate BufferWatched(s: State) {
    var n := |s.journal.buffer|;
    match s.loop
    case Idle => n < FLUSH_THRESHOLD && (n > 0 ==> s.timers.current.Some?)
    case Appended(_, bufLen) => n <= bufLen
    case MustFlush => true
    case LastLeft => true
    case Writing(_, _) => n == 0
    case Ended => n == 0
    case Crashed => n < FLUSH_THRESHOLD
  }

  lemma WatchedStep(s: State, a: Act)
    requires TimerPending(s.timers) && BufferWatched(s)
    ensures TimerPending(Step(s, a).timers) && BufferWatched(Step(s, a))
  {
  }

  /** Whenever the loop is idle with a nonempty buffer, flushTimer is set and a firing is still to come; the
      buffer then holds fewer than twenty entries; and once the loop has ended it holds none. */
  lemma {:induction false} NoStrandedEdit(db: Store, loaded: bool, acts: seq<Act>)
    ensures var s := Run(Start(db, loaded), acts);
            && TimerPending(s.timers) && BufferWatched(s)
            && (s.loop == Idle && s.journal.buffer != [] ==>
                  && |s.journal.buffer| < FLUSH_THRESHOLD
                  && s.timers.current.Some?
                  && (s.timers.current.value in s.timers.armed || s.timers.calls > 0))
            && (s.loop == Ended ==> s.journal.buffer == [])
    decreases |acts|
  {
    if acts != [] {
      NoStrandedEdit(db, loaded, acts[..|acts| - 1]);
      WatchedStep(Run(Start(db, loaded), acts[..|acts| - 1]), acts[|acts| - 1]);
    }
  }

  lemma RunSnoc(s: State, acts: seq<Act>, a: Act)
    ensures Run(s, acts + [a]) == Step(Run(s, acts), a)
  {
    assert (acts + [a])[..|acts + [a]| - 1] == acts;
  }

  /** Firings alone empty an idle room's buffer, into a batch that holds all of it. */
  lemma FiringsReachTheBuffer(s: State) returns (acts: seq<Act>)
    requires s.loop == Idle && TimerPending(s.timers) && BufferWatched(s) && s.journal.buffer != []
    ensures forall a :: a in acts ==> a.Fire? || a.TimerTake?
    ensures var s1 := Run(s, acts);
            && s1.journal.buffer == []
            && |s1.tables.flights| == |s.tables.flights| + 1
            && s1.tables.flights[|s.tables.flights|].batch == s.journal.buffer
  {
    var id := s.timers.current.value;
    if id in s.timers.armed {
      RunSnoc(s, [], Fire(id));
      assert [] + [Fire(id)] == [Fire(id)];
      RunSnoc(s, [Fire(id)], TimerTake);
      assert Step(s, Fire(id)).journal == s.journal && Step(s, Fire(id)).tables == s.tables;
      acts := [Fire(id)] + [TimerTake];
    } else {
      RunSnoc(s, [], TimerTake);
      acts := [] + [TimerTake];
    }
  }

  // ---------- persisted state is a past state ----------

  /** What was written, wherever the flights stand. */
  ghost predicate Faithful(j: Journal, t: Tables, db: Store) {
    && t.snapshot == (if t.stored == [] then db.snapshot else t.stored[|t.stored| - 1].value)
    && (forall x :: x in t.stored ==> IsPast(j, x))
    && LogWhole(t, db)
  }

  /** The snapshot `x` is the document after some prefix of what has been accepted. */
  ghost predicate IsPast(j: Journal, x: Stored) {
    x.upto <= |j.accepted| && x.value == Fold(j.base, Changes(j.accepted[..x.upto]))
  }

  ghost predicate LogWhole(t: Tables, db: Store) {
    && LoggedOnce(t.flights, t.logged)
    && t.log == db.log + Concat(Pick(Batches(t.flights), t.logged))
  }

  /** The log's batches are those of distinct flights that got past their log write. */
  ghost predicate LoggedOnce(flights: seq<Flight>, logged: seq<nat>) {
    && (forall i :: 0 <= i < |logged| ==> logged[i] < |flights| && flights[logged[i]].phase != Logging)
    && (forall i, k :: 0 <= i < k < |logged| ==> logged[i] != logged[k])
  }

  /** The batches of the flights `logged` names, in that order. */
  function Pick(batches: seq<seq<Entry>>, logged: seq<nat>): seq<seq<Entry>>
    requires forall i :: 0 <= i < |logged| ==> logged[i] < |batches|
  {
    seq(|logged|, i requires 0 <= i < |logged| => batches[logged[i]])
  }

  lemma PickSnoc(batches: seq<seq<Entry>>, logged: seq<nat>, i: nat)
    requires i < |batches| && forall k :: 0 <= k < |logged| ==> logged[k] < |batches|
    ensures Concat(Pick(batches, logged + [i])) == Concat(Pick(batches, logged)) + batches[i]
  {
    var picked := Pick(batches, logged + [i]);
    assert picked[..|picked| - 1] == Pick(batches, logged);
  }

  lemma AppendFaithful(j: Journal, t: Tables, db: Store, c: Change, user: UserId)
    requires Faithful(j, t, db)
    ensures Faithful(Append(j, c, user), t, db)
  {
    var j1 := Append(j, c, user);
    forall x | x in t.stored
      ensures IsPast(j1, x)
    {
      assert IsPast(j, x);
      assert j1.accepted[..x.upto] == j.accepted[..x.upto];
    }
  }

  lemma TakeFaithful(s: State, db: Store)
    requires Faithful(s.journal, s.tables, db)
    ensures Faithful(Take(s).journal, Take(s).tables, db)
  {
    assert Pick(Batches(Take(s).tables.flights), s.tables.logged) == Pick(Batches(s.tables.flights), s.tables.logged);
  }

  /** A flight leaves its logging phase with the write, and its id enters `logged` at most then. */
  lemma WriteLogsOnce(flights: seq<Flight>, logged: seq<nat>, i: nat, phase: Phase)
    requires LoggedOnce(flights, logged) && i < |flights| && phase != Logging
    ensures LoggedOnce(flights[i := flights[i].(phase := phase)], logged)
    ensures flights[i].phase == Logging ==> LoggedOnce(flights[i := flights[i].(phase := phase)], logged + [i])
  {
    if flights[i].phase == Logging {
      assert forall k :: 0 <= k < |logged| ==> logged[k] != i;
    }
  }

  lemma WriteLogs(t: Tables, db: Store, i: nat, o: Outcome)
    requires i < |t.flights| && Active(t.flights[i])
    requires LogWhole(t, db)
    ensures LogWhole(WriteStep(t, i, o), db)
  {
    var t1 := WriteStep(t, i, o);
    var phase := t1.flights[i].phase;
    WriteLogsOnce(t.flights, t.logged, i, phase);
    RephaseBatches(t.flights, i, phase);
    if o != FailedLost && t.flights[i].phase == Logging {
      PickSnoc(Batches(t.flights), t.logged, i);
    }
  }

  lemma WriteFaithful(j: Journal, t: Tables, db: Store, i: nat, o: Outcome)
    requires i < |t.flights| && Active(t.flights[i])
    requires Faithful(j, t, db) && Conserved(j, t.flights)
    ensures Faithful(j, WriteStep(t, i, o), db)
  {
    WriteLogs(t, db, i, o);
    var f, t1 := t.flights[i], WriteStep(t, i, o);
    assert IsPast(j, Stored(f.snapshot, f.upto));
    assert t1.stored == t.stored || t1.stored == t.stored + [Stored(f.snapshot, f.upto)];
  }

  lemma FaithfulStep(s: State, db: Store, a: Act)
    requires Conserved(s.journal, s.tables.flights) && Faithful(s.journal, s.tables, db)
    ensures Faithful(Step(s, a).journal, Step(s, a).tables, db)
  {
    if Enabled(s, a) {
      match a
      case AcceptPatch(p, user) => AppendFaithful(s.journal, s.tables, db, Merge(p), user);
      case AcceptUpdate(v, user) => AppendFaithful(s.journal, s.tables, db, Replace(v), user);
      case LoopTake => TakeFaithful(s, db);
      case TimerTake => TakeFaithful(s.(timers := s.timers.(calls := s.timers.calls - 1)), db);
      case ShutdownTake => TakeFaithful(s, db);
      case Write(i, o) => WriteFaithful(s.journal, s.tables, db, i, o);
      case _ =>
    }
  }

  /** Every snapshot ever stored is the fold of a prefix of the accepted changes, whatever fails and however
      the flushes interleave; and the log holds whole batches, each at most once. */
  lemma {:induction false} PersistedStateIsPast(db: Store, loaded: bool, acts: seq<Act>)
    ensures var s := Run(Start(db, loaded), acts); Faithful(s.journal, s.tables, db)
    decreases |acts|
  {
    if acts == [] {
      assert db.log + [] == db.log;
    } else {
      var rest := acts[..|acts| - 1];
      PersistedStateIsPast(db, loaded, rest);
      ConservationOfUpdates(db, loaded, rest);
      FaithfulStep(Run(Start(db, loaded), rest), db, acts[|acts| - 1]);
    }
  }

  /** A flight's writes, one by one: the log first, all of its batch; the snapshot only after a log write that
      reported no error; an error ends it, whether or not its write was applied. */
  lemma WriteReads(t: Tables, i: nat, o: Outcome)
    requires i < |t.flights| && t.flights[i].phase != Done && !t.flights[i].snapshot.Empty?
    ensures var t1, f := WriteStep(t, i, o), t.flights[i];
            && t1.flights == t.flights[i := f.(phase := if f.phase == Logging && o == Ok then Upserting else Done)]
            && t1.failed == (t.failed || o != Ok) && t1.overlapped == t.overlapped
            && t1.log == (if f.phase == Logging && o != FailedLost then t.log + f.batch else t.log)
            && t1.snapshot == (if f.phase == Upserting && o != FailedLost then f.snapshot else t.snapshot)
            && t1.stored == (if f.phase == Upserting && o != FailedLost then t.stored + [Stored(f.snapshot, f.upto)]
                             else t.stored)
  {
  }

  // ---------- writes that do not overlap ----------

  /** One flight at a time: only the newest may be active, and what was stored is older. */
  ghost predicate OneAtATime(t: Tables) {
    && (forall i :: 0 <= i < |t.flights| - 1 ==> !Active(t.flights[i]))
    && (forall i, k :: 0 <= i < k < |t.stored| ==> t.stored[i].upto < t.stored[k].upto)
    && (t.flights == [] ==> t.stored == [])
    && (forall x :: x in t.stored ==> StoredBefore(x, t.flights[|t.flights| - 1]))
  }

  /** `x` is no newer than `f`, and older while `f` has not finished. */
  ghost predicate StoredBefore(x: Stored, f: Flight) {
    if Active(f) then x.upto < f.upto else x.upto <= f.upto
  }

  lemma TakeOneAtATime(s: State)
    requires Conserved(s.journal, s.tables.flights) && OneAtATime(s.tables)
    requires !Take(s).tables.overlapped
    ensures OneAtATime(Take(s).tables)
  {
    var t, t1 := s.tables, Take(s).tables;
    if s.journal.buffer != [] {
      TakeConserves(s);
      if t.flights != [] {
        assert t.flights[|t.flights| - 1] in t.flights;
        assert t1.flights[|t.flights| - 1].upto < t1.flights[|t.flights|].upto;
      }
    }
  }

  lemma WriteOneAtATime(t: Tables, i: nat, o: Outcome)
    requires OneAtATime(t) && i < |t.flights| && Active(t.flights[i])
    ensures OneAtATime(WriteStep(t, i, o))
  {
    assert i == |t.flights| - 1;
    forall k | 0 <= k < |t.stored|
      ensures t.stored[k].upto < t.flights[i].upto
    {
      assert t.stored[k] in t.stored;
    }
  }

  lemma OneAtATimeStep(s: State, a: Act)
    requires Conserved(s.journal, s.tables.flights)
    requires !s.tables.overlapped ==> OneAtATime(s.tables)
    ensures !Step(s, a).tables.overlapped ==> OneAtATime(Step(s, a).tables)
  {
    if Enabled(s, a) && !Step(s, a).tables.overlapped {
      match a
      case LoopTake => TakeOneAtATime(s);
      case TimerTake => TakeOneAtATime(s.(timers := s.timers.(calls := s.timers.calls - 1)));
      case ShutdownTake => TakeOneAtATime(s);
      case Write(i, o) => WriteOneAtATime(s.tables, i, o);
      case _ =>
    }
  }

  /** While no take happens during another flight's writes, each stored snapshot is newer than the one before. */
  lemma {:induction false} SnapshotsOnlyAdvance(db: Store, loaded: bool, acts: seq<Act>)
    ensures var t := Run(Start(db, loaded), acts).tables; !t.overlapped ==> OneAtATime(t)
    decreases |acts|
  {
    if acts != [] {
      var rest := acts[..|acts| - 1];
      SnapshotsOnlyAdvance(db, loaded, rest);
      ConservationOfUpdates(db, loaded, rest);
      OneAtATimeStep(Run(Start(db, loaded), rest), acts[|acts| - 1]);
    }
  }
}
