// The room's pending-update slice: make(0, 128), append, copy out, re-slice to
// zero length (services/notes/internal/realtime/hub.go). The backing array is
// reused after a flush, so a flush must own what it took.

module UpdateBuffer {
  import opened Prelude
  import opened Blocks
  import opened Updates
  import opened FlushProtocol

  class Pending {
    var data: array<Entry>
    var len: nat

    ghost predicate Valid()
      reads this
    {
      len <= data.Length
    }

    ghost function Contents(): seq<Entry>
      requires Valid()
      reads this, data
    {
      data[..len]
    }

    constructor ()
      ensures Valid() && fresh(data) && Contents() == []
    {
      data := new Entry[128];
      len := 0;
    }

    /** append: writes into the backing array while there is room, and moves to a larger one otherwise. */
    method Append(e: Entry)
      requires Valid()
      modifies this, data
      ensures Valid() && Contents() == old(Contents()) + [e]
      ensures data == old(data) || fresh(data)
    {
      if len == data.Length {
        var larger := new Entry[2 * len + 1];
        forall i | 0 <= i < len {
          larger[i] := data[i];
        }
        data := larger;
      }
      data[len] := e;
      len := len + 1;
    }

    /** make and copy, then buffer[:0]: the batch is its own array, the backing array stays. */
    method Take() returns (batch: array<Entry>)
      requires Valid()
      modifies `len
      ensures Valid() && Contents() == [] && data == old(data)
      ensures fresh(batch) && batch[..] == old(Contents())
    {
      batch := new Entry[len];
      forall i | 0 <= i < len {
        batch[i] := data[i];
      }
      len := 0;
    }
  }

  /** However many updates are buffered while a batch is being written, the batch keeps what it took. */
  method BatchSurvivesReuse(pending: Pending, later: seq<Entry>) returns (batch: array<Entry>)
    requires pending.Valid()
    modifies pending, pending.data
    ensures pending.Valid()
    ensures batch[..] == old(pending.Contents())
    ensures pending.Contents() == later
  {
    batch := pending.Take();
    var i := 0;
    while i < |later|
      invariant 0 <= i <= |later|
      invariant pending.Valid() && pending.Contents() == later[..i]
      invariant pending.data == old(pending.data) || fresh(pending.data)
      invariant fresh(batch) && batch != pending.data && batch[..] == old(pending.Contents())
    {
      pending.Append(later[i]);
      i := i + 1;
    }
  }

  // The fields the room's mutex guards, on that slice, and the arrays the flushes
  // that have taken a batch are writing from.
  class GuardedFields {
    const pending: Pending
    var currentValue: Raw
    var batches: seq<array<Entry>>

    ghost var journal: Journal
    ghost var flights: seq<Flight>

    ghost predicate Valid()
      reads this, pending, pending.data, batches
    {
      && pending.Valid()
      && journal.buffer == pending.Contents() && journal.currentValue == currentValue
      && Conserved(journal, flights)
      && |batches| == |flights|
      && forall i :: 0 <= i < |batches| ==> batches[i] != pending.data && batches[i][..] == flights[i].batch
    }

    constructor (base: Raw)
      ensures Valid() && fresh(pending) && fresh(pending.data)
      ensures journal == Journal(base, [], base, []) && flights == []
    {
      pending := new Pending();
      currentValue, batches := base, [];
      journal, flights := Journal(base, [], base, []), [];
    }

    /** Takes one change in; every batch being written keeps its entries. */
    method Accept(change: Change, user: UserId)
      requires Valid() && !(change.Merge? && Panics(currentValue, change.patch))
      modifies this, pending, pending.data
      ensures Valid() && batches == old(batches) && flights == old(flights)
      ensures journal == FlushProtocol.Append(old(journal), change, user)
      ensures pending.data == old(pending.data) || fresh(pending.data)
    {
      AppendConserves(journal, flights, change, user);
      match change {
        case Replace(v) => currentValue := v;
        case Merge(p) =>
          var merged := MergeSnapshot(currentValue, p);
          currentValue := merged.value;
      }
      journal := FlushProtocol.Append(journal, change, user);
      pending.Append(Entry(currentValue, user));
    }

    /** The locked half of flush: a nonempty buffer becomes one more flight with an array of its own. */
    method TakeBatch()
      requires Valid()
      modifies this, pending
      ensures Valid() && journal == old(journal).(buffer := [])
      ensures old(batches) <= batches
      ensures flights == if old(journal).buffer == [] then old(flights)
                         else old(flights) + [Flight(old(journal).buffer, old(currentValue), |old(journal).accepted|, Logging)]
    {
      ghost var s := State(journal, Timers(0, {}, None, 0), Tables(flights, [], Empty, [], [], false, false), Idle);
      TakeConserves(s);
      if pending.len == 0 {
        return;
      }
      var batch := pending.Take();
      batches := batches + [batch];
      flights := flights + [Flight(journal.buffer, currentValue, |journal.accepted|, Logging)];
      journal := journal.(buffer := []);
      assert journal == FlushProtocol.Take(s).journal && flights == FlushProtocol.Take(s).tables.flights;
    }
  }
}
