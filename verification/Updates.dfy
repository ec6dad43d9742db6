// Accepted changes, and the buffered updates that record them.

module Updates {
  import opened Blocks

  type UserId = nat

  // The room flushes as soon as this many updates are buffered.
  const FLUSH_THRESHOLD: nat := 20

  // service.BufferedUpdate: the whole document after a change, and its author.
  datatype Entry = Entry(data: Raw, user: UserId)

  // A change the room took, and whose frame it came in.
  datatype Accepted = Accepted(change: Change, user: UserId)

  // The two tables a flush writes.
  datatype Store = Store(log: seq<Entry>, snapshot: Raw)

  function Changes(accepted: seq<Accepted>): seq<Change> {
    seq(|accepted|, i requires 0 <= i < |accepted| => accepted[i].change)
  }

  /** The entry each accepted change leaves in the buffer. */
  function Entries(base: Raw, accepted: seq<Accepted>): seq<Entry> {
    seq(|accepted|, i requires 0 <= i < |accepted| =>
      Entry(Fold(base, Changes(accepted)[..i + 1]), accepted[i].user))
  }

  lemma EntriesExtend(base: Raw, accepted: seq<Accepted>, a: Accepted)
    ensures Changes(accepted + [a]) == Changes(accepted) + [a.change]
    ensures Fold(base, Changes(accepted + [a])) == ApplyChange(Fold(base, Changes(accepted)), a.change)
    ensures Entries(base, accepted + [a])
         == Entries(base, accepted) + [Entry(Fold(base, Changes(accepted + [a])), a.user)]
  {
    var cs, cs1 := Changes(accepted), Changes(accepted + [a]);
    assert cs1 == cs + [a.change];
    assert cs1[..|cs1| - 1] == cs;
    assert cs1[..|cs1|] == cs1;
    forall i | 0 <= i < |accepted|
      ensures Entries(base, accepted + [a])[i] == Entries(base, accepted)[i]
    {
      assert cs1[..i + 1] == cs[..i + 1];
    }
  }
}
