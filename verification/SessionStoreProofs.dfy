// The session table on its own: what its conditional update guarantees whatever
// other store calls fall in between, from whichever replica.

module SessionStoreProofs {
  import opened Sessions

  // The store calls that write, each one step. Both callers of the conditional
  // update move the generation they expect up by one.
  datatype StoreOp =
    | StoreSession(key: Key, row: Row)
    | AtomicBumpGen(key: Key, expected: int)
    | DeleteSession(key: Key)
    | BumpUserGlobalVer(user: Uid)

  function Do(t: Tables, op: StoreOp): Tables {
    match op
    case StoreSession(k, row) => t.(sessions := t.sessions[k := row])
    case AtomicBumpGen(k, expected) => BumpGen(t, k, expected, expected + 1)
    case DeleteSession(k) => t.(sessions := t.sessions - {k})
    case BumpUserGlobalVer(u) => BumpVersion(t, u)
  }

  function DoAll(t: Tables, ops: seq<StoreOp>): Tables {
    if ops == [] then t else Do(DoAll(t, ops[..|ops| - 1]), ops[|ops| - 1])
  }

  /** A session id is stored once, at login. */
  predicate Stores(ops: seq<StoreOp>, k: Key) {
    exists op :: op in ops && op.StoreSession? && op.key == k
  }

  predicate Deletes(ops: seq<StoreOp>, k: Key) {
    exists op :: op in ops && op.DeleteSession? && op.key == k
  }

  /** How many conditional updates of `k` applied. */
  function Applied(t: Tables, ops: seq<StoreOp>, k: Key): nat {
    if ops == [] then 0 else
    var rest, op := ops[..|ops| - 1], ops[|ops| - 1];
    Applied(t, rest, k)
    + (if op.AtomicBumpGen? && op.key == k && BumpApplies(DoAll(t, rest), k, op.expected) then 1 else 0)
  }

  /** A stored row lives until it is deleted, and its generation counts the updates that applied. */
  lemma {:induction false} GenerationCountsUpdates(t: Tables, ops: seq<StoreOp>, k: Key)
    requires k in t.sessions && !Stores(ops, k) && !Deletes(ops, k)
    ensures k in DoAll(t, ops).sessions
    ensures DoAll(t, ops).sessions[k] == t.sessions[k].(gen := t.sessions[k].gen + Applied(t, ops, k))
    decreases |ops|
  {
    if ops != [] {
      var rest, op := ops[..|ops| - 1], ops[|ops| - 1];
      assert op in ops && forall x :: x in rest ==> x in ops;
      GenerationCountsUpdates(t, rest, k);
    }
  }

  /** Once an update applied, none that expects the same generation ever applies again. */
  lemma {:induction false} UpdateAppliesOnce(t: Tables, k: Key, expected: int, ops: seq<StoreOp>)
    requires BumpApplies(t, k, expected) && !Stores(ops, k)
    ensures var t1 := DoAll(Do(t, AtomicBumpGen(k, expected)), ops);
            k in t1.sessions ==> t1.sessions[k].gen > expected && !BumpApplies(t1, k, expected)
    decreases |ops|
  {
    if ops != [] {
      var rest, op := ops[..|ops| - 1], ops[|ops| - 1];
      assert op in ops && forall x :: x in rest ==> x in ops;
      UpdateAppliesOnce(t, k, expected, rest);
    }
  }

  /** A deleted row stays gone: no conditional update brings it back. */
  lemma {:induction false} DeletedRowStaysGone(t: Tables, k: Key, ops: seq<StoreOp>)
    requires !Stores(ops, k)
    ensures k !in DoAll(Do(t, DeleteSession(k)), ops).sessions
    decreases |ops|
  {
    if ops != [] {
      var rest, op := ops[..|ops| - 1], ops[|ops| - 1];
      assert op in ops && forall x :: x in rest ==> x in ops;
      DeletedRowStaysGone(t, k, rest);
    }
  }
}
