// Block documents and patches.
//
// The browser diffs and patches block maps in
// web/src/modules/notes/components/note-view.tsx; the server folds the same
// patches into its snapshot with mergeSnapshot in
// services/notes/internal/realtime/hub.go. A block is its canonical JSON text,
// so comparing two blocks' JSON.stringify results is comparing two blocks.

module Blocks {
  import opened Prelude

  type BlockId = string
  type Block = string
  type Doc = map<BlockId, Block>

  datatype Patch = Patch(upserted: Doc, deleted: seq<BlockId>)

  // The server keeps the document as raw bytes: no bytes at all, JSON's null, a
  // JSON object, some other JSON value, or bytes that are not JSON.
  datatype Raw = Empty | Null | Object(doc: Doc) | Scalar(json: OtherJson) | Broken(bytes: string)

  type OtherJson = s: string | s != "null" witness "0"

  // A change accepted by the room: a block patch, or a whole legacy value.
  datatype Change = Merge(patch: Patch) | Replace(value: Raw)

  /** The block map mergeSnapshot starts from; whatever is not an object counts as no blocks. */
  function Decode(r: Raw): Doc {
    if r.Object? then r.doc else map[]
  }

  /** The texts JavaScript's `!block` is true for. */
  predicate Falsy(b: Block) {
    b == "null" || b == "false" || b == "0" || b == "\"\""
  }

  /** What every plain object inherits, so that looking it up is never undefined and never falsy. */
  predicate Inherited(id: BlockId) {
    id in {"constructor", "hasOwnProperty", "isPrototypeOf", "propertyIsEnumerable", "toLocaleString", "toString",
           "valueOf", "__defineGetter__", "__defineSetter__", "__lookupGetter__", "__lookupSetter__", PROTO}
  }

  /** Assigning to this name sets an object's prototype instead of a property of its own. */
  const PROTO: BlockId := "__proto__"

  function Apply(doc: Doc, p: Patch): Doc {
    (doc + p.upserted) - (set id | id in p.deleted)
  }

  /** Decoding null leaves mergeSnapshot with a nil map: deleting from it is fine, the first upsert panics. */
  predicate Panics(current: Raw, p: Patch) {
    current.Null? && p.upserted != map[]
  }

  /** What the server calls a structural patch: it deletes, or names a block `doc` does not have. */
  predicate Structural(doc: Doc, p: Patch) {
    p.deleted != [] || exists id :: id in p.upserted && id !in doc
  }

  /** The document after a change that does not panic; a nil map is written back as null. */
  function ApplyChange(r: Raw, c: Change): Raw {
    match c
    case Merge(p) => if r.Null? then Null else Object(Apply(Decode(r), p))
    case Replace(v) => v
  }

  /** The document after a history of changes. */
  function Fold(base: Raw, cs: seq<Change>): Raw {
    if cs == [] then base else ApplyChange(Fold(base, cs[..|cs| - 1]), cs[|cs| - 1])
  }

  /** No change of the history panics. */
  predicate Survives(base: Raw, cs: seq<Change>) {
    cs == [] ||
    (&& Survives(base, cs[..|cs| - 1])
     && !(cs[|cs| - 1].Merge? && Panics(Fold(base, cs[..|cs| - 1]), cs[|cs| - 1].patch)))
  }

  // ---------- the client's pair of functions ----------

  /** `next[id]` is falsy: an own block that is, or nothing under that name at all. */
  predicate LooksGone(next: Doc, id: BlockId) {
    if id in next then Falsy(next[id]) else !Inherited(id)
  }

  /** The upserts diffBlocks collects; the one under PROTO is lost in the assignment. */
  function Upserts(prev: Doc, next: Doc): Doc {
    map id | id in next && id != PROTO && (id !in prev || prev[id] != next[id]) :: next[id]
  }

  /** The patches diffBlocks may return: `deleted` lists its ids in some order, each once. */
  ghost predicate IsDiff(prev: Doc, next: Doc, p: Patch) {
    && p.upserted == Upserts(prev, next)
    && (forall id :: id in p.deleted <==> id in prev && LooksGone(next, id))
    && (forall i, j :: 0 <= i < j < |p.deleted| ==> p.deleted[i] != p.deleted[j])
  }

  method DiffBlocks(prev: Doc, next: Doc) returns (p: Patch)
    ensures IsDiff(prev, next, p)
  {
    var upserted: Doc := map[];
    var ids := next.Keys;
    while ids != {}
      invariant ids <= next.Keys
      invariant upserted == map id | id in next && id !in ids && id != PROTO && (id !in prev || prev[id] != next[id])
                            :: next[id]
    {
      var id :| id in ids;
      ids := ids - {id};
      if (id !in prev || prev[id] != next[id]) && id != PROTO {
        upserted := upserted[id := next[id]];
      }
    }

    var deleted: seq<BlockId> := [];
    ids := prev.Keys;
    while ids != {}
      invariant ids <= prev.Keys
      invariant forall id :: id in deleted <==> id in prev && id !in ids && LooksGone(next, id)
      invariant forall i, j :: 0 <= i < j < |deleted| ==> deleted[i] != deleted[j]
    {
      var id :| id in ids;
      ids := ids - {id};
      if LooksGone(next, id) {
        deleted := deleted + [id];
      }
    }
    p := Patch(upserted, deleted);
  }

  method ApplyPatch(local: Doc, p: Patch) returns (next: Doc)
    ensures next == Apply(local, p)
  {
    next := DeleteAll(local + p.upserted, p.deleted);
  }

  /** The delete loop of both patch functions. */
  method DeleteAll(doc: Doc, ids: seq<BlockId>) returns (rest: Doc)
    ensures rest == doc - (set id | id in ids)
  {
    rest := doc;
    var i := 0;
    while i < |ids|
      invariant 0 <= i <= |ids|
      invariant rest == doc - (set id | id in ids[..i])
    {
      rest := rest - {ids[i]};
      i := i + 1;
    }
    assert ids[..i] == ids;
  }

  // ---------- the server's merge and structural test ----------

  /** No value comes back exactly when the source panics. */
  method MergeSnapshot(current: Raw, p: Patch) returns (merged: Option<Raw>)
    ensures merged.None? <==> current.Null? && p.upserted != map[]
    ensures merged.Some? ==> merged.value == ApplyChange(current, Merge(p))
    ensures current.Null? && merged.Some? ==> merged.value == Null
    ensures !current.Null? ==>
      && merged.Some? && merged.value.Object?
      && (forall id :: id in merged.value.doc <==>
            id !in p.deleted && (id in p.upserted || (current.Object? && id in current.doc)))
      && (forall id :: id in merged.value.doc ==>
            (merged.value.doc[id] == if id in p.upserted then p.upserted[id] else current.doc[id]))
  {
    var doc: Doc := map[];
    var isNil := current.Null?;
    if current.Object? {
      doc := current.doc;
    }
    var ids := p.upserted.Keys;
    while ids != {}
      invariant ids <= p.upserted.Keys
      invariant isNil ==> ids == p.upserted.Keys
      invariant doc == Decode(current) + (map id | id in p.upserted && id !in ids :: p.upserted[id])
    {
      if isNil {
        return None;
      }
      var id :| id in ids;
      ids := ids - {id};
      doc := doc[id := p.upserted[id]];
    }
    assert (map id | id in p.upserted && id !in ids :: p.upserted[id]) == p.upserted;
    doc := DeleteAll(doc, p.deleted);
    merged := Some(if isNil then Null else Object(doc));
  }

  method IsStructural(current: Raw, p: Patch) returns (structural: bool)
    ensures structural == Structural(Decode(current), p)
    ensures structural <==>
      |p.deleted| > 0 || exists id :: id in p.upserted && !(current.Object? && id in current.doc)
  {
    structural := |p.deleted| > 0;
    if !structural {
      var ids := p.upserted.Keys;
      while ids != {}
        invariant ids <= p.upserted.Keys
        invariant forall id :: id in p.upserted && id !in ids ==> id in Decode(current)
      {
        var id :| id in ids;
        ids := ids - {id};
        if id !in Decode(current) {
          return true;
        }
      }
    }
  }

  // ---------- what the pair promises ----------

  /** No block that both documents have is falsy in the new one. */
  ghost predicate KeepsCommonBlocks(prev: Doc, next: Doc) {
    forall id :: id in prev && id in next ==> !Falsy(next[id])
  }

  /** No removed id is one that plain objects inherit. */
  ghost predicate RemovalsShow(prev: Doc, next: Doc) {
    forall id :: id in prev && id !in next ==> !Inherited(id)
  }

  /** Nothing is upserted under the one name that cannot be assigned. */
  ghost predicate ProtoUntouched(prev: Doc, next: Doc) {
    PROTO in next ==> PROTO in prev && prev[PROTO] == next[PROTO]
  }

  /** The diff sees every change and no other. */
  ghost predicate DiffSees(prev: Doc, next: Doc) {
    KeepsCommonBlocks(prev, next) && RemovalsShow(prev, next) && ProtoUntouched(prev, next)
  }

  lemma Patched(prev: Doc, next: Doc, p: Patch)
    requires IsDiff(prev, next, p)
    ensures forall id :: id in Apply(prev, p) <==>
      !(id in prev && LooksGone(next, id)) && (id in prev || (id in next && id != PROTO))
    ensures forall id :: id in Apply(prev, p) ==>
      (Apply(prev, p)[id] == if id in next && id != PROTO then next[id] else prev[id])
  {
    forall id | id in Apply(prev, p)
      ensures Apply(prev, p)[id] == if id in next && id != PROTO then next[id] else prev[id]
    {
      assert id in p.upserted <==> id in Upserts(prev, next);
    }
  }

  /** A patch computed against `prev` turns `prev` into `next`, exactly when the diff sees what changed. */
  lemma DiffThenApply(prev: Doc, next: Doc, p: Patch)
    requires IsDiff(prev, next, p)
    ensures Apply(prev, p) == next <==> DiffSees(prev, next)
    ensures ApplyChange(Object(prev), Merge(p)) == Object(next) <==> DiffSees(prev, next)
  {
    var got := Apply(prev, p);
    Patched(prev, next, p);
    if DiffSees(prev, next) {
      assert got.Keys == next.Keys;
      assert forall id :: id in got ==> got[id] == next[id];
    } else if id :| id in prev && id in next && Falsy(next[id]) {
      assert id !in got;
    } else if id :| id in prev && id !in next && Inherited(id) {
      assert id in got;
    } else {
      assert PROTO in next && (PROTO !in prev || prev[PROTO] != next[PROTO]);
      assert PROTO in got ==> got[PROTO] != next[PROTO];
    }
  }

  /** Patching forth and back is the identity when both diffs see what changed. */
  lemma DiffThenUndo(prev: Doc, next: Doc, there: Patch, back: Patch)
    requires IsDiff(prev, next, there) && IsDiff(next, prev, back)
    requires DiffSees(prev, next) && DiffSees(next, prev)
    ensures Apply(Apply(prev, there), back) == prev
  {
    DiffThenApply(prev, next, there);
    DiffThenApply(next, prev, back);
  }

  /** All that changed is what the diff has no way to report. */
  ghost predicate SameWhereSeen(prev: Doc, next: Doc) {
    && (forall id :: id in next && id != PROTO ==> id in prev && prev[id] == next[id])
    && (forall id :: id in prev && id !in next ==> Inherited(id))
  }

  lemma DeletesIff(prev: Doc, next: Doc, p: Patch)
    requires IsDiff(prev, next, p)
    ensures p.deleted != [] <==> exists id :: id in prev && LooksGone(next, id)
  {
    if p.deleted != [] {
      assert p.deleted[0] in p.deleted;
    }
    forall id | id in prev && LooksGone(next, id)
      ensures p.deleted != []
    {
      assert id in p.deleted;
    }
  }

  lemma ApplyNothing(doc: Doc)
    ensures Apply(doc, Patch(map[], [])) == doc
  {
  }

  /** The diff is empty exactly when no kept block is falsy and all that changed is what it cannot report; so for
      documents whose changes it sees, exactly when they are equal. */
  lemma DiffIsEmptyIff(prev: Doc, next: Doc, p: Patch)
    requires IsDiff(prev, next, p)
    ensures p == Patch(map[], []) <==> KeepsCommonBlocks(prev, next) && SameWhereSeen(prev, next)
    ensures DiffSees(prev, next) ==> (p == Patch(map[], []) <==> prev == next)
  {
    DeletesIff(prev, next, p);
    if p == Patch(map[], []) {
      forall id | id in next && id != PROTO
        ensures id in prev && prev[id] == next[id]
      {
        assert id !in p.upserted;
      }
    }
    if KeepsCommonBlocks(prev, next) && SameWhereSeen(prev, next) {
      assert p.upserted == map[];
    }
    if DiffSees(prev, next) {
      DiffThenApply(prev, next, p);
      ApplyNothing(prev);
      assert prev == next ==> SameWhereSeen(prev, next);
    }
  }

  /** The server flushes a client's diff at once exactly when a kept block turned falsy, or an id came or went
      that the diff can report; so for documents whose changes it sees, exactly when the block ids differ. */
  lemma DiffIsStructuralIff(prev: Doc, next: Doc, p: Patch)
    requires IsDiff(prev, next, p)
    ensures Structural(prev, p) <==>
      || !KeepsCommonBlocks(prev, next)
      || (exists id :: id in prev && id !in next && !Inherited(id))
      || (exists id :: id in next && id !in prev && id != PROTO)
    ensures DiffSees(prev, next) ==> (Structural(prev, p) <==> prev.Keys != next.Keys)
  {
    DeletesIff(prev, next, p);
    forall id | id in next && id !in prev && id != PROTO
      ensures id in p.upserted
    {
    }
    if DiffSees(prev, next) && prev.Keys != next.Keys && p.deleted == [] {
      assert forall id :: id in prev ==> id in next;
      var id :| id in next && id !in prev;
      assert id in p.upserted;
    }
  }

  /** What a diff says, block by block. A kept block is deleted exactly for one of the four falsy texts, so never
      when it is a JSON object; a removed one unless its name is one of the twelve every plain object has. */
  lemma DiffReads(prev: Doc, next: Doc, p: Patch, id: BlockId)
    requires IsDiff(prev, next, p)
    ensures id in prev && id in next && next[id] != "" && next[id][0] == '{' ==> id !in p.deleted
    ensures id in prev && id in next ==>
      (id in p.deleted <==> next[id] == "null" || next[id] == "false" || next[id] == "0" || next[id] == "\"\"")
    ensures id in prev && id !in next ==>
      (id in p.deleted <==>
        && id != "constructor" && id != "hasOwnProperty" && id != "isPrototypeOf" && id != "propertyIsEnumerable"
        && id != "toLocaleString" && id != "toString" && id != "valueOf" && id != "__proto__"
        && id != "__defineGetter__" && id != "__defineSetter__" && id != "__lookupGetter__" && id != "__lookupSetter__")
    ensures id !in prev ==> id !in p.deleted
    ensures id in p.upserted <==> id in next && id != "__proto__" && !(id in prev && prev[id] == next[id])
    ensures id in p.upserted ==> p.upserted[id] == next[id]
  {
  }

  /** Nothing changed in a document of object blocks, nothing is sent. */
  lemma NoChangeNoDiff(doc: Doc, p: Patch)
    requires IsDiff(doc, doc, p)
    requires forall id :: id in doc ==> doc[id] != "" && doc[id][0] == '{'
    ensures p.upserted == map[] && p.deleted == []
  {
    if p.deleted != [] {
      DiffReads(doc, doc, p, p.deleted[0]);
    }
    forall id
      ensures id !in p.upserted
    {
      DiffReads(doc, doc, p, id);
    }
  }

  /** Removing a block called toString leaves an empty diff, though no block is falsy. */
  lemma RemovedToStringUnseen(block: Block, p: Patch)
    requires IsDiff(map["toString" := block], map[], p)
    ensures p == Patch(map[], [])
  {
    DiffIsEmptyIff(map["toString" := block], map[], p);
  }

  /** A patch that is not structural keeps the block ids and touches only the blocks it upserts. */
  lemma TextPatchKeepsIds(doc: Doc, p: Patch)
    requires !Structural(doc, p)
    ensures Apply(doc, p).Keys == doc.Keys
    ensures forall id :: id in doc && Apply(doc, p)[id] != doc[id] ==> id in p.upserted
  {
    forall id
      ensures id in Apply(doc, p) <==> id in doc
    {
    }
  }
}
