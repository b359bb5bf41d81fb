/** The bookkeeping shared by hooks and breakpoints: one map by id, one by address, over the same
    entries, each owning its JIT code blocks. */
module Registry {
  import opened Words
  import opened Memory
  import opened PatchLog

  /** Both maps hold the same entries, every entry under its own address, every address once. */
  ghost predicate InStep<E(!new)>(byId: map<nat, E>, byKey: map<Word, E>, next: nat, key: E -> Word) {
    && (forall id <- byId :: id < next && key(byId[id]) in byKey && byKey[key(byId[id])] == byId[id])
    && (forall k <- byKey :: key(byKey[k]) == k && exists id :: id in byId && byId[id] == byKey[k])
    && (forall i, j :: i in byId && j in byId && key(byId[i]) == key(byId[j]) ==> i == j)
  }

  ghost function Owned<E(!new)>(byId: map<nat, E>, blocks: E -> set<Word>): set<Word> {
    set id, a | id in byId && a in blocks(byId[id]) :: a
  }

  /** No code block belongs to two entries. */
  ghost predicate OwnedApart<E(!new)>(byId: map<nat, E>, blocks: E -> set<Word>) {
    forall i, j, a :: i in byId && j in byId && a in blocks(byId[i]) && a in blocks(byId[j]) ==> i == j
  }

  lemma Inserted<E(!new)>(byId: map<nat, E>, byKey: map<Word, E>, next: nat, key: E -> Word, blocks: E -> set<Word>,
                          e: E)
    requires InStep(byId, byKey, next, key) && OwnedApart(byId, blocks)
    requires key(e) !in byKey && blocks(e) !! Owned(byId, blocks)
    ensures InStep(byId[next := e], byKey[key(e) := e], next + 1, key)
    ensures OwnedApart(byId[next := e], blocks)
    ensures Owned(byId[next := e], blocks) == Owned(byId, blocks) + blocks(e)
  {
    var byId', byKey' := byId[next := e], byKey[key(e) := e];
    assert next !in byId;
    forall k | k in byKey' ensures exists id :: id in byId' && byId'[id] == byKey'[k] {
      if k == key(e) {
        assert byId'[next] == byKey'[k];
      } else {
        var id :| id in byId && byId[id] == byKey[k];
        assert byId'[id] == byKey'[k];
      }
    }
    forall a | a in Owned(byId, blocks) + blocks(e) ensures a in Owned(byId', blocks) {
      if a in blocks(e) {
        assert a in blocks(byId'[next]);
      } else {
        var id :| id in byId && a in blocks(byId[id]);
        assert a in blocks(byId'[id]);
      }
    }
  }

  lemma Removed<E(!new)>(byId: map<nat, E>, byKey: map<Word, E>, next: nat, key: E -> Word, blocks: E -> set<Word>,
                         id: nat)
    requires InStep(byId, byKey, next, key) && OwnedApart(byId, blocks) && id in byId
    ensures InStep(byId - {id}, byKey - {key(byId[id])}, next, key)
    ensures OwnedApart(byId - {id}, blocks)
    ensures Owned(byId - {id}, blocks) == Owned(byId, blocks) - blocks(byId[id])
  {
    var byId', byKey' := byId - {id}, byKey - {key(byId[id])};
    forall k | k in byKey' ensures exists i :: i in byId' && byId'[i] == byKey'[k] {
      var i :| i in byId && byId[i] == byKey[k];
      assert byId'[i] == byKey'[k];
    }
    forall a | a in Owned(byId, blocks) - blocks(byId[id]) ensures a in Owned(byId', blocks) {
      var i :| i in byId && a in blocks(byId[i]);
      assert a in blocks(byId'[i]);
    }
  }

  lemma KeyPresent<E(!new)>(byId: map<nat, E>, byKey: map<Word, E>, next: nat, key: E -> Word, id: nat)
    requires InStep(byId, byKey, next, key) && id in byId
    ensures key(byId[id]) in byKey
  {
  }

  lemma OwnedHas<E(!new)>(byId: map<nat, E>, blocks: E -> set<Word>, id: nat)
    requires id in byId
    ensures blocks(byId[id]) <= Owned(byId, blocks)
  {
  }

  lemma NothingRegistered<E(!new)>(next: nat, key: E -> Word, blocks: E -> set<Word>)
    ensures InStep(map[], map[], next, key) && OwnedApart(map[], blocks) && Owned(map[], blocks) == {}
  {
  }

  // ---- Removing everything, entry by entry ------------------------------------------------------

  /** The blocks of the entries that are not in `todo` any more. */
  ghost function Released<E(!new)>(byId: map<nat, E>, blocks: E -> set<Word>, todo: set<nat>): set<Word> {
    set id, a | id in byId && id !in todo && a in blocks(byId[id]) :: a
  }

  lemma ReleasedStart<E(!new)>(byId: map<nat, E>, blocks: E -> set<Word>)
    ensures Released(byId, blocks, byId.Keys) == {}
    ensures Released(byId, blocks, {}) == Owned(byId, blocks)
  {
  }

  lemma ReleasedStep<E(!new)>(byId: map<nat, E>, blocks: E -> set<Word>, todo: set<nat>, id: nat)
    requires id in todo && id in byId
    ensures Released(byId, blocks, todo - {id}) == Released(byId, blocks, todo) + blocks(byId[id])
  {
    forall a | a in Released(byId, blocks, todo) + blocks(byId[id]) ensures a in Released(byId, blocks, todo - {id}) {
      if a in blocks(byId[id]) {
        assert id !in todo - {id};
      } else {
        var i :| i in byId && i !in todo && a in blocks(byId[i]);
        assert i !in todo - {id};
      }
    }
  }

  /** The blocks of an entry still to go have not been released with another. */
  lemma StillLive<E(!new)>(byId: map<nat, E>, blocks: E -> set<Word>, live: set<Word>, todo: set<nat>, id: nat)
    requires OwnedApart(byId, blocks) && Owned(byId, blocks) <= live
    requires id in todo && id in byId
    ensures blocks(byId[id]) <= live - Released(byId, blocks, todo)
  {
    forall a | a in blocks(byId[id]) ensures a in Owned(byId, blocks) && a !in Released(byId, blocks, todo) {
    }
  }

  // ---- Undoing patches in hash-map order ----------------------------------------------------------

  /** Undoing live entries in the order in which the hash map happens to list them. */
  function UndoIds<E>(m: Memory, byId: map<nat, E>, patch: E -> Patch, order: seq<nat>): Memory
    requires forall id <- order :: id in byId
    decreases |order|
  {
    if order == [] then m
    else Undo(UndoIds(m, byId, patch, order[..|order| - 1]), patch(byId[order[|order| - 1]]))
  }

  ghost function PatchesOf<E(!new)>(byId: map<nat, E>, patch: E -> Patch): set<Patch> {
    set id | id in byId :: patch(byId[id])
  }

  ghost predicate PatchesApart<E(!new)>(byId: map<nat, E>, patch: E -> Patch) {
    forall i, j :: i in byId && j in byId && i != j ==> patch(byId[i]) != patch(byId[j])
  }

  lemma KeysKeepPatchesApart<E(!new)>(byId: map<nat, E>, byKey: map<Word, E>, next: nat, key: E -> Word,
                                      patch: E -> Patch)
    requires InStep(byId, byKey, next, key) && forall e: E :: patch(e).addr == key(e)
    ensures PatchesApart(byId, patch) && next !in byId
  {
  }

  lemma PatchInserted<E(!new)>(byId: map<nat, E>, patch: E -> Patch, next: nat, e: E)
    requires next !in byId
    ensures PatchesOf(byId[next := e], patch) == PatchesOf(byId, patch) + {patch(e)}
  {
    var byId' := byId[next := e];
    forall p | p in PatchesOf(byId, patch) + {patch(e)} ensures p in PatchesOf(byId', patch) {
      if p in PatchesOf(byId, patch) {
        var id :| id in byId && p == patch(byId[id]);
        assert p == patch(byId'[id]);
      } else {
        assert p == patch(byId'[next]);
      }
    }
  }

  lemma NoPatches<E(!new)>(patch: E -> Patch)
    ensures PatchesOf(map[], patch) == {}
  {
  }

  lemma PatchRemoved<E(!new)>(byId: map<nat, E>, patch: E -> Patch, id: nat)
    requires PatchesApart(byId, patch) && id in byId
    ensures patch(byId[id]) in PatchesOf(byId, patch)
    ensures PatchesOf(byId - {id}, patch) == PatchesOf(byId, patch) - {patch(byId[id])}
  {
    forall p | p in PatchesOf(byId, patch) - {patch(byId[id])} ensures p in PatchesOf(byId - {id}, patch) {
      var i :| i in byId && p == patch(byId[i]);
      assert p == patch((byId - {id})[i]);
    }
  }

  ghost predicate Lists(order: seq<nat>, ids: set<nat>) {
    (forall id :: id in order <==> id in ids) && (forall i, j :: 0 <= i < j < |order| ==> order[i] != order[j])
  }

  ghost function PatchesIn<E(!new)>(byId: map<nat, E>, patch: E -> Patch, order: seq<nat>): set<Patch>
    requires forall id <- order :: id in byId
  {
    set id | id in order :: patch(byId[id])
  }

  /** If no patches overlap, the order does not matter: every other patch stays in place, and where
      the undone ones were the code is original. */
  lemma {:induction false} AnyOrderRestores<E(!new)>(base: Memory, m: Memory, byId: map<nat, E>, patch: E -> Patch,
                                                     order: seq<nat>, rest: set<Patch>)
    requires forall id <- order :: id in byId
    requires forall i, j :: 0 <= i < j < |order| ==> order[i] != order[j]
    requires PatchesApart(byId, patch)
    requires PatchesOf(byId, patch) !! rest
    requires Consistent(base, m, PatchesOf(byId, patch) + rest)
    ensures Consistent(base, UndoIds(m, byId, patch, order),
                       PatchesOf(byId, patch) + rest - PatchesIn(byId, patch, order))
    decreases |order|
  {
    hide Consistent, Undo;
    var all, done := PatchesOf(byId, patch) + rest, PatchesIn(byId, patch, order);
    if order == [] {
      assert all - done == all;
    } else {
      var last, front := order[|order| - 1], order[..|order| - 1];
      AnyOrderRestores(base, m, byId, patch, front, rest);
      var p, before := patch(byId[last]), PatchesIn(byId, patch, front);
      assert p !in before;
      assert p in PatchesOf(byId, patch);
      UndoConsistent(base, UndoIds(m, byId, patch, front), all - before, p);
      assert done == before + {p};
      assert all - before - {p} == all - done;
    }
  }

  /** Undoing every entry leaves exactly the other live patches. */
  lemma UndoAllRestores<E(!new)>(base: Memory, m: Memory, byId: map<nat, E>, patch: E -> Patch, order: seq<nat>,
                                 rest: set<Patch>)
    requires Lists(order, byId.Keys) && PatchesApart(byId, patch)
    requires PatchesOf(byId, patch) !! rest
    requires Consistent(base, m, PatchesOf(byId, patch) + rest)
    ensures Consistent(base, UndoIds(m, byId, patch, order), rest)
  {
    hide Consistent, UndoIds;
    AnyOrderRestores(base, m, byId, patch, order, rest);
    assert PatchesIn(byId, patch, order) == PatchesOf(byId, patch);
    assert PatchesOf(byId, patch) + rest - PatchesOf(byId, patch) == rest;
  }
}
