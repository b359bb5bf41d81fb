/** Overwriting code and undoing it: when is the original code back? */
module PatchLog {
  import opened Words
  import opened Memory

  /** A live patch: where it is and what it has overwritten. */
  datatype Patch = Patch(addr: Word, saved: seq<Byte>)

  datatype Edit = Edit(addr: Word, bytes: seq<Byte>)

  function Saving(m: Memory, e: Edit): Patch {
    Patch(e.addr, Read(m, e.addr, |e.bytes|))
  }

  function Undo(m: Memory, p: Patch): Memory {
    Write(m, p.addr, p.saved)
  }

  predicate Covers(p: Patch, x: int) {
    InExtent(p.addr, |p.saved|, x)
  }

  // ---- Last in, first out -----------------------------------------------------------------------

  /** Memory and live patches (newest first) after a series of edits. */
  function EditAll(m: Memory, edits: seq<Edit>, live: seq<Patch>): (Memory, seq<Patch>)
    decreases |edits|
  {
    if edits == [] then (m, live)
    else EditAll(Write(m, edits[0].addr, edits[0].bytes), edits[1..], [Saving(m, edits[0])] + live)
  }

  function UndoAll(m: Memory, live: seq<Patch>): Memory
    decreases |live|
  {
    if live == [] then m else UndoAll(Undo(m, live[0]), live[1..])
  }

  lemma {:induction false} UndoAllSame(m1: Memory, m2: Memory, live: seq<Patch>)
    requires Same(m1, m2)
    ensures Same(UndoAll(m1, live), UndoAll(m2, live))
    decreases |live|
  {
    if live != [] {
      UndoAllSame(Undo(m1, live[0]), Undo(m2, live[0]), live[1..]);
    }
  }

  /** Undone newest first, any series of edits restores every byte, overlapping or not. */
  lemma {:induction false} LifoRestores(m: Memory, edits: seq<Edit>, live: seq<Patch>)
    ensures var (m', live') := EditAll(m, edits, live);
            Same(UndoAll(m', live'), UndoAll(m, live))
    decreases |edits|
  {
    if edits != [] {
      var e := edits[0];
      var m1 := Write(m, e.addr, e.bytes);
      var live1 := [Saving(m, e)] + live;
      LifoRestores(m1, edits[1..], live1);
      WriteUndone(m, e.addr, e.bytes);
      assert live1[1..] == live;
      UndoAllSame(Undo(m1, live1[0]), m, live);
    }
  }

  // ---- Disjoint windows, any order -----------------------------------------------------------------

  ghost predicate Disjoint(p: Patch, q: Patch) {
    forall x: int :: !(Covers(p, x) && Covers(q, x))
  }

  /** The live patches do not overlap, each has saved original bytes, and all other code is
      original. */
  ghost predicate Consistent(base: Memory, m: Memory, live: set<Patch>) {
    && (forall p, q :: p in live && q in live && p != q ==> Disjoint(p, q))
    && (forall p <- live :: Holds(base, p.addr, p.saved))
    && (forall x: int :: m(x) == base(x) || exists p :: p in live && Covers(p, x))
  }

  lemma EditConsistent(base: Memory, m: Memory, live: set<Patch>, e: Edit)
    requires Consistent(base, m, live)
    requires forall p <- live :: Disjoint(p, Saving(m, e))
    ensures Consistent(base, Write(m, e.addr, e.bytes), live + {Saving(m, e)})
  {
    var added := Saving(m, e);
    var m' := Write(m, e.addr, e.bytes);
    forall x: int | Covers(added, x) ensures base(x) == added.saved[x - added.addr] {
      assert forall p <- live :: !(Covers(p, x) && Covers(added, x));
    }
    forall x: int | m'(x) != base(x) ensures exists p :: p in live + {added} && Covers(p, x) {
      if !Covers(added, x) {
        var p :| p in live && Covers(p, x);
        assert p in live + {added};
      } else {
        assert added in live + {added};
      }
    }
  }

  /** Any live patch can be undone next, in any order. */
  lemma UndoConsistent(base: Memory, m: Memory, live: set<Patch>, p: Patch)
    requires Consistent(base, m, live) && p in live
    ensures Consistent(base, Undo(m, p), live - {p})
  {
    var m' := Undo(m, p);
    forall x: int | m'(x) != base(x) ensures exists q :: q in live - {p} && Covers(q, x) {
      if !Covers(p, x) {
        var q :| q in live && Covers(q, x);
        assert q in live - {p};
      }
    }
  }

  lemma NoPatchesLeft(base: Memory, m: Memory)
    requires Consistent(base, m, {})
    ensures Same(m, base)
  {
  }

  // ---- Overlapping windows, any order ----------------------------------------------------------------

  predicate Touches(e: Edit, x: int) {
    InExtent(e.addr, |e.bytes|, x)
  }

  function MemoryAfter(m: Memory, edits: seq<Edit>): Memory
    decreases |edits|
  {
    if edits == [] then m
    else var e := edits[|edits| - 1]; Write(MemoryAfter(m, edits[..|edits| - 1]), e.addr, e.bytes)
  }

  /** What the i-th edit saved. */
  function Saved(m: Memory, edits: seq<Edit>, i: nat): Patch
    requires i < |edits|
  {
    Saving(MemoryAfter(m, edits[..i]), edits[i])
  }

  predicate Within(order: seq<nat>, n: nat) {
    forall k :: 0 <= k < |order| ==> order[k] < n
  }

  /** Undoing some of the edits, in this order. */
  function UndoOrder(m: Memory, edits: seq<Edit>, order: seq<nat>, now: Memory): Memory
    requires Within(order, |edits|)
    decreases |order|
  {
    if order == [] then now
    else Undo(UndoOrder(m, edits, order[..|order| - 1], now), Saved(m, edits, order[|order| - 1]))
  }

  /** The newest of the first `n` edits that wrote to `x`, or -1. */
  function Newest(edits: seq<Edit>, n: nat, x: int): (j: int)
    requires n <= |edits|
    ensures -1 <= j < n
    ensures j >= 0 ==> Touches(edits[j], x)
    ensures forall i :: j < i < n ==> !Touches(edits[i], x)
  {
    if n == 0 then -1 else if Touches(edits[n - 1], x) then n - 1 else Newest(edits, n - 1, x)
  }

  /** The edit around `x` that is undone last, or -1. */
  function LastUndone(edits: seq<Edit>, order: seq<nat>, x: int): (k: int)
    requires Within(order, |edits|)
    ensures k == -1 || (k in order && Touches(edits[k], x))
    ensures k == -1 ==> forall i <- order :: !Touches(edits[i], x)
    decreases |order|
  {
    if order == [] then -1
    else
      var last := order[|order| - 1];
      if Touches(edits[last], x) then last else LastUndone(edits, order[..|order| - 1], x)
  }

  lemma {:induction false} WrittenByte(m: Memory, edits: seq<Edit>, n: nat, x: int)
    requires n <= |edits|
    ensures var j := Newest(edits, n, x);
            MemoryAfter(m, edits[..n])(x) == if j < 0 then m(x) else edits[j].bytes[x - edits[j].addr]
  {
    if n > 0 {
      WrittenByte(m, edits, n - 1, x);
      assert edits[..n][..n - 1] == edits[..n - 1];
    }
  }

  lemma {:induction false} UndoneByte(m: Memory, edits: seq<Edit>, order: seq<nat>, now: Memory, x: int)
    requires Within(order, |edits|)
    ensures var k := LastUndone(edits, order, x);
            UndoOrder(m, edits, order, now)(x) == if k < 0 then now(x) else MemoryAfter(m, edits[..k])(x)
    decreases |order|
  {
    hide MemoryAfter;
    if order != [] {
      UndoneByte(m, edits, order[..|order| - 1], now, x);
    }
  }

  /** The edit whose undo decides about `x` found the original byte there. */
  ghost predicate FoundOriginal(m: Memory, edits: seq<Edit>, order: seq<nat>, x: int)
    requires Within(order, |edits|)
  {
    var k := LastUndone(edits, order, x);
    k < 0 || var j := Newest(edits, k, x);
             j < 0 || edits[j].bytes[x - edits[j].addr] == m(x)
  }

  /** Any number of patches, overlapping or not, undone in any order: the original code is back
      exactly when, at every byte, the patch undone last was the first one there, or came upon a
      patch that had written the original byte. */
  lemma UndoneIff(m: Memory, edits: seq<Edit>, order: seq<nat>)
    requires Within(order, |edits|) && forall i: nat :: i < |edits| ==> i in order
    ensures Same(UndoOrder(m, edits, order, MemoryAfter(m, edits)), m) <==>
              forall x: int :: FoundOriginal(m, edits, order, x)
  {
    var end := UndoOrder(m, edits, order, MemoryAfter(m, edits));
    forall x: int ensures end(x) == m(x) <==> FoundOriginal(m, edits, order, x) {
      hide MemoryAfter, UndoOrder;
      var k := LastUndone(edits, order, x);
      UndoneByte(m, edits, order, MemoryAfter(m, edits), x);
      WrittenByte(m, edits, |edits|, x);
      assert edits[..|edits|] == edits;
      if k >= 0 {
        WrittenByte(m, edits, k, x);
      } else {
        assert Newest(edits, |edits|, x) < 0;
      }
    }
  }

  /** The order in which they were made. */
  function Forwards(n: nat): (order: seq<nat>)
    ensures |order| == n && Within(order, n) && forall i: nat :: i < n ==> i in order
  {
    if n == 0 then [] else Forwards(n - 1) + [n - 1]
  }

  lemma {:induction false} ForwardsNewest(edits: seq<Edit>, n: nat, x: int)
    requires n <= |edits|
    ensures LastUndone(edits, Forwards(n), x) == Newest(edits, n, x)
  {
    if n > 0 {
      ForwardsNewest(edits, n - 1, x);
      assert Forwards(n)[..n - 1] == Forwards(n - 1);
    }
  }

  /** The edit before the newest one at `x` wrote the original byte, if there is one. */
  ghost predicate SecondOriginal(m: Memory, edits: seq<Edit>, x: int) {
    var k := Newest(edits, |edits|, x);
    k < 0 || var j := Newest(edits, k, x);
             j < 0 || edits[j].bytes[x - edits[j].addr] == m(x)
  }

  /** Patches undone in the order they were made: the original code is back exactly when every byte
      that was overwritten more than once had its original value before the last time. */
  lemma FifoRestoresIff(m: Memory, edits: seq<Edit>)
    ensures Same(UndoOrder(m, edits, Forwards(|edits|), MemoryAfter(m, edits)), m) <==>
              forall x: int :: SecondOriginal(m, edits, x)
  {
    hide UndoOrder, MemoryAfter;
    UndoneIff(m, edits, Forwards(|edits|));
    forall x: int ensures FoundOriginal(m, edits, Forwards(|edits|), x) <==> SecondOriginal(m, edits, x) {
      ForwardsNewest(edits, |edits|, x);
    }
  }
}
