/** The address space of the instrumented process: a byte at every address.
    No access goes round the end of the 64-bit space. */
module Memory {
  import opened Words

  type Memory = int -> Byte

  function Read(m: Memory, a: int, n: nat): (bs: seq<Byte>) {
    seq(n, i => m(a + i))
  }

  /** memcpy of `bs` to address `a`. */
  function Write(m: Memory, a: int, bs: seq<Byte>): Memory {
    (x: int) => if a <= x < a + |bs| then bs[x - a] else m(x)
  }

  /** The bytes `bs` lie at address `a`. */
  ghost predicate Holds(m: Memory, a: int, bs: seq<Byte>) {
    forall x: int :: a <= x < a + |bs| ==> m(x) == bs[x - a]
  }

  ghost predicate Same(m1: Memory, m2: Memory) {
    forall x: int :: m1(x) == m2(x)
  }

  ghost predicate SameOff(m1: Memory, m2: Memory, d: iset<int>) {
    forall x: int :: x !in d ==> m1(x) == m2(x)
  }

  predicate InExtent(a: int, n: nat, x: int) {
    a <= x < a + n
  }

  ghost function Extent(a: int, n: nat): iset<int> {
    iset x: int | InExtent(a, n, x)
  }

  function Load(m: Memory, a: int): (w: Word) {
    LeWordBound(Read(m, a, 8));
    LeValue(Read(m, a, 8))
  }

  function Store(m: Memory, a: int, w: Word): Memory {
    Write(m, a, LeBytes(w, 8))
  }

  lemma ReadHeld(m: Memory, a: int, bs: seq<Byte>)
    ensures Holds(m, a, bs) <==> Read(m, a, |bs|) == bs
  {
    if Read(m, a, |bs|) == bs {
      forall x: int | a <= x < a + |bs| ensures m(x) == bs[x - a] {
        assert Read(m, a, |bs|)[x - a] == m(x);
      }
    }
  }

  lemma LoadHeld(m: Memory, a: int, w: Word)
    requires Holds(m, a, LeBytes(w, 8))
    ensures Load(m, a) == w
  {
    ReadHeld(m, a, LeBytes(w, 8));
    LeWord(w);
  }

  lemma LoadStored(m: Memory, a: int, w: Word)
    ensures Load(Store(m, a, w), a) == w
  {
    LoadHeld(Store(m, a, w), a, w);
  }

  /** A load depends on its eight bytes and on nothing else. */
  lemma LoadSame(m1: Memory, m2: Memory, a: int)
    requires forall x: int :: a <= x < a + 8 ==> m1(x) == m2(x)
    ensures Load(m1, a) == Load(m2, a)
  {
    assert Read(m1, a, 8) == Read(m2, a, 8);
  }

  lemma HoldsSame(m1: Memory, m2: Memory, a: int, bs: seq<Byte>)
    requires Holds(m1, a, bs)
    requires forall x: int :: InExtent(a, |bs|, x) ==> m2(x) == m1(x)
    ensures Holds(m2, a, bs)
  {
    forall x: int | a <= x < a + |bs| ensures m2(x) == bs[x - a] {
      assert InExtent(a, |bs|, x);
    }
  }

  lemma HoldsConcat(m: Memory, a: int, xs: seq<Byte>, ys: seq<Byte>)
    ensures Holds(m, a, xs + ys) <==> Holds(m, a, xs) && Holds(m, a + |xs|, ys)
  {
    var zs := xs + ys;
    if Holds(m, a, zs) {
      forall x: int | a <= x < a + |xs| ensures m(x) == xs[x - a] {
        assert zs[x - a] == xs[x - a];
      }
      forall x: int | a + |xs| <= x < a + |zs| ensures m(x) == ys[x - (a + |xs|)] {
        assert zs[x - a] == ys[x - (a + |xs|)];
      }
    }
  }

  /** Saving a window before overwriting it is enough to undo the overwrite. */
  lemma WriteUndone(m: Memory, a: int, bs: seq<Byte>)
    ensures Same(Write(Write(m, a, bs), a, Read(m, a, |bs|)), m)
  {
  }

  /** The words `ws` stored one below the other, the first one just under `sp`. */
  function StoreDown(m: Memory, sp: int, ws: seq<Word>): Memory
    decreases |ws|
  {
    if ws == [] then m else StoreDown(Store(m, sp - 8, ws[0]), sp - 8, ws[1..])
  }

  lemma StoreFrame(m: Memory, a: int, w: Word, x: int)
    requires !(a <= x < a + 8)
    ensures Store(m, a, w)(x) == m(x)
  {
  }

  lemma {:induction false} StoreDownFrame(m: Memory, sp: int, ws: seq<Word>, x: int)
    requires !(sp - 8 * |ws| <= x < sp)
    ensures StoreDown(m, sp, ws)(x) == m(x)
    decreases |ws|
  {
    hide Store;
    if ws != [] {
      StoreFrame(m, sp - 8, ws[0], x);
      StoreDownFrame(Store(m, sp - 8, ws[0]), sp - 8, ws[1..], x);
    }
  }

  lemma {:induction false} StoreDownLoad(m: Memory, sp: int, ws: seq<Word>, k: nat)
    requires k < |ws|
    ensures Load(StoreDown(m, sp, ws), sp - 8 * (k + 1)) == ws[k]
    decreases |ws|
  {
    hide Store, Load;
    var m1 := Store(m, sp - 8, ws[0]);
    if k > 0 {
      StoreDownLoad(m1, sp - 8, ws[1..], k - 1);
    } else {
      LoadStored(m, sp - 8, ws[0]);
      forall x: int | sp - 8 <= x < sp ensures StoreDown(m, sp, ws)(x) == m1(x) {
        StoreDownFrame(m1, sp - 8, ws[1..], x);
      }
      LoadSame(StoreDown(m, sp, ws), m1, sp - 8);
    }
  }
}
