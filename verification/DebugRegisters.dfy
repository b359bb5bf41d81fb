/** The x86 debug registers as the engine programs them (section 17.2.4 of the Intel SDM,
    Volume 3): four address registers and the control register DR7. */
module DebugRegisters {
  import opened Words

  datatype HwBpType = Execute | Write | ReadWrite

  const SLOTS: nat := 4

  type Slot = s: int | 0 <= s < 4

  // ---- Registers as bits ---------------------------------------------------------------------------

  /** A register, least significant bit first. */
  type Bits = seq<bool>

  /** A mask operand of at most two bits. */
  type Pair = v: int | 0 <= v < 4

  predicate PairBit(v: Pair, i: int) {
    if i == 0 then v % 2 == 1 else i == 1 && v / 2 == 1
  }

  /** x | (v << k) */
  function Or(x: Bits, v: Pair, k: nat): (r: Bits)
    ensures |r| == |x|
  {
    seq(|x|, i requires 0 <= i < |x| => x[i] || PairBit(v, i - k))
  }

  /** x & ~(v << k) */
  function AndNot(x: Bits, v: Pair, k: nat): (r: Bits)
    ensures |r| == |x|
  {
    seq(|x|, i requires 0 <= i < |x| => x[i] && !PairBit(v, i - k))
  }

  /** (x >> k) & 3 */
  function Field(x: Bits, k: nat): Pair
    requires k + 1 < |x|
  {
    (if x[k] then 1 else 0) + (if x[k + 1] then 2 else 0)
  }

  /** Clearing a field and then setting it leaves the value, whatever was there before. */
  lemma FieldPut(x: Bits, v: Pair, k: nat, i: nat)
    requires i < |x|
    ensures Or(AndNot(x, 3, k), v, k)[i] == if i == k || i == k + 1 then PairBit(v, i - k) else x[i]
  {
    assert AndNot(x, 3, k)[i] == (x[i] && !PairBit(3, i - k));
    assert PairBit(3, i - k) == (i == k || i == k + 1);
  }

  // ---- DR7 -------------------------------------------------------------------------------------------

  function TypeBits(kind: HwBpType): Pair {
    match kind
    case Execute => 0
    case Write => 1
    case ReadWrite => 3
  }

  function LengthBits(size: int): Pair {
    match size
    case 1 => 0
    case 2 => 1
    case 4 => 3
    case 8 => 2
    case _ => 0
  }

  /** How the processor reads the two fields. */
  function TypeOf(t: Pair): Option<HwBpType> {
    match t
    case 0 => Some(Execute)
    case 1 => Some(Write)
    case 2 => None
    case 3 => Some(ReadWrite)
  }

  function SizeOf(n: Pair): int {
    match n
    case 0 => 1
    case 1 => 2
    case 2 => 8
    case 3 => 4
  }

  /** A breakpoint as the processor sees it. */
  datatype Watch = Watch(enabled: bool, address: Word, kind: Option<HwBpType>, size: int)

  /** What the processor reads for a slot from its address register and DR7. */
  function WatchIn(address: Word, dr7: Bits, slot: Slot): Watch
    requires |dr7| == 64
  {
    Watch(dr7[2 * slot], address, TypeOf(Field(dr7, 16 + 4 * slot)), SizeOf(Field(dr7, 18 + 4 * slot)))
  }

  /** The bits of DR7 that belong to a slot, apart from its unused global enable. */
  predicate OfSlot(slot: Slot, i: int) {
    i == 2 * slot || 16 + 4 * slot <= i < 20 + 4 * slot
  }

  /** DR7 after setting a slot, bit by bit. */
  predicate ArmedBits(x: Bits, y: Bits, slot: Slot, t: Pair, n: Pair)
    requires |x| == 64 && |y| == 64
  {
    forall i :: 0 <= i < 64 ==> y[i] == ArmedBit(x[i], i - 2 * slot, i - (16 + 4 * slot), t, n)
  }

  predicate ArmedBit(was: bool, enable: int, field: int, t: Pair, n: Pair) {
    if enable == 0 then true
    else if 0 <= field < 2 then PairBit(t, field)
    else if 2 <= field < 4 then PairBit(n, field - 2)
    else was
  }

  /** Setting a slot: the processor reads back the type, and the size if it is one it knows. */
  lemma ArmedReadsBack(x: Bits, y: Bits, slot: Slot, address: Word, kind: HwBpType, size: int)
    requires |x| == 64 && |y| == 64 && ArmedBits(x, y, slot, TypeBits(kind), LengthBits(size))
    ensures WatchIn(address, y, slot) == Watch(true, address, Some(kind), if size in {1, 2, 4, 8} then size else 1)
  {
    assert Field(y, 16 + 4 * slot) == TypeBits(kind);
    assert Field(y, 18 + 4 * slot) == LengthBits(size);
  }

  /** The bit patterns of the manual: R/W 00 execute, 01 write, 11 read or write; LEN 00 one byte, 01 two,
      11 four, 10 eight. */
  lemma ArmedPattern(x: Bits, y: Bits, slot: Slot, kind: HwBpType, size: int)
    requires |x| == 64 && |y| == 64 && ArmedBits(x, y, slot, TypeBits(kind), LengthBits(size))
    ensures y[2 * slot]
    ensures y[16 + 4 * slot] == !kind.Execute? && y[17 + 4 * slot] == kind.ReadWrite?
    ensures y[18 + 4 * slot] == (size == 2 || size == 4) && y[19 + 4 * slot] == (size == 4 || size == 8)
  {
  }

  lemma ArmedElsewhere(x: Bits, y: Bits, slot: Slot, kind: HwBpType, size: int, i: int)
    requires |x| == 64 && |y| == 64 && ArmedBits(x, y, slot, TypeBits(kind), LengthBits(size))
    requires 0 <= i < 64 && !OfSlot(slot, i)
    ensures y[i] == x[i]
  {
  }

  /** The fields of one slot share no bit with those of another. */
  lemma OtherSlotKept(x: Bits, y: Bits, slot: Slot, other: Slot, address: Word)
    requires |x| == 64 && |y| == 64 && slot != other
    requires forall i :: 0 <= i < 64 && !OfSlot(slot, i) ==> y[i] == x[i]
    ensures WatchIn(address, y, other) == WatchIn(address, x, other)
  {
    forall i | OfSlot(other, i) ensures y[i] == x[i] {
      assert !OfSlot(slot, i);
    }
    assert OfSlot(other, 16 + 4 * other) && OfSlot(other, 17 + 4 * other);
    assert OfSlot(other, 18 + 4 * other) && OfSlot(other, 19 + 4 * other) && OfSlot(other, 2 * other);
  }

  /** The debug registers of the current thread. */
  class ThreadContext {
    var dr: seq<Word>
    var dr7: Bits

    predicate Valid()
      reads this
    {
      |dr| == SLOTS && |dr7| == 64
    }

    /** What the processor watches. */
    function WatchAt(slot: Slot): Watch
      requires Valid()
      reads this
    {
      WatchIn(dr[slot], dr7, slot)
    }

    constructor (dr: seq<Word>, dr7: Bits)
      requires |dr| == SLOTS && |dr7| == 64
      ensures Valid() && this.dr == dr && this.dr7 == dr7
    {
      this.dr, this.dr7 := dr, dr7;
    }

    method SetDebugReg(slot: Slot, address: Word, kind: HwBpType, size: int)
      requires Valid()
      modifies this
      ensures Valid()
      ensures WatchAt(slot) == Watch(true, address, Some(kind), if size in {1, 2, 4, 8} then size else 1)
      ensures forall other: Slot :: other != slot ==> WatchAt(other) == old(WatchAt(other))
      ensures dr == old(dr)[slot := address]
      ensures dr7[2 * slot]
      ensures dr7[16 + 4 * slot] == !kind.Execute? && dr7[17 + 4 * slot] == kind.ReadWrite?
      ensures dr7[18 + 4 * slot] == (size == 2 || size == 4) && dr7[19 + 4 * slot] == (size == 4 || size == 8)
      ensures forall i :: 0 <= i < 64 && i != 2 * slot && !(16 + 4 * slot <= i < 20 + 4 * slot) ==>
                dr7[i] == old(dr7)[i]
    {
      hide WatchIn;
      dr := dr[slot := address];
      SetControl(slot, kind, size);
      forall i | 0 <= i < 64 && !OfSlot(slot, i) ensures dr7[i] == old(dr7)[i] {
        ArmedElsewhere(old(dr7), dr7, slot, kind, size, i);
      }
      ArmedReadsBack(old(dr7), dr7, slot, address, kind, size);
      ArmedPattern(old(dr7), dr7, slot, kind, size);
      forall other: Slot | other != slot ensures WatchAt(other) == old(WatchAt(other)) {
        OtherSlotKept(old(dr7), dr7, slot, other, dr[other]);
      }
    }

    method SetControl(slot: Slot, kind: HwBpType, size: int)
      requires Valid()
      modifies this`dr7
      ensures Valid() && ArmedBits(old(dr7), dr7, slot, TypeBits(kind), LengthBits(size))
    {
      hide TypeBits, LengthBits;
      dr7 := Or(dr7, 1, slot * 2);
      ghost var enabled := dr7;
      var typeVal := TypeBits(kind);
      dr7 := AndNot(dr7, 3, 16 + slot * 4);
      dr7 := Or(dr7, typeVal, 16 + slot * 4);
      ghost var typed := dr7;
      var lenVal := LengthBits(size);
      dr7 := AndNot(dr7, 3, 18 + slot * 4);
      dr7 := Or(dr7, lenVal, 18 + slot * 4);
      forall i | 0 <= i < 64
        ensures dr7[i] == ArmedBit(old(dr7)[i], i - 2 * slot, i - (16 + 4 * slot), typeVal, lenVal)
      {
        FieldPut(enabled, typeVal, 16 + slot * 4, i);
        FieldPut(typed, lenVal, 18 + slot * 4, i);
      }
    }

    /** Only the enable bit and the address are cleared; type and length stay. */
    method ClearDebugReg(slot: Slot)
      requires Valid()
      modifies this
      ensures Valid()
      ensures WatchAt(slot) == old(WatchAt(slot)).(enabled := false, address := 0)
      ensures forall other: Slot :: other != slot ==> WatchAt(other) == old(WatchAt(other))
      ensures dr == old(dr)[slot := 0] && !dr7[2 * slot]
      ensures forall i :: 0 <= i < 64 && i != 2 * slot ==> dr7[i] == old(dr7)[i]
    {
      dr7 := AndNot(dr7, 1, slot * 2);
      dr := dr[slot := 0];
      forall other: Slot | other != slot ensures WatchAt(other) == old(WatchAt(other)) {
        OtherSlotKept(old(dr7), dr7, slot, other, dr[other]);
      }
    }
  }
}
