/** A ring buffer's abstract value: the window of `len` slots that begins at `start` and wraps around. */
module Rings {
  import opened Machine

  function Slot(start: nat, i: nat, size: nat): (k: nat)
    requires start < size && i <= size
    ensures k < size
  {
    if start + i < size then start + i else start + i - size
  }

  /** The index expression of the source, `(start + i) % size`, names the same slot. */
  lemma SlotIsModulo(start: nat, i: nat, size: nat)
    requires start < size && i <= size
    ensures Slot(start, i, size) == (start + i) % size
  {
    var k := start + i;
    var q := k / size;
    assert k == q * size + k % size;
    Multiples(1, q, size);
    Multiples(2, q, size);
    Multiples(q, 0, size);
  }

  /** The source's step from one slot to the next. */
  function Advance(i: uint8, size: uint8): (k: uint8)
    requires i < size
    ensures k as int == Slot(i as int, 1, size as int)
  {
    SlotIsModulo(i as int, 1, size as int);
    ((i as int + 1) % (size as int)) as uint8
  }

  lemma Multiples(a: int, b: int, c: nat)
    ensures a <= b ==> a * c <= b * c
  {
  }

  ghost function Window<T>(slots: seq<T>, start: nat, len: nat): (w: seq<T>)
    requires start < |slots| && len <= |slots|
    ensures |w| == len
  {
    seq(len, i requires 0 <= i < len => slots[Slot(start, i, |slots|)])
  }

  /** Writing the slot just after the window appends to it. */
  lemma WindowAppend<T>(slots: seq<T>, start: nat, len: nat, x: T)
    requires start < |slots| && len < |slots|
    ensures Window(slots[Slot(start, len, |slots|) := x], start, len + 1) == Window(slots, start, len) + [x]
  {
  }

  /** Advancing the start drops the oldest element. */
  lemma WindowDrop<T>(slots: seq<T>, start: nat, len: nat)
    requires start < |slots| && 0 < len <= |slots|
    ensures Window(slots, start, len)[0] == slots[start]
    ensures Window(slots, Slot(start, 1, |slots|), len - 1) == Window(slots, start, len)[1..]
  {
  }
}
