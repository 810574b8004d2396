// The circular buffer macros of main/CBUF.h as operations on one buffer.
// RingProtocol.dfy runs a producer and a consumer on it, step by step.

module CircularBuffer {
  import opened Common

  // ---- bits and remainders -------------------------------------------------

  predicate PowerOfTwo8(s: bv8) {
    s == 1 || s == 2 || s == 4 || s == 8 || s == 16 || s == 32 || s == 64 || s == 128
  }

  /** `& Mask` is a remainder and `Wrapped` compares laps, for 8-bit indices and
      every size an 8-bit constant can hold. */
  lemma MaskIsRemainder(x: bv8, s: bv8)
    requires PowerOfTwo8(s)
    ensures x & (s - 1) == x % s
  {
    if s == 1 {
    } else if s == 2 {
    } else if s == 4 {
    } else if s == 8 {
    } else if s == 16 {
    } else if s == 32 {
    } else if s == 64 {
    } else {
    }
  }

  lemma WrappedComparesLaps(put: bv8, get: bv8, s: bv8)
    requires PowerOfTwo8(s)
    ensures (put ^ get) & !(s - 1) != 0 <==> put / s != get / s
  {
    if s == 1 {
    } else if s == 2 {
    } else if s == 4 {
    } else if s == 8 {
    } else if s == 16 {
    } else if s == 32 {
    } else if s == 64 {
    } else {
    }
  }

  // ---- slots and laps ------------------------------------------------------

  /** idx & Mask: the entry an index stands for. */
  function Slot(idx: int, size: nat): (k: nat)
    requires size > 0
    ensures k < size
  {
    idx % size
  }

  /** The rest of the index bits: how often the array has been gone round. */
  function Lap(idx: int, size: nat): int
    requires size > 0
  {
    idx / size
  }

  lemma SlotAndLap(idx: int, size: nat)
    requires size > 0
    ensures idx == Lap(idx, size) * size + Slot(idx, size)
  {
  }

  lemma Multiples(d: int, size: nat)
    requires size > 0
    ensures d >= 1 ==> d * size >= size
    ensures d >= 2 ==> d * size >= 2 * size
    ensures d <= -1 ==> d * size + size <= 0
  {
    if d >= 1 {
      assert (d - 1) * size >= 0;
      assert d >= 2 ==> (d - 2) * size >= 0;
    } else if d <= -1 {
      assert (-1 - d) * size >= 0;
    }
  }

  lemma OnlyOneWay(a: int, r: nat, b: int, t: nat, size: nat)
    requires r < size && t < size && a * size + r == b * size + t
    ensures a == b && r == t
  {
    Multiples(b - a, size);
    assert (b - a) * size == b * size - a * size;
  }

  /** Slot and lap from any decomposition of an index. */
  lemma Decomposed(idx: int, lap: int, slot: nat, size: nat)
    requires slot < size && idx == lap * size + slot
    ensures Slot(idx, size) == slot && Lap(idx, size) == lap
  {
    hide Slot, Lap;
    SlotAndLap(idx, size);
    OnlyOneWay(lap, slot, Lap(idx, size), Slot(idx, size), size);
  }

  /** Going n entries on from an index, n at most the size. */
  lemma Onwards(idx: int, n: nat, size: nat)
    requires size > 0 && n <= size
    ensures var around := Slot(idx, size) + n >= size;
            && Slot(idx + n, size) == (if around then Slot(idx, size) + n - size else Slot(idx, size) + n)
            && Lap(idx + n, size) == (if around then Lap(idx, size) + 1 else Lap(idx, size))
  {
    hide Slot, Lap;
    SlotAndLap(idx, size);
    var lap, slot := Lap(idx, size), Slot(idx, size);
    if slot + n < size {
      Decomposed(idx + n, lap, slot + n, size);
    } else if slot + n < 2 * size {
      assert (lap + 1) * size == lap * size + size;
      Decomposed(idx + n, lap + 1, slot + n - size, size);
    }
  }

  /** Entries less than the size apart are different. */
  lemma DifferentSlots(x: int, n: nat, size: nat)
    requires 0 < n < size
    ensures Slot(x, size) != Slot(x + n, size)
  {
    hide Slot, Lap;
    Onwards(x, n, size);
  }

  /** `m` is the number of index values and `size` the number of entries, both
      powers of two in the source; only divisibility is used. */
  predicate Shape(m: nat, size: nat) {
    0 < size <= m && Slot(m, size) == 0
  }

  lemma WholeLaps(x: int, m: nat, size: nat)
    requires Shape(m, size)
    ensures Slot(x + m, size) == Slot(x, size)
    ensures Lap(x + m, size) == Lap(x, size) + Lap(m, size)
  {
    hide Slot, Lap;
    SlotAndLap(x, size);
    SlotAndLap(m, size);
    var a, q := Lap(x, size), Lap(m, size);
    assert (a + q) * size == a * size + q * size;
    Decomposed(x + m, a + q, Slot(x, size), size);
  }

  // ---- one buffer ----------------------------------------------------------

  /** CBUF_Len: the difference of two indices, in their own unsigned type. */
  function Minus(put: nat, get: nat, m: nat): (d: nat)
    requires put < m && get < m
    ensures d < m
  {
    if put >= get then put - get else put + m - get
  }

  function Bump(idx: nat, m: nat): (i: nat)
    requires idx < m
    ensures i < m
  {
    if idx + 1 == m then 0 else idx + 1
  }

  /** `n` entries from index `get` on. */
  function Visible<T>(entries: seq<T>, get: nat, n: nat): (c: seq<T>)
    requires |entries| > 0
    ensures |c| == n && forall i :: 0 <= i < n ==> c[i] == entries[Slot(get + i, |entries|)]
  {
    seq(n, i requires 0 <= i < n => entries[Slot(get + i, |entries|)])
  }

  /** The put index points just behind the contents. */
  lemma PutSlot(put: nat, get: nat, m: nat, size: nat)
    requires Shape(m, size) && put < m && get < m
    ensures Slot(put, size) == Slot(get + Minus(put, get, m), size)
  {
    hide Slot;
    if put < get {
      WholeLaps(put, m, size);
    }
  }

  lemma BumpedSlot(idx: nat, i: nat, m: nat, size: nat)
    requires Shape(m, size) && idx < m
    ensures Slot(Bump(idx, m) + i, size) == Slot(idx + (i + 1), size)
  {
    hide Slot;
    if idx + 1 == m {
      WholeLaps(i, m, size);
      assert idx + (i + 1) == i + m;
    } else {
      assert Bump(idx, m) + i == idx + (i + 1);
    }
  }

  /** The store of a push puts the new entry behind the contents. */
  lemma StoreAt<T>(entries: seq<T>, get: nat, put: nat, m: nat, x: T)
    requires Shape(m, |entries|) && get < m && put < m && Minus(put, get, m) < |entries|
    ensures var n := Minus(put, get, m);
            Visible(entries[Slot(put, |entries|) := x], get, n + 1) == Visible(entries, get, n) + [x]
  {
    hide Slot;
    var size, n := |entries|, Minus(put, get, m);
    PutSlot(put, get, m, size);
    var before, after := Visible(entries, get, n), Visible(entries[Slot(put, size) := x], get, n + 1);
    forall i | 0 <= i < |before| ensures after[i] == before[i] {
      DifferentSlots(get + i, n - i, size);
    }
    assert after == before + [x];
  }

  /** A store onto any buffer: it replaces the entries that share its slot, and with
      room there are none. */
  lemma StoreOver<T>(entries: seq<T>, get: nat, put: nat, m: nat, x: T)
    requires Shape(m, |entries|) && get < m && put < m
    ensures var n := Minus(put, get, m);
            Visible(entries[Slot(put, |entries|) := x], get, n + 1)
              == Overwritten(Visible(entries, get, n), x, |entries|) + [x]
  {
    hide Slot, Lap;
    var size, n := |entries|, Minus(put, get, m);
    PutSlot(put, get, m, size);
    var before := Visible(entries, get, n);
    var over, after := Overwritten(before, x, size), Visible(entries[Slot(put, size) := x], get, n + 1);
    forall i | 0 <= i < |over| ensures after[i] == over[i] {
      SameSlot(get + i, n - i, size);
      assert get + i + (n - i) == get + n;
    }
    assert after == over + [x];
  }

  /** The contents with x wherever a multiple of the size lies between an entry and
      the end. */
  function Overwritten<T>(s: seq<T>, x: T, size: nat): (r: seq<T>)
    requires size > 0
    ensures |r| == |s| && forall i :: 0 <= i < |r| ==> r[i] == if Slot(|s| - i, size) == 0 then x else s[i]
  {
    seq(|s|, i requires 0 <= i < |s| => if Slot(|s| - i, size) == 0 then x else s[i])
  }

  lemma SameSlot(x: int, d: nat, size: nat)
    requires size > 0
    ensures Slot(x, size) == Slot(x + d, size) <==> Slot(d, size) == 0
  {
    hide Slot, Lap;
    SlotAndLap(x, size);
    SlotAndLap(d, size);
    SlotAndLap(x + d, size);
    var a, b, c := Lap(x, size), Lap(d, size), Lap(x + d, size);
    var slot := Slot(x, size) + Slot(d, size);
    assert (a + b) * size == a * size + b * size && (a + b + 1) * size == (a + b) * size + size;
    if slot < size {
      Decomposed(x + d, a + b, slot, size);
    } else {
      Decomposed(x + d, a + b + 1, slot - size, size);
    }
  }

  /** With room nothing is overwritten. */
  lemma NothingOverwritten<T>(s: seq<T>, x: T, size: nat)
    requires |s| < size
    ensures Overwritten(s, x, size) == s
  {
    hide Slot;
    var r := Overwritten(s, x, size);
    ZeroSlot(size);
    forall i | 0 <= i < |r| ensures r[i] == s[i] {
      DifferentSlots(0, |s| - i, size);
    }
  }

  lemma ZeroSlot(size: nat)
    requires size > 0
    ensures Slot(0, size) == 0
  {
  }

  lemma BumpedLength(get: nat, put: nat, m: nat)
    requires get < m && put < m
    ensures Minus(Bump(put, m), get, m) == if Minus(put, get, m) + 1 == m then 0 else Minus(put, get, m) + 1
    ensures get != put ==> Minus(put, Bump(get, m), m) == Minus(put, get, m) - 1
  {
  }

  /** The bump of a pop takes the first entry off the contents. */
  lemma TakeAt<T>(entries: seq<T>, get: nat, n: nat, m: nat)
    requires Shape(m, |entries|) && get < m && n > 0
    ensures Visible(entries, get, n) == [entries[Slot(get, |entries|)]] + Visible(entries, Bump(get, m), n - 1)
  {
    hide Slot;
    var all, rest := Visible(entries, get, n), Visible(entries, Bump(get, m), n - 1);
    forall i | 0 <= i < |rest| ensures all[1..][i] == rest[i] {
      BumpedSlot(get, i, m, |entries|);
    }
    assert all[1..] == rest;
    assert get + 0 == get && all[0] == entries[Slot(get + 0, |entries|)];
  }

  lemma EndSlot(get: nat, put: nat, m: nat, size: nat, idx: nat)
    requires Shape(m, size) && get < m && put < m && idx < Minus(put, get, m)
    ensures Slot(put - idx - 1, size) == Slot(get + (Minus(put, get, m) - 1 - idx), size)
  {
    hide Slot;
    if put < get {
      WholeLaps(put - idx - 1, m, size);
    }
  }

  lemma LapBounds(idx: int, size: nat)
    requires size > 0
    ensures idx >= 0 ==> Lap(idx, size) >= 0
    ensures idx < 2 * size ==> Lap(idx, size) <= 1
    ensures idx >= 2 * size ==> Lap(idx, size) >= 2
  {
    hide Slot, Lap;
    SlotAndLap(idx, size);
    Multiples(Lap(idx, size), size);
  }

  lemma LapsGrow(x: int, y: int, size: nat)
    requires size > 0 && x <= y
    ensures Lap(x, size) <= Lap(y, size)
  {
    hide Slot, Lap;
    SlotAndLap(x, size);
    SlotAndLap(y, size);
    Multiples(Lap(x, size) - Lap(y, size), size);
    assert (Lap(x, size) - Lap(y, size)) * size == Lap(x, size) * size - Lap(y, size) * size;
  }

  /** With indices of at least twice the buffer size, `Wrapped` says that the
      contents reach the end of the array. */
  lemma WrappedMeans(put: nat, get: nat, m: nat, size: nat)
    requires Shape(m, size) && 2 * size <= m && get < m && put < m && Minus(put, get, m) <= size
    ensures Lap(put, size) != Lap(get, size) <==> Slot(get, size) + Minus(put, get, m) >= size
  {
    hide Slot, Lap;
    Onwards(get, Minus(put, get, m), size);
    WholeLaps(put, m, size);
    WholeLaps(get - m, m, size);
    LapBounds(m, size);
    LapBounds(get, size);
    LapBounds(put, size);
    assert get - m + m == get;
    if put < get {
      assert get + Minus(put, get, m) == put + m;
      // below m the laps of the indices end at Lap(m) - 1
      LapsGrow(get, m - 1, size);
      SlotAndLap(m, size);
      assert (Lap(m, size) - 1) * size == Lap(m, size) * size - size;
      Decomposed(m - 1, Lap(m, size) - 1, size - 1, size);
    }
  }

  class CBuf<T(0)> {
    const indexCount: nat  // 2^k for a k-bit index
    const entry: array<T>
    var getIdx: nat
    var putIdx: nat

    ghost predicate Valid()
      reads this
    {
      Shape(indexCount, entry.Length) && getIdx < indexCount && putIdx < indexCount
    }

    ghost function Contents(): seq<T>
      requires Valid()
      reads this, entry
    {
      Visible(entry[..], getIdx, Minus(putIdx, getIdx, indexCount))
    }

    constructor (indexCount: nat, size: nat)
      requires Shape(indexCount, size)
      ensures Valid() && this.indexCount == indexCount && entry.Length == size && fresh(entry)
      ensures Contents() == []
    {
      this.indexCount := indexCount;
      entry := new T[size];
      getIdx, putIdx := 0, 0;
    }

    function Len(): (n: nat)
      requires Valid()
      reads this, entry
      ensures n == |Contents()|
    {
      Minus(putIdx, getIdx, indexCount)
    }

    function Space(): int
      requires Valid()
      reads this, entry
    {
      entry.Length - Len()
    }

    predicate IsEmpty()
      requires Valid()
      reads this, entry
      ensures IsEmpty() <==> Contents() == []
    {
      Len() == 0
    }

    predicate Wrapped()
      requires Valid()
      reads this
    {
      Lap(putIdx, entry.Length) != Lap(getIdx, entry.Length)
    }

    function ContigLen(): nat
      requires Valid()
      reads this, entry
    {
      if Wrapped() then entry.Length - Slot(getIdx, entry.Length) else Len()
    }

    function ContigSpace(): int
      requires Valid()
      reads this, entry
    {
      if Wrapped() then Space() else entry.Length - Slot(putIdx, entry.Length)
    }

    /** Unguarded. With room it appends; without, it also replaces the entries in its
        slot; and the entry that makes the length wrap around makes the buffer look
        empty. */
    method Push(elem: T)
      requires Valid()
      modifies this`putIdx, entry
      ensures Valid()
      ensures old(Len()) < entry.Length && old(Len()) + 1 < indexCount ==> Contents() == old(Contents()) + [elem]
      ensures old(Len()) + 1 < indexCount ==> Contents() == Overwritten(old(Contents()), elem, entry.Length) + [elem]
      ensures old(Len()) + 1 == indexCount ==> Contents() == []
    {
      hide Slot;
      ghost var was := entry[..];
      BumpedLength(getIdx, putIdx, indexCount);
      StoreOver(was, getIdx, putIdx, indexCount, elem);
      if Len() < entry.Length {
        NothingOverwritten(Contents(), elem, entry.Length);
      }
      entry[Slot(putIdx, entry.Length)] := elem;
      assert entry[..] == was[Slot(putIdx, entry.Length) := elem];
      putIdx := Bump(putIdx, indexCount);
    }

    method Pop() returns (elem: T)
      requires Valid() && !IsEmpty()
      modifies this`getIdx
      ensures Valid() && old(Contents()) == [elem] + Contents()
    {
      hide Slot;
      BumpedLength(getIdx, putIdx, indexCount);
      TakeAt(entry[..], getIdx, Len(), indexCount);
      elem := entry[Slot(getIdx, entry.Length)];
      getIdx := Bump(getIdx, indexCount);
    }

    /** The idx'th element from the beginning and from the end. */
    method Get(idx: nat) returns (elem: T)
      requires Valid() && idx < Len()
      ensures elem == Contents()[idx]
    {
      elem := entry[Slot(getIdx + idx, entry.Length)];
    }

    method GetEnd(idx: nat) returns (elem: T)
      requires Valid() && idx < Len()
      ensures elem == Contents()[|Contents()| - 1 - idx]
    {
      hide Slot;
      elem := entry[Slot(putIdx - idx - 1, entry.Length)];
      EndSlot(getIdx, putIdx, indexCount, entry.Length, idx);
    }

    /** Across index overflow, the contiguous lengths are how far the contents,
        or the free entries, run before the end of the array. */
    lemma ContiguousMeans()
      requires Valid() && Len() <= entry.Length && 2 * entry.Length <= indexCount
      ensures Wrapped() <==> Slot(getIdx, entry.Length) + Len() >= entry.Length
      ensures ContigLen() == Min(Len(), entry.Length - Slot(getIdx, entry.Length))
      ensures ContigSpace() == Min(Space(), entry.Length - Slot(putIdx, entry.Length))
    {
      hide Slot, Lap;
      var size, n := entry.Length, Len();
      WrappedMeans(putIdx, getIdx, indexCount, size);
      PutSlot(putIdx, getIdx, indexCount, size);
      Onwards(getIdx, n, size);
    }
  }
}
