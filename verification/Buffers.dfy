/** The growable buffer buf_s of general.c (100-128), used for characters and for ints. */
module Buffers {
  const INITIAL_BUF_SIZE: nat := 128
  const SIZEOF_INT: nat := 4

  ghost function Pow2(k: nat): nat {
    if k == 0 then 1 else 2 * Pow2(k - 1)
  }

  ghost predicate IsBlockSize(b: nat) {
    exists k: nat :: b == INITIAL_BUF_SIZE * Pow2(k)
  }

  ghost function CapacityFrom(b: nat, need: nat): nat
    requires b > 0
    decreases need - b
  {
    if need <= b then b else CapacityFrom(2 * b, need)
  }

  /** The smallest block of 128, 256, 512, ... bytes that holds `need` bytes. */
  ghost function Capacity(need: nat): nat {
    CapacityFrom(INITIAL_BUF_SIZE, need)
  }

  lemma {:induction false} CapacityFromLeast(k: nat, need: nat, j: nat)
    requires need <= INITIAL_BUF_SIZE * Pow2(j) && (k == 0 || INITIAL_BUF_SIZE * Pow2(k - 1) < need)
    ensures INITIAL_BUF_SIZE * Pow2(k) > 0
    ensures var c := CapacityFrom(INITIAL_BUF_SIZE * Pow2(k), need);
      && need <= c <= INITIAL_BUF_SIZE * Pow2(j) && IsBlockSize(c)
      && (c > INITIAL_BUF_SIZE ==> c < 2 * need)
    decreases need - k
  {
    Pow2Grows(k);
    PowMonotone(k, j);
    if INITIAL_BUF_SIZE * Pow2(k) < need {
      CapacityFromLeast(k + 1, need, j);
    }
  }

  lemma {:induction false} Pow2Grows(k: nat)
    ensures k < Pow2(k)
  {
    if k > 0 {
      Pow2Grows(k - 1);
    }
  }

  /** If 2^(k-1) is too small for a need that 2^j satisfies, then 2^k <= 2^j. */
  lemma {:induction false} PowMonotone(k: nat, j: nat)
    ensures k > 0 && Pow2(k - 1) < Pow2(j) ==> Pow2(k) <= Pow2(j)
    ensures Pow2(j) >= 1
    decreases j
  {
    if j > 0 {
      PowMonotone(if k > 0 then k - 1 else 0, j - 1);
    } else if k > 0 {
      Pow2Grows(k - 1);
    }
  }

  /** Capacity(need) is the least block size that fits, and less than twice the need
      once the buffer has grown at all. */
  lemma CapacityIsLeast(need: nat)
    ensures IsBlockSize(Capacity(need)) && need <= Capacity(need)
    ensures forall b: nat :: IsBlockSize(b) && need <= b ==> Capacity(need) <= b
    ensures Capacity(need) > INITIAL_BUF_SIZE ==> Capacity(need) < 2 * need
  {
    assert Pow2(0) == 1;
    Pow2Grows(need);
    CapacityFromLeast(0, need, need);
    forall b: nat | IsBlockSize(b) && need <= b
      ensures Capacity(need) <= b
    {
      var j: nat :| b == INITIAL_BUF_SIZE * Pow2(j);
      CapacityFromLeast(0, need, j);
    }
  }

  lemma DoubleBlock(b: nat)
    requires IsBlockSize(b)
    ensures IsBlockSize(2 * b) && b % SIZEOF_INT == 0
  {
    var k: nat :| b == INITIAL_BUF_SIZE * Pow2(k);
    assert 2 * b == INITIAL_BUF_SIZE * Pow2(k + 1);
  }

  /** One doubling is enough: when the block that is right for n bytes cannot take n+d
      bytes, for d no larger than a block, the right block for n+d is twice it. */
  lemma OneDoublingMakesRoom(n: nat, d: nat)
    requires d <= INITIAL_BUF_SIZE && Capacity(n) < n + d
    ensures Capacity(n + d) == 2 * Capacity(n)
  {
    CapacityIsLeast(n);
    CapacityIsLeast(n + d);
    var c := Capacity(n);
    DoubleBlock(c);
    assert Capacity(n + d) <= 2 * c;
    var k: nat :| c == INITIAL_BUF_SIZE * Pow2(k);
    var j: nat :| Capacity(n + d) == INITIAL_BUF_SIZE * Pow2(j);
    PowMonotone(k + 1, j);
  }

  lemma RoomLeft(n: nat, d: nat)
    requires n + d <= Capacity(n)
    ensures Capacity(n + d) == Capacity(n)
  {
    CapacityIsLeast(n);
    CapacityIsLeast(n + d);
  }

  lemma EighthsBound(q: nat, ints: nat)
    requires 128 * q < 8 * ints + 2
    ensures 128 * q <= 8 * ints
  {
    assert 16 * q <= ints;
  }

  /** A block that is less than twice a number of bytes, plus two, is at most twice that
      number: blocks are whole numbers of ints. */
  lemma BlockBound(b: nat, ints: nat)
    requires IsBlockSize(b) && b < 2 * (SIZEOF_INT * ints + 1)
    ensures b <= 2 * (SIZEOF_INT * ints)
  {
    var k: nat :| b == INITIAL_BUF_SIZE * Pow2(k);
    EighthsBound(Pow2(k), ints);
  }

  /** sa_ralloc: a block of `length` elements that keeps the old contents. */
  method Reallocate<T(0)>(data: array<T>, length: nat) returns (grown: array<T>)
    requires data.Length <= length
    ensures fresh(grown) && grown.Length == length && grown[..data.Length] == data[..]
  {
    grown := new T[length];
    for i := 0 to data.Length
      invariant forall k :: 0 <= k < i ==> grown[k] == data[k]
    {
      grown[i] := data[i];
    }
  }

  /** A buf_s used through buf_add_char. */
  class CharBuf {
    var bsize: nat           // allocated bytes
    var size: nat            // characters in use
    var data: array<char>
    ghost var copied: nat    // bytes moved by all reallocations so far

    ghost predicate Valid()
      reads this
    {
      data.Length == bsize && size <= bsize && bsize > 0
    }

    /** The block is the right one for the contents, and growing it to this size has
        moved no more bytes than it must. */
    ghost predicate Tight()
      reads this
    {
      bsize == Capacity(size) && copied + INITIAL_BUF_SIZE == bsize
    }

    ghost function Contents(): string
      requires Valid()
      reads this, data
    {
      data[..size]
    }

    /** buf_init */
    constructor ()
      ensures Valid() && Tight() && Contents() == [] && copied == 0 && fresh(data)
    {
      data := new char[INITIAL_BUF_SIZE];
      bsize, size, copied := INITIAL_BUF_SIZE, 0, 0;
    }

    /** buf_add_char */
    method Add(c: char)
      requires Valid()
      modifies this, data
      ensures Valid() && Contents() == old(Contents()) + [c]
      ensures old(Tight()) ==> Tight()
      ensures size == old(size) + 1 && (data == old(data) || fresh(data))
    {
      if size == bsize {
        if Tight() {
          OneDoublingMakesRoom(size, 1);
        }
        copied := copied + bsize;
        bsize := bsize * 2;
        data := Reallocate(data, bsize);
      } else if Tight() {
        RoomLeft(size, 1);
      }
      data[size] := c;
      size := size + 1;
    }

    /** The allocated block is the smallest that fits and wastes at most half, and
        all growth together has copied less than two bytes per byte in use. */
    lemma Amortised()
      requires Valid() && Tight()
      ensures IsBlockSize(bsize) && forall b: nat :: IsBlockSize(b) && size <= b ==> bsize <= b
      ensures bsize <= INITIAL_BUF_SIZE || bsize < 2 * size
      ensures copied <= 2 * size
    {
      CapacityIsLeast(size);
    }
  }

  /** A buf_s used through buf_add_int: size counts ints, bsize counts bytes. */
  class IntBuf {
    var bsize: nat
    var size: nat
    var data: array<int>
    ghost var copied: nat

    ghost predicate Valid()
      reads this
    {
      data.Length * SIZEOF_INT == bsize && SIZEOF_INT * size < bsize
    }

    ghost predicate Tight()
      reads this
    {
      bsize == Capacity(SIZEOF_INT * size + 1) && copied + INITIAL_BUF_SIZE == bsize
    }

    ghost function Contents(): seq<int>
      requires Valid()
      reads this, data
    {
      data[..size]
    }

    /** buf_init */
    constructor ()
      ensures Valid() && Tight() && Contents() == [] && copied == 0 && fresh(data)
    {
      data := new int[INITIAL_BUF_SIZE / SIZEOF_INT];
      bsize, size, copied := INITIAL_BUF_SIZE, 0, 0;
    }

    /** buf_add_int: grows one element early, as soon as the block would be full. */
    method Add(i: int)
      requires Valid()
      modifies this, data
      ensures Valid() && Contents() == old(Contents()) + [i]
      ensures old(Tight()) ==> Tight()
      ensures size == old(size) + 1 && (data == old(data) || fresh(data))
    {
      var realSize := SIZEOF_INT * size;
      var newSize := realSize + SIZEOF_INT;
      if newSize >= bsize {
        if Tight() {
          OneDoublingMakesRoom(realSize + 1, SIZEOF_INT);
        }
        copied := copied + bsize;
        bsize := bsize * 2;
        data := Reallocate(data, bsize / SIZEOF_INT);
      } else if Tight() {
        RoomLeft(realSize + 1, SIZEOF_INT);
      }
      data[size] := i;
      size := size + 1;
    }

    lemma Amortised()
      requires Valid() && Tight()
      ensures IsBlockSize(bsize) && forall b: nat :: IsBlockSize(b) && SIZEOF_INT * size < b ==> bsize <= b
      ensures bsize <= INITIAL_BUF_SIZE || bsize <= 2 * (SIZEOF_INT * size)
      ensures copied <= 2 * (SIZEOF_INT * size)
    {
      CapacityIsLeast(SIZEOF_INT * size + 1);
      if bsize > INITIAL_BUF_SIZE {
        BlockBound(bsize, size);
      }
    }
  }
}
