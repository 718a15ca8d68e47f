/** The PJW hash of general.c (179-188), on 32-bit unsigned arithmetic. */
module PjwHash {
  /** A C string: its bytes without the terminator. */
  type Key = k: seq<bv8> | forall i :: 0 <= i < |k| ==> k[i] != 0

  const HASH_TABLE_SIZE: int := 97

  /** `*key` as an addend of h: plain char is signed, so bytes from 0x80 up are
      sign-extended. */
  function Extend(c: bv8): bv32 {
    if c >= 0x80 then (c as bv32) | 0xFFFF_FF00 else c as bv32
  }

  function Shifted(h: bv32, c: bv8): bv32 {
    (h << 4) + Extend(c)
  }

  /** One character: shift, add, then fold the top four bits down and clear them. */
  function Mix(h: bv32, c: bv8): bv32 {
    var h1 := Shifted(h, c);
    var g := h1 & 0xF000_0000;
    if g != 0 then (h1 ^ (g >> 4)) ^ g else h1
  }

  /** The running hash after the whole of `key`. */
  function Running(key: seq<bv8>): bv32 {
    if key == [] then 0 else Mix(Running(key[..|key| - 1]), key[|key| - 1])
  }

  function Bucket(key: seq<bv8>): (b: int)
    ensures 0 <= b < HASH_TABLE_SIZE
  {
    (Running(key) as int) % HASH_TABLE_SIZE
  }

  lemma MixBelow28Bits(h: bv32, c: bv8)
    ensures Mix(h, c) < 0x1000_0000
  {
  }

  /** The mixing step without its branch: the low 28 bits, with the top four folded in
      four bits below the top. */
  lemma MixFolds(h: bv32, c: bv8)
    ensures Mix(h, c) == (Shifted(h, c) & 0x0FFF_FFFF) ^ ((Shifted(h, c) >> 28) << 24)
  {
  }

  /** The bucket of a whole key, character by character: h is shifted by four, and the
      character, sign-extended, is added to it on 32 bits; 97 is the number of buckets. */
  lemma BucketExactly(key: seq<bv8>, c: bv8)
    ensures Running([]) == 0 && Bucket(key) == (Running(key) as int) % 97
    ensures var x: bv32 := (Running(key) << 4) + (c as bv32) - (if c < 0x80 then 0 else 0x100);
      Running(key + [c]) == (x & 0x0FFF_FFFF) ^ ((x >> 28) << 24)
  {
    assert (key + [c])[..|key|] == key;
    MixFolds(Running(key), c);
    SignExtends(c);
  }

  lemma SignExtends(c: bv8)
    ensures Extend(c) == (c as bv32) - (if c < 0x80 then 0 else 0x100)
  {
  }

  lemma ShiftKeeps(h: bv32)
    requires h < 0x1000_0000
    ensures (h << 4) >> 4 == h
  {
  }

  /** After every character the hash is below 2^28, whatever wrapped around in the
      addition, so the next shift by four drops no bits. */
  lemma RunningBelow28Bits(key: seq<bv8>)
    ensures Running(key) < 0x1000_0000
    ensures (Running(key) << 4) >> 4 == Running(key)
  {
    if key != [] {
      MixBelow28Bits(Running(key[..|key| - 1]), key[|key| - 1]);
    }
    ShiftKeeps(Running(key));
  }

  /** The body of the loop, lines 182-185. */
  method MixChar(h0: bv32, c: bv8) returns (h: bv32)
    ensures h == Mix(h0, c)
  {
    h := Shifted(h0, c);
    var g := h & 0xF000_0000;
    if g != 0 {
      h := (h ^ (g >> 4)) ^ g;
    }
  }

  method Hash(key: Key) returns (bucket: int)
    ensures bucket == Bucket(key)
  {
    var h: bv32 := 0;
    var i := 0;
    while i < |key|
      invariant 0 <= i <= |key|
      invariant h == Running(key[..i])
    {
      assert key[..i + 1][..i] == key[..i];
      h := MixChar(h, key[i]);
      i := i + 1;
    }
    assert key[..i] == key;
    bucket := (h as int) % HASH_TABLE_SIZE;
  }
}
