/**
 * The id allocator: a bitmap searched chunk by chunk, byte by byte, bit by bit.
 * The specification is the set of ids taken; the search finds the least free id.
 */
module IdMap {
  import opened Bytes

  const CHUNK_SIZE: nat := 16

  /** The mask of bit k of a byte. */
  function Mask(k: nat): bv8
    requires k < 8
  {
    if k == 0 then 1 else if k == 1 then 2 else if k == 2 then 4 else if k == 3 then 8
    else if k == 4 then 16 else if k == 5 then 32 else if k == 6 then 64 else 128
  }

  predicate HasBit(b: bv8, k: nat)
    requires k < 8
  {
    b & Mask(k) != 0
  }

  lemma SetBit(b: bv8, k: nat, m: nat)
    requires k < 8 && m < 8
    ensures HasBit(b | Mask(k), m) == (m == k || HasBit(b, m))
  {
  }

  lemma ClearBit(b: bv8, k: nat, m: nat)
    requires k < 8 && m < 8
    ensures HasBit(b & !Mask(k), m) == (m != k && HasBit(b, m))
  {
  }

  lemma FullByte(b: bv8)
    ensures b == 0xFF <==> forall k :: 0 <= k < 8 ==> HasBit(b, k)
  {
    if forall k :: 0 <= k < 8 ==> HasBit(b, k) {
      assert HasBit(b, 0) && HasBit(b, 1) && HasBit(b, 2) && HasBit(b, 3);
      assert HasBit(b, 4) && HasBit(b, 5) && HasBit(b, 6) && HasBit(b, 7);
    }
  }

  /** How many bits are set from the lowest up. */
  function TrailingOnes(b: bv8, from: nat := 0): (n: nat)
    requires from <= 8
    ensures from <= n <= 8
    ensures forall k :: from <= k < n ==> HasBit(b, k)
    ensures n < 8 ==> !HasBit(b, n)
    decreases 8 - from
  {
    if from == 8 || !HasBit(b, from) then from else TrailingOnes(b, from + 1)
  }

  class Map {
    const bytes: array<bv8>
    const chunks: nat

    ghost predicate Valid()
      reads bytes
    {
      chunks > 0 && bytes.Length == CHUNK_SIZE * chunks
    }

    /** The largest id: one less than there are bits. */
    function Size(): nat
      requires chunks > 0
    {
      128 * chunks - 1
    }

    predicate Has(id: nat)
      requires Valid() && 1 <= id <= Size()
      reads bytes
    {
      HasBit(bytes[(id - 1) / 8], (id - 1) % 8)
    }

    ghost function Taken(): set<nat>
      requires Valid()
      reads bytes
    {
      set id | 1 <= id <= Size() && Has(id)
    }

    constructor (chunks: nat)
      requires chunks > 0
      ensures Valid() && this.chunks == chunks && fresh(bytes) && Taken() == {}
    {
      this.chunks := chunks;
      bytes := new bv8[CHUNK_SIZE * chunks](_ => 0);
    }

    method Set(id: nat)
      requires Valid() && 1 <= id <= Size()
      modifies bytes
      ensures Valid() && Taken() == old(Taken()) + {id}
    {
      var byte, bit := (id - 1) / 8, (id - 1) % 8;
      ghost var before := bytes[byte];
      bytes[byte] := bytes[byte] | Mask(bit);
      forall other: nat | 1 <= other <= Size() ensures Has(other) == (other == id || old(Has(other))) {
        SetBit(before, bit, (other - 1) % 8);
      }
    }

    method Clear(id: nat)
      requires Valid() && 1 <= id <= Size()
      modifies bytes
      ensures Valid() && Taken() == old(Taken()) - {id}
    {
      var byte, bit := (id - 1) / 8, (id - 1) % 8;
      ghost var before := bytes[byte];
      bytes[byte] := bytes[byte] & !Mask(bit);
      forall other: nat | 1 <= other <= Size() ensures Has(other) == (other != id && old(Has(other))) {
        ClearBit(before, bit, (other - 1) % 8);
      }
    }

    method IsSet(id: nat) returns (r: bool)
      requires Valid() && 1 <= id <= Size()
      ensures r <==> id in Taken()
    {
      r := HasBit(bytes[(id - 1) / 8], (id - 1) % 8);
    }

    /** The first byte of a chunk with a free bit, or the chunk size. */
    method FreeByte(chunk: nat) returns (offset: nat)
      requires Valid() && chunk < chunks
      ensures offset <= CHUNK_SIZE
      ensures forall j :: chunk * CHUNK_SIZE <= j < chunk * CHUNK_SIZE + offset ==> bytes[j] == 0xFF
      ensures offset < CHUNK_SIZE ==> bytes[chunk * CHUNK_SIZE + offset] != 0xFF
    {
      offset := 0;
      while offset < CHUNK_SIZE && bytes[chunk * CHUNK_SIZE + offset] == 0xFF
        invariant offset <= CHUNK_SIZE
        invariant forall j :: chunk * CHUNK_SIZE <= j < chunk * CHUNK_SIZE + offset ==> bytes[j] == 0xFF
      {
        offset := offset + 1;
      }
    }

    /** The least free id; none exactly when every id is taken, although one bit is spare. */
    method FindFree() returns (r: Option<nat>)
      requires Valid()
      ensures r.Some? ==> 1 <= r.value <= Size() && r.value !in Taken()
      ensures r.Some? ==> forall id :: 1 <= id < r.value ==> id in Taken()
      ensures r.None? ==> forall id :: 1 <= id <= Size() ==> id in Taken()
    {
      for chunk := 0 to chunks
        invariant forall j :: 0 <= j < chunk * CHUNK_SIZE ==> bytes[j] == 0xFF
      {
        var offset := FreeByte(chunk);
        if offset == CHUNK_SIZE { continue; }
        var at := chunk * CHUNK_SIZE + offset;
        var free := TrailingOnes(bytes[at]);
        BelowFree(at, free);
        var candidate := 1 + chunk * CHUNK_SIZE * 8 + offset * 8 + free;
        if candidate > Size() { return None; }
        return Some(candidate);
      }
      AllFull();
      return None;
    }

    lemma BelowFree(at: nat, free: nat)
      requires Valid() && at < bytes.Length && bytes[at] != 0xFF && free == TrailingOnes(bytes[at])
      requires forall j :: 0 <= j < at ==> bytes[j] == 0xFF
      ensures free < 8 && !HasBit(bytes[at], free)
      ensures forall id :: 1 <= id <= Size() && id <= at * 8 + free ==> id in Taken()
    {
      FullByte(bytes[at]);
      forall id | 1 <= id <= Size() && id <= at * 8 + free ensures Has(id) {
        if (id - 1) / 8 < at { FullByte(bytes[(id - 1) / 8]); }
      }
    }

    lemma AllFull()
      requires Valid() && forall j :: 0 <= j < bytes.Length ==> bytes[j] == 0xFF
      ensures forall id :: 1 <= id <= Size() ==> id in Taken()
    {
      forall id | 1 <= id <= Size() ensures Has(id) {
        FullByte(bytes[(id - 1) / 8]);
      }
    }
  }
}
