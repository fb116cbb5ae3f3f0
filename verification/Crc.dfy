/**
 * The frame checksum, CRC-16/ARC, in its two forms: the server shifts bit by
 * bit, the client looks up two nibbles in a table.
 */
module Crc {

  type octet = bv8

  function Xor(a: bv16, b: bv16): bv16 {
    a ^ b
  }

  function BitStep(c: bv16): bv16 {
    if c & 1 != 0 then (c >> 1) ^ 0xA001 else c >> 1
  }

  function Shifted(c: bv16, n: nat): bv16 {
    Iterate(BitStep, c, n)
  }

  /** One byte, the server's way: eight steps after adding it in. */
  function Update(c: bv16, b: octet): bv16 {
    Shifted(Xor(c, b as bv16), 8)
  }

  function Crc16From(c: bv16, data: seq<octet>): bv16
    decreases |data|
  {
    if data == [] then c else Crc16From(Update(c, data[0]), data[1..])
  }

  function Crc16(data: seq<octet>): bv16 {
    Crc16From(0, data)
  }

  /** The server's nested loops compute the checksum. */
  method ComputeCrc16(data: seq<octet>) returns (crc: bv16)
    ensures crc == Crc16(data)
  {
    crc := 0;
    var k := 0;
    while k < |data|
      invariant 0 <= k <= |data|
      invariant Crc16From(crc, data[k..]) == Crc16(data)
    {
      assert data[k..][1..] == data[k + 1..];
      crc := ShiftOctet(Xor(crc, data[k] as bv16));
      k := k + 1;
    }
  }

  /** The inner loop: eight steps. */
  method ShiftOctet(start: bv16) returns (crc: bv16)
    ensures crc == Shifted(start, 8)
  {
    crc := start;
    for bit := 0 to 8
      invariant crc == Shifted(start, bit)
    {
      if crc & 1 != 0 { crc := (crc >> 1) ^ 0xA001; } else { crc := crc >> 1; }
    }
  }

  /** The client's table, first and second half. */
  function LowTable(i: bv16): bv16 {
    if i == 0 then 0 else if i == 1 then 0xC0C1 else if i == 2 then 0xC181 else if i == 3 then 0x0140
    else if i == 4 then 0xC301 else if i == 5 then 0x03C0 else if i == 6 then 0x0280 else if i == 7 then 0xC241
    else if i == 8 then 0xC601 else if i == 9 then 0x06C0 else if i == 10 then 0x0780 else if i == 11 then 0xC741
    else if i == 12 then 0x0500 else if i == 13 then 0xC5C1 else if i == 14 then 0xC481 else 0x0440
  }

  function HighTable(i: bv16): bv16 {
    if i == 0 then 0 else if i == 1 then 0xCC01 else if i == 2 then 0xD801 else if i == 3 then 0x1400
    else if i == 4 then 0xF001 else if i == 5 then 0x3C00 else if i == 6 then 0x2800 else if i == 7 then 0xE401
    else if i == 8 then 0xA001 else if i == 9 then 0x6C00 else if i == 10 then 0x7800 else if i == 11 then 0xB401
    else if i == 12 then 0x5000 else if i == 13 then 0x9C01 else if i == 14 then 0x8801 else 0x4400
  }

  /** One byte, the client's way. */
  function AccumulateCRC(c: bv16, ch: octet): bv16 {
    Lookups(c, Xor(c & 0xFF, ch as bv16))
  }

  function Lookups(c: bv16, temp: bv16): bv16 {
    Xor(c >> 8, Xor(LowTable(temp & 0x0F), HighTable(temp >> 4)))
  }

  // ---- iterating a step that respects a sum, on any type ----
  // The register is kept abstract here, so that none of this touches single bits.

  function Iterate<T>(f: T -> T, x: T, n: nat): T {
    if n == 0 then x else f(Iterate(f, x, n - 1))
  }

  ghost predicate Additive<T(!new)>(f: T -> T, add: (T, T) -> T) {
    forall a, b :: f(add(a, b)) == add(f(a), f(b))
  }

  lemma {:induction false} IterateAdditive<T(!new)>(f: T -> T, add: (T, T) -> T, x: T, y: T, n: nat)
    requires Additive(f, add)
    ensures Iterate(f, add(x, y), n) == add(Iterate(f, x, n), Iterate(f, y, n))
  {
    if n > 0 {
      IterateAdditive(f, add, x, y, n - 1);
    }
  }

  lemma {:induction false} IterateTwice<T>(f: T -> T, x: T, m: nat, n: nat)
    ensures Iterate(f, Iterate(f, x, m), n) == Iterate(f, x, m + n)
  {
    if n > 0 {
      IterateTwice(f, x, m, n - 1);
    }
  }

  lemma IterateFour<T>(f: T -> T, x: T)
    ensures Iterate(f, x, 4) == f(f(f(f(x))))
  {
    assert Iterate(f, x, 1) == f(x);
    assert Iterate(f, x, 2) == f(f(x));
    assert Iterate(f, x, 3) == f(f(f(x)));
  }

  lemma IterateEight<T>(f: T -> T, x: T)
    ensures Iterate(f, x, 8) == f(f(f(f(f(f(f(f(x))))))))
  {
    IterateTwice(f, x, 4, 4);
    IterateFour(f, x);
    IterateFour(f, Iterate(f, x, 4));
  }

  /** A word that is the sum of three parts ends as the sum of where the parts end. */
  lemma IterateParts<T(!new)>(f: T -> T, add: (T, T) -> T, n: nat, word: T, top: T, rest: T, low: T, high: T)
    requires Additive(f, add)
    requires word == add(top, rest) && rest == add(low, high)
    ensures Iterate(f, word, n) == add(Iterate(f, top, n), add(Iterate(f, low, n), Iterate(f, high, n)))
  {
    IterateAdditive(f, add, top, rest, n);
    IterateAdditive(f, add, low, high, n);
  }

  /** Adding `late` after n steps is adding `early`, which n steps turn into `late`, before them. */
  lemma IterateEarlier<T(!new)>(f: T -> T, add: (T, T) -> T, n: nat, x: T, early: T, late: T)
    requires Additive(f, add)
    requires Iterate(f, early, n) == late
    ensures Iterate(f, add(Iterate(f, x, n), late), n) == Iterate(f, add(x, early), n + n)
  {
    IterateAdditive(f, add, x, early, n);
    IterateTwice(f, add(x, early), n, n);
  }

  lemma {:induction false} IterateInjective<T(!new)>(f: T -> T, x: T, y: T, n: nat)
    requires forall a, b :: f(a) == f(b) ==> a == b
    requires Iterate(f, x, n) == Iterate(f, y, n)
    ensures x == y
  {
    if n > 0 {
      IterateInjective(f, x, y, n - 1);
    }
  }

  // ---- the step is linear: one lemma per pair of lowest bits ----

  lemma StepBothOdd(x: bv16, y: bv16)
    requires x & 1 != 0 && y & 1 != 0
    ensures BitStep(x ^ y) == BitStep(x) ^ BitStep(y)
  {
  }

  lemma StepBothEven(x: bv16, y: bv16)
    requires x & 1 == 0 && y & 1 == 0
    ensures BitStep(x ^ y) == BitStep(x) ^ BitStep(y)
  {
  }

  lemma StepEvenOdd(x: bv16, y: bv16)
    requires x & 1 == 0 && y & 1 != 0
    ensures BitStep(x ^ y) == BitStep(x) ^ BitStep(y)
  {
  }

  lemma StepOddEven(x: bv16, y: bv16)
    requires x & 1 != 0 && y & 1 == 0
    ensures BitStep(x ^ y) == BitStep(x) ^ BitStep(y)
  {
  }

  lemma StepLinear(x: bv16, y: bv16)
    ensures BitStep(x ^ y) == BitStep(x) ^ BitStep(y)
  {
    if x & 1 != 0 {
      if y & 1 != 0 { StepBothOdd(x, y); } else { StepOddEven(x, y); }
    } else {
      if y & 1 != 0 { StepEvenOdd(x, y); } else { StepBothEven(x, y); }
    }
  }

  lemma StepAdditive()
    ensures Additive(BitStep, Xor)
  {
    forall a, b ensures BitStep(Xor(a, b)) == Xor(BitStep(a), BitStep(b)) {
      StepLinear(a, b);
    }
  }

  /** The step eight times over, written out. */
  function EightSteps(c: bv16): bv16 {
    BitStep(BitStep(BitStep(BitStep(BitStep(BitStep(BitStep(BitStep(c))))))))
  }

  lemma LowNibbleSteps(i: bv16)
    requires i < 16
    ensures EightSteps(i) == LowTable(i)
  {
  }

  lemma HighNibbleSteps(i: bv16)
    requires i < 16
    ensures EightSteps(i << 4) == HighTable(i)
  {
  }

  lemma LowNibble(i: bv16)
    requires i < 16
    ensures Shifted(i, 8) == LowTable(i)
  {
    IterateEight(BitStep, i);
    LowNibbleSteps(i);
  }

  lemma HighNibble(i: bv16)
    requires i < 16
    ensures Shifted(i << 4, 8) == HighTable(i)
  {
    IterateEight(BitStep, i << 4);
    HighNibbleSteps(i);
  }

  /** Eight shifts of a byte in the upper half just move it down. */
  lemma UpperByte(h: bv16)
    requires h < 256
    ensures Shifted(h << 8, 8) == h
  {
    IterateEight(BitStep, h << 8);
  }

  lemma SplitByte(t: bv16)
    requires t < 256
    ensures t == (t & 0x0F) ^ ((t >> 4) << 4) && t & 0x0F < 16 && t >> 4 < 16
  {
  }

  lemma SplitWord(c: bv16, b: bv16)
    requires b < 256
    ensures c ^ b == ((c >> 8) << 8) ^ ((c & 0xFF) ^ b)
    ensures c >> 8 < 256 && (c & 0xFF) ^ b < 256
  {
  }

  lemma ByteRange(ch: octet)
    ensures ch as bv16 < 256
  {
  }

  /** What the two lookups need of the step, the tables and the split of the word; nothing here looks inside them. */
  lemma TwoLookups<T(!new)>(f: T -> T, add: (T, T) -> T, lowTable: T -> T, highTable: T -> T, n: nat,
                            word: T, top: T, rest: T, low: T, high: T, down: T, nibble: T)
    requires Additive(f, add)
    requires word == add(top, rest) && rest == add(low, high)
    requires Iterate(f, top, n) == down
    requires Iterate(f, low, n) == lowTable(low) && Iterate(f, high, n) == highTable(nibble)
    ensures add(down, add(lowTable(low), highTable(nibble))) == Iterate(f, word, n)
  {
    IterateParts(f, add, n, word, top, rest, low, high);
  }

  lemma SplitState(c: bv16, b: bv16, temp: bv16)
    requires b < 256 && temp == (c & 0xFF) ^ b
    ensures Xor(c, b) == Xor((c >> 8) << 8, temp)
    ensures temp == Xor(temp & 0x0F, (temp >> 4) << 4)
    ensures c >> 8 < 256 && temp & 0x0F < 16 && temp >> 4 < 16
  {
    SplitWord(c, b);
    SplitByte(temp);
  }

  lemma TableStep(c: bv16, b: bv16, temp: bv16)
    requires b < 256 && temp == (c & 0xFF) ^ b
    ensures Xor(c >> 8, Xor(LowTable(temp & 0x0F), HighTable(temp >> 4))) == Shifted(Xor(c, b), 8)
  {
    SplitState(c, b, temp);
    UpperByte(c >> 8);
    LowNibble(temp & 0x0F);
    HighNibble(temp >> 4);
    StepAdditive();
    TwoLookups(BitStep, Xor, LowTable, HighTable, 8, Xor(c, b), (c >> 8) << 8, temp,
               temp & 0x0F, (temp >> 4) << 4, c >> 8, temp >> 4);
  }

  lemma LookupStep(c: bv16, b: bv16, temp: bv16)
    requires b < 256 && temp == Xor(c & 0xFF, b)
    ensures Lookups(c, temp) == Shifted(Xor(c, b), 8)
  {
    TableStep(c, b, temp);
  }

  /** The two table lookups are eight bitwise steps, for every state and byte. */
  lemma TableIsBitwise(c: bv16, ch: octet)
    ensures AccumulateCRC(c, ch) == Update(c, ch)
  {
    ByteRange(ch);
    LookupStep(c, ch as bv16, Xor(c & 0xFF, ch as bv16));
  }

  function TableCrcFrom(c: bv16, data: seq<octet>): bv16
    decreases |data|
  {
    if data == [] then c else TableCrcFrom(AccumulateCRC(c, data[0]), data[1..])
  }

  /** Both ends compute the same checksum of every message. */
  lemma {:induction false} SameChecksum(c: bv16, data: seq<octet>)
    ensures TableCrcFrom(c, data) == Crc16From(c, data)
    decreases |data|
  {
    if data != [] {
      TableIsBitwise(c, data[0]);
      SameChecksum(Update(c, data[0]), data[1..]);
    }
  }

  // ---- what the checksum detects ----

  lemma {:induction false} CrcConcat(c: bv16, a: seq<octet>, b: seq<octet>)
    ensures Crc16From(c, a + b) == Crc16From(Crc16From(c, a), b)
    decreases |a|
  {
    if a == [] {
      assert a + b == b;
    } else {
      assert (a + b)[0] == a[0] && (a + b)[1..] == a[1..] + b;
      CrcConcat(Update(c, a[0]), a[1..], b);
    }
  }

  lemma StepInjective(x: bv16, y: bv16)
    requires BitStep(x) == BitStep(y)
    ensures x == y
  {
  }

  lemma ShiftedInjective(x: bv16, y: bv16, n: nat)
    requires Shifted(x, n) == Shifted(y, n)
    ensures x == y
  {
    forall a, b ensures BitStep(a) == BitStep(b) ==> a == b {
      if BitStep(a) == BitStep(b) { StepInjective(a, b); }
    }
    IterateInjective(BitStep, x, y, n);
  }

  lemma XorInjective(c: bv16, d: bv16, b: bv16)
    requires c ^ b == d ^ b
    ensures c == d
  {
  }

  lemma AbsorbInjective(c: bv16, d: bv16, w: bv16, n: nat)
    requires Shifted(Xor(c, w), n) == Shifted(Xor(d, w), n)
    ensures c == d
  {
    assert Xor(c, w) == Xor(d, w) by { ShiftedInjective(Xor(c, w), Xor(d, w), n); }
    XorInjective(c, d, w);
  }

  lemma UpdateInjective(c: bv16, d: bv16, b: octet)
    requires Update(c, b) == Update(d, b)
    ensures c == d
  {
    AbsorbInjective(c, d, b as bv16, 8);
  }

  /** Different states stay different whatever equal bytes follow. */
  lemma {:induction false} StaysDifferent(c: bv16, d: bv16, tail: seq<octet>)
    requires c != d
    ensures Crc16From(c, tail) != Crc16From(d, tail)
    decreases |tail|
  {
    if tail != [] {
      if Update(c, tail[0]) == Update(d, tail[0]) {
        UpdateInjective(c, d, tail[0]);
      }
      StaysDifferent(Update(c, tail[0]), Update(d, tail[0]), tail[1..]);
    }
  }

  /** The state with two bytes added in at once. */
  function WithTwo(c: bv16, b0: octet, b1: octet): bv16 {
    Xor(c, Xor(b0 as bv16, b1 as bv16 << 8))
  }

  lemma XorAssoc(a: bv16, b: bv16, c: bv16)
    ensures Xor(Xor(a, b), c) == Xor(a, Xor(b, c))
  {
  }

  lemma TwoHalves(x: bv16, early: bv16, late: bv16, n: nat)
    requires Shifted(early, n) == late
    ensures Shifted(Xor(Shifted(x, n), late), n) == Shifted(Xor(x, early), n + n)
  {
    StepAdditive();
    IterateEarlier(BitStep, Xor, n, x, early, late);
  }

  lemma SecondByte(x: bv16, b1: bv16)
    requires b1 < 256
    ensures Shifted(Xor(Shifted(x, 8), b1), 8) == Shifted(Xor(x, b1 << 8), 16)
  {
    UpperByte(b1);
    TwoHalves(x, b1 << 8, b1, 8);
  }

  lemma OneByOne(c: bv16, b0: octet, b1: octet)
    ensures Update(Update(c, b0), b1) == Shifted(Xor(Xor(c, b0 as bv16), b1 as bv16 << 8), 16)
  {
    ByteRange(b1);
    SecondByte(Xor(c, b0 as bv16), b1 as bv16);
  }

  lemma AtOnce(c: bv16, low: bv16, high: bv16, n: nat)
    ensures Shifted(Xor(Xor(c, low), high), n) == Shifted(Xor(c, Xor(low, high)), n)
  {
    XorAssoc(c, low, high);
  }

  /** Two bytes are absorbed as one word. */
  lemma TwoBytes(c: bv16, b0: octet, b1: octet)
    ensures Update(Update(c, b0), b1) == Shifted(WithTwo(c, b0, b1), 16)
  {
    OneByOne(c, b0, b1);
    AtOnce(c, b0 as bv16, b1 as bv16 << 8, 16);
  }

  lemma WithTwoInjective(c: bv16, b0: octet, b1: octet, d0: octet, d1: octet)
    requires WithTwo(c, b0, b1) == WithTwo(c, d0, d1)
    ensures b0 == d0 && b1 == d1
  {
  }

  lemma TwoBytesDiffer(c: bv16, b0: octet, b1: octet, d0: octet, d1: octet)
    requires b0 != d0 || b1 != d1
    ensures Crc16From(c, [b0, b1]) != Crc16From(c, [d0, d1])
  {
    AbsorbTwo(c, b0, b1);
    AbsorbTwo(c, d0, d1);
    if Shifted(WithTwo(c, b0, b1), 16) == Shifted(WithTwo(c, d0, d1), 16) {
      ShiftedInjective(WithTwo(c, b0, b1), WithTwo(c, d0, d1), 16);
      WithTwoInjective(c, b0, b1, d0, d1);
    }
  }

  lemma AbsorbTwo(c: bv16, b0: octet, b1: octet)
    ensures Crc16From(c, [b0, b1]) == Shifted(WithTwo(c, b0, b1), 16)
  {
    TwoBytes(c, b0, b1);
    assert [b0, b1][1..] == [b1];
    assert Crc16From(Update(c, b0), [b1]) == Crc16From(Update(Update(c, b0), b1), [b1][1..]);
  }

  /** Messages that differ, but only within two consecutive bytes, have different checksums at any length. */
  lemma DetectsWindow(before: seq<octet>, b0: octet, b1: octet, d0: octet, d1: octet, after: seq<octet>)
    requires b0 != d0 || b1 != d1
    ensures Crc16(before + [b0, b1] + after) != Crc16(before + [d0, d1] + after)
  {
    var c := Crc16From(0, before);
    CrcConcat(0, before, [b0, b1]);
    CrcConcat(0, before, [d0, d1]);
    CrcConcat(0, before + [b0, b1], after);
    CrcConcat(0, before + [d0, d1], after);
    TwoBytesDiffer(c, b0, b1, d0, d1);
    StaysDifferent(Crc16From(c, [b0, b1]), Crc16From(c, [d0, d1]), after);
  }

  // ---- the catalogued check value ----

  /** The register before each byte and after the last. */
  ghost predicate Registers(data: seq<octet>, s: seq<bv16>) {
    |s| == |data| + 1 && forall i :: 0 <= i < |data| ==> AccumulateCRC(s[i], data[i]) == s[i + 1]
  }

  lemma {:induction false} LastRegister(data: seq<octet>, s: seq<bv16>)
    requires Registers(data, s)
    ensures TableCrcFrom(s[0], data) == s[|data|]
    decreases |data|
  {
    if data != [] {
      assert Registers(data[1..], s[1..]) by {
        forall i | 0 <= i < |data| - 1 ensures AccumulateCRC(s[1..][i], data[1..][i]) == s[1..][i + 1] {
          assert AccumulateCRC(s[i + 1], data[i + 1]) == s[i + 2];
        }
      }
      LastRegister(data[1..], s[1..]);
    }
  }

  lemma OneToFive()
    ensures AccumulateCRC(0x0000, 0x31) == 0xD4C1
    ensures AccumulateCRC(0xD4C1, 0x32) == 0x4594
    ensures AccumulateCRC(0x4594, 0x33) == 0xBA04
    ensures AccumulateCRC(0xBA04, 0x34) == 0x14BA
    ensures AccumulateCRC(0x14BA, 0x35) == 0xA455
  {
  }

  lemma SixToNine()
    ensures AccumulateCRC(0xA455, 0x36) == 0x29E4
    ensures AccumulateCRC(0x29E4, 0x37) == 0x9D68
    ensures AccumulateCRC(0x9D68, 0x38) == 0x3C9D
    ensures AccumulateCRC(0x3C9D, 0x39) == 0xBB3D
  {
  }

  /** The digits 1 to 9 have the check value of CRC-16/ARC, 0xBB3D. */
  lemma CheckValue(digits: seq<octet>)
    requires digits == [0x31, 0x32, 0x33, 0x34, 0x35, 0x36, 0x37, 0x38, 0x39]
    ensures Crc16(digits) == 0xBB3D
  {
    var s: seq<bv16> := [0x0000, 0xD4C1, 0x4594, 0xBA04, 0x14BA, 0xA455, 0x29E4, 0x9D68, 0x3C9D, 0xBB3D];
    OneToFive();
    SixToNine();
    assert Registers(digits, s);
    LastRegister(digits, s);
    SameChecksum(0, digits);
  }
}
