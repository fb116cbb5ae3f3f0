/** Bytes, little-endian words and the error wrapper shared by the other modules. */
module Bytes {

  newtype byte = x: int | 0 <= x < 256

  /** The page of the file protocol, at both ends. */
  const PAGE_SIZE: nat := 504

  datatype Option<+T> = None | Some(value: T)

  function Min(a: int, b: int): int {
    if a <= b then a else b
  }

  function Max(a: int, b: int): int {
    if a >= b then a else b
  }

  lemma Assoc<T>(a: seq<T>, b: seq<T>, c: seq<T>)
    ensures a + b + c == a + (b + c)
  {
  }

  /** `n` zero bytes, what a host file system leaves in a gap. */
  function Zeros(n: nat): (z: seq<byte>)
    ensures |z| == n
  {
    seq(n, _ => 0 as byte)
  }

  /** The bytes of `s` from `lo` up to `hi`, cut off at the end of `s`. */
  function Clip(s: seq<byte>, lo: nat, hi: nat): (r: seq<byte>)
    requires lo <= hi
    ensures |r| <= hi - lo
  {
    s[Min(lo, |s|)..Min(hi, |s|)]
  }

  lemma ClipConcat(s: seq<byte>, lo: nat, mid: nat, hi: nat)
    requires lo <= mid <= hi
    ensures Clip(s, lo, mid) + Clip(s, mid, hi) == Clip(s, lo, hi)
  {
  }

  /** Clipping behind a header is clipping the whole, shifted. */
  lemma ClipShift(s: seq<byte>, k: nat, lo: nat, hi: nat)
    requires lo <= hi && k <= |s|
    ensures Clip(s[k..], lo, hi) == Clip(s, k + lo, k + hi)
  {
  }

  /** `n` written as `width` little-endian bytes. */
  function LittleEndian(n: nat, width: nat): (r: seq<byte>)
    ensures |r| == width
  {
    if width == 0 then [] else [(n % 256) as byte] + LittleEndian(n / 256, width - 1)
  }

  function FromLittleEndian(s: seq<byte>): nat {
    if s == [] then 0 else s[0] as nat + 256 * FromLittleEndian(s[1..])
  }

  function Pow256(width: nat): (r: nat)
    ensures r > 0
  {
    if width == 0 then 1 else 256 * Pow256(width - 1)
  }

  /** Reading back a word that fits its width gives the word. */
  lemma {:induction false} LittleEndianRoundTrip(n: nat, width: nat)
    requires n < Pow256(width)
    ensures FromLittleEndian(LittleEndian(n, width)) == n
  {
    if width > 0 {
      LittleEndianRoundTrip(n / 256, width - 1);
      assert LittleEndian(n, width)[1..] == LittleEndian(n / 256, width - 1);
    }
  }

  /** Every byte string is the encoding of the word it denotes. */
  lemma {:induction false} LittleEndianCanonical(s: seq<byte>)
    ensures FromLittleEndian(s) < Pow256(|s|)
    ensures LittleEndian(FromLittleEndian(s), |s|) == s
  {
    if s != [] {
      LittleEndianCanonical(s[1..]);
      assert s == [s[0]] + s[1..];
    }
  }
}
