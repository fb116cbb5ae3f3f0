/** Names as byte strings, and their order: byte by byte, a prefix first. */
module Names {
  import opened Bytes

  type Name = seq<byte>

  predicate NameLe(a: Name, b: Name) {
    a == [] || (b != [] && (a[0] < b[0] || (a[0] == b[0] && NameLe(a[1..], b[1..]))))
  }

  lemma {:induction false} NameLeTotal(a: Name, b: Name)
    ensures NameLe(a, b) || NameLe(b, a)
  {
    if a != [] && b != [] {
      NameLeTotal(a[1..], b[1..]);
    }
  }

  lemma {:induction false} NameLeTransitive(a: Name, b: Name, c: Name)
    requires NameLe(a, b) && NameLe(b, c)
    ensures NameLe(a, c)
  {
    if a != [] && a[0] == b[0] == c[0] {
      NameLeTransitive(a[1..], b[1..], c[1..]);
    }
  }

  lemma {:induction false} NameLeAntisymmetric(a: Name, b: Name)
    requires NameLe(a, b) && NameLe(b, a)
    ensures a == b
  {
    if a != [] && b != [] {
      NameLeAntisymmetric(a[1..], b[1..]);
      assert a == [a[0]] + a[1..] && b == [b[0]] + b[1..];
    }
  }

  /** The first byte in which two names differ decides. */
  lemma {:induction false} FirstDifferenceDecides(common: Name, x: byte, y: byte, a: Name, b: Name)
    requires x < y
    ensures NameLe(common + [x] + a, common + [y] + b) && !NameLe(common + [y] + b, common + [x] + a)
    decreases |common|
  {
    var l, r := common + [x] + a, common + [y] + b;
    if common != [] {
      FirstDifferenceDecides(common[1..], x, y, a, b);
      assert l[1..] == common[1..] + [x] + a && r[1..] == common[1..] + [y] + b;
    }
  }

  /** Without one the shorter name comes first. */
  lemma {:induction false} PrefixFirst(a: Name, more: Name)
    ensures NameLe(a, a + more)
    decreases |a|
  {
    if a != [] {
      PrefixFirst(a[1..], more);
      assert (a + more)[1..] == a[1..] + more;
    }
  }
}
