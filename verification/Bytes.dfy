// Byte strings. The source's `String`s are valid UTF-8, so equality of strings is equality of their bytes.
module Bytes {
  newtype byte = b: int | 0 <= b < 256

  type bytes = seq<byte>

  /** The bytes of an ASCII literal. */
  function Ascii(s: string): (b: bytes)
    requires forall i :: 0 <= i < |s| ==> s[i] < 128 as char
    ensures |b| == |s|
    ensures forall i :: 0 <= i < |s| ==> b[i] as int == s[i] as int
  {
    seq(|s|, i requires 0 <= i < |s| => s[i] as int as byte)
  }

  /** ASCII lower case. */
  function Lower(c: byte): byte {
    if 65 <= c <= 90 then c + 32 else c
  }

  /** No two inputs of a collision-free digest share a value. */
  ghost predicate CollisionFree(digest: bytes -> bytes) {
    forall a, b :: digest(a) == digest(b) ==> a == b
  }

  /** `a + x` and `b + y` can only be equal if they are cut at the same place. */
  lemma ConcatCut(a: bytes, x: bytes, b: bytes, y: bytes)
    requires |a| == |b|
    requires a + x == b + y
    ensures a == b && x == y
  {
    assert a == (a + x)[..|a|] && b == (b + y)[..|b|];
    assert x == (a + x)[|a|..] && y == (b + y)[|b|..];
  }

  /** A separator that occurs in neither head makes the cut unique. */
  lemma SeparatorCut(a: bytes, x: bytes, b: bytes, y: bytes, sep: byte)
    requires sep !in a && sep !in b
    requires a + [sep] + x == b + [sep] + y
    ensures a == b && x == y
  {
    var l, r := a + [sep] + x, b + [sep] + y;
    assert l[|a|] == sep && r[|b|] == sep;
    assert forall i :: 0 <= i < |a| ==> l[i] == a[i] && a[i] in a;
    assert forall i :: 0 <= i < |b| ==> r[i] == b[i] && b[i] in b;
    assert |a| == |b|;
    ConcatCut(a + [sep], x, b + [sep], y);
    assert a == (a + [sep])[..|a|] && b == (b + [sep])[..|b|];
  }
}
