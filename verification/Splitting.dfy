// `str::split` and `str::split_once` on one ASCII separator.
module Splitting {
  import opened Wrappers
  import opened Bytes

  function Split(s: bytes, sep: byte): (parts: seq<bytes>)
    ensures parts != []
    ensures forall i :: 0 <= i < |parts| ==> sep !in parts[i]
  {
    if s == [] then [[]]
    else
      var rest := Split(s[1..], sep);
      if s[0] == sep then [[]] + rest else [[s[0]] + rest[0]] + rest[1..]
  }

  function Join(parts: seq<bytes>, sep: byte): bytes
    requires parts != []
  {
    if |parts| == 1 then parts[0] else parts[0] + [sep] + Join(parts[1..], sep)
  }

  lemma JoinEmptyHead(rest: seq<bytes>, sep: byte)
    requires rest != []
    ensures Join([[]] + rest, sep) == [sep] + Join(rest, sep)
  {
    assert ([[]] + rest)[1..] == rest;
    assert [] + [sep] == [sep];
  }

  lemma JoinLongerHead(c: byte, rest: seq<bytes>, sep: byte)
    requires rest != []
    ensures Join([[c] + rest[0]] + rest[1..], sep) == [c] + Join(rest, sep)
  {
    var parts := [[c] + rest[0]] + rest[1..];
    assert parts[1..] == rest[1..];
    if |rest| > 1 {
      var tail := Join(rest[1..], sep);
      assert [c] + rest[0] + [sep] + tail == [c] + (rest[0] + [sep] + tail);
    }
  }

  lemma {:induction false} JoinSplit(s: bytes, sep: byte)
    ensures Join(Split(s, sep), sep) == s
  {
    if s != [] {
      JoinSplit(s[1..], sep);
      assert s == [s[0]] + s[1..];
      if s[0] == sep {
        JoinEmptyHead(Split(s[1..], sep), sep);
      } else {
        JoinLongerHead(s[0], Split(s[1..], sep), sep);
      }
    }
  }

  /** A separator-free head comes off as the first part. */
  lemma {:induction false} SplitHead(head: bytes, s: bytes, sep: byte)
    requires sep !in head
    ensures Split(head, sep) == [head]
    ensures Split(head + [sep] + s, sep) == [head] + Split(s, sep)
  {
    if head == [] {
      assert ([] + [sep] + s)[1..] == s;
    } else {
      SplitHead(head[1..], s, sep);
      assert (head + [sep] + s)[1..] == head[1..] + [sep] + s;
      assert [head[0]] + head[1..] == head;
    }
  }

  /** The parts after one more byte in front. */
  function Grown(c: byte, parts: seq<bytes>, sep: byte): seq<bytes>
    requires parts != []
  {
    if c == sep then [[]] + parts else [[c] + parts[0]] + parts[1..]
  }

  lemma GrownJoins(c: byte, x: seq<bytes>, y: seq<bytes>, sep: byte)
    requires x != []
    ensures Grown(c, x + y, sep) == Grown(c, x, sep) + y
  {
    assert (x + y)[1..] == x[1..] + y;
  }

  lemma SplitCons(c: byte, s: bytes, sep: byte)
    ensures Split([c] + s, sep) == Grown(c, Split(s, sep), sep)
  {
    assert ([c] + s)[1..] == s;
  }

  /** Each occurrence of the separator is a cut. */
  lemma {:induction false} SplitAtSeparator(a: bytes, b: bytes, sep: byte)
    ensures Split(a + [sep] + b, sep) == Split(a, sep) + Split(b, sep)
  {
    if a == [] {
      SplitCons(sep, b, sep);
      assert [] + [sep] + b == [sep] + b;
    } else {
      var c, rest := a[0], a[1..];
      SplitAtSeparator(rest, b, sep);
      SplitCons(c, rest, sep);
      SplitCons(c, rest + [sep] + b, sep);
      GrownJoins(c, Split(rest, sep), Split(b, sep), sep);
      assert [c] + rest == a && [c] + (rest + [sep] + b) == a + [sep] + b;
    }
  }

  /** Splitting is the only way to take a joined text apart. */
  lemma {:induction false} SplitJoin(parts: seq<bytes>, sep: byte)
    requires parts != [] && forall i :: 0 <= i < |parts| ==> sep !in parts[i]
    ensures Split(Join(parts, sep), sep) == parts
  {
    SplitHead(parts[0], [], sep);
    if |parts| > 1 {
      SplitJoin(parts[1..], sep);
      SplitHead(parts[0], Join(parts[1..], sep), sep);
    }
  }

  /** What precedes and follows the first separator. */
  function SplitOnce(s: bytes, sep: byte): Option<(bytes, bytes)> {
    if s == [] then None
    else if s[0] == sep then Some(([], s[1..]))
    else
      match SplitOnce(s[1..], sep)
      case None => None
      case Some((k, v)) => Some(([s[0]] + k, v))
  }

  lemma {:induction false} SplitOnceAt(k: bytes, v: bytes, sep: byte)
    requires sep !in k
    ensures SplitOnce(k + [sep] + v, sep) == Some((k, v))
  {
    if k == [] {
      assert ([] + [sep] + v)[1..] == v;
    } else {
      SplitOnceAt(k[1..], v, sep);
      assert (k + [sep] + v)[1..] == k[1..] + [sep] + v;
      assert [k[0]] + k[1..] == k;
    }
  }

  lemma {:induction false} SplitOnceParts(s: bytes, sep: byte)
    requires SplitOnce(s, sep).Some?
    ensures var (k, v) := SplitOnce(s, sep).value; s == k + [sep] + v && sep !in k
  {
    if s[0] == sep {
      assert s == [] + [sep] + s[1..];
    } else {
      SplitOnceParts(s[1..], sep);
      var (k, v) := SplitOnce(s[1..], sep).value;
      assert s == ([s[0]] + k) + [sep] + v;
    }
  }
}
