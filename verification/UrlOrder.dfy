// The byte order in which the route table keeps its members (`nodes.sort()`, src/table.rs).
module UrlOrder {
  import opened Bytes

  /** Lexicographic order on bytes, as `str` is ordered in Rust. */
  predicate Less(a: bytes, b: bytes) {
    b != [] && (a == [] || a[0] < b[0] || (a[0] == b[0] && Less(a[1..], b[1..])))
  }

  /** `a` and `b` agree up to `k`, where `a` ends or has the smaller byte. */
  ghost predicate PrecedesAt(a: bytes, b: bytes, k: nat) {
    k <= |a| && k < |b| && a[..k] == b[..k] && (k == |a| || a[k] < b[k])
  }

  lemma SameStart(a: bytes, b: bytes, k: nat)
    ensures PrecedesAt(a, b, k) && k > 0 ==> a != [] && b != [] && a[0] == b[0]
  {
    if PrecedesAt(a, b, k) && k > 0 { assert a[..k][0] == b[..k][0]; }
  }

  /** The first difference decides, and a proper prefix comes first. */
  lemma {:induction false} LessExactly(a: bytes, b: bytes)
    ensures Less(a, b) <==> exists k: nat :: PrecedesAt(a, b, k)
  {
    if a == [] || b == [] || a[0] != b[0] {
      if Less(a, b) { assert PrecedesAt(a, b, 0); }
      forall k: nat ensures PrecedesAt(a, b, k) ==> k == 0 || (a != [] && b != [] && a[0] == b[0]) {
        SameStart(a, b, k);
      }
    } else {
      LessExactly(a[1..], b[1..]);
      if Less(a, b) {
        var k: nat :| PrecedesAt(a[1..], b[1..], k);
        assert a[..k + 1] == [a[0]] + a[1..][..k] && b[..k + 1] == [b[0]] + b[1..][..k];
        assert PrecedesAt(a, b, k + 1);
      }
      if k: nat :| PrecedesAt(a, b, k) {
        assert k > 0;
        assert a[1..][..k - 1] == a[..k][1..] && b[1..][..k - 1] == b[..k][1..];
        assert PrecedesAt(a[1..], b[1..], k - 1);
      }
    }
  }

  lemma {:induction false} LessIrreflexive(a: bytes)
    ensures !Less(a, a)
  {
    if a != [] { LessIrreflexive(a[1..]); }
  }

  lemma {:induction false} LessTransitive(a: bytes, b: bytes, c: bytes)
    requires Less(a, b) && Less(b, c)
    ensures Less(a, c)
  {
    if a != [] && a[0] == b[0] && b[0] == c[0] { LessTransitive(a[1..], b[1..], c[1..]); }
  }

  lemma {:induction false} LessTotal(a: bytes, b: bytes)
    ensures Less(a, b) || a == b || Less(b, a)
  {
    if a != [] && b != [] && a[0] == b[0] {
      LessTotal(a[1..], b[1..]);
      assert a == [a[0]] + a[1..] && b == [b[0]] + b[1..];
    }
  }

  ghost predicate Sorted(s: seq<bytes>) {
    forall i, j :: 0 <= i < j < |s| ==> Less(s[i], s[j])
  }

  ghost function Elements(s: seq<bytes>): set<bytes> {
    set u | u in s
  }

  lemma SortedDistinct(s: seq<bytes>)
    requires Sorted(s)
    ensures forall i, j :: 0 <= i < j < |s| ==> s[i] != s[j]
  {
    forall i, j | 0 <= i < j < |s| ensures s[i] != s[j] { LessIrreflexive(s[i]); }
  }

  /** The first position whose element is not below `u`. */
  method Position(s: seq<bytes>, u: bytes) returns (k: nat)
    requires Sorted(s)
    ensures k <= |s|
    ensures forall i :: 0 <= i < k ==> Less(s[i], u)
    ensures forall i :: k <= i < |s| ==> !Less(s[i], u)
  {
    k := 0;
    while k < |s| && Less(s[k], u)
      invariant k <= |s|
      invariant forall i :: 0 <= i < k ==> Less(s[i], u)
    {
      k := k + 1;
    }
    if k < |s| {
      forall i | k <= i < |s| ensures !Less(s[i], u) {
        if i > k && Less(s[i], u) {
          LessTransitive(s[k], s[i], u);
        }
      }
    }
  }

  method Insert(s: seq<bytes>, u: bytes) returns (t: seq<bytes>)
    requires Sorted(s) && u !in s
    ensures Sorted(t) && Elements(t) == Elements(s) + {u}
  {
    var k := Position(s, u);
    t := s[..k] + [u] + s[k..];
    forall i | k <= i < |s| ensures Less(u, s[i]) {
      LessTotal(s[i], u);
    }
    forall x ensures x in t <==> x in s || x == u {
      assert s == s[..k] + s[k..];
    }
  }

  /** A set has one sorted listing. */
  lemma {:induction false} SortedUnique(s: seq<bytes>, t: seq<bytes>)
    requires Sorted(s) && Sorted(t) && Elements(s) == Elements(t)
    ensures s == t
  {
    NoElements(s);
    NoElements(t);
    if s != [] {
      SortedDistinct(s);
      SortedDistinct(t);
      FirstIsLeast(s, t);
      FirstIsLeast(t, s);
      LessTotal(s[0], t[0]);
      assert s[0] == t[0];
      TailElements(s);
      TailElements(t);
      SortedUnique(s[1..], t[1..]);
      assert s == [s[0]] + s[1..] && t == [t[0]] + t[1..];
    }
  }

  lemma NoElements(s: seq<bytes>)
    ensures Elements(s) == {} <==> s == []
  {
    if s != [] { assert s[0] in Elements(s); }
  }

  lemma TailElements(s: seq<bytes>)
    requires s != [] && forall i, j :: 0 <= i < j < |s| ==> s[i] != s[j]
    ensures Elements(s[1..]) == Elements(s) - {s[0]}
  {
  }

  lemma FirstIsLeast(s: seq<bytes>, t: seq<bytes>)
    requires s != [] && t != [] && Sorted(s) && Elements(s) == Elements(t)
    ensures !Less(t[0], s[0])
  {
    assert t[0] in Elements(s);
    var i :| 0 <= i < |s| && s[i] == t[0];
    LessIrreflexive(s[0]);
    if Less(t[0], s[0]) {
      if i > 0 { LessTransitive(s[0], s[i], s[0]); }
    }
  }
}
