// The dot-segment guard (src/proxy.rs) against the dot-segment removal of the URL parser behind it.
module DotSegments {
  import opened Wrappers
  import opened Bytes
  import opened Hex
  import opened Splitting

  const SLASH: byte := 47
  const DOT: byte := 46

  // ---------- the guard ----------

  const ENCODED_DOT: bytes := Ascii("%2e")

  /** The six spellings the guard looks for, in any letter case. */
  predicate Refused(segment: bytes) {
    var s := LowerAll(segment);
    || s == [DOT] || s == ENCODED_DOT || s == [DOT, DOT] || s == [DOT] + ENCODED_DOT || s == ENCODED_DOT + [DOT]
    || s == ENCODED_DOT + ENCODED_DOT
  }

  predicate HasDotSegment(path: bytes) {
    exists i :: 0 <= i < |Split(path, SLASH)| && Refused(Split(path, SLASH)[i])
  }

  // ---------- the parser: path state of section 4.4 of the WHATWG URL Standard ----------

  /** How many dots a segment is, each written `.` or `%2e` or `%2E`; nothing if it is anything else. */
  function Dots(segment: bytes): Option<nat> {
    if segment == [] then Some(0)
    else if segment[0] == DOT then OneMore(Dots(segment[1..]))
    else if |segment| >= 3 && segment[0] == 37 && segment[1] == 50 && Lower(segment[2]) == 101
    then OneMore(Dots(segment[3..]))
    else None
  }

  function OneMore(n: Option<nat>): Option<nat> {
    if n.Some? then Some(n.value + 1) else None
  }

  /** A double-dot segment takes the segment before it away, a single-dot segment vanishes; either leaves an empty
      segment if it is the last. */
  function Advance(segment: bytes, last: bool, output: seq<bytes>): (r: seq<bytes>)
    ensures last ==> r != []
  {
    var trailing := if last then [[]] else [];
    if Dots(segment) == Some(2) then (if output == [] then [] else output[..|output| - 1]) + trailing
    else if Dots(segment) == Some(1) then output + trailing
    else output + [segment]
  }

  function Removed(segments: seq<bytes>, output: seq<bytes>): (r: seq<bytes>)
    requires segments != []
    ensures r != []
    decreases |segments|
  {
    var next := Advance(segments[0], |segments| == 1, output);
    if |segments| == 1 then next else Removed(segments[1..], next)
  }

  /** The path the parser makes of a slash-rooted path. */
  function Normalized(path: bytes): bytes
    requires path != [] && path[0] == SLASH
  {
    [SLASH] + Join(Removed(Split(path[1..], SLASH), []), SLASH)
  }

  // ---------- guard and parser know the same dots ----------

  lemma {:induction false} DotsLength(segment: bytes)
    ensures Dots(segment).Some? ==> Dots(segment).value <= |segment| <= 3 * Dots(segment).value
  {
    if segment != [] {
      if segment[0] == DOT {
        DotsLength(segment[1..]);
      } else if |segment| >= 3 {
        DotsLength(segment[3..]);
      }
    }
  }

  lemma LowerAllTail(s: bytes, k: nat)
    requires k <= |s|
    ensures LowerAll(s[k..]) == LowerAll(s)[k..]
  {
  }

  /** Lower-casing a dot or a percent sign changes nothing, and yields it only from itself. */
  lemma OneDot(segment: bytes)
    ensures Dots(segment) == Some(1) <==> LowerAll(segment) == [DOT] || LowerAll(segment) == ENCODED_DOT
  {
    var s := LowerAll(segment);
    assert ENCODED_DOT == [37, 50, 101];
    DotsLength(segment);
    if |segment| == 1 {
      assert s == [s[0]];
    } else if |segment| == 3 {
      assert s == [s[0], s[1], s[2]];
      DotsLength(segment[1..]);
    } else if |segment| == 2 {
      DotsLength(segment[1..]);
    }
  }

  lemma EscapedDot(segment: bytes)
    requires |segment| >= 3
    ensures LowerAll(segment)[..3] == ENCODED_DOT <==> segment[0] == 37 && segment[1] == 50 && Lower(segment[2]) == 101
  {
    var s := LowerAll(segment);
    assert s[..3] == [Lower(segment[0]), Lower(segment[1]), Lower(segment[2])];
    assert ENCODED_DOT == [37, 50, 101];
  }

  lemma TwoDots(segment: bytes)
    ensures Dots(segment) == Some(2) <==>
            (segment != [] && segment[0] == DOT && Dots(segment[1..]) == Some(1))
            || (|segment| >= 3 && LowerAll(segment)[..3] == ENCODED_DOT && Dots(segment[3..]) == Some(1))
  {
    if |segment| >= 3 { EscapedDot(segment); }
  }

  /** Two texts with heads of one length are equal when their parts are. */
  lemma HeadTail(s: bytes, head: bytes, tail: bytes)
    ensures s == head + tail <==> |head| <= |s| && s[..|head|] == head && s[|head|..] == tail
  {
  }

  lemma RefusedExactly(segment: bytes)
    ensures Refused(segment) <==> Dots(segment) == Some(1) || Dots(segment) == Some(2)
  {
    var s := LowerAll(segment);
    OneDot(segment);
    TwoDots(segment);
    assert [DOT, DOT] == [DOT] + [DOT];
    if segment != [] {
      OneDot(segment[1..]);
      LowerAllTail(segment, 1);
      assert s[..1] == [Lower(segment[0])];
    }
    if |segment| >= 3 {
      OneDot(segment[3..]);
      LowerAllTail(segment, 3);
    }
    HeadTail(s, [DOT], [DOT]);
    HeadTail(s, [DOT], ENCODED_DOT);
    HeadTail(s, ENCODED_DOT, [DOT]);
    HeadTail(s, ENCODED_DOT, ENCODED_DOT);
  }

  // ---------- the guard is exact ----------

  predicate IsDot(segment: bytes) {
    Dots(segment) == Some(1) || Dots(segment) == Some(2)
  }

  lemma {:induction false} NothingRemoved(segments: seq<bytes>, output: seq<bytes>)
    requires segments != [] && forall i :: 0 <= i < |segments| ==> !IsDot(segments[i])
    ensures Removed(segments, output) == output + segments
    decreases |segments|
  {
    assert !IsDot(segments[0]);
    if |segments| > 1 {
      NothingRemoved(segments[1..], output + [segments[0]]);
      assert segments == [segments[0]] + segments[1..];
    } else {
      assert segments == [segments[0]];
    }
  }

  // ---------- what removal does ----------

  /** `.` or `%2e`, in any letter case */
  ghost predicate SingleDot(segment: bytes) {
    LowerAll(segment) == Ascii(".") || LowerAll(segment) == Ascii("%2e")
  }

  /** `..`, `.%2e`, `%2e.` or `%2e%2e`, in any letter case */
  ghost predicate DoubleDot(segment: bytes) {
    var s := LowerAll(segment);
    s == Ascii("..") || s == Ascii(".%2e") || s == Ascii("%2e.") || s == Ascii("%2e%2e")
  }

  lemma SpelledDots(segment: bytes)
    ensures SingleDot(segment) <==> Dots(segment) == Some(1)
    ensures DoubleDot(segment) <==> Dots(segment) == Some(2)
  {
    assert Ascii(".") == [DOT] && Ascii("..") == [DOT, DOT];
    assert Ascii(".%2e") == [DOT] + ENCODED_DOT && Ascii("%2e.") == ENCODED_DOT + [DOT];
    assert Ascii("%2e%2e") == ENCODED_DOT + ENCODED_DOT;
    RefusedExactly(segment);
    OneDot(segment);
  }

  ghost predicate DotFree(segments: seq<bytes>) {
    forall i :: 0 <= i < |segments| ==> !SingleDot(segments[i]) && !DoubleDot(segments[i])
  }

  /** Segments without dots are kept, and removal goes on behind them. */
  lemma {:induction false} KeepsFront(front: seq<bytes>, rest: seq<bytes>, output: seq<bytes>)
    requires DotFree(front) && rest != []
    ensures Removed(front + rest, output) == Removed(rest, output + front)
  {
    if front == [] {
      assert front + rest == rest && output + front == output;
    } else {
      SpelledDots(front[0]);
      assert forall i :: 0 <= i < |front[1..]| ==> front[1..][i] == front[i + 1];
      KeepsFront(front[1..], rest, output + [front[0]]);
      assert (front + rest)[1..] == front[1..] + rest;
      assert output + [front[0]] + front[1..] == output + front;
    }
  }

  /** A double dot takes the segment before it away, and vanishes at the root; last, it leaves an empty segment. */
  lemma DoubleDotLaw(front: seq<bytes>, x: bytes, dots: bytes, rest: seq<bytes>)
    requires DotFree(front) && DotFree([x]) && DoubleDot(dots)
    ensures rest != [] ==> Removed(front + [x] + [dots] + rest, []) == Removed(front + rest, [])
    ensures rest != [] ==> Removed([dots] + rest, []) == Removed(rest, [])
    ensures Removed(front + [x] + [dots], []) == front + [[]] && Removed([dots], []) == [[]]
  {
    DoubleDotAdvances(front, x, dots);
    AfterFront(front + [x], dots, rest);
    AfterFront([], dots, rest);
    assert [] + [dots] + rest == [dots] + rest && [] + [dots] == [dots];
    if rest != [] {
      assert [] + front == front;
      KeepsFront(front, rest, []);
    }
  }

  lemma DoubleDotAdvances(front: seq<bytes>, x: bytes, dots: bytes)
    requires DotFree(front) && DotFree([x]) && DoubleDot(dots)
    ensures DotFree(front + [x])
    ensures Advance(dots, false, front + [x]) == front && Advance(dots, true, front + [x]) == front + [[]]
    ensures Advance(dots, false, []) == [] && Advance(dots, true, []) == [[]]
  {
    SpelledDots(dots);
    assert (front + [x])[..|front|] == front && front + [] == front;
    assert [x][0] == x;
  }

  /** A single dot vanishes; last, it leaves an empty segment. With `DoubleDotLaw`, applied from the left, this removes
      every dot segment of a path, and what has none stays as it is. */
  lemma SingleDotLaw(front: seq<bytes>, dot: bytes, rest: seq<bytes>)
    requires DotFree(front) && SingleDot(dot)
    ensures rest != [] ==> Removed(front + [dot] + rest, []) == Removed(front + rest, [])
    ensures Removed(front + [dot], []) == front + [[]]
    ensures front != [] ==> Removed(front, []) == front
  {
    SpelledDots(dot);
    AfterFront(front, dot, rest);
    assert [] + front == front && front + [] == front;
    if rest != [] { KeepsFront(front, rest, []); }
    forall i | 0 <= i < |front| ensures !IsDot(front[i]) { SpelledDots(front[i]); }
    if front != [] { NothingRemoved(front, []); }
  }

  lemma AfterFront(front: seq<bytes>, segment: bytes, rest: seq<bytes>)
    requires DotFree(front)
    ensures Removed(front + [segment], []) == Advance(segment, true, front)
    ensures rest != [] ==> Removed(front + [segment] + rest, []) == Removed(rest, Advance(segment, false, front))
  {
    KeepsFront(front, [segment], []);
    assert [] + front == front;
    if rest != [] {
      assert front + [segment] + rest == front + ([segment] + rest) && ([segment] + rest)[1..] == rest;
      KeepsFront(front, [segment] + rest, []);
    }
  }

  /** The length of the segments with a slash before each. */
  function Size(segments: seq<bytes>): nat {
    if segments == [] then 0 else Size(segments[..|segments| - 1]) + |segments[|segments| - 1]| + 1
  }

  lemma SizeSnoc(segments: seq<bytes>, s: bytes)
    ensures Size(segments + [s]) == Size(segments) + |s| + 1
  {
  }

  lemma {:induction false} SizeAppend(a: seq<bytes>, b: seq<bytes>)
    ensures Size(a + b) == Size(a) + Size(b)
  {
    if b == [] {
      assert a + b == a;
    } else {
      SizeAppend(a, b[..|b| - 1]);
      SizeSnoc(a + b[..|b| - 1], b[|b| - 1]);
      assert a + b == a + b[..|b| - 1] + [b[|b| - 1]];
    }
  }

  lemma {:induction false} JoinedSize(segments: seq<bytes>)
    requires segments != []
    ensures |Join(segments, SLASH)| + 1 == Size(segments)
  {
    SizeSnoc([], segments[0]);
    assert [] + [segments[0]] == [segments[0]];
    if |segments| > 1 {
      JoinedSize(segments[1..]);
      SizeAppend([segments[0]], segments[1..]);
      assert segments == [segments[0]] + segments[1..];
    } else {
      assert segments == [segments[0]];
    }
  }

  /** One step of the parser loses size at a dot segment, and otherwise keeps it. */
  lemma AdvanceSize(segment: bytes, last: bool, output: seq<bytes>)
    ensures Size(Advance(segment, last, output)) <= Size(output) + |segment| + 1
    ensures IsDot(segment) ==> Size(Advance(segment, last, output)) < Size(output) + |segment| + 1
  {
    DotsLength(segment);
    SizeSnoc(output, segment);
    SizeSnoc(output, []);
    assert output + [] == output;
    if output != [] {
      var kept := output[..|output| - 1];
      SizeSnoc(kept, []);
      SizeSnoc(kept, output[|output| - 1]);
      assert output == kept + [output[|output| - 1]] && kept + [] == kept;
    } else {
      SizeSnoc([], []);
    }
  }

  /** Removing a dot segment makes the path shorter, whatever else is removed. */
  lemma {:induction false} RemovalShrinks(segments: seq<bytes>, output: seq<bytes>)
    requires segments != []
    ensures Size(Removed(segments, output)) <= Size(output) + Size(segments)
    ensures (exists i :: 0 <= i < |segments| && IsDot(segments[i])) ==>
              Size(Removed(segments, output)) < Size(output) + Size(segments)
    decreases |segments|
  {
    var last := |segments| == 1;
    var next := Advance(segments[0], last, output);
    AdvanceSize(segments[0], last, output);
    SizeSnoc([], segments[0]);
    assert [] + [segments[0]] == [segments[0]];
    SizeAppend([segments[0]], segments[1..]);
    assert segments == [segments[0]] + segments[1..];
    if !last {
      RemovalShrinks(segments[1..], next);
      if !IsDot(segments[0]) && exists i :: 0 <= i < |segments| && IsDot(segments[i]) {
        var i :| 0 <= i < |segments| && IsDot(segments[i]);
        assert IsDot(segments[1..][i - 1]);
      }
    }
  }

  /** The parser leaves a slash-rooted path alone exactly if the guard lets it pass, so the path that was authorized
      is the path that is requested. */
  lemma GuardIsExact(path: bytes)
    requires path != [] && path[0] == 47
    ensures Normalized(path) == path <==> !HasDotSegment(path)
  {
    var segments := Split(path[1..], SLASH);
    assert Split(path, SLASH) == [[]] + segments;
    JoinSplit(path[1..], SLASH);
    assert path == [SLASH] + path[1..];
    forall i | 0 <= i < |segments| ensures Refused(segments[i]) <==> IsDot(segments[i]) { RefusedExactly(segments[i]); }
    if HasDotSegment(path) {
      var i :| 0 <= i < |Split(path, SLASH)| && Refused(Split(path, SLASH)[i]);
      RefusedExactly(Split(path, SLASH)[i]);
      assert IsDot(segments[i - 1]);
      RemovalShrinks(segments, []);
      JoinedSize(segments);
      JoinedSize(Removed(segments, []));
    } else {
      forall i | 0 <= i < |segments| ensures !IsDot(segments[i]) {
        assert Split(path, SLASH)[i + 1] == segments[i];
      }
      NothingRemoved(segments, []);
      assert [] + segments == segments;
    }
  }
}
