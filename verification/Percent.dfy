// The index-driven percent decoder (src/routing.rs), for query values and for path segments.
module Percent {
  import opened Wrappers
  import opened Bytes
  import opened Hex

  const PLUS: byte := 43
  const PERCENT: byte := 37
  const SPACE: byte := 32

  /** The byte that an escape at the front of `s` stands for, if there is one. */
  function Escape(s: bytes): Option<byte> {
    if |s| > 2 && s[0] == PERCENT && DigitValue(s[1]).Some? && DigitValue(s[2]).Some?
    then Some((DigitValue(s[1]).value * 16 + DigitValue(s[2]).value) as byte)
    else None
  }

  /** Section 2.1 of RFC 3986; with `plusAsSpace`, section 5.1 of the WHATWG URL Standard. */
  function Decoded(s: bytes, plusAsSpace: bool): (r: bytes)
    ensures |r| <= |s|
  {
    if s == [] then []
    else if s[0] == PLUS && plusAsSpace then [SPACE] + Decoded(s[1..], plusAsSpace)
    else if Escape(s).Some? then [Escape(s).value] + Decoded(s[3..], plusAsSpace)
    else [s[0]] + Decoded(s[1..], plusAsSpace)
  }

  /** The next byte decoded at `i`, and how much input it takes. */
  lemma DecodesAt(s: bytes, i: nat, plusAsSpace: bool)
    requires i < |s|
    ensures s[i] == PLUS && plusAsSpace ==> Decoded(s[i..], plusAsSpace) == [SPACE] + Decoded(s[i + 1..], plusAsSpace)
    ensures !(s[i] == PLUS && plusAsSpace) && Escape(s[i..]).Some? ==>
              i + 2 < |s| && Decoded(s[i..], plusAsSpace) == [Escape(s[i..]).value] + Decoded(s[i + 3..], plusAsSpace)
    ensures !(s[i] == PLUS && plusAsSpace) && Escape(s[i..]).None? ==>
              Decoded(s[i..], plusAsSpace) == [s[i]] + Decoded(s[i + 1..], plusAsSpace)
  {
  }

  lemma PushThen(before: bytes, b: byte, rest: bytes)
    ensures before + ([b] + rest) == before + [b] + rest
  {
  }

  method PercentDecode(s: bytes, plusAsSpace: bool) returns (out: bytes)
    ensures out == Decoded(s, plusAsSpace)
  {
    out := [];
    var i := 0;
    assert s[0..] == s;
    while i < |s|
      invariant i <= |s| && Decoded(s, plusAsSpace) == out + Decoded(s[i..], plusAsSpace)
    {
      DecodesAt(s, i, plusAsSpace);
      var b, width := s[i], 1;
      if s[i] == PLUS && plusAsSpace {
        b := SPACE;
      } else if s[i] == PERCENT && i + 2 < |s| {
        var hi, lo := DigitValue(s[i + 1]), DigitValue(s[i + 2]);
        if hi.Some? && lo.Some? {
          b, width := (hi.value * 16 + lo.value) as byte, 3;
        }
      }
      assert Decoded(s[i..], plusAsSpace) == [b] + Decoded(s[i + width..], plusAsSpace);
      PushThen(out, b, Decoded(s[i + width..], plusAsSpace));
      out := out + [b];
      i := i + width;
    }
  }

  // ---------- every spelling ----------

  /** One way to write one byte. */
  datatype Piece = Literal(b: byte) | Escaped(hi: byte, lo: byte) | PlusSign

  predicate Proper(p: Piece, plusAsSpace: bool) {
    match p
    case Literal(b) => b != PERCENT && (plusAsSpace ==> b != PLUS)
    case Escaped(hi, lo) => DigitValue(hi).Some? && DigitValue(lo).Some?
    case PlusSign => plusAsSpace
  }

  function Written(p: Piece): bytes {
    match p
    case Literal(b) => [b]
    case Escaped(hi, lo) => [PERCENT, hi, lo]
    case PlusSign => [PLUS]
  }

  function Stands(p: Piece): byte
    requires p.Escaped? ==> DigitValue(p.hi).Some? && DigitValue(p.lo).Some?
  {
    match p
    case Literal(b) => b
    case Escaped(hi, lo) => (DigitValue(hi).value * 16 + DigitValue(lo).value) as byte
    case PlusSign => SPACE
  }

  /** `w` writes `b` byte by byte, each literally or as an escape with digits in either case, and a space as a plus
      sign where that is the convention. */
  ghost predicate Spells(w: bytes, b: bytes, plusAsSpace: bool) {
    exists pieces: seq<Piece> :: SpellsWith(w, b, plusAsSpace, pieces)
  }

  ghost predicate SpellsWith(w: bytes, b: bytes, plusAsSpace: bool, pieces: seq<Piece>) {
    if pieces == [] then w == [] && b == []
    else
      var p := pieces[0];
      && Proper(p, plusAsSpace) && b != [] && b[0] == Stands(p)
      && |Written(p)| <= |w| && w[..|Written(p)|] == Written(p)
      && SpellsWith(w[|Written(p)|..], b[1..], plusAsSpace, pieces[1..])
  }

  lemma PieceFront(p: Piece, rest: bytes, plusAsSpace: bool)
    requires Proper(p, plusAsSpace)
    ensures Decoded(Written(p) + rest, plusAsSpace) == [Stands(p)] + Decoded(rest, plusAsSpace)
  {
    assert (Written(p) + rest)[|Written(p)|..] == rest;
  }

  /** Decoding goes on where a spelling ends. */
  lemma {:induction false} SpelledFront(w: bytes, b: bytes, rest: bytes, plusAsSpace: bool, pieces: seq<Piece>)
    requires SpellsWith(w, b, plusAsSpace, pieces)
    ensures Decoded(w + rest, plusAsSpace) == b + Decoded(rest, plusAsSpace)
  {
    if pieces == [] {
      assert w + rest == rest;
    } else {
      var p := pieces[0];
      var n := |Written(p)|;
      SpelledFront(w[n..], b[1..], rest, plusAsSpace, pieces[1..]);
      PieceFront(p, w[n..] + rest, plusAsSpace);
      assert w + rest == Written(p) + (w[n..] + rest) by { assert w == w[..n] + w[n..]; }
      JoinedFront(b, Decoded(rest, plusAsSpace));
    }
  }

  lemma JoinedFront(b: bytes, rest: bytes)
    requires b != []
    ensures b + rest == [b[0]] + (b[1..] + rest)
  {
  }

  /** Decoding undoes every spelling. */
  lemma EverySpellingDecodes(w: bytes, b: bytes, plusAsSpace: bool)
    requires Spells(w, b, plusAsSpace)
    ensures Decoded(w, plusAsSpace) == b
  {
    var pieces :| SpellsWith(w, b, plusAsSpace, pieces);
    SpelledFront(w, b, [], plusAsSpace, pieces);
    assert w + [] == w && b + [] == b;
  }

  ghost predicate HexDigit(c: byte) {
    48 <= c <= 57 || 65 <= c <= 70 || 97 <= c <= 102
  }

  /** What does not spell a byte stands for itself: a percent sign without two hex digits behind it, wherever it comes,
      and a plus sign in a path; in a query a plus sign is a space. */
  lemma OddBytesDecode(w: bytes, b: bytes, rest: bytes, plusAsSpace: bool)
    requires Spells(w, b, plusAsSpace)
    ensures |rest| < 2 || !HexDigit(rest[0]) || !HexDigit(rest[1]) ==>
              Decoded(w + (Ascii("%") + rest), plusAsSpace) == b + (Ascii("%") + Decoded(rest, plusAsSpace))
    ensures Decoded(w + (Ascii("+") + rest), plusAsSpace)
         == b + ((if plusAsSpace then Ascii(" ") else Ascii("+")) + Decoded(rest, plusAsSpace))
  {
    var pieces :| SpellsWith(w, b, plusAsSpace, pieces);
    SpelledFront(w, b, Ascii("%") + rest, plusAsSpace, pieces);
    SpelledFront(w, b, Ascii("+") + rest, plusAsSpace, pieces);
    assert (Ascii("%") + rest)[1..] == rest && (Ascii("+") + rest)[1..] == rest;
    assert Ascii("%") == [37] && Ascii("+") == [43] && Ascii(" ") == [32];
  }

  /** Percent-encoding that keeps the bytes `keep` accepts. */
  function Encoded(b: bytes, keep: byte -> bool): bytes {
    if b == [] then []
    else
      var escaped := [PERCENT, DigitChar(b[0] as int / 16), DigitChar(b[0] as int % 16)];
      (if keep(b[0]) then [b[0]] else escaped) + Encoded(b[1..], keep)
  }

  ghost predicate KeepsNoSyntax(keep: byte -> bool, plusAsSpace: bool) {
    !keep(PERCENT) && (plusAsSpace ==> !keep(PLUS))
  }

  /** Any percent-encoding that escapes the syntax is such a spelling, so every byte string has one in each mode. */
  lemma {:induction false} EncodingSpells(b: bytes, keep: byte -> bool, plusAsSpace: bool)
    requires KeepsNoSyntax(keep, plusAsSpace)
    ensures Spells(Encoded(b, keep), b, plusAsSpace)
  {
    if b == [] {
      assert SpellsWith([], [], plusAsSpace, []);
    } else {
      EncodingSpells(b[1..], keep, plusAsSpace);
      var rest :| SpellsWith(Encoded(b[1..], keep), b[1..], plusAsSpace, rest);
      var hi, lo := b[0] as int / 16, b[0] as int % 16;
      DigitOf(hi);
      DigitOf(lo);
      var p := if keep(b[0]) then Literal(b[0]) else Escaped(DigitChar(hi), DigitChar(lo));
      var pieces := [p] + rest;
      assert pieces[1..] == rest;
      assert Encoded(b, keep) == Written(p) + Encoded(b[1..], keep);
      assert Encoded(b, keep)[|Written(p)|..] == Encoded(b[1..], keep);
      assert SpellsWith(Encoded(b, keep), b, plusAsSpace, pieces);
    }
  }

  lemma DigitOf(d: int)
    requires 0 <= d < 16
    ensures DigitValue(DigitChar(d)) == Some(d)
  {
  }

  /** Decoding is a left inverse of percent-encoding. */
  lemma EncodeDecode(b: bytes, keep: byte -> bool, plusAsSpace: bool)
    requires KeepsNoSyntax(keep, plusAsSpace)
    ensures Decoded(Encoded(b, keep), plusAsSpace) == b
  {
    EncodingSpells(b, keep, plusAsSpace);
    EverySpellingDecodes(Encoded(b, keep), b, plusAsSpace);
  }
}
