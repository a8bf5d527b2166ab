// The hex codec of the stored replay body and of every digest (src/proxy.rs).
module Hex {
  import opened Wrappers
  import opened Bytes

  /** Rust's `char::to_digit(16)`: both letter cases are accepted. */
  function DigitValue(c: byte): (d: Option<int>)
    ensures d.Some? ==> 0 <= d.value < 16
  {
    if 48 <= c <= 57 then Some(c as int - 48)
    else if 65 <= c <= 70 then Some(c as int - 55)
    else if 97 <= c <= 102 then Some(c as int - 87)
    else None
  }

  /** Rust's `char::from_digit(_, 16)`: lower-case letters. */
  function DigitChar(d: int): (c: byte)
    requires 0 <= d < 16
  {
    if d < 10 then (48 + d) as byte else (87 + d) as byte
  }

  function LowerAll(s: bytes): (r: bytes)
    ensures |r| == |s|
  {
    seq(|s|, i requires 0 <= i < |s| => Lower(s[i]))
  }

  // ---------- what the two loops compute ----------

  function Hexed(b: bytes): (h: bytes)
    ensures |h| == 2 * |b|
  {
    if b == [] then []
    else [DigitChar(b[0] as int / 16), DigitChar(b[0] as int % 16)] + Hexed(b[1..])
  }

  function Unhexed(h: bytes): (b: Option<bytes>)
    ensures b.Some? ==> |h| == 2 * |b.value|
  {
    if h == [] then Some([])
    else if |h| == 1 then None
    else
      var hi, lo, rest := DigitValue(h[0]), DigitValue(h[1]), Unhexed(h[2..]);
      if hi.Some? && lo.Some? && rest.Some? then Some([(hi.value * 16 + lo.value) as byte] + rest.value) else None
  }

  // ---------- the source's loops ----------

  lemma HexedFrom(b: bytes, i: nat)
    requires i < |b|
    ensures Hexed(b[i..]) == [DigitChar(b[i] as int / 16), DigitChar(b[i] as int % 16)] + Hexed(b[i + 1..])
  {
    assert b[i..][1..] == b[i + 1..];
  }

  lemma PushTwo(out: bytes, x: byte, y: byte, rest: bytes)
    ensures out + ([x, y] + rest) == out + [x] + [y] + rest
  {
  }

  method ToHex(b: bytes) returns (out: bytes)
    ensures out == Hexed(b)
  {
    out := [];
    for i := 0 to |b|
      invariant Hexed(b) == out + Hexed(b[i..])
    {
      HexedFrom(b, i);
      PushTwo(out, DigitChar(b[i] as int / 16), DigitChar(b[i] as int % 16), Hexed(b[i + 1..]));
      out := out + [DigitChar(b[i] as int / 16)];
      out := out + [DigitChar(b[i] as int % 16)];
    }
  }

  /** The bytes decoded so far, followed by what the rest decodes to. */
  ghost function After(out: bytes, rest: Option<bytes>): (r: Option<bytes>)
    ensures out == [] ==> r == rest
    ensures rest == Some([]) ==> r == Some(out)
  {
    if rest.Some? then
      assert [] + rest.value == rest.value && out + [] == out;
      Some(out + rest.value)
    else None
  }

  lemma AfterOne(out: bytes, c: byte, rest: Option<bytes>)
    ensures After(out + [c], rest) == After(out, After([c], rest))
  {
    if rest.Some? {
      assert out + [c] + rest.value == out + ([c] + rest.value);
    }
  }

  lemma UnhexedFrom(value: bytes, i: nat)
    requires i + 1 < |value|
    ensures var hi, lo := DigitValue(value[i]), DigitValue(value[i + 1]);
      Unhexed(value[i..]) == if hi.Some? && lo.Some?
                             then After([(hi.value * 16 + lo.value) as byte], Unhexed(value[i + 2..])) else None
  {
    assert value[i..][2..] == value[i + 2..];
  }

  method HexToBytes(value: bytes) returns (r: Option<bytes>)
    ensures r == Unhexed(value)
  {
    if |value| % 2 != 0 {
      OddHasNoDecoding(value);
      return None;
    }
    var out, i := [], 0;
    assert value[0..] == value;
    while i < |value|
      invariant i <= |value| && i % 2 == 0
      invariant Unhexed(value) == After(out, Unhexed(value[i..]))
    {
      UnhexedFrom(value, i);
      var hi, lo := DigitValue(value[i]), DigitValue(value[i + 1]);
      if hi == None || lo == None {
        return None;
      }
      AfterOne(out, (hi.value * 16 + lo.value) as byte, Unhexed(value[i + 2..]));
      out := out + [(hi.value * 16 + lo.value) as byte];
      i := i + 2;
    }
    return Some(out);
  }

  lemma {:induction false} OddHasNoDecoding(h: bytes)
    requires |h| % 2 != 0
    ensures Unhexed(h) == None
  {
    if |h| > 1 {
      OddHasNoDecoding(h[2..]);
    }
  }

  // ---------- the laws ----------

  lemma HexRoundTrip(b: bytes)
    ensures Unhexed(Hexed(b)) == Some(b)
  {
    HexedDigits(b);
    UnhexedExactly(Hexed(b), b);
  }

  /** Hex text is made of decimal digits and lower-case letters a to f. */
  lemma {:induction false} HexedDigits(b: bytes)
    ensures forall i :: 0 <= i < |Hexed(b)| ==> 48 <= Hexed(b)[i] <= 57 || 97 <= Hexed(b)[i] <= 102
    ensures LowerAll(Hexed(b)) == Hexed(b)
  {
    if b != [] {
      HexedDigits(b[1..]);
    }
  }

  lemma LowerAllSplits(h: bytes)
    requires |h| > 1
    ensures LowerAll(h) == [Lower(h[0]), Lower(h[1])] + LowerAll(h[2..])
  {
    assert h == [h[0], h[1]] + h[2..];
  }

  lemma HexedSplits(h: bytes, b: bytes)
    requires |h| > 1 && b != []
    ensures LowerAll(h) == Hexed(b) <==>
            Lower(h[0]) == DigitChar(b[0] as int / 16) && Lower(h[1]) == DigitChar(b[0] as int % 16)
            && LowerAll(h[2..]) == Hexed(b[1..])
  {
    var l, r := [Lower(h[0]), Lower(h[1])], [DigitChar(b[0] as int / 16), DigitChar(b[0] as int % 16)];
    LowerAllSplits(h);
    assert Hexed(b) == r + Hexed(b[1..]);
    if LowerAll(h) == Hexed(b) {
      ConcatCut(l, LowerAll(h[2..]), r, Hexed(b[1..]));
      assert l[0] == r[0] && l[1] == r[1];
    }
  }

  lemma NibblesOf(hi: int, lo: int, x: byte)
    requires 0 <= hi < 16 && 0 <= lo < 16
    ensures (hi * 16 + lo) as byte == x <==> hi == x as int / 16 && lo == x as int % 16
  {
  }

  lemma UnhexedSplits(h: bytes, b: bytes)
    requires |h| > 1 && b != []
    ensures Unhexed(h) == Some(b) <==>
            DigitValue(h[0]) == Some(b[0] as int / 16) && DigitValue(h[1]) == Some(b[0] as int % 16)
            && Unhexed(h[2..]) == Some(b[1..])
  {
    var hi, lo, rest := DigitValue(h[0]), DigitValue(h[1]), Unhexed(h[2..]);
    assert b == [b[0]] + b[1..];
    if hi.Some? && lo.Some? && rest.Some? {
      NibblesOf(hi.value, lo.value, b[0]);
      var first := [(hi.value * 16 + lo.value) as byte];
      if first + rest.value == b {
        ConcatCut(first, rest.value, [b[0]], b[1..]);
        assert first[0] == b[0];
      }
    }
  }

  /** Decoding succeeds on exactly the strings that spell the bytes in hex, in either letter case. */
  lemma {:induction false} UnhexedExactly(h: bytes, b: bytes)
    ensures Unhexed(h) == Some(b) <==> LowerAll(h) == Hexed(b)
  {
    if h == [] || b == [] {
      assert LowerAll([]) == [];
    } else if |h| > 1 {
      UnhexedExactly(h[2..], b[1..]);
      HexedSplits(h, b);
      UnhexedSplits(h, b);
      DigitExactly(h[0], b[0] as int / 16);
      DigitExactly(h[1], b[0] as int % 16);
    }
  }

  lemma DigitExactly(c: byte, d: int)
    requires 0 <= d < 16
    ensures DigitValue(c) == Some(d) <==> Lower(c) == DigitChar(d)
  {
  }
}
