/**
 The percent-decoding line filter (src/urlparse.cpp). A line is a byte string; only the upper-case
 hex digits count as digits, and a '%' that does not start an escape is dropped on its own.
 */
module UrlDecode {
  import opened Bytes

  const PERCENT: u8 := 0x25

  predicate IsValid(c: u8) {
    0x30 <= c <= 0x39 || 0x41 <= c <= 0x46
  }

  function HexValue(c: u8): (v: nat)
    requires IsValid(c)
    ensures v < 16
  {
    if c <= 0x39 then c - 0x30 else c - 0x37
  }

  predicate EscapeAt(s: seq<u8>, i: nat) {
    i + 2 < |s| && s[i] == PERCENT && IsValid(s[i + 1]) && IsValid(s[i + 2])
  }

  /** The reference decoder: one token at a time. */
  function Decode(s: seq<u8>): seq<u8> {
    if s == [] then []
    else if s[0] != PERCENT then [s[0]] + Decode(s[1..])
    else if EscapeAt(s, 0) then [16 * HexValue(s[1]) + HexValue(s[2])] + Decode(s[3..])
    else Decode(s[1..])
  }

  // ----- the positional specification -----

  /** The digits in the order of their values, 0 to 9 and A to F. */
  const DIGITS: seq<u8> := [0x30, 0x31, 0x32, 0x33, 0x34, 0x35, 0x36, 0x37, 0x38, 0x39,
                            0x41, 0x42, 0x43, 0x44, 0x45, 0x46]

  lemma DigitValues(c: u8)
    ensures IsValid(c) <==> c in DIGITS
    ensures IsValid(c) ==> DIGITS[HexValue(c)] == c
  {
    if IsValid(c) {
      assert c == DIGITS[HexValue(c)];
    }
  }

  /** One of the two digits of an escape stands at `i`. */
  predicate InEscape(s: seq<u8>, i: nat) {
    (i >= 1 && EscapeAt(s, i - 1)) || (i >= 2 && EscapeAt(s, i - 2))
  }

  /** What the character at `i` contributes, told from the line alone. */
  function Piece(s: seq<u8>, i: nat): seq<u8>
    requires i < |s|
  {
    if EscapeAt(s, i) then [16 * HexValue(s[i + 1]) + HexValue(s[i + 2])]
    else if s[i] == PERCENT || InEscape(s, i) then []
    else [s[i]]
  }

  /** What the first `n` positions contribute, in their order. */
  function Pieces(s: seq<u8>, n: nat): seq<u8>
    requires n <= |s|
  {
    if n == 0 then [] else Pieces(s, n - 1) + Piece(s, n - 1)
  }

  /** From any position outside an escape, the decoder gives what the rest contributes. */
  lemma {:induction false} DecodeFrom(s: seq<u8>, i: nat)
    requires i <= |s| && !InEscape(s, i)
    ensures Pieces(s, |s|) == Pieces(s, i) + Decode(s[i..])
    decreases |s| - i
  {
    if i < |s| {
      var rest := s[i..];
      assert EscapeAt(rest, 0) <==> EscapeAt(s, i);
      assert rest[1..] == s[i + 1..];
      if EscapeAt(s, i) {
        assert rest[3..] == s[i + 3..];
        assert Pieces(s, i + 3) == Pieces(s, i) + Piece(s, i);
        DecodeFrom(s, i + 3);
      } else {
        assert Pieces(s, i + 1) == Pieces(s, i) + Piece(s, i);
        DecodeFrom(s, i + 1);
      }
    }
  }

  /**
   Position by position: an escape gives its byte where it starts and nothing at its digits, any
   other '%' gives nothing, and every other character itself.
   */
  lemma DecodeByPosition(s: seq<u8>)
    ensures Decode(s) == Pieces(s, |s|)
  {
    DecodeFrom(s, 0);
    assert s[0..] == s;
  }

  // ----- encoding -----

  /** Percent-encoding with upper-case digits, section 2.1 of RFC 3986. */
  function HexDigit(v: nat): (c: u8)
    requires v < 16
    ensures IsValid(c) && HexValue(c) == v
  {
    if v < 10 then 0x30 + v else 0x37 + v
  }

  function EncodeByte(c: u8, escapes: set<u8>): seq<u8> {
    if c in escapes then [PERCENT, HexDigit(c / 16), HexDigit(c % 16)] else [c]
  }

  function Encode(s: seq<u8>, escapes: set<u8>): seq<u8> {
    if s == [] then [] else EncodeByte(s[0], escapes) + Encode(s[1..], escapes)
  }

  // ----- the program -----

  /** Reads one escape; on success `newPos` is its last character, otherwise nothing moves. */
  method Parse(line: seq<u8>, pos: nat) returns (malformed: bool, out: u8, newPos: nat)
    requires pos < |line| && line[pos] == PERCENT
    ensures malformed <==> !EscapeAt(line, pos)
    ensures malformed ==> newPos == pos
    ensures !malformed ==> newPos == pos + 2 && out == 16 * HexValue(line[pos + 1]) + HexValue(line[pos + 2])
  {
    out := 0;
    var p := pos;
    var encoded: seq<u8> := [];
    for i := 0 to 2
      invariant p == pos + i < |line|
      invariant encoded == line[pos + 1..p + 1]
      invariant forall k | 0 <= k < i :: IsValid(encoded[k])
    {
      p := p + 1;
      if p == |line| || !IsValid(line[p]) {
        return true, out, pos;
      }
      encoded := encoded + [line[p]];
    }
    var k := 16 * HexValue(encoded[0]) + HexValue(encoded[1]);
    if k >= 256 {
      return true, out, pos;
    }
    return false, k, p;
  }

  /** The iterator loop, which skips over escapes in place, computes the reference decoding. */
  method DecodeLine(line: seq<u8>) returns (lineOut: seq<u8>)
    ensures lineOut == Decode(line)
  {
    lineOut := [];
    var i := 0;
    while i != |line|
      invariant 0 <= i <= |line|
      invariant lineOut + Decode(line[i..]) == Decode(line)
      decreases |line| - i
    {
      var c := line[i];
      ghost var rest := line[i..];
      if line[i] == PERCENT {
        var malformed, decoded, pos := Parse(line, i);
        assert malformed <==> !EscapeAt(rest, 0);
        if malformed {
          assert rest[1..] == line[i + 1..];
          i := i + 1;
          continue;
        }
        assert rest[3..] == line[i + 3..];
        c, i := decoded, pos;
      } else {
        assert rest[1..] == line[i + 1..];
      }
      lineOut := lineOut + [c];
      i := i + 1;
    }
  }

  // ----- inversion -----

  lemma {:induction false} DecodeEncode(s: seq<u8>, escapes: set<u8>)
    requires PERCENT in escapes
    ensures Decode(Encode(s, escapes)) == s
  {
    if s != [] {
      DecodeEncode(s[1..], escapes);
      var head, tail := EncodeByte(s[0], escapes), Encode(s[1..], escapes);
      assert (head + tail)[|head|..] == tail;
    }
  }

  /** The filter undoes an encoding of every byte string exactly when that encoding escapes '%'. */
  lemma DecodeInvertsExactly(escapes: set<u8>)
    ensures (forall s: seq<u8> :: Decode(Encode(s, escapes)) == s) <==> PERCENT in escapes
  {
    if PERCENT in escapes {
      forall s: seq<u8> ensures Decode(Encode(s, escapes)) == s {
        DecodeEncode(s, escapes);
      }
    } else {
      var s: seq<u8> := [PERCENT];
      assert Encode(s, escapes) == [PERCENT];
      assert Decode([PERCENT]) == [];
      assert Decode(Encode(s, escapes)) != s;
    }
  }

  // ----- splitting a line -----

  /** A line whose end could still become an escape: it ends in '%' or in '%' and one digit. */
  predicate Pending(a: seq<u8>) {
    || (|a| >= 1 && a[|a| - 1] == PERCENT)
    || (|a| >= 2 && a[|a| - 2] == PERCENT && IsValid(a[|a| - 1]))
  }

  lemma {:induction false} DecodeConcat(a: seq<u8>, b: seq<u8>)
    requires !Pending(a)
    ensures Decode(a + b) == Decode(a) + Decode(b)
  {
    if a == [] {
      assert a + b == b;
    } else {
      var n := if EscapeAt(a, 0) then 3 else 1;
      assert EscapeAt(a + b, 0) <==> EscapeAt(a, 0);
      assert (a + b)[n..] == a[n..] + b;
      DecodeConcat(a[n..], b);
    }
  }

  /** What a pending end decodes to once the missing digits arrive. */
  lemma {:induction false} DecodeCompleted(a: seq<u8>)
    requires Pending(a)
    ensures |Decode(a + (if a[|a| - 1] == PERCENT then [0x34, 0x31] else [0x31]))|
         != |Decode(a)| + |Decode(if a[|a| - 1] == PERCENT then [0x34, 0x31] else [0x31])|
  {
    var b := if a[|a| - 1] == PERCENT then [0x34, 0x31] else [0x31];
    var cut := if a[|a| - 1] == PERCENT then |a| - 1 else |a| - 2;
    if cut == 0 {
      assert a + b == [PERCENT, (a + b)[1], 0x31];
      assert Decode((a + b)[3..]) == [];
      assert a == [PERCENT] || a == [PERCENT, a[1]];
      CountsVanish(b);
      assert |a| == 2 ==> Decode(a) == Decode(a[1..]) && Decode(a[1..]) == [a[1]];
    } else {
      var n := if EscapeAt(a, 0) then 3 else 1;
      assert EscapeAt(a + b, 0) <==> EscapeAt(a, 0);
      assert (a + b)[n..] == a[n..] + b;
      DecodeCompleted(a[n..]);
    }
  }

  /** Decoding distributes over a split for every continuation exactly when nothing is pending. */
  lemma DecodeSplitsExactly(a: seq<u8>)
    ensures (forall b: seq<u8> :: Decode(a + b) == Decode(a) + Decode(b)) <==> !Pending(a)
  {
    if Pending(a) {
      DecodeCompleted(a);
      var b: seq<u8> := if a[|a| - 1] == PERCENT then [0x34, 0x31] else [0x31];
      assert Decode(a + b) != Decode(a) + Decode(b);
    } else {
      forall b: seq<u8> ensures Decode(a + b) == Decode(a) + Decode(b) {
        DecodeConcat(a, b);
      }
    }
  }

  // ----- accounting -----

  /** Counted at every position of the line, not only where the decoder stops. */
  function Escapes(s: seq<u8>): nat {
    if s == [] then 0 else (if EscapeAt(s, 0) then 1 else 0) + Escapes(s[1..])
  }

  function Malformed(s: seq<u8>): nat {
    if s == [] then 0
    else (if s[0] == PERCENT && !EscapeAt(s, 0) then 1 else 0) + Malformed(s[1..])
  }

  lemma {:induction false} DecodeLength(s: seq<u8>)
    ensures |s| == |Decode(s)| + 2 * Escapes(s) + Malformed(s)
  {
    if s != [] {
      if EscapeAt(s, 0) {
        // no escape starts inside an escape: a digit is never '%'
        assert s[1..][1..] == s[2..] && s[2..][1..] == s[3..];
        assert Escapes(s[1..]) == Escapes(s[2..]) == Escapes(s[3..]);
        assert Malformed(s[1..]) == Malformed(s[2..]) == Malformed(s[3..]);
        DecodeLength(s[3..]);
      } else {
        DecodeLength(s[1..]);
      }
    }
  }

  lemma {:induction false} CountsVanish(s: seq<u8>)
    ensures Escapes(s) + Malformed(s) == 0 <==> PERCENT !in s
    ensures PERCENT !in s ==> Decode(s) == s
  {
    if s != [] {
      CountsVanish(s[1..]);
      assert s == [s[0]] + s[1..];
    }
  }

  /** The lines the filter leaves alone are exactly those without a '%'. */
  lemma DecodeFixesExactly(s: seq<u8>)
    ensures Decode(s) == s <==> PERCENT !in s
  {
    DecodeLength(s);
    CountsVanish(s);
  }
}
