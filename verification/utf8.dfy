/**
 UTF-8 (section 3 of RFC 3629): what `str.encode('utf-8')` produces and what
 `bytes.decode('utf-8')` accepts. A Dafny `char` is a Unicode scalar value, which is exactly what
 Python can encode.
 */
module Utf8 {
  import opened Wrappers

  type byte = x: int | 0 <= x < 256

  /** `(b & 0xC0) == 0x80`: the two top bits are 10. */
  predicate IsContinuation(b: byte) {
    b / 64 == 2
  }

  /** A scalar value as base-64 digits, six bits at a time. */
  function EncodeChar(c: char): (r: seq<byte>)
    ensures 1 <= |r| <= 4 && !IsContinuation(r[0])
    ensures forall i :: 1 <= i < |r| ==> IsContinuation(r[i])
  {
    var d0 := c as int;
    var (d1, d2, d3) := (d0 / 64, d0 / 64 / 64, d0 / 64 / 64 / 64);
    if d0 < 0x80 then [d0]
    else if d0 < 0x800 then [0xC0 + d1, 0x80 + d0 % 64]
    else if d0 < 0x10000 then [0xE0 + d2, 0x80 + d1 % 64, 0x80 + d0 % 64]
    else [0xF0 + d3, 0x80 + d2 % 64, 0x80 + d1 % 64, 0x80 + d0 % 64]
  }

  function Encode(s: string): (r: seq<byte>)
    ensures |s| <= |r|
  {
    if s == "" then [] else EncodeChar(s[0]) + Encode(s[1..])
  }

  /** One more base-64 digit. */
  function Push(high: int, digit: int): (v: int)
    ensures 0 <= digit < 64 ==> v / 64 == high && v % 64 == digit
  {
    high * 64 + digit
  }

  /** The value a lead byte and up to three continuation bytes stand for (-1: not a lead byte), and
      the length the lead byte announces. */
  function ScalarAt(b: seq<byte>): (r: (int, nat))
    ensures r.0 != -1 ==> 1 <= r.1 <= |b| && 0 <= r.0
  {
    var tail := (i: int) requires 0 <= i < |b| => b[i] as int - 0x80;
    if |b| >= 1 && b[0] < 0x80 then
      (b[0] as int, 1)
    else if |b| >= 2 && 0xC0 <= b[0] < 0xE0 && IsContinuation(b[1]) then
      (Push(b[0] as int - 0xC0, tail(1)), 2)
    else if |b| >= 3 && 0xE0 <= b[0] < 0xF0 && IsContinuation(b[1]) && IsContinuation(b[2]) then
      (Push(Push(b[0] as int - 0xE0, tail(1)), tail(2)), 3)
    else if |b| >= 4 && 0xF0 <= b[0] < 0xF8 && IsContinuation(b[1]) && IsContinuation(b[2]) && IsContinuation(b[3]) then
      (Push(Push(Push(b[0] as int - 0xF0, tail(1)), tail(2)), tail(3)), 4)
    else
      (-1, 0)
  }

  /** The shortest length for a scalar value; longer forms and surrogates are not UTF-8. */
  predicate Wellformed(v: int, n: nat) {
    && (0 <= v < 0xD800 || 0xE000 <= v < 0x110000)
    && n == if v < 0x80 then 1 else if v < 0x800 then 2 else if v < 0x10000 then 3 else 4
  }

  /** The first character of `b` and how many bytes it takes; None where a strict decoder stops. */
  function DecodeFirst(b: seq<byte>): (r: Option<(char, nat)>)
    ensures r.Some? ==> 1 <= r.value.1 <= |b| && b[..r.value.1] == EncodeChar(r.value.0)
  {
    var (v, n) := ScalarAt(b);
    if Wellformed(v, n) then
      ScalarAtEncodes(b);
      Some((v as char, n))
    else
      None
  }

  lemma ScalarAtEncodes(b: seq<byte>)
    requires Wellformed(ScalarAt(b).0, ScalarAt(b).1)
    ensures b[..ScalarAt(b).1] == EncodeChar(ScalarAt(b).0 as char)
  {
  }

  /** Section 7 of RFC 3629, and one character of each length. */
  lemma EncodedExamples()
    ensures EncodeChar('A') == [0x41] && EncodeChar('\U{2262}') == [0xE2, 0x89, 0xA2]
    ensures EncodeChar('\U{391}') == [0xCE, 0x91] && EncodeChar('\U{233B4}') == [0xF0, 0xA3, 0x8E, 0xB4]
  {
  }

  lemma EncodeCons(c: char, s: string)
    ensures Encode([c] + s) == EncodeChar(c) + Encode(s)
  {
    assert ([c] + s)[0] == c && ([c] + s)[1..] == s;
  }

  lemma DecodedEncodes(b: seq<byte>, n: nat, c: char, rest: string)
    requires n <= |b| && b[..n] == EncodeChar(c) && Encode(rest) == b[n..]
    ensures Encode([c] + rest) == b
  {
    EncodeCons(c, rest);
    assert b == b[..n] + b[n..];
  }

  /** Strict decoding: None is Python's UnicodeDecodeError. */
  function Decode(b: seq<byte>): (r: Option<string>)
    ensures r.Some? ==> Encode(r.value) == b
  {
    if b == [] then Some("")
    else
      match DecodeFirst(b)
      case None => None
      case Some((c, n)) =>
        match Decode(b[n..])
        case None => None
        case Some(rest) =>
          DecodedEncodes(b, n, c, rest);
          Some([c] + rest)
  }

  lemma DecodeFirstEncode(c: char, rest: seq<byte>)
    ensures DecodeFirst(EncodeChar(c) + rest) == Some((c, |EncodeChar(c)|))
  {
    var v, e := c as int, EncodeChar(c);
    var b := e + rest;
    assert forall i :: 0 <= i < |e| ==> b[i] == e[i];
    assert ScalarAt(b) == (v, |e|);
  }

  /** Every text survives the trip through its bytes. */
  lemma {:induction false} DecodeEncode(s: string)
    ensures Decode(Encode(s)) == Some(s)
  {
    if s != "" {
      var c, rest := s[0], Encode(s[1..]);
      DecodeFirstEncode(c, rest);
      assert (EncodeChar(c) + rest)[|EncodeChar(c)|..] == rest;
      DecodeEncode(s[1..]);
      assert s == [c] + s[1..];
    }
  }

  lemma {:induction false} EncodeAppend(s: string, t: string)
    ensures Encode(s + t) == Encode(s) + Encode(t)
  {
    if s == "" {
      assert s + t == t;
    } else {
      EncodeAppend(s[1..], t);
      assert (s + t)[0] == s[0] && (s + t)[1..] == s[1..] + t;
      Associate(EncodeChar(s[0]), Encode(s[1..]), Encode(t));
    }
  }

  lemma EncodeSplit(s: string, j: nat)
    requires j <= |s|
    ensures Encode(s) == Encode(s[..j]) + Encode(s[j..])
  {
    TakeDrop(s, j);
    EncodeAppend(s[..j], s[j..]);
  }

  /** A position that is the end, or does not start with a continuation byte, is between two
      characters. */
  lemma {:induction false} Boundary(s: string, k: nat) returns (j: nat)
    requires k <= |Encode(s)|
    requires k == |Encode(s)| || !IsContinuation(Encode(s)[k])
    ensures j <= |s| && Encode(s[..j]) == Encode(s)[..k]
  {
    if k == 0 {
      j := 0;
    } else {
      var n := |EncodeChar(s[0])|;
      assert k >= n;
      var i := Boundary(s[1..], k - n);
      j := i + 1;
      assert s[..j][1..] == s[1..][..i];
    }
  }
}
