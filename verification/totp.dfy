/**
 Time-based one-time codes: the truncation of a 20-byte MAC (section 5.3 of RFC 4226), and the check
 of a typed code against the current 30-second step and its neighbours (section 5.2 of RFC 6238).
 The MAC itself is a parameter.
 */
module Totp {
  import opened DecimalText
  import opened Utf8

  const STEP_SECONDS := 30
  const DIGITS := 6
  const DRIFT := 1

  type Mac = m: seq<byte> | |m| == 20 witness seq(20, _ => 0)

  // ---------------------------------------------------------------- truncation

  /** `mac[-1] & 0x0F` */
  function Offset(mac: Mac): (o: nat)
    ensures o + 4 <= 19
  {
    mac[19] as int % 16
  }

  /** `struct.unpack('>I', ...)[0] & 0x7FFFFFFF` */
  function Truncated(mac: Mac): (v: nat)
    ensures v < 0x8000_0000
  {
    var o := Offset(mac);
    (((mac[o] as int % 128) * 256 + mac[o + 1]) * 256 + mac[o + 2]) * 256 + mac[o + 3]
  }

  /** The mask clears the top bit of the four-byte big-endian number, and nothing else. */
  lemma TruncationIsMask(mac: Mac)
    ensures var o := Offset(mac);
            var word := ((mac[o] as int * 256 + mac[o + 1]) * 256 + mac[o + 2]) * 256 + mac[o + 3];
            Truncated(mac) == word % 0x8000_0000
  {
    var o := Offset(mac);
    var high := mac[o] as int;
    var word := ((high * 256 + mac[o + 1]) * 256 + mac[o + 2]) * 256 + mac[o + 3];
    assert high == (high / 128) * 128 + high % 128;
    assert word == (high / 128) * 0x8000_0000 + Truncated(mac);
  }

  // ---------------------------------------------------------------- the code of a counter

  /** `_hotp`, given the MAC of the counter. */
  function Hotp(mac: Mac): string {
    ZeroFill(Decimal(Truncated(mac) % 1_000_000), DIGITS)
  }

  /** Section 5.3 of RFC 4226: the low four bits of the last byte say where the four bytes are; the code is that
      big-endian number without its top bit, modulo a million, in six digits. */
  lemma HotpIsSixDigits(mac: Mac)
    ensures |Hotp(mac)| == 6 && AllDigits(Hotp(mac))
    ensures var o := mac[19] as int % 16;
            var word := ((mac[o] as int * 256 + mac[o + 1]) * 256 + mac[o + 2]) * 256 + mac[o + 3];
            Number(Hotp(mac)) == word % 0x8000_0000 % 1_000_000
  {
    var n := Truncated(mac) % 1_000_000;
    assert Power10(2) == 100 && Power10(4) == 100 * Power10(2) && Power10(6) == 100 * Power10(4);
    DecimalLength(n, 6);
    DecimalIsNumber(n);
    ZeroFillKeeps(Decimal(n), DIGITS);
    TruncationIsMask(mac);
  }

  /** The MAC of section 5.4 of RFC 4226, whose code is 872921. */
  lemma RfcExample(mac: Mac)
    requires mac == [0x1f, 0x86, 0x98, 0x69, 0x0e, 0x02, 0xca, 0x16, 0x61, 0x85,
                     0x50, 0xef, 0x7f, 0x19, 0xda, 0x8e, 0x94, 0x5b, 0x55, 0x5a]
    ensures Hotp(mac) == "872921"
  {
    assert mac[19] as int % 16 == 10;
    HotpIsSixDigits(mac);
    SixDigitsOf(Hotp(mac), "872921");
  }

  lemma OneMoreDigit(text: string, c: char)
    requires forall i :: 0 <= i < |text| ==> IsDigit(text[i])
    requires IsDigit(c)
    ensures (forall i :: 0 <= i < |text + [c]| ==> IsDigit((text + [c])[i]))
    ensures Number(text + [c]) == Number(text) * 10 + (c as int - '0' as int)
  {
    assert (text + [c])[..|text|] == text;
  }

  /** Texts of the same number of digits for the same number are the same. */
  lemma {:induction false} SameDigits(a: string, b: string)
    requires |a| == |b|
    requires (forall i :: 0 <= i < |a| ==> IsDigit(a[i])) && (forall i :: 0 <= i < |b| ==> IsDigit(b[i]))
    requires Number(a) == Number(b)
    ensures a == b
  {
    if a != "" {
      var n := |a| - 1;
      assert a == a[..n] + [a[n]] && b == b[..n] + [b[n]];
      OneMoreDigit(a[..n], a[n]);
      OneMoreDigit(b[..n], b[n]);
      SameDigits(a[..n], b[..n]);
    }
  }

  lemma SixDigitsOf(a: string, b: string)
    requires |a| == 6 && AllDigits(a) && Number(a) == 872921 && b == "872921"
    ensures a == b
  {
    var b1, b2, b3, b4, b5 := "8", "87", "872", "8729", "87292";
    OneMoreDigit("", '8');
    OneMoreDigit(b1, '7');
    OneMoreDigit(b2, '2');
    OneMoreDigit(b3, '9');
    OneMoreDigit(b4, '2');
    OneMoreDigit(b5, '1');
    assert "" + ['8'] == b1 && b1 + ['7'] == b2 && b2 + ['2'] == b3 && b3 + ['9'] == b4 && b4 + ['2'] == b5;
    assert b5 + ['1'] == b;
    SameDigits(a, b);
  }

  // ---------------------------------------------------------------- checking a typed code

  /** `int(at // 30)` */
  function Counter(at: real): (c: int)
    ensures (30 * c) as real <= at < (30 * (c + 1)) as real
  {
    assert at.Floor as real <= at < at.Floor as real + 1.0;
    at.Floor / STEP_SECONDS
  }

  predicate IsBlank(c: char) {
    c == ' ' || '\t' <= c <= '\r'
  }

  /** `code.strip().replace(' ', '')`: blanks at the ends, and spaces anywhere. */
  function Compact(code: string): string {
    NoSpaces(StripRight(StripLeft(code)))
  }

  function StripLeft(s: string): string {
    if s != "" && IsBlank(s[0]) then StripLeft(s[1..]) else s
  }

  function StripRight(s: string): string {
    if s != "" && IsBlank(s[|s| - 1]) then StripRight(s[..|s| - 1]) else s
  }

  function NoSpaces(s: string): string {
    if s == "" then "" else (if s[0] == ' ' then "" else [s[0]]) + NoSpaces(s[1..])
  }

  /** `text.zfill(6)[-6:]` */
  function LastSix(text: string): (r: string)
    ensures |r| == 6
  {
    var filled := ZeroFill(text, DIGITS);
    filled[|filled| - DIGITS..]
  }

  /** `verify_code`, given the MAC of every counter under the device's secret. */
  method VerifyCode(mac: nat -> Mac, code: string, at: real) returns (ok: bool)
    requires at >= 0.0
    ensures ok <==> Verifies(mac, code, at)
  {
    var text := Compact(code);
    if !AllDigits(text) {
      return false;
    }
    var step := Counter(at);
    var candidate := step - DRIFT;
    while candidate <= step + DRIFT
      invariant step - DRIFT <= candidate <= step + DRIFT + 1
      invariant forall c: nat :: step - DRIFT <= c < candidate ==> Hotp(mac(c)) != LastSix(text)
    {
      if candidate >= 0 && Hotp(mac(candidate)) == LastSix(text) {
        return true;
      }
      candidate := candidate + 1;
    }
    ok := false;
  }

  /** Accepted exactly when the text, padded or cut to six digits, is the code of the current step or
      of a neighbour. */
  predicate Verifies(mac: nat -> Mac, code: string, at: real) {
    AllDigits(Compact(code)) &&
    exists c: nat :: Counter(at) - DRIFT <= c <= Counter(at) + DRIFT && Hotp(mac(c)) == LastSix(Compact(code))
  }

  /** A genuine code works from one step before its own to the end of the next: for all of
      [30(c-1), 30(c+2)). */
  lemma GenuineCodeWorks(mac: nat -> Mac, c: nat, at: real)
    requires (30 * (c - 1)) as real <= at < (30 * (c + 2)) as real
    ensures Verifies(mac, Hotp(mac(c)), at)
  {
    var code := Hotp(mac(c));
    HotpIsSixDigits(mac(c));
    CompactDigits(code);
    assert LastSix(code) == code;
    assert Counter(at) - DRIFT <= c <= Counter(at) + DRIFT && Hotp(mac(c)) == LastSix(Compact(code));
  }

  /** Outside that interval it is accepted only where some other counter near the clock has the same
      six digits. */
  lemma OnlyThen(mac: nat -> Mac, c: nat, at: real)
    requires Verifies(mac, Hotp(mac(c)), at)
    requires !((30 * (c - 1)) as real <= at < (30 * (c + 2)) as real)
    ensures exists d: nat :: d != c && Counter(at) - 1 <= d <= Counter(at) + 1 && Hotp(mac(d)) == Hotp(mac(c))
  {
    var code := Hotp(mac(c));
    HotpIsSixDigits(mac(c));
    CompactDigits(code);
    assert LastSix(code) == code;
    var d: nat :| Counter(at) - DRIFT <= d <= Counter(at) + DRIFT && Hotp(mac(d)) == LastSix(Compact(code));
    assert d != c;
  }

  // ---------------------------------------------------------------- blanks in a typed code

  /** The blanks of ASCII text: the space, and tab, line feed, vertical tab, form feed and carriage return. */
  lemma BlanksAre(c: char)
    ensures IsBlank(c) <==> c == ' ' || c == '\t' || c == '\n' || c == '\U{0B}' || c == '\U{0C}' || c == '\r'
  {
  }

  predicate AllBlank(s: string) {
    forall i :: 0 <= i < |s| ==> IsBlank(s[i])
  }

  lemma {:induction false} NoSpacesJoins(a: string, b: string)
    ensures NoSpaces(a + b) == NoSpaces(a) + NoSpaces(b)
  {
    if a == "" {
      assert a + b == b;
    } else {
      assert (a + b)[1..] == a[1..] + b;
      NoSpacesJoins(a[1..], b);
    }
  }

  lemma {:induction false} StripLeftJoins(a: string, b: string)
    ensures StripLeft(a + b) == if AllBlank(a) then StripLeft(b) else StripLeft(a) + b
  {
    if a == "" {
      assert a + b == b;
    } else if IsBlank(a[0]) {
      assert (a + b)[1..] == a[1..] + b;
      StripLeftJoins(a[1..], b);
      assert AllBlank(a) <==> AllBlank(a[1..]) by {
        assert forall i :: 1 <= i < |a| ==> a[i] == a[1..][i - 1];
      }
    }
  }

  lemma {:induction false} StripRightJoins(a: string, b: string)
    ensures StripRight(a + b) == if AllBlank(b) then StripRight(a) else a + StripRight(b)
  {
    if b == "" {
      assert a + b == a;
    } else if IsBlank(b[|b| - 1]) {
      var less := b[..|b| - 1];
      assert (a + b)[..|a + b| - 1] == a + less;
      StripRightJoins(a, less);
      assert AllBlank(b) <==> AllBlank(less) by {
        assert forall i :: 0 <= i < |less| ==> less[i] == b[i];
      }
    }
  }

  lemma {:induction false} StripRightKeepsBlanks(s: string)
    ensures AllBlank(s) <==> StripRight(s) == ""
  {
    if s != "" && IsBlank(s[|s| - 1]) {
      StripRightKeepsBlanks(s[..|s| - 1]);
    }
  }

  /** A space makes no difference, wherever it is typed. */
  lemma SpacesDoNotMatter(a: string, b: string)
    ensures Compact(a + (" " + b)) == Compact(a + b)
  {
    assert AllBlank(" ") && NoSpaces(" ") == "" by {
      assert " "[1..] == "";
    }
    StripLeftJoins(a, " " + b);
    StripLeftJoins(a, b);
    StripLeftJoins(" ", b);
    if !AllBlank(a) {
      var c := StripLeft(a);
      StripRightJoins(c, " " + b);
      StripRightJoins(c, b);
      StripRightJoins(" ", b);
      assert AllBlank(" " + b) <==> AllBlank(b) by {
        assert forall i :: 0 <= i < |b| ==> (" " + b)[i + 1] == b[i];
      }
      if !AllBlank(b) {
        NoSpacesJoins(c, " " + StripRight(b));
        NoSpacesJoins(c, StripRight(b));
        NoSpacesJoins(" ", StripRight(b));
      }
    }
  }

  /** Nor does any other blank at either end. */
  lemma EndsDoNotMatter(blanks: string, code: string)
    requires AllBlank(blanks)
    ensures Compact(blanks + code) == Compact(code) == Compact(code + blanks)
  {
    StripLeftJoins(blanks, code);
    StripLeftJoins(code, blanks);
    StripLeftJoins(blanks, "");
    assert blanks + "" == blanks;
    if AllBlank(code) {
      StripLeftJoins(code, "");
      assert code + "" == code;
    } else {
      StripRightJoins(StripLeft(code), blanks);
    }
  }

  /** What is compared: the last six digits, after zeros where there are fewer. */
  lemma {:induction false} LastSixIs(text: string)
    ensures |text| >= 6 ==> LastSix(text) == text[|text| - 6..]
    ensures |text| < 6 ==> LastSix(text) == Zeros(6 - |text|) + text
  {
    ZerosFill(text, 6);
  }

  function Zeros(n: nat): string {
    seq(n, _ => '0')
  }

  lemma {:induction false} ZerosFill(text: string, width: nat)
    ensures ZeroFill(text, width) == if |text| < width then Zeros(width - |text|) + text else text
    decreases width - |text|
  {
    if |text| < width {
      ZerosFill("0" + text, width);
      if |text| + 1 < width {
        assert Zeros(width - |text|) == Zeros(width - |text| - 1) + "0";
        assert Zeros(width - |text| - 1) + ("0" + text) == Zeros(width - |text|) + text;
      } else {
        assert Zeros(1) == "0";
      }
    }
  }

  lemma {:induction false} NoSpacesDigits(s: string)
    requires forall i :: 0 <= i < |s| ==> IsDigit(s[i])
    ensures NoSpaces(s) == s
  {
    if s != "" {
      NoSpacesDigits(s[1..]);
    }
  }

  lemma CompactDigits(s: string)
    requires AllDigits(s)
    ensures Compact(s) == s
  {
    NoSpacesDigits(s);
  }
}
