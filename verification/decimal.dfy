/** Numbers as decimal text: `str(n)`, `int(text)` and `zfill`. */
module DecimalText {
  predicate IsDigit(c: char) {
    '0' <= c <= '9'
  }

  /** `text.isdigit()` for ASCII text */
  predicate AllDigits(text: string) {
    text != "" && forall i :: 0 <= i < |text| ==> IsDigit(text[i])
  }

  function Digit(d: nat): (c: char)
    requires d < 10
    ensures IsDigit(c)
  {
    ('0' as int + d) as char
  }

  /** `str(n)` */
  function Decimal(n: nat): (text: string)
    ensures AllDigits(text)
  {
    if n < 10 then [Digit(n)] else Decimal(n / 10) + [Digit(n % 10)]
  }

  /** The number a text of digits stands for. */
  function Number(text: string): (n: nat)
    requires forall i :: 0 <= i < |text| ==> IsDigit(text[i])
  {
    if text == "" then 0
    else
      assert IsDigit(text[|text| - 1]);
      Number(text[..|text| - 1]) * 10 + (text[|text| - 1] as int - '0' as int)
  }

  /** `text.zfill(width)` for text without a sign */
  function ZeroFill(text: string, width: nat): (r: string)
    ensures |r| == if |text| < width then width else |text|
    decreases width - |text|
  {
    if |text| >= width then text else ZeroFill("0" + text, width)
  }

  function Power10(k: nat): nat {
    if k == 0 then 1 else 10 * Power10(k - 1)
  }

  lemma {:induction false} DecimalIsNumber(n: nat)
    ensures Number(Decimal(n)) == n
  {
    if n < 10 {
      assert [Digit(n)][..0] == "";
    } else {
      DecimalIsNumber(n / 10);
      assert (Decimal(n / 10) + [Digit(n % 10)])[..|Decimal(n / 10)|] == Decimal(n / 10);
    }
  }

  /** No zero stands in front. */
  lemma {:induction false} NoLeadingZero(n: nat)
    ensures n > 0 ==> Decimal(n)[0] != '0'
    ensures Decimal(0) == "0"
  {
    if n >= 10 {
      NoLeadingZero(n / 10);
    }
  }

  lemma {:induction false} DecimalLength(n: nat, k: nat)
    requires k > 0 && n < Power10(k)
    ensures |Decimal(n)| <= k
  {
    if n >= 10 {
      assert k > 1 by { assert Power10(1) == 10 * Power10(0); }
      assert n / 10 < Power10(k - 1);
      DecimalLength(n / 10, k - 1);
    }
  }

  lemma {:induction false} LeadingZero(text: string)
    requires forall i :: 0 <= i < |text| ==> IsDigit(text[i])
    ensures forall i :: 0 <= i < |"0" + text| ==> IsDigit(("0" + text)[i])
    ensures Number("0" + text) == Number(text)
  {
    var longer := "0" + text;
    if text == "" {
      assert longer == "0" && longer[..0] == "";
    } else {
      var last := |text| - 1;
      LeadingZero(text[..last]);
      assert longer[..|longer| - 1] == "0" + text[..last];
    }
  }

  lemma {:induction false} ZeroFillKeeps(text: string, width: nat)
    requires forall i :: 0 <= i < |text| ==> IsDigit(text[i])
    ensures forall i :: 0 <= i < |ZeroFill(text, width)| ==> IsDigit(ZeroFill(text, width)[i])
    ensures Number(ZeroFill(text, width)) == Number(text)
    decreases width - |text|
  {
    if |text| < width {
      LeadingZero(text);
      ZeroFillKeeps("0" + text, width);
    }
  }
}
