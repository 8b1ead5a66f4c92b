/**
 Single-use recovery codes. A stored hash is represented by the text it was made from: checking a text
 against it succeeds exactly for that text.
 */
module RecoveryCodes {
  datatype Code = Code(text: string, used: bool)

  function Issued(drawn: seq<string>): seq<Code> {
    seq(|drawn|, i requires 0 <= i < |drawn| => Code(drawn[i], false))
  }

  /** The first unused code with this text is spent. */
  function Spend(codes: seq<Code>, text: string): (r: seq<Code>)
    ensures |r| == |codes|
  {
    if codes == [] then []
    else if !codes[0].used && codes[0].text == text then [codes[0].(used := true)] + codes[1..]
    else [codes[0]] + Spend(codes[1..], text)
  }

  function Unused(codes: seq<Code>, text: string): nat {
    if codes == [] then 0 else (if codes[0] == Code(text, false) then 1 else 0) + Unused(codes[1..], text)
  }

  lemma {:induction false} SpendOne(codes: seq<Code>, text: string, other: string)
    requires Code(text, false) in codes
    ensures Unused(Spend(codes, text), other) == Unused(codes, other) - if other == text then 1 else 0
    ensures Unused(codes, text) > 0
  {
    if codes[0] == Code(text, false) {
      assert ([codes[0].(used := true)] + codes[1..])[1..] == codes[1..];
    } else {
      SpendOne(codes[1..], text, other);
      assert ([codes[0]] + Spend(codes[1..], text))[1..] == Spend(codes[1..], text);
    }
  }

  /** How often a text is among those drawn. */
  function Times(drawn: seq<string>, text: string): nat {
    if drawn == [] then 0 else (if drawn[0] == text then 1 else 0) + Times(drawn[1..], text)
  }

  predicate AllDifferent(drawn: seq<string>) {
    forall i, j :: 0 <= i < j < |drawn| ==> drawn[i] != drawn[j]
  }

  /** A batch is as good for a text as it was drawn for it. */
  lemma {:induction false} IssuedTimes(drawn: seq<string>, text: string)
    ensures Unused(Issued(drawn), text) == Times(drawn, text)
  {
    if drawn != [] {
      assert Issued(drawn)[1..] == Issued(drawn[1..]);
      IssuedTimes(drawn[1..], text);
    }
  }

  lemma {:induction false} TimesJoin(a: seq<string>, b: seq<string>, text: string)
    ensures Times(a + b, text) == Times(a, text) + Times(b, text)
  {
    if a == [] {
      assert a + b == b;
    } else {
      assert (a + b)[1..] == a[1..] + b;
      TimesJoin(a[1..], b, text);
    }
  }

  lemma {:induction false} DifferentTimes(drawn: seq<string>, text: string)
    requires AllDifferent(drawn)
    ensures Times(drawn, text) == if text in drawn then 1 else 0
  {
    if drawn != [] {
      DifferentTimes(drawn[1..], text);
      assert drawn[0] !in drawn[1..];
      assert text in drawn <==> text == drawn[0] || text in drawn[1..];
    }
  }

  lemma {:induction false} NotDrawn(drawn: seq<string>, text: string)
    requires text !in drawn
    ensures Times(drawn, text) == 0
  {
    if drawn != [] {
      NotDrawn(drawn[1..], text);
    }
  }

  lemma {:induction false} SpendAt(codes: seq<Code>, text: string, i: nat)
    requires i < |codes| && codes[i] == Code(text, false) && Code(text, false) !in codes[..i]
    ensures Spend(codes, text) == codes[i := codes[i].(used := true)]
    ensures Code(text, false) in codes
  {
    if i > 0 {
      assert codes[0] in codes[..i];
      assert codes[1..][..i - 1] == codes[..i][1..];
      SpendAt(codes[1..], text, i - 1);
    }
  }
}
