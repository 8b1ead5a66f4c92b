/**
 Folding one content line at 75 octets (section 2.6 of RFC 2426) without splitting a character, and
 the reader's unfolding.
 */
module ContentLine {
  import opened Wrappers
  import opened Utf8

  const FIRST_LIMIT := 75
  const NEXT_LIMIT := 74

  /** How many leading characters of `s` fit into `limit` octets. */
  function Fit(s: string, limit: nat): (j: nat)
    ensures j <= |s| && |Encode(s[..j])| <= limit
    ensures j < |s| ==> |Encode(s[..j + 1])| > limit
    ensures limit >= 4 && s != "" ==> j > 0
  {
    if s == "" || |EncodeChar(s[0])| > limit then
      0
    else
      var n := |EncodeChar(s[0])|;
      var i := Fit(s[1..], limit - n);
      assert s[..i + 1][1..] == s[1..][..i];
      assert i + 1 < |s| ==> s[..i + 2][1..] == s[1..][..i + 1];
      i + 1
  }

  /** The greedy split: as many whole characters as fit, again and again. */
  function Pieces(s: string, limit: nat): (parts: seq<string>)
    requires limit >= 4
    ensures parts == [] <==> s == ""
    decreases |s|
  {
    if s == "" then [] else
      var j := Fit(s, limit);
      [s[..j]] + Pieces(s[j..], NEXT_LIMIT)
  }

  /** `'\r\n '.join(parts)` */
  function Join(parts: seq<string>): string {
    if parts == [] then ""
    else if |parts| == 1 then parts[0]
    else parts[0] + "\r\n " + Join(parts[1..])
  }

  function Folded(line: string): string {
    Join(Pieces(line, FIRST_LIMIT))
  }

  /** The byte loop: one decoded piece per round. Decoding never fails. */
  method Fold(line: string) returns (folded: string)
    ensures folded == Folded(line)
  {
    var raw := Encode(line);
    if |raw| <= FIRST_LIMIT {
      ShortLine(line);
      return line;
    }
    var parts: seq<string>, limit := [], FIRST_LIMIT;
    ghost var rest := line;
    while raw != []
      invariant raw == Encode(rest)
      invariant limit == FIRST_LIMIT || limit == NEXT_LIMIT
      invariant parts + Pieces(rest, limit) == Pieces(line, FIRST_LIMIT)
      decreases |raw|
    {
      var cut := CutPoint(raw, limit, rest);
      ghost var j := Fit(rest, limit);
      EncodeSplit(rest, j);
      DecodeEncode(rest[..j]);
      var text := Decode(raw[..cut]);
      parts := parts + [text.value];
      raw, limit := raw[cut..], NEXT_LIMIT;
      rest := rest[j..];
    }
    assert parts == Pieces(line, FIRST_LIMIT);
    folded := Join(parts);
  }

  /** Step back from the limit while the next byte continues a character (a slice beyond the end of
      `raw` is `raw`). The loop stops exactly where the last character that fits ends. */
  method CutPoint(raw: seq<byte>, limit: nat, ghost rest: string) returns (cut: nat)
    requires raw == Encode(rest) && raw != [] && limit >= 4
    ensures 0 < cut <= |raw|
    ensures raw[..cut] == Encode(rest[..Fit(rest, limit)])
  {
    ghost var j := Fit(rest, limit);
    BoundaryIsNoContinuation(rest, j);
    cut := limit;
    while cut < |raw| && IsContinuation(raw[cut])
      invariant |Encode(rest[..j])| <= cut <= limit
      decreases cut
    {
      cut := cut - 1;
    }
    CutIsFit(rest, limit, cut);
    EncodeSplit(rest, j);
    cut := if cut < |raw| then cut else |raw|;
  }

  /** A line of at most 75 octets stays as it is; a longer one does not. */
  lemma ShortLine(line: string)
    requires |Encode(line)| <= 75
    ensures Folded(line) == line
  {
    if line != "" {
      var j := Fit(line, FIRST_LIMIT);
      FitAll(line, FIRST_LIMIT);
      assert line[..j] == line && line[j..] == "";
    }
  }

  lemma FitAll(s: string, limit: nat)
    requires |Encode(s)| <= limit
    ensures Fit(s, limit) == |s|
  {
    var j := Fit(s, limit);
    if j < |s| {
      EncodeSplit(s, j + 1);
    }
  }

  lemma BoundaryIsNoContinuation(s: string, j: nat)
    requires j <= |s|
    ensures var k := |Encode(s[..j])|;
            k <= |Encode(s)| && (k < |Encode(s)| ==> !IsContinuation(Encode(s)[k]))
  {
    EncodeSplit(s, j);
    if j < |s| {
      assert Encode(s[j..])[0] == EncodeChar(s[j..][0])[0];
    }
  }

  lemma EncodeLonger(s: string, i: nat, j: nat)
    requires i < j <= |s|
    ensures |Encode(s[..i])| < |Encode(s[..i + 1])| <= |Encode(s[..j])|
  {
    EncodeSplit(s[..i + 1], i);
    assert s[..i + 1][..i] == s[..i];
    EncodeSplit(s[..j], i + 1);
    assert s[..j][..i + 1] == s[..i + 1];
  }

  /** Where the inner loop may stop there is only one place: the end of the last character that
      fits. */
  lemma CutIsFit(s: string, limit: nat, cut: nat)
    requires |Encode(s[..Fit(s, limit)])| <= cut <= limit
    requires cut < |Encode(s)| ==> !IsContinuation(Encode(s)[cut])
    ensures var j := Fit(s, limit);
            && (cut < |Encode(s)| ==> |Encode(s[..j])| == cut && Encode(s)[..cut] == Encode(s[..j]))
            && (cut >= |Encode(s)| ==> j == |s|)
            && Encode(s[j..]) == if cut < |Encode(s)| then Encode(s)[cut..] else []
  {
    var j := Fit(s, limit);
    EncodeSplit(s, j);
    if cut >= |Encode(s)| {
      FitAll(s, limit);
    } else {
      var i := Boundary(s, cut);
      assert |Encode(s[..i])| == cut;
      if i < j {
        EncodeLonger(s, i, j);
      } else if i > j {
        EncodeLonger(s, j, i);
      }
    }
  }

  // ---------------------------------------------------------------- what the reader gets

  /** Octets of the physical lines a folded line occupies. */
  predicate FitsPhysicalLines(parts: seq<string>, limit: nat) {
    parts == [] || (|Encode(parts[0])| <= limit && FitsPhysicalLines(parts[1..], NEXT_LIMIT))
  }

  /** Every physical line is at most 75 octets, the leading space of a continuation included. */
  lemma {:induction false} PhysicalLinesFit(s: string, limit: nat)
    requires limit >= 4
    ensures FitsPhysicalLines(Pieces(s, limit), limit)
    decreases |s|
  {
    if s != "" {
      PhysicalLinesFit(s[Fit(s, limit)..], NEXT_LIMIT);
    }
  }

  /** Folding wastes at most three octets of a line: every piece but the last is within three of
      its limit, so at least 71 octets long. */
  lemma {:induction false} PiecesAreLong(s: string, limit: nat, i: nat)
    requires limit == FIRST_LIMIT || limit == NEXT_LIMIT
    requires i + 1 < |Pieces(s, limit)|
    ensures |Encode(Pieces(s, limit)[i])| >= (if i == 0 then limit else NEXT_LIMIT) - 3 >= 71
    decreases |s|
  {
    var j := Fit(s, limit);
    if i == 0 {
      assert j < |s|;
      EncodeAppend(s[..j], [s[j]]);
      assert s[..j] + [s[j]] == s[..j + 1];
      assert Encode([s[j]]) == EncodeChar(s[j]) + Encode([s[j]][1..]);
    } else {
      PiecesAreLong(s[j..], NEXT_LIMIT, i - 1);
    }
  }

  /** No piece is lost, repeated or reordered. */
  lemma {:induction false} PiecesConcatenate(s: string, limit: nat)
    requires limit >= 4
    ensures Concat(Pieces(s, limit)) == s
    decreases |s|
  {
    if s != "" {
      var j := Fit(s, limit);
      PiecesConcatenate(s[j..], NEXT_LIMIT);
      var parts := Pieces(s, limit);
      assert parts[0] == s[..j] && parts[1..] == Pieces(s[j..], NEXT_LIMIT);
      assert s == s[..j] + s[j..];
    }
  }

  function Concat(parts: seq<string>): string {
    if parts == [] then "" else parts[0] + Concat(parts[1..])
  }

  predicate StartsBreak(text: string) {
    |text| >= 2 && text[0] == '\r' && text[1] == '\n'
  }

  /** RFC 2426 unfolding: a line break directly followed by a space disappears with the space. */
  function Unfold(text: string): string {
    if text == "" then ""
    else if StartsBreak(text) && |text| >= 3 && text[2] == ' ' then Unfold(text[3..])
    else [text[0]] + Unfold(text[1..])
  }

  predicate NoBreaks(s: string) {
    '\r' !in s && '\n' !in s
  }

  /** Unfolding walks through text without carriage returns unchanged. */
  lemma {:induction false} UnfoldPrefix(s: string, t: string)
    requires '\r' !in s
    ensures Unfold(s + t) == s + Unfold(t)
  {
    if s == "" {
      assert s + t == t;
    } else {
      assert (s + t)[0] == s[0] && (s + t)[1..] == s[1..] + t;
      UnfoldPrefix(s[1..], t);
    }
  }

  /** Unfolding undoes folding, whatever follows the line. */
  lemma {:induction false} UnfoldJoin(parts: seq<string>, tail: string)
    requires forall p :: p in parts ==> '\r' !in p
    ensures Unfold(Join(parts) + tail) == Concat(parts) + Unfold(tail)
  {
    if parts == [] {
      assert Join(parts) + tail == tail;
    } else if |parts| == 1 {
      UnfoldPrefix(parts[0], tail);
      assert Concat(parts) == parts[0] + Concat(parts[1..]) == parts[0];
    } else {
      var more := Join(parts[1..]) + tail;
      assert Join(parts) + tail == parts[0] + ("\r\n " + more);
      UnfoldPrefix(parts[0], "\r\n " + more);
      assert ("\r\n " + more)[3..] == more;
      UnfoldJoin(parts[1..], tail);
    }
  }

  lemma {:induction false} PiecesHaveNoBreaks(s: string, limit: nat)
    requires limit >= 4 && NoBreaks(s)
    ensures forall p :: p in Pieces(s, limit) ==> NoBreaks(p)
    decreases |s|
  {
    if s != "" {
      PiecesHaveNoBreaks(s[Fit(s, limit)..], NEXT_LIMIT);
    }
  }

  lemma UnfoldFolded(line: string, tail: string)
    requires NoBreaks(line)
    ensures Unfold(Folded(line) + tail) == line + Unfold(tail)
  {
    var parts := Pieces(line, FIRST_LIMIT);
    PiecesHaveNoBreaks(line, FIRST_LIMIT);
    UnfoldJoin(parts, tail);
    PiecesConcatenate(line, FIRST_LIMIT);
  }
}
