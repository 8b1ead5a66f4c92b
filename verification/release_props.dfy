/**
 The properties file of the Android build and the version in it: how it is read, how one key is set in
 place, and how a release is bumped. Lines end at LF, CR or CRLF; the whitespace of a line is blanks and
 tabs.
 */
module ReleaseProps {
  import opened DecimalText
  import opened Wrappers

  // ---------------------------------------------------------------- lines and entries

  predicate IsBreak(c: char) {
    c == '\n' || c == '\r'
  }

  predicate IsBlank(c: char) {
    c == ' ' || c == '\t'
  }

  predicate NoBreaks(text: string) {
    forall i :: 0 <= i < |text| ==> !IsBreak(text[i])
  }

  predicate OnlyBreaks(text: string) {
    forall i :: 0 <= i < |text| ==> IsBreak(text[i])
  }

  /** Where the first line of `text` ends. */
  function BreakAt(text: string): (i: nat)
    ensures i <= |text| && NoBreaks(text[..i])
    ensures i < |text| ==> IsBreak(text[i])
  {
    if text == "" || IsBreak(text[0]) then 0
    else
      var i := 1 + BreakAt(text[1..]);
      assert text[..i] == [text[0]] + text[1..][..i - 1];
      i
  }

  /** The text after the line break it begins with. */
  function AfterBreak(text: string): string
    requires text != ""
  {
    if text[0] == '\r' && |text| > 1 && text[1] == '\n' then text[2..] else text[1..]
  }

  /** `read_text().splitlines()` */
  function Lines(text: string): seq<string>
    decreases |text|
  {
    if text == "" then []
    else
      var i := BreakAt(text);
      if i == |text| then [text] else [text[..i]] + Lines(AfterBreak(text[i..]))
  }

  function LStrip(text: string): string {
    if text != "" && (IsBlank(text[0]) || IsBreak(text[0])) then LStrip(text[1..]) else text
  }

  function RStrip(text: string): string {
    if text != "" && (IsBlank(text[|text| - 1]) || IsBreak(text[|text| - 1])) then RStrip(text[..|text| - 1]) else text
  }

  /** `text.strip()` */
  function Strip(text: string): string {
    RStrip(LStrip(text))
  }

  /** Where the first `c` is, or the length of the text. */
  function IndexOf(text: string, c: char): (i: nat)
    ensures i <= |text| && c !in text[..i]
    ensures i < |text| ==> text[i] == c
  {
    if text == "" || text[0] == c then 0
    else
      var i := 1 + IndexOf(text[1..], c);
      assert text[..i] == [text[0]] + text[1..][..i - 1];
      i
  }

  type Entry = (string, string)

  /** `text.startswith('#')` */
  predicate HasHash(text: string) {
    text != "" && text[0] == '#'
  }

  /** What `read_props` takes from one line: nothing from a blank line, a comment, or a line without `=`. */
  function EntryOf(line: string): seq<Entry> {
    var i := IndexOf(line, '=');
    if Strip(line) != "" && !HasHash(LStrip(line)) && i < |line| then [(Strip(line[..i]), Strip(line[i + 1..]))] else []
  }

  /** A comment, a blank line, and a line without `=` say nothing. */
  lemma SilentLines(line: string)
    ensures LStrip(line) != "" && LStrip(line)[0] == '#' ==> EntryOf(line) == []
    ensures Strip(line) == "" ==> EntryOf(line) == []
    ensures '=' !in line ==> EntryOf(line) == []
  {
    assert IndexOf(line, '=') < |line| ==> line[IndexOf(line, '=')] in line;
  }

  function Entries(lines: seq<string>): seq<Entry> {
    if lines == [] then [] else EntryOf(lines[0]) + Entries(lines[1..])
  }

  function EntriesOf(text: string): seq<Entry> {
    Entries(Lines(text))
  }

  /** Later entries win. */
  function Dict(entries: seq<Entry>): map<string, string> {
    if entries == [] then map[]
    else
      var last := entries[|entries| - 1];
      Dict(entries[..|entries| - 1])[last.0 := last.1]
  }

  /** `read_props` as a value */
  function Read(text: string): map<string, string> {
    Dict(EntriesOf(text))
  }

  function Occurs(entries: seq<Entry>, key: string): nat {
    if entries == [] then 0 else (if entries[0].0 == key then 1 else 0) + Occurs(entries[1..], key)
  }

  lemma {:induction false} DictJoins(a: seq<Entry>, b: seq<Entry>)
    ensures Dict(a + b) == Dict(a) + Dict(b)
  {
    if b == [] {
      assert a + b == a;
    } else {
      var last := |b| - 1;
      DictJoins(a, b[..last]);
      assert (a + b)[..|a + b| - 1] == a + b[..last];
    }
  }

  lemma {:induction false} OccursJoins(a: seq<Entry>, b: seq<Entry>, key: string)
    ensures Occurs(a + b, key) == Occurs(a, key) + Occurs(b, key)
  {
    if a == [] {
      assert a + b == b;
    } else {
      OccursJoins(a[1..], b, key);
      assert (a + b)[1..] == a[1..] + b;
    }
  }

  lemma {:induction false} OccursInDict(entries: seq<Entry>, key: string)
    ensures key in Dict(entries) <==> Occurs(entries, key) > 0
  {
    if entries != [] {
      var last := |entries| - 1;
      OccursInDict(entries[..last], key);
      OccursJoins(entries[..last], entries[last..], key);
      assert entries == entries[..last] + entries[last..];
    }
  }

  lemma EntriesOfMore(line: string, lines: seq<string>)
    ensures Entries([line] + lines) == EntryOf(line) + Entries(lines)
  {
    assert ([line] + lines)[1..] == lines;
  }

  lemma {:induction false} EntriesJoin(a: seq<string>, b: seq<string>)
    ensures Entries(a + b) == Entries(a) + Entries(b)
  {
    if a == [] {
      assert a + b == b;
    } else {
      EntriesJoin(a[1..], b);
      Associate([a[0]], a[1..], b);
      assert a == [a[0]] + a[1..];
      EntriesOfMore(a[0], a[1..]);
      EntriesOfMore(a[0], a[1..] + b);
      Associate(EntryOf(a[0]), Entries(a[1..]), Entries(b));
    }
  }

  // ---------------------------------------------------------------- text that is put together

  lemma {:induction false} BreakIsLater(a: string, c: string)
    requires NoBreaks(a)
    ensures BreakAt(a + c) == |a| + BreakAt(c)
  {
    if a == "" {
      assert a + c == c;
    } else {
      BreakIsLater(a[1..], c);
      assert (a + c)[1..] == a[1..] + c;
      assert !IsBreak(a[0]);
    }
  }

  lemma {:induction false} BreakWithin(text: string)
    requires text != "" && IsBreak(text[|text| - 1])
    ensures BreakAt(text) < |text|
  {
    if !IsBreak(text[0]) { BreakWithin(text[1..]); }
  }

  /** One line and what follows it. */
  lemma {:induction false} LineThenRest(line: string, c: string)
    requires NoBreaks(line) && (c == "" || IsBreak(c[0]))
    ensures EntriesOf(line + c) == EntryOf(line) + EntriesOf(c)
  {
    BreakIsLater(line, c);
    if c == "" {
      assert line + c == line;
      SingleLine(line);
    } else {
      assert (line + c)[..|line|] == line && (line + c)[|line|..] == c;
      FirstLine(line + c, |line|);
      BreakFirst(c);
    }
  }

  lemma BreakFirst(c: string)
    requires c != "" && IsBreak(c[0])
    ensures EntriesOf(c) == EntriesOf(AfterBreak(c))
  {
    assert c[0..] == c && c[..0] == "";
    FirstLine(c, 0);
    assert EntryOf("") == [];
  }

  lemma {:induction false} SingleLine(line: string)
    requires BreakAt(line) == |line|
    ensures EntriesOf(line) == EntryOf(line)
  {
    if line != "" {
      assert Entries([line]) == EntryOf(line) + Entries([line][1..]);
    }
  }

  lemma {:induction false} FirstLine(text: string, i: nat)
    requires BreakAt(text) == i < |text|
    ensures EntriesOf(text) == EntryOf(text[..i]) + EntriesOf(AfterBreak(text[i..]))
  {
    var rest := Lines(AfterBreak(text[i..]));
    assert Lines(text) == [text[..i]] + rest;
    assert ([text[..i]] + rest)[1..] == rest;
  }

  predicate EndsLine(text: string) {
    text == "" || text[|text| - 1] == '\n'
  }

  /** Whole lines, and then other text. */
  lemma {:induction false} LinesThenRest(a: string, b: string)
    requires EndsLine(a)
    ensures EntriesOf(a + b) == EntriesOf(a) + EntriesOf(b)
    decreases |a|
  {
    if a == "" {
      assert a + b == b;
    } else {
      var i := BreakAt(a);
      BreakWithin(a);
      BreakInJoin(a, b, i);
      FirstLine(a, i);
      FirstLine(a + b, i);
      StillEndsLine(a[i..]);
      LinesThenRest(AfterBreak(a[i..]), b);
      Associate(EntryOf(a[..i]), EntriesOf(AfterBreak(a[i..])), EntriesOf(b));
    }
  }

  lemma StillEndsLine(text: string)
    requires text != "" && EndsLine(text)
    ensures EndsLine(AfterBreak(text)) && (|text| > 1 || text[0] == '\n')
  {
  }

  lemma {:induction false} BreakInJoin(a: string, b: string, i: nat)
    requires BreakAt(a) == i < |a|
    ensures BreakAt(a + b) == i && (a + b)[..i] == a[..i]
    ensures i + 1 < |a| || a[i] == '\n' ==> AfterBreak((a + b)[i..]) == AfterBreak(a[i..]) + b
  {
    BreakIsLater(a[..i], a[i..] + b);
    assert a[..i] + (a[i..] + b) == a + b;
    assert (a + b)[i..] == a[i..] + b;
    AfterBreakInJoin(a[i..], b);
  }

  lemma AfterBreakInJoin(a: string, b: string)
    requires a != ""
    ensures |a| > 1 || a[0] == '\n' ==> AfterBreak(a + b) == AfterBreak(a) + b
  {
    if |a| > 1 {
      assert (a + b)[1..] == a[1..] + b;
      assert (a + b)[2..] == a[2..] + b;
    }
  }

  /** LF, CR and CRLF are one break each. */
  lemma BreaksAre(line: string, more: string)
    requires NoBreaks(line)
    ensures Lines(line + ("\n" + more)) == [line] + Lines(more)
    ensures Lines(line + ("\r\n" + more)) == [line] + Lines(more)
    ensures more == "" || more[0] != '\n' ==> Lines(line + ("\r" + more)) == [line] + Lines(more)
  {
    BreakThen(line, "\n" + more);
    BreakThen(line, "\r\n" + more);
    BreakThen(line, "\r" + more);
    assert ("\n" + more)[1..] == more && ("\r\n" + more)[2..] == more && ("\r" + more)[1..] == more;
  }

  lemma BreakThen(line: string, c: string)
    requires NoBreaks(line) && c != "" && IsBreak(c[0])
    ensures Lines(line + c) == [line] + Lines(AfterBreak(c))
  {
    BreakIsLater(line, c);
    assert (line + c)[..|line|] == line && (line + c)[|line|..] == c;
  }

  /** Blanks and tabs around a key or a value do not belong to it. */
  lemma BlanksAround(s: string)
    ensures Strip(" " + s) == Strip("\t" + s) == Strip(s)
    ensures RStrip(s + " ") == RStrip(s + "\t") == RStrip(s)
  {
    assert (" " + s)[1..] == s && ("\t" + s)[1..] == s;
    assert (s + " ")[..|s|] == s && (s + "\t")[..|s|] == s;
  }

  /** Line breaks at the end say nothing. */
  lemma {:induction false} BreaksSayNothing(t: string, s: string)
    requires OnlyBreaks(s)
    ensures EntriesOf(t + s) == EntriesOf(t)
    decreases |t|, |s|
  {
    var i := BreakAt(t);
    if i < |t| {
      BreakInJoin(t, s, i);
      FirstLine(t, i);
      FirstLine(t + s, i);
      if i + 1 < |t| || t[i] == '\n' {
        BreaksSayNothing(AfterBreak(t[i..]), s);
      } else {
        var more := AfterBreak((t + s)[i..]);
        assert OnlyBreaks(more) by { AfterIsBreaks(t, s, i); }
        BreaksSayNothing("", more);
        assert "" + more == more;
      }
    } else if t == "" {
      assert t + s == s;
      if s != "" {
        assert s[..0] == "" && s[0..] == s;
        FirstLine(s, 0);
        BreaksSayNothing("", AfterBreak(s));
        assert "" + AfterBreak(s) == AfterBreak(s);
      }
    } else {
      assert t == t[..i];
      LineThenRest(t, s);
      BreaksSayNothing("", s);
      assert "" + s == s;
      SingleLine(t);
    }
  }

  lemma AfterIsBreaks(t: string, s: string, i: nat)
    requires i + 1 == |t| && OnlyBreaks(s)
    ensures OnlyBreaks(AfterBreak((t + s)[i..]))
  {
    assert (t + s)[i..][1..] == s;
  }

  // ---------------------------------------------------------------- setting a key

  /** `[ \t]*=` at the start of `text` */
  predicate EqualsAfterBlanks(text: string) {
    text != "" && (text[0] == '=' || (IsBlank(text[0]) && EqualsAfterBlanks(text[1..])))
  }

  predicate KeyHere(raw: string, p: nat, key: string)
    requires p <= |raw|
  {
    EndsLine(raw[..p]) && key <= raw[p..] && EqualsAfterBlanks(raw[p + |key|..])
  }

  /** `pattern.search(raw)`: the first line, from `from` on, that begins with the key. */
  function Search(raw: string, key: string, from: nat): (found: Option<nat>)
    requires from <= |raw|
    ensures found.Some? ==> from <= found.value <= |raw| && KeyHere(raw, found.value, key)
    decreases |raw| - from
  {
    if KeyHere(raw, from, key) then Some(from)
    else if from == |raw| then None
    else Search(raw, key, from + 1)
  }

  /** What is found is the first such line, and nothing is found only when there is none. */
  lemma {:induction false} SearchFindsFirst(raw: string, key: string, from: nat)
    requires from <= |raw|
    ensures forall p :: from <= p <= |raw| && KeyHere(raw, p, key) ==>
              Search(raw, key, from).Some? && Search(raw, key, from).value <= p
    decreases |raw| - from
  {
    if !KeyHere(raw, from, key) && from < |raw| {
      SearchFindsFirst(raw, key, from + 1);
    }
  }

  /** A line `key=...` anywhere in the file is found: it, or an earlier one. */
  lemma LineIsFound(a: string, key: string, rest: string)
    requires EndsLine(a)
    ensures var raw := a + (key + ("=" + rest)); Search(raw, key, 0).Some? && Search(raw, key, 0).value <= |a|
  {
    var raw := a + (key + ("=" + rest));
    assert raw[..|a|] == a && raw[|a|..] == key + ("=" + rest);
    assert raw[|a| + |key|..] == "=" + rest;
    assert raw[|a|..][..|key|] == key;
    assert KeyHere(raw, |a|, key);
    SearchFindsFirst(raw, key, 0);
  }

  /** Where the line of the key found at `p` ends. */
  function LineEnd(raw: string, p: nat, key: string): (end: nat)
    requires p <= |raw| && KeyHere(raw, p, key)
    ensures p + |key| <= end <= |raw| && (end == |raw| || IsBreak(raw[end]))
  {
    p + |key| + BreakAt(raw[p + |key|..])
  }

  /** `raw.rstrip('\r\n')` */
  function WithoutLastBreaks(raw: string): string {
    if raw != "" && IsBreak(raw[|raw| - 1]) then WithoutLastBreaks(raw[..|raw| - 1]) else raw
  }

  predicate HasCrLf(raw: string) {
    exists i :: 0 <= i < |raw| - 1 && raw[i] == '\r' && raw[i + 1] == '\n'
  }

  function Eol(raw: string): string {
    if HasCrLf(raw) then "\r\n" else "\n"
  }

  function Setting(key: string, value: string): string {
    key + ("=" + value)
  }

  /** `set_prop` on the text of the file */
  function Set(raw: string, key: string, value: string): string {
    match Search(raw, key, 0)
    case Some(p) => raw[..p] + (Setting(key, value) + raw[LineEnd(raw, p, key)..])
    case None => (WithoutLastBreaks(raw) + Eol(raw)) + (Setting(key, value) + Eol(raw))
  }

  /** A key that is not there yet is appended with the line ends the file has. */
  lemma AppendKeepsEol(raw: string, key: string, value: string)
    requires Search(raw, key, 0) == None
    ensures var line := Setting(key, value);
            var end := if exists i :: 0 <= i < |raw| - 1 && raw[i] == '\r' && raw[i + 1] == '\n' then "\r\n" else "\n";
            Set(raw, key, value) == (WithoutLastBreaks(raw) + end) + (line + end)
  {
  }

  /** A key as it is used in such files: one line, no `=`, no whitespace around it, and no comment. */
  predicate IsKey(key: string) {
    && NoBreaks(key) && '=' !in key && !HasHash(key)
    && (key != "" ==> !IsBlank(key[0]) && !IsBlank(key[|key| - 1]))
  }

  predicate IsValue(value: string) {
    NoBreaks(value) && (value != "" ==> !IsBlank(value[0]) && !IsBlank(value[|value| - 1]))
  }

  lemma {:induction false} IndexIs(a: string, c: char, mark: string, rest: string)
    requires c !in a && mark == [c]
    ensures IndexOf(a + (mark + rest), c) == |a|
  {
    if a == "" {
      assert a + (mark + rest) == mark + rest;
    } else {
      IndexIs(a[1..], c, mark, rest);
      assert (a + (mark + rest))[1..] == a[1..] + (mark + rest);
    }
  }

  predicate AllBlank(text: string) {
    forall i :: 0 <= i < |text| ==> IsBlank(text[i])
  }

  lemma {:induction false} StripKeeps(text: string)
    requires IsValue(text)
    ensures LStrip(text) == text && Strip(text) == text
  {
    if text != "" {
      assert !IsBreak(text[0]) && !IsBreak(text[|text| - 1]);
    }
  }

  lemma {:induction false} RStripDrops(text: string, blanks: string)
    requires AllBlank(blanks)
    ensures RStrip(text + blanks) == RStrip(text)
  {
    if blanks == "" {
      assert text + blanks == text;
    } else {
      var last := |blanks| - 1;
      RStripDrops(text, blanks[..last]);
      assert (text + blanks)[..|text + blanks| - 1] == text + blanks[..last];
    }
  }

  lemma {:induction false} LStripStops(blanks: string, c: char, rest: string)
    requires AllBlank(blanks) && !IsBlank(c) && !IsBreak(c)
    ensures LStrip(blanks + ([c] + rest)) == [c] + rest
  {
    var text := blanks + ([c] + rest);
    if blanks == "" {
      assert text == [c] + rest;
    } else {
      LStripStops(blanks[1..], c, rest);
      assert text[1..] == blanks[1..] + ([c] + rest);
    }
  }

  lemma {:induction false} RStripIsSomething(c: char, rest: string)
    requires !IsBlank(c) && !IsBreak(c)
    ensures RStrip([c] + rest) != ""
  {
    if rest == "" {
      assert [c] + rest == [c];
    } else {
      var last := |rest| - 1;
      RStripIsSomething(c, rest[..last]);
      assert ([c] + rest)[..|rest|] == [c] + rest[..last];
    }
  }

  lemma {:induction false} StripOfBlanks(blanks: string)
    requires AllBlank(blanks)
    ensures Strip(blanks) == ""
  {
    if blanks != "" {
      StripOfBlanks(blanks[1..]);
    }
  }

  lemma KeyStripped(key: string, blanks: string)
    requires IsKey(key) && AllBlank(blanks)
    ensures Strip(key + blanks) == key
  {
    if key == "" {
      assert key + blanks == blanks;
      StripOfBlanks(blanks);
    } else {
      assert key + blanks == [key[0]] + (key[1..] + blanks);
      assert !IsBreak(key[0]);
      LStripStops("", key[0], key[1..] + blanks);
      assert "" + ([key[0]] + (key[1..] + blanks)) == key + blanks;
      RStripDrops(key, blanks);
      StripKeeps(key);
    }
  }

  /** The line of a key is read as an entry for it, whatever blanks stand before the `=`. */
  lemma KeyLineIsEntry(key: string, blanks: string, rest: string)
    requires IsKey(key) && AllBlank(blanks)
    ensures EntryOf((key + blanks) + ("=" + rest)) == [(key, Strip(rest))]
  {
    var line := (key + blanks) + ("=" + rest);
    assert '=' !in key + blanks by {
      assert forall i :: 0 <= i < |blanks| ==> IsBlank(blanks[i]);
    }
    IndexIs(key + blanks, '=', "=", rest);
    assert line[..|key + blanks|] == key + blanks;
    assert line[|key + blanks| + 1..] == rest;
    KeyStripped(key, blanks);
    KeyLineIsNoComment(key, blanks, rest);
  }

  lemma KeyLineIsNoComment(key: string, blanks: string, rest: string)
    requires IsKey(key) && AllBlank(blanks)
    ensures !HasHash(LStrip((key + blanks) + ("=" + rest))) && Strip((key + blanks) + ("=" + rest)) != ""
  {
    var line := (key + blanks) + ("=" + rest);
    if key == "" {
      assert key + blanks == blanks && "=" + rest == ['='] + rest;
      LStripStops(blanks, '=', rest);
      assert LStrip(line)[0] == '=';
      RStripIsSomething('=', rest);
    } else {
      var tail := key[1..] + blanks + ("=" + rest);
      assert line == "" + ([key[0]] + tail);
      assert !IsBreak(key[0]);
      LStripStops("", key[0], tail);
      RStripIsSomething(key[0], tail);
    }
  }

  lemma {:induction false} BlanksThenEquals(text: string) returns (blanks: string)
    requires EqualsAfterBlanks(text)
    ensures AllBlank(blanks) && |blanks| < |text| && text == blanks + ("=" + text[|blanks| + 1..])
  {
    if text[0] == '=' {
      blanks := "";
      assert text == "=" + text[1..];
    } else {
      var more := BlanksThenEquals(text[1..]);
      blanks := [text[0]] + more;
      assert text[1..][|more| + 1..] == text[|blanks| + 1..];
      assert text == [text[0]] + text[1..];
    }
  }

  /** A text that is lines, one line without breaks, and the rest. */
  lemma ThreeParts(a: string, line: string, c: string, entry: Entry)
    requires EndsLine(a) && NoBreaks(line) && (c == "" || IsBreak(c[0])) && EntryOf(line) == [entry]
    ensures EntriesOf(a + (line + c)) == EntriesOf(a) + [entry] + EntriesOf(c)
  {
    LinesThenRest(a, line + c);
    LineThenRest(line, c);
    Associate(EntriesOf(a), [entry], EntriesOf(c));
  }

  lemma SettingIsEntry(key: string, value: string)
    requires IsKey(key) && IsValue(value)
    ensures EntryOf(Setting(key, value)) == [(key, value)] && NoBreaks(Setting(key, value))
  {
    SettingIsOneLine(key, value);
    KeyLineIsEntry(key, "", value);
    StripKeeps(value);
    NoBlanks(key);
  }

  lemma NoBlanks(key: string)
    ensures key + "" == key
  {
  }

  lemma SettingIsOneLine(key: string, value: string)
    requires NoBreaks(key) && NoBreaks(value)
    ensures NoBreaks(Setting(key, value))
  {
  }

  /** The line that `set_prop` finds is one `read_props` reads for that key. */
  lemma FoundLine(raw: string, p: nat, key: string) returns (old_: string)
    requires p <= |raw| && IsKey(key) && KeyHere(raw, p, key)
    ensures NoBreaks(raw[p..LineEnd(raw, p, key)]) && EntryOf(raw[p..LineEnd(raw, p, key)]) == [(key, old_)]
  {
    old_ := LineOfKey(key, raw[p + |key|..]);
    KeyThenRest(raw, p, key, raw[p + |key|..], LineEnd(raw, p, key));
  }

  lemma KeyThenRest(raw: string, p: nat, key: string, rest: string, end: nat)
    requires p <= |raw| && key <= raw[p..] && rest == raw[p + |key|..]
    requires end == p + |key| + BreakAt(rest)
    ensures raw[p..end] == key + rest[..BreakAt(rest)]
  {
    assert raw[p..][..|key|] == key;
  }

  lemma LineOfKey(key: string, rest: string) returns (old_: string)
    requires IsKey(key) && EqualsAfterBlanks(rest)
    ensures NoBreaks(key + rest[..BreakAt(rest)]) && EntryOf(key + rest[..BreakAt(rest)]) == [(key, old_)]
  {
    var blanks := BlanksThenEquals(rest);
    var value := RestOfLine(rest, blanks);
    KeyLineIsEntry(key, blanks, value);
    Associate(key, blanks, "=" + value);
    old_ := Strip(value);
  }

  lemma RestOfLine(rest: string, blanks: string) returns (value: string)
    requires AllBlank(blanks) && |blanks| < |rest| && rest == blanks + ("=" + rest[|blanks| + 1..])
    ensures rest[..BreakAt(rest)] == blanks + ("=" + value)
  {
    var after := rest[|blanks| + 1..];
    value := after[..BreakAt(after)];
    Associate(blanks, "=", after);
    BreakIsLater(blanks + "=", after);
  }

  lemma {:induction false} DroppedAreBreaks(raw: string) returns (dropped: string)
    ensures raw == WithoutLastBreaks(raw) + dropped && OnlyBreaks(dropped)
  {
    if raw != "" && IsBreak(raw[|raw| - 1]) {
      var less := raw[..|raw| - 1];
      var more := DroppedAreBreaks(less);
      dropped := more + [raw[|raw| - 1]];
      assert raw == less + [raw[|raw| - 1]];
    } else {
      dropped := "";
    }
  }

  lemma AppendAdds(raw: string, line: string, eol: string, entry: Entry)
    requires NoBreaks(line) && EntryOf(line) == [entry] && (eol == "\n" || eol == "\r\n")
    ensures EntriesOf((WithoutLastBreaks(raw) + eol) + (line + eol)) == EntriesOf(raw) + [entry]
  {
    var kept := WithoutLastBreaks(raw);
    var dropped := DroppedAreBreaks(raw);
    BreaksSayNothing(kept, dropped);
    BreaksSayNothing(kept, eol);
    LineAlone(line, eol);
    EolEndsLine(kept, eol);
    LinesThenRest(kept + eol, line + eol);
  }

  lemma EolEndsLine(text: string, eol: string)
    requires eol == "\n" || eol == "\r\n"
    ensures EndsLine(text + eol)
  {
  }

  lemma LineAlone(line: string, eol: string)
    requires NoBreaks(line) && OnlyBreaks(eol)
    ensures EntriesOf(line + eol) == EntryOf(line)
  {
    BreaksSayNothing(line, eol);
    BreakIsLater(line, "");
    assert line + "" == line;
    SingleLine(line);
  }

  /** The entries after the line that `set_prop` edits (none when it appends). */
  function After(raw: string, key: string): seq<Entry> {
    match Search(raw, key, 0)
    case Some(p) => EntriesOf(raw[LineEnd(raw, p, key)..])
    case None => []
  }

  lemma Reassemble(text: string, i: nat, j: nat)
    requires i <= j <= |text|
    ensures text[..i] + (text[i..j] + text[j..]) == text
  {
    assert text[i..j] + text[j..] == text[i..];
  }

  /** `set_prop` replaces one entry of its key, or adds one at the end; every other entry stays in place. */
  lemma SetChangesOneEntry(raw: string, key: string, value: string)
      returns (before: seq<Entry>, was: seq<Entry>)
    requires IsKey(key) && IsValue(value)
    ensures EntriesOf(raw) == before + was + After(raw, key)
    ensures EntriesOf(Set(raw, key, value)) == before + [(key, value)] + After(raw, key)
    ensures was == [] || (|was| == 1 && was[0].0 == key)
    ensures was == [] <==> Search(raw, key, 0) == None
  {
    match Search(raw, key, 0) {
      case Some(p) =>
        var old_ := EditReplaces(raw, p, key, value);
        before, was := EntriesOf(raw[..p]), [(key, old_)];
      case None =>
        before, was := EntriesOf(raw), [];
        SettingIsEntry(key, value);
        AppendAdds(raw, Setting(key, value), Eol(raw), (key, value));
        AddNothing(before);
        AddNothing(before + [(key, value)]);
    }
  }

  lemma AddNothing(a: seq<Entry>)
    ensures a + [] == a
  {
  }

  lemma EditReplaces(raw: string, p: nat, key: string, value: string) returns (old_: string)
    requires p <= |raw| && IsKey(key) && IsValue(value) && KeyHere(raw, p, key)
    ensures EntriesOf(raw) == EntriesOf(raw[..p]) + [(key, old_)] + EntriesOf(raw[LineEnd(raw, p, key)..])
    ensures EntriesOf(raw[..p] + (Setting(key, value) + raw[LineEnd(raw, p, key)..]))
         == EntriesOf(raw[..p]) + [(key, value)] + EntriesOf(raw[LineEnd(raw, p, key)..])
  {
    var end := LineEnd(raw, p, key);
    old_ := FoundLine(raw, p, key);
    SettingIsEntry(key, value);
    Reassemble(raw, p, end);
    ThreeParts(raw[..p], raw[p..end], raw[end..], (key, old_));
    ThreeParts(raw[..p], Setting(key, value), raw[end..], (key, value));
  }

  /** The edited line is not the last one of its key. */
  predicate Shadowed(raw: string, key: string) {
    Occurs(After(raw, key), key) > 0
  }

  /** For every text: after `set_prop` every other key reads as before; the key itself reads as set exactly
      when no later line has the same key, or the file read so before. */
  lemma SetThenRead(raw: string, key: string, value: string)
    requires IsKey(key) && IsValue(value)
    ensures Lookup(Read(Set(raw, key, value)), key) == Some(value)
        <==> !Shadowed(raw, key) || Lookup(Read(raw), key) == Some(value)
    ensures forall k :: k != key ==> Lookup(Read(Set(raw, key, value)), k) == Lookup(Read(raw), k)
  {
    var before, was := SetChangesOneEntry(raw, key, value);
    var after := After(raw, key);
    OccursInDict(after, key);
    DictOfThree(before, was, after, key);
    DictOfThree(before, [(key, value)], after, key);
    DictOfOne((key, value));
    Overlaid(Dict(before), Dict(was), Dict(after), key, value);
  }

  /** One key of a map, replaced between an earlier and a later map. */
  lemma Overlaid(a: map<string, string>, was: map<string, string>, c: map<string, string>, key: string, value: string)
    requires forall k :: k in was ==> k == key
    ensures Lookup(a + map[key := value] + c, key) == if key in c then Some(c[key]) else Some(value)
    ensures forall k :: k != key ==> Lookup(a + map[key := value] + c, k) == Lookup(a + was + c, k)
    ensures key in c ==> Lookup(a + was + c, key) == Some(c[key])
  {
  }

  /** What three stretches of entries say, the middle one about `key` only. */
  lemma DictOfThree(a: seq<Entry>, b: seq<Entry>, c: seq<Entry>, key: string)
    requires b == [] || (|b| == 1 && b[0].0 == key)
    ensures Dict(a + b + c) == Dict(a) + Dict(b) + Dict(c)
    ensures forall k :: k in Dict(b) ==> k == key
  {
    DictJoins(a + b, c);
    DictJoins(a, b);
    if b != [] {
      assert b == [b[0]];
      DictOfOne(b[0]);
    }
  }

  lemma DictOfOne(entry: Entry)
    ensures Dict([entry]) == map[entry.0 := entry.1]
  {
    assert [entry][..0] == [];
  }

  /** A key on at most one line is never shadowed, and is on exactly one line afterwards; how often other
      keys occur does not change. */
  lemma SetOccurs(raw: string, key: string, value: string, other: string)
    requires IsKey(key) && IsValue(value)
    ensures Occurs(EntriesOf(raw), key) <= 1 ==> !Shadowed(raw, key)
    ensures Occurs(EntriesOf(raw), key) <= 1 && Search(raw, key, 0).Some? ==>
              Occurs(EntriesOf(Set(raw, key, value)), key) == 1
    ensures other != key ==> Occurs(EntriesOf(Set(raw, key, value)), other) == Occurs(EntriesOf(raw), other)
  {
    var before, was := SetChangesOneEntry(raw, key, value);
    OccursInThree(before, was, After(raw, key), key);
    OccursInThree(before, [(key, value)], After(raw, key), key);
    OccursInThree(before, was, After(raw, key), other);
    OccursInThree(before, [(key, value)], After(raw, key), other);
    if was != [] { assert was == [was[0]] && was[1..] == []; }
  }

  lemma OccursInThree(a: seq<Entry>, b: seq<Entry>, c: seq<Entry>, key: string)
    ensures Occurs(a + b + c, key) == Occurs(a, key) + Occurs(b, key) + Occurs(c, key)
  {
    OccursJoins(a + b, c, key);
    OccursJoins(a, b, key);
  }

  /** The documented use: a key on at most one line reads as set, and nothing else changes. */
  lemma SetOnceThenRead(raw: string, key: string, value: string)
    requires IsKey(key) && IsValue(value) && Occurs(EntriesOf(raw), key) <= 1
    ensures Read(Set(raw, key, value)) == Read(raw)[key := value]
  {
    SetOccurs(raw, key, value, key);
    SetThenRead(raw, key, value);
    SameLookups(Read(Set(raw, key, value)), Read(raw)[key := value]);
  }

  /** The same key on two lines: the first is edited, but the second is what is read. */
  lemma SecondLineShadows(key: string, was: string, value: string, later: string)
    requires IsKey(key) && IsValue(was) && IsValue(value) && IsValue(later)
    ensures Lookup(Read(Set(Setting(key, was) + ("\n" + Setting(key, later)), key, value)), key) == Some(later)
  {
    var c := "\n" + Setting(key, later);
    SettingIsEntry(key, value);
    SettingIsEntry(key, was);
    FirstLineIsEdited(key, was, value, c);
    LineThenRest(Setting(key, value), c);
    BreakThenLine(key, later);
    DictJoins([(key, value)], [(key, later)]);
    DictOfOne((key, later));
  }

  lemma FirstLineIsEdited(key: string, was: string, value: string, c: string)
    requires NoBreaks(Setting(key, was)) && c != "" && IsBreak(c[0])
    ensures Set(Setting(key, was) + c, key, value) == Setting(key, value) + c
  {
    var raw := Setting(key, was) + c;
    assert raw == key + (("=" + was) + c);
    assert raw[|key|..] == ("=" + was) + c;
    assert raw[0..] == raw && raw[..0] == "";
    assert KeyHere(raw, 0, key);
    assert NoBreaks("=" + was) by {
      assert Setting(key, was)[|key|..] == "=" + was;
    }
    BreakIsLater("=" + was, c);
    assert raw[LineEnd(raw, 0, key)..] == c;
  }

  lemma BreakThenLine(key: string, value: string)
    requires IsKey(key) && IsValue(value)
    ensures EntriesOf("\n" + Setting(key, value)) == [(key, value)]
  {
    var line := Setting(key, value);
    SettingIsEntry(key, value);
    BreakFirst("\n" + line);
    assert AfterBreak("\n" + line) == line;
    BreakIsLater(line, "");
    NoBlanks(line);
    SingleLine(line);
  }

  // ---------------------------------------------------------------- versions

  datatype Version = Version(major: nat, minor: nat, patch: nat)

  predicate InRange(v: Version) {
    v.major <= 99 && v.minor <= 99 && v.patch <= 99
  }

  /** `version_code` */
  function Code(v: Version): nat {
    v.major * 10000 + v.minor * 100 + v.patch
  }

  /** `version_name` */
  function Name(v: Version): string {
    Decimal(v.major) + ("." + (Decimal(v.minor) + ("." + Decimal(v.patch))))
  }

  /** The pieces of a text between its dots. */
  function SplitDots(text: string): (parts: seq<string>)
    ensures parts != []
    decreases |text|
  {
    var i := IndexOf(text, '.');
    if i == |text| then [text] else [text[..i]] + SplitDots(text[i + 1..])
  }

  /** `\d{1,2}` */
  predicate IsPart(text: string) {
    AllDigits(text) && |text| <= 2
  }

  /** `parse_version`: three parts, or two (the original value "1.0"). */
  function ParseVersion(text: string): Option<Version> {
    var parts := SplitDots(Strip(text));
    if |parts| == 3 && IsPart(parts[0]) && IsPart(parts[1]) && IsPart(parts[2]) then
      Some(Version(Number(parts[0]), Number(parts[1]), Number(parts[2])))
    else if |parts| == 2 && IsPart(parts[0]) && IsPart(parts[1]) then
      Some(Version(Number(parts[0]), Number(parts[1]), 0))
    else None
  }

  lemma {:induction false} SplitAtDot(a: string, rest: string)
    requires '.' !in a
    ensures SplitDots(a + ("." + rest)) == [a] + SplitDots(rest)
  {
    var text := a + ("." + rest);
    IndexIs(a, '.', ".", rest);
    assert text[..|a|] == a && text[|a| + 1..] == rest;
  }

  lemma {:induction false} NoDot(a: string)
    requires '.' !in a
    ensures IndexOf(a, '.') == |a| && SplitDots(a) == [a]
  {
    if a != "" { NoDot(a[1..]); }
  }

  lemma NameSplits(a: string, b: string, c: string)
    requires '.' !in a && '.' !in b && '.' !in c
    ensures SplitDots(a + ("." + (b + ("." + c)))) == [a, b, c]
  {
    SplitAtDot(a, b + ("." + c));
    SplitAtDot(b, c);
    NoDot(c);
  }

  lemma DigitsAreText(text: string)
    requires AllDigits(text)
    ensures '.' !in text && IsValue(text)
  {
    assert forall i :: 0 <= i < |text| ==> IsDigit(text[i]);
  }

  lemma PartIsShort(n: nat)
    ensures IsPart(Decimal(n)) <==> n <= 99
    ensures Number(Decimal(n)) == n
  {
    DecimalIsNumber(n);
    if n <= 99 {
      assert Power10(2) == 10 * Power10(1) == 100 * Power10(0);
      DecimalLength(n, 2);
    } else {
      assert Decimal(n) == Decimal(n / 10) + [Digit(n % 10)];
      assert Decimal(n / 10) == Decimal(n / 10 / 10) + [Digit(n / 10 % 10)];
    }
  }

  lemma NameIsValue(v: Version)
    ensures IsValue(Name(v))
  {
    DigitsAreText(Decimal(v.major));
    DigitsAreText(Decimal(v.minor));
    DigitsAreText(Decimal(v.patch));
    JoinIsValue(Decimal(v.minor), Decimal(v.patch));
    JoinIsValue(Decimal(v.major), Decimal(v.minor) + ("." + Decimal(v.patch)));
  }

  lemma JoinIsValue(a: string, b: string)
    requires a != "" && b != "" && IsValue(a) && IsValue(b)
    ensures IsValue(a + ("." + b))
  {
    var text := a + ("." + b);
    assert text[0] == a[0] && text[|text| - 1] == b[|b| - 1];
  }

  /** A version's name parses back to the version exactly when every part is at most 99; a name with a
      larger part is no version at all. */
  lemma NameParsesBack(v: Version)
    ensures ParseVersion(Name(v)) == if InRange(v) then Some(v) else None
  {
    var a, b, c := Decimal(v.major), Decimal(v.minor), Decimal(v.patch);
    NameIsValue(v);
    StripKeeps(Name(v));
    DigitsAreText(a);
    DigitsAreText(b);
    DigitsAreText(c);
    NameSplits(a, b, c);
    PartIsShort(v.major);
    PartIsShort(v.minor);
    PartIsShort(v.patch);
  }

  /** Two parts are a version without patches, as "1.0" is. */
  lemma TwoPartsParse(major: nat, minor: nat)
    requires major <= 99 && minor <= 99
    ensures ParseVersion(Decimal(major) + ("." + Decimal(minor))) == Some(Version(major, minor, 0))
  {
    var a, b := Decimal(major), Decimal(minor);
    DigitsAreText(a);
    DigitsAreText(b);
    JoinIsValue(a, b);
    StripKeeps(a + ("." + b));
    SplitAtDot(a, b);
    NoDot(b);
    PartIsShort(major);
    PartIsShort(minor);
  }

  /** Whatever parses is a version with parts of at most 99. */
  lemma ParsedIsInRange(text: string)
    ensures ParseVersion(text).Some? ==> InRange(ParseVersion(text).value)
  {
    var parts := SplitDots(Strip(text));
    forall i | 0 <= i < |parts| && IsPart(parts[i])
      ensures Number(parts[i]) <= 99
    {
      PartIsSmall(parts[i]);
    }
  }

  lemma PartIsSmall(part: string)
    requires IsPart(part)
    ensures Number(part) <= 99
  {
    assert IsDigit(part[0]) && IsDigit(part[|part| - 1]);
    if |part| == 2 {
      assert part[..1][..0] == "";
      assert Number(part[..1]) == part[0] as int - '0' as int;
    } else {
      assert part[..0] == "";
    }
  }

  predicate Before(a: Version, b: Version) {
    a.major < b.major || (a.major == b.major && (a.minor < b.minor || (a.minor == b.minor && a.patch < b.patch)))
  }

  /** The version code orders versions as their parts do, and tells any two apart. */
  lemma CodeOrders(a: Version, b: Version)
    requires InRange(a) && InRange(b)
    ensures Code(a) < Code(b) <==> Before(a, b)
    ensures Code(a) == Code(b) <==> a == b
  {
  }

  /** Bumping the minor part of 1.99.x makes a version with the code of 2.0.0. */
  lemma CodesCollide()
    ensures Code(Version(1, 100, 0)) == Code(Version(2, 0, 0))
    ensures ParseVersion(Name(Version(1, 100, 0))) == None
  {
    NameParsesBack(Version(1, 100, 0));
  }

  // ---------------------------------------------------------------- bumping

  const VERSION_NAME := "ifinmail.versionName"
  const VERSION_CODE := "ifinmail.versionCode"

  datatype Failure = NotAVersion(text: string) | NotHigher(wanted: Version, current: Version)

  /** `current_version` */
  function Current(raw: string): Result<Version, Failure> {
    CurrentIn(Read(raw))
  }

  function CurrentIn(props: map<string, string>): Result<Version, Failure> {
    Parsed(Lookup(props, VERSION_NAME).GetOr("1.0"))
  }

  /** A file that names no version is of version 1.0.0. */
  lemma NoNameIsFirst(props: map<string, string>)
    requires "ifinmail.versionName" !in props
    ensures CurrentIn(props) == Ok(Version(1, 0, 0))
  {
    TwoPartsParse(1, 0);
    assert Decimal(1) == "1" && Decimal(0) == "0";
    assert "1" + ("." + "0") == "1.0";
  }

  function Parsed(text: string): Result<Version, Failure> {
    match ParseVersion(text)
    case Some(v) => Ok(v)
    case None => Err(NotAVersion(text))
  }

  function Wanted(current: Version, target: string): Result<Version, Failure> {
    if target == "major" then Ok(Version(current.major + 1, 0, 0))
    else if target == "minor" then Ok(Version(current.major, current.minor + 1, 0))
    else if target == "patch" then Ok(Version(current.major, current.minor, current.patch + 1))
    else Parsed(target)
  }

  /** A bump adds one to its part, clears the parts below it and keeps those above; anything else must be a
      version by itself. */
  lemma BumpIs(current: Version, target: string)
    ensures Wanted(current, "major") == Ok(Version(current.major + 1, 0, 0))
    ensures Wanted(current, "minor") == Ok(Version(current.major, current.minor + 1, 0))
    ensures Wanted(current, "patch") == Ok(Version(current.major, current.minor, current.patch + 1))
    ensures target != "major" && target != "minor" && target != "patch" && ParseVersion(target).Some? ==>
              Wanted(current, target) == Ok(ParseVersion(target).value)
  {
    assert "minor"[1] != "major"[1] && "patch"[0] != "major"[0] && "patch"[0] != "minor"[0];
  }

  /** The version `cmd_bump` writes, or why it refuses. */
  function Next(current: Version, target: string): Result<Version, Failure> {
    match Wanted(current, target)
    case Err(e) => Err(e)
    case Ok(v) => if Code(v) <= Code(current) then Err(NotHigher(v, current)) else Ok(v)
  }

  function Written(raw: string, v: Version): string {
    Set(Set(raw, VERSION_NAME, Name(v)), VERSION_CODE, Decimal(Code(v)))
  }

  /** The part that is bumped is 99 already. */
  predicate Overflows(current: Version, target: string) {
    || (target == "major" && current.major == 99)
    || (target == "minor" && current.minor == 99)
    || (target == "patch" && current.patch == 99)
  }

  /** From a version in range, a bump stays in range exactly when the bumped part is below 99. It is
      refused exactly for a target that is no version or not a later one. */
  lemma BumpStaysInRange(current: Version, target: string)
    requires InRange(current)
    ensures Next(current, target).Ok? ==> (InRange(Next(current, target).value) <==> !Overflows(current, target))
    ensures Next(current, target).Err? <==>
            && target != "major" && target != "minor" && target != "patch"
            && (ParseVersion(target) == None || !Before(current, ParseVersion(target).value))
  {
    ParsedIsInRange(target);
    if ParseVersion(target).Some? { CodeOrders(current, ParseVersion(target).value); }
  }

  lemma KeysAreKeys()
    ensures IsKey(VERSION_NAME) && IsKey(VERSION_CODE) && VERSION_NAME != VERSION_CODE
  {
    assert VERSION_NAME[16] != VERSION_CODE[16];
  }

  /** After a bump, for every file: all other keys read as before. Name and code read as the new version, each
      exactly when no later line has the same key or says so already; and then the new version is the
      current one exactly when it is in range: otherwise every later command stops at it. */
  lemma BumpTakesEffect(raw: string, v: Version)
    ensures forall k :: k != VERSION_NAME && k != VERSION_CODE ==>
              Lookup(Read(Written(raw, v)), k) == Lookup(Read(raw), k)
    ensures Lookup(Read(Written(raw, v)), VERSION_NAME) == Some(Name(v))
       <==> !Shadowed(raw, VERSION_NAME) || Lookup(Read(raw), VERSION_NAME) == Some(Name(v))
    ensures Lookup(Read(Written(raw, v)), VERSION_CODE) == Some(Decimal(Code(v)))
       <==> !Shadowed(Set(raw, VERSION_NAME, Name(v)), VERSION_CODE)
            || Lookup(Read(raw), VERSION_CODE) == Some(Decimal(Code(v)))
    ensures Lookup(Read(Written(raw, v)), VERSION_NAME) == Some(Name(v)) ==>
              Current(Written(raw, v)) == if InRange(v) then Ok(v) else Err(NotAVersion(Name(v)))
  {
    KeysAreKeys();
    NameIsValue(v);
    DigitsAreText(Decimal(Code(v)));
    SetThenRead(raw, VERSION_NAME, Name(v));
    SetThenRead(Set(raw, VERSION_NAME, Name(v)), VERSION_CODE, Decimal(Code(v)));
    NameParsesBack(v);
  }

  /** The file as it is meant to be, with each of the two keys on at most one line: exactly the two new values
      change. */
  lemma BumpChangesTwoKeys(raw: string, v: Version)
    requires Occurs(EntriesOf(raw), VERSION_NAME) <= 1 && Occurs(EntriesOf(raw), VERSION_CODE) <= 1
    ensures Read(Written(raw, v))
         == Read(raw)["ifinmail.versionName" := Name(v)]["ifinmail.versionCode" := Decimal(Code(v))]
    ensures Current(Written(raw, v)) == if InRange(v) then Ok(v) else Err(NotAVersion(Name(v)))
  {
    KeysAreKeys();
    NameIsValue(v);
    DigitsAreText(Decimal(Code(v)));
    SetOnceThenRead(raw, VERSION_NAME, Name(v));
    SetOccurs(raw, VERSION_NAME, Name(v), VERSION_CODE);
    SetOnceThenRead(Set(raw, VERSION_NAME, Name(v)), VERSION_CODE, Decimal(Code(v)));
    NameParsesBack(v);
  }

  /** `gradle.properties` */
  class PropsFile {
    var raw: string

    constructor (raw: string)
      ensures this.raw == raw
    {
      this.raw := raw;
    }

    /** `read_props` */
    method ReadProps() returns (props: map<string, string>)
      ensures props == Read(raw)
    {
      var lines := Lines(raw);
      props := map[];
      var i := 0;
      while i < |lines|
        invariant 0 <= i <= |lines|
        invariant props == ReadSoFar(lines, i)
      {
        OneMoreLine(lines, i);
        var entry := EntryOf(lines[i]);
        if entry != [] {
          props := props[entry[0].0 := entry[0].1];
        }
        i := i + 1;
      }
      AllLines(lines);
    }

    /** `set_prop`: every other key reads as before; this one reads as set, unless a later line with the same
        key says something else. */
    method SetProp(key: string, value: string)
      modifies this
      ensures raw == Set(old(raw), key, value)
      ensures IsKey(key) && IsValue(value) ==>
                && (forall k :: k != key ==> Lookup(Read(raw), k) == old(Lookup(Read(raw), k)))
                && (Lookup(Read(raw), key) == Some(value)
                    <==> old(!Shadowed(raw, key) || Lookup(Read(raw), key) == Some(value)))
    {
      if IsKey(key) && IsValue(value) {
        SetThenRead(raw, key, value);
      }
      var setting := Setting(key, value);
      match Search(raw, key, 0) {
        case Some(p) =>
          raw := raw[..p] + (setting + raw[LineEnd(raw, p, key)..]);
        case None =>
          var eol := Eol(raw);
          raw := (WithoutLastBreaks(raw) + eol) + (setting + eol);
      }
    }

    /** `cmd_bump`: writes the version only when it is a later one. */
    method Bump(target: string) returns (done: Result<Version, Failure>)
      modifies this
      ensures Current(old(raw)).Err? ==> done == Current(old(raw))
      ensures Current(old(raw)).Ok? ==> done == Next(Current(old(raw)).value, target)
      ensures raw == if done.Ok? then Written(old(raw), done.value) else old(raw)
    {
      var props := ReadProps();
      done := CurrentIn(props);
      if done.Ok? {
        done := Next(done.value, target);
      }
      if done.Ok? {
        SetProp(VERSION_NAME, Name(done.value));
        SetProp(VERSION_CODE, Decimal(Code(done.value)));
      }
    }
  }

  ghost function ReadSoFar(lines: seq<string>, i: nat): map<string, string>
    requires i <= |lines|
  {
    Dict(Entries(lines[..i]))
  }

  lemma AllLines(lines: seq<string>)
    ensures ReadSoFar(lines, 0) == map[] && ReadSoFar(lines, |lines|) == Dict(Entries(lines))
  {
    assert lines[..0] == [] && lines[..|lines|] == lines;
  }

  lemma OneMoreLine(lines: seq<string>, i: nat)
    requires i < |lines|
    ensures ReadSoFar(lines, i + 1) ==
            if EntryOf(lines[i]) == [] then ReadSoFar(lines, i)
            else ReadSoFar(lines, i)[EntryOf(lines[i])[0].0 := EntryOf(lines[i])[0].1]
  {
    assert lines[..i + 1] == lines[..i] + [lines[i]];
    EntriesJoin(lines[..i], [lines[i]]);
    assert Entries([lines[i]]) == EntryOf(lines[i]) + Entries([]);
    DictJoins(Entries(lines[..i]), EntryOf(lines[i]));
    if EntryOf(lines[i]) != [] { DictOfOne(EntryOf(lines[i])[0]); }
  }
}
