/**
 One mailbox as a vCard 3.0 document (RFC 2426), and a reader of such documents: unfolding,
 splitting into lines, splitting structured values and unescaping.
 */
module VCard {
  import opened Wrappers
  import opened Utf8
  import opened ContentLine

  // ---------------------------------------------------------------- escaping

  /** `s.replace(c, t)` for a one-character pattern. */
  function ReplaceChar(s: string, c: char, t: string): string {
    if s == "" then "" else (if s[0] == c then t else [s[0]]) + ReplaceChar(s[1..], c, t)
  }

  /** The chain of replacements, in the order they are applied. */
  function Escape(value: string): string {
    var s1 := ReplaceChar(value, '\\', "\\\\");
    var s2 := ReplaceChar(s1, '\n', "\\n");
    var s3 := ReplaceChar(s2, '\r', "");
    var s4 := ReplaceChar(s3, ';', "\\;");
    ReplaceChar(s4, ',', "\\,")
  }

  /** What section 5 of RFC 2426 asks for, character by character. */
  function EscapeChar(c: char): string {
    if c == '\n' then "\\n"
    else if c == '\r' then ""
    else if c == '\\' || c == ';' || c == ',' then ['\\', c]
    else [c]
  }

  function EscapeMap(s: string): string {
    if s == "" then "" else EscapeChar(s[0]) + EscapeMap(s[1..])
  }

  function Unescape(s: string): string {
    if s == "" then ""
    else if s[0] == '\\' && |s| >= 2 then
      [if s[1] == 'n' || s[1] == 'N' then '\n' else s[1]] + Unescape(s[2..])
    else [s[0]] + Unescape(s[1..])
  }

  function RemoveCR(s: string): string {
    ReplaceChar(s, '\r', "")
  }

  lemma {:induction false} ReplaceAppend(a: string, b: string, c: char, t: string)
    ensures ReplaceChar(a + b, c, t) == ReplaceChar(a, c, t) + ReplaceChar(b, c, t)
  {
    if a == "" {
      assert a + b == b;
    } else {
      assert (a + b)[1..] == a[1..] + b;
      ReplaceAppend(a[1..], b, c, t);
    }
  }

  lemma ReplaceShort(x: char, y: char, c: char, t: string)
    ensures ReplaceChar([x], c, t) == if x == c then t else [x]
    ensures ReplaceChar([x, y], c, t) == (if x == c then t else [x]) + (if y == c then t else [y])
  {
    assert [x][1..] == "" && [x, y][1..] == [y] && [y][1..] == "";
  }

  lemma {:induction false} ReplaceAbsent(s: string, c: char, t: string)
    requires c !in s
    ensures ReplaceChar(s, c, t) == s
  {
    if s != "" {
      ReplaceAbsent(s[1..], c, t);
    }
  }

  lemma EscapeOne(c: char)
    ensures Escape([c]) == EscapeChar(c)
  {
    var s1 := ReplaceChar([c], '\\', "\\\\");
    ReplaceShort(c, c, '\\', "\\\\");
    assert s1 == if c == '\\' then ['\\', '\\'] else [c];
    var s2 := ReplaceChar(s1, '\n', "\\n");
    if c == '\n' { ReplaceShort(c, c, '\n', "\\n"); } else { ReplaceAbsent(s1, '\n', "\\n"); }
    var s3 := ReplaceChar(s2, '\r', "");
    if c == '\r' { ReplaceShort(c, c, '\r', ""); } else { ReplaceAbsent(s2, '\r', ""); }
    var s4 := ReplaceChar(s3, ';', "\\;");
    if c == ';' { ReplaceShort(c, c, ';', "\\;"); } else { ReplaceAbsent(s3, ';', "\\;"); }
    if c == ',' { ReplaceShort(c, c, ',', "\\,"); } else { ReplaceAbsent(s4, ',', "\\,"); }
  }

  /** The rule of section 5 of RFC 2426, in its own characters. */
  lemma EscapedCharacters(c: char)
    ensures Escape("\\") == "\\\\" && Escape("\n") == "\\n" && Escape(";") == "\\;" && Escape(",") == "\\,"
    ensures Escape("\r") == ""
    ensures c != '\\' && c != '\n' && c != ';' && c != ',' && c != '\r' ==> Escape([c]) == [c]
  {
    EscapeOne('\\');
    EscapeOne('\n');
    EscapeOne(';');
    EscapeOne(',');
    EscapeOne('\r');
    EscapeOne(c);
  }

  lemma EscapeAppend(a: string, b: string)
    ensures Escape(a + b) == Escape(a) + Escape(b)
  {
    ReplaceAppend(a, b, '\\', "\\\\");
    var a1, b1 := ReplaceChar(a, '\\', "\\\\"), ReplaceChar(b, '\\', "\\\\");
    ReplaceAppend(a1, b1, '\n', "\\n");
    var a2, b2 := ReplaceChar(a1, '\n', "\\n"), ReplaceChar(b1, '\n', "\\n");
    ReplaceAppend(a2, b2, '\r', "");
    var a3, b3 := ReplaceChar(a2, '\r', ""), ReplaceChar(b2, '\r', "");
    ReplaceAppend(a3, b3, ';', "\\;");
    ReplaceAppend(ReplaceChar(a3, ';', "\\;"), ReplaceChar(b3, ';', "\\;"), ',', "\\,");
  }

  /** No replacement in the chain touches what an earlier one produced: the chain is a one-pass
      character map. */
  lemma {:induction false} EscapeIsMap(s: string)
    ensures Escape(s) == EscapeMap(s)
  {
    if s != "" {
      assert s == [s[0]] + s[1..];
      EscapeAppend([s[0]], s[1..]);
      EscapeOne(s[0]);
      EscapeIsMap(s[1..]);
    }
  }

  /** Unescaping gives the value back, without its carriage returns. */
  lemma {:induction false} UnescapeMap(s: string)
    ensures Unescape(EscapeMap(s)) == RemoveCR(s)
  {
    if s != "" {
      var rest := EscapeMap(s[1..]);
      UnescapeMap(s[1..]);
      var e := EscapeChar(s[0]);
      if |e| == 2 {
        assert (e + rest)[2..] == rest;
      } else if |e| == 1 {
        assert (e + rest)[1..] == rest;
      } else {
        assert e + rest == rest;
      }
    }
  }

  lemma UnescapeEscape(s: string)
    ensures Unescape(Escape(s)) == RemoveCR(s)
  {
    EscapeIsMap(s);
    UnescapeMap(s);
  }

  lemma {:induction false} EscapeMapHasNoBreaks(s: string)
    ensures NoBreaks(EscapeMap(s))
  {
    if s != "" {
      EscapeMapHasNoBreaks(s[1..]);
    }
  }

  /** A structured value splits at every `;` that no backslash escapes. */
  function Components(s: string, current: string): seq<string> {
    if s == "" then [current]
    else if s[0] == '\\' && |s| >= 2 then Components(s[2..], current + s[..2])
    else if s[0] == ';' then [current] + Components(s[1..], "")
    else Components(s[1..], current + [s[0]])
  }

  lemma ComponentsChar(c: char, t: string, current: string)
    ensures Components(EscapeChar(c) + t, current) == Components(t, current + EscapeChar(c))
  {
    var e := EscapeChar(c);
    if |e| == 2 {
      assert (e + t)[2..] == t && (e + t)[..2] == e;
    } else if |e| == 1 {
      assert (e + t)[1..] == t && [(e + t)[0]] == e;
    } else {
      assert e + t == t && current + e == current;
    }
  }

  /** An escaped value is never split, whatever it holds. */
  lemma {:induction false} ComponentsStep(v: string, t: string, current: string)
    ensures Components(EscapeMap(v) + t, current) == Components(t, current + EscapeMap(v))
  {
    if v == "" {
      assert EscapeMap(v) + t == t && current + EscapeMap(v) == current;
    } else {
      var e, rest := EscapeChar(v[0]), EscapeMap(v[1..]);
      assert EscapeMap(v) + t == e + (rest + t) && current + EscapeMap(v) == current + e + rest;
      ComponentsChar(v[0], rest + t, current);
      ComponentsStep(v[1..], t, current + e);
    }
  }

  // ---------------------------------------------------------------- the document

  /** One directory entry. `id` is the text of a UUID, `revision` a formatted UTC time, `photo`
      base64 text: none of them can hold a line break. */
  type LineText = s: string | NoBreaks(s)
  datatype Entry = Entry(id: LineText, address: string, name: string,
                         revision: Option<LineText>, photo: Option<LineText>)

  /** The characters `str.split()` splits at. */
  predicate IsSpace(c: char) {
    var v := c as int;
    || 0x09 <= v <= 0x0D || 0x1C <= v <= 0x20 || v == 0x85 || v == 0xA0 || v == 0x1680
    || 0x2000 <= v <= 0x200A || v == 0x2028 || v == 0x2029 || v == 0x202F || v == 0x205F || v == 0x3000
  }

  function WordLength(s: string): (n: nat)
    ensures n <= |s| && (s != "" && !IsSpace(s[0]) ==> n > 0)
  {
    if s == "" || IsSpace(s[0]) then 0 else 1 + WordLength(s[1..])
  }

  function Words(s: string): seq<string> {
    if s == "" then []
    else if IsSpace(s[0]) then Words(s[1..])
    else
      var n := WordLength(s);
      [s[..n]] + Words(s[n..])
  }

  function JoinWords(words: seq<string>): string {
    if words == [] then ""
    else if |words| == 1 then words[0]
    else words[0] + " " + JoinWords(words[1..])
  }

  function IndexOf(s: string, c: char): (i: nat)
    ensures i <= |s| && (i < |s| ==> s[i] == c) && c !in s[..i]
  {
    if s == "" || s[0] == c then 0 else 1 + IndexOf(s[1..], c)
  }

  /** `address.split('@', 1)[0]` and `[-1]` */
  function LocalPart(address: string): string {
    address[..IndexOf(address, '@')]
  }

  function Domain(address: string): string {
    var i := IndexOf(address, '@');
    if i < |address| then address[i + 1..] else address
  }

  function Display(e: Entry): string {
    if e.name != "" then e.name else LocalPart(e.address)
  }

  function Family(display: string): string {
    var words := Words(display);
    if |words| > 1 then words[|words| - 1] else ""
  }

  function Given(display: string): string {
    var words := Words(display);
    if |words| > 1 then JoinWords(words[..|words| - 1]) else display
  }

  function NameValue(family: string, given: string): string {
    Escape(family) + ";" + Escape(given) + ";;;"
  }

  datatype Name = Begin | Version | Uid | FullName | StructuredName | Email | Org | Rev | Photo | End

  function Label(n: Name): string {
    match n
    case Begin => "BEGIN:"
    case Version => "VERSION:"
    case Uid => "UID:"
    case FullName => "FN:"
    case StructuredName => "N:"
    case Email => "EMAIL;TYPE=INTERNET,PREF:"
    case Org => "ORG:"
    case Rev => "REV:"
    case Photo => "PHOTO;ENCODING=b;TYPE=JPEG:"
    case End => "END:"
  }

  /** The text of one property's value. */
  function Value(e: Entry, n: Name): string {
    match n
    case Begin => "VCARD"
    case Version => "3.0"
    case Uid => "ifinmail-" + e.id
    case FullName => Escape(Display(e))
    case StructuredName => NameValue(Family(Display(e)), Given(Display(e)))
    case Email => Escape(e.address)
    case Org => Escape(Domain(e.address))
    case Rev => e.revision.GetOr("")
    case Photo => e.photo.GetOr("")
    case End => "VCARD"
  }

  /** The properties of a card, in order. */
  function Names(e: Entry): seq<Name> {
    [Begin, Version, Uid, FullName, StructuredName, Email, Org]
    + (if e.revision.Some? then [Rev] else [])
    + (if e.photo.Some? then [Photo] else [])
    + [End]
  }

  function Render(e: Entry, names: seq<Name>): (lines: seq<string>)
    ensures |lines| == |names|
    ensures forall i :: 0 <= i < |lines| ==> lines[i] == Label(names[i]) + Value(e, names[i])
  {
    seq(|names|, i requires 0 <= i < |names| => Label(names[i]) + Value(e, names[i]))
  }

  function ContentLines(e: Entry): seq<string> {
    Render(e, Names(e))
  }

  function Document(lines: seq<string>): string {
    if lines == [] then "" else Folded(lines[0]) + "\r\n" + Document(lines[1..])
  }

  /** `Entry.vcard()` */
  function Vcard(e: Entry): string {
    Document(ContentLines(e))
  }

  // ---------------------------------------------------------------- reading it back

  /** The lines of a text whose lines end with CRLF; `current` is what was read of the first. */
  function Lines(text: string, current: string): seq<string> {
    if text == "" then (if current == "" then [] else [current])
    else if StartsBreak(text) then [current] + Lines(text[2..], "")
    else Lines(text[1..], current + [text[0]])
  }

  predicate StartsWith(line: string, name: string) {
    |name| <= |line| && line[..|name|] == name
  }

  /** The value of the first line that starts with `name`. */
  function ValueOf(lines: seq<string>, name: string): Option<string> {
    if lines == [] then None
    else if StartsWith(lines[0], name) then Some(lines[0][|name|..])
    else ValueOf(lines[1..], name)
  }

  function UnescapeAll(parts: seq<string>): seq<string> {
    seq(|parts|, i requires 0 <= i < |parts| => Unescape(parts[i]))
  }

  lemma {:induction false} LinesStep(s: string, t: string, current: string)
    requires '\r' !in s
    ensures Lines(s + "\r\n" + t, current) == [current + s] + Lines(t, "")
  {
    var text := s + "\r\n" + t;
    if s == "" {
      assert StartsBreak(text) && text[2..] == t && current + s == current;
    } else {
      assert text[0] == s[0] && text[1..] == s[1..] + "\r\n" + t;
      LinesStep(s[1..], t, current + [s[0]]);
      assert current + [s[0]] + s[1..] == current + s;
    }
  }

  predicate PlainLine(l: string) {
    NoBreaks(l) && l != "" && l[0] != ' '
  }

  ghost predicate Plain(lines: seq<string>) {
    forall l :: l in lines ==> PlainLine(l)
  }

  /** A line break that no space follows stays. */
  lemma UnfoldBreak(rest: string)
    requires rest == "" || rest[0] != ' '
    ensures Unfold("\r\n" + rest) == "\r\n" + Unfold(rest)
  {
    var text := "\r\n" + rest;
    assert text[1..] == "\n" + rest && ("\n" + rest)[1..] == rest;
    assert Unfold("\n" + rest) == "\n" + Unfold(rest);
    assert Unfold(text) == ['\r'] + Unfold(text[1..]);
  }

  lemma DocumentHead(lines: seq<string>)
    requires Plain(lines)
    ensures Document(lines) == "" || Document(lines)[0] != ' '
  {
    if lines != [] {
      assert PlainLine(lines[0]);
      FoldedHead(lines[0]);
    }
  }

  /** The first line of a document unfolds on its own: a new line never starts with a space. */
  lemma UnfoldFirst(line: string, rest: string)
    requires PlainLine(line) && (rest == "" || rest[0] != ' ')
    ensures Unfold(Folded(line) + "\r\n" + rest) == line + "\r\n" + Unfold(rest)
  {
    UnfoldBreak(rest);
    UnfoldFolded(line, "\r\n" + rest);
    Associate(Folded(line), "\r\n", rest);
    Associate(line, "\r\n", Unfold(rest));
  }

  /** Unfolding a document removes exactly the folds. */
  lemma {:induction false} UnfoldDocument(lines: seq<string>)
    requires Plain(lines)
    ensures Lines(Unfold(Document(lines)), "") == lines
  {
    if lines != [] {
      var line, rest := lines[0], Document(lines[1..]);
      assert PlainLine(line);
      UnfoldDocument(lines[1..]);
      DocumentHead(lines[1..]);
      UnfoldFirst(line, rest);
      LinesStep(line, Unfold(rest), "");
      assert "" + line == line;
    }
  }

  lemma FoldedHead(line: string)
    requires line != ""
    ensures Folded(line) != "" && Folded(line)[0] == line[0]
  {
  }

  lemma EscapeHasNoBreaks(s: string)
    ensures NoBreaks(Escape(s))
  {
    EscapeIsMap(s);
    EscapeMapHasNoBreaks(s);
  }

  /** Label n starts with a letter that tells the seven fixed properties apart. */
  function Initial(n: Name): char {
    match n
    case Begin => 'B'
    case Version => 'V'
    case Uid => 'U'
    case FullName => 'F'
    case StructuredName => 'N'
    case Email => 'E'
    case Org => 'O'
    case Rev => 'R'
    case Photo => 'P'
    case End => 'E'
  }

  lemma LabelIsPlain(n: Name)
    ensures PlainLine(Label(n)) && Label(n)[0] == Initial(n)
  {
    if n == Email || n == Photo {
      LongLabelIsPlain(n);
    } else {
      ShortLabelIsPlain(n);
    }
  }

  lemma LongLabelIsPlain(n: Name)
    requires n == Email || n == Photo
    ensures PlainLine(Label(n)) && Label(n)[0] == Initial(n)
  {
  }

  lemma ShortLabelIsPlain(n: Name)
    requires n != Email && n != Photo
    ensures PlainLine(Label(n)) && Label(n)[0] == Initial(n)
  {
  }

  lemma NameValueHasNoBreaks(family: string, given: string)
    ensures NoBreaks(NameValue(family, given))
  {
    EscapeHasNoBreaks(family);
    EscapeHasNoBreaks(given);
  }

  lemma ValueHasNoBreaks(e: Entry, n: Name)
    ensures NoBreaks(Value(e, n))
  {
    match n {
      case FullName => EscapeHasNoBreaks(Display(e));
      case StructuredName => NameValueHasNoBreaks(Family(Display(e)), Given(Display(e)));
      case Email => EscapeHasNoBreaks(e.address);
      case Org => EscapeHasNoBreaks(Domain(e.address));
      case _ => FixedValueHasNoBreaks(e, n);
    }
  }

  lemma FixedValueHasNoBreaks(e: Entry, n: Name)
    requires n in {Begin, Version, Uid, Rev, Photo, End}
    ensures NoBreaks(Value(e, n))
  {
  }

  lemma ContentLinesPlain(e: Entry)
    ensures Plain(ContentLines(e))
  {
    var names := Names(e);
    forall l | l in ContentLines(e) ensures PlainLine(l) {
      var i :| 0 <= i < |names| && l == Label(names[i]) + Value(e, names[i]);
      LabelIsPlain(names[i]);
      ValueHasNoBreaks(e, names[i]);
    }
  }

  /** A reader that unfolds and splits a published card gets exactly its content lines. */
  lemma LogicalLines(e: Entry)
    ensures Lines(Unfold(Vcard(e)), "") == ContentLines(e)
  {
    ContentLinesPlain(e);
    UnfoldDocument(ContentLines(e));
  }

  /** No physical line of a published card is longer than 75 octets. */
  lemma PhysicalLines(e: Entry)
    ensures forall l :: l in Lines(Vcard(e), "") ==> |Encode(l)| <= 75
  {
    ContentLinesPlain(e);
    DocumentFits(ContentLines(e));
  }

  lemma {:induction false} DocumentFits(lines: seq<string>)
    requires Plain(lines)
    ensures forall l :: l in Lines(Document(lines), "") ==> |Encode(l)| <= 75
  {
    if lines != [] {
      assert PlainLine(lines[0]);
      DocumentFits(lines[1..]);
      var parts := Pieces(lines[0], FIRST_LIMIT);
      PhysicalLinesFit(lines[0], FIRST_LIMIT);
      PiecesHaveNoBreaks(lines[0], FIRST_LIMIT);
      JoinFits(parts, Document(lines[1..]), FIRST_LIMIT, "");
    }
  }

  lemma LeadFits(lead: string, part: string, limit: nat)
    requires |Encode(part)| <= limit
    requires (lead == "" && limit == FIRST_LIMIT) || (lead == " " && limit == NEXT_LIMIT)
    ensures |Encode(lead + part)| <= 75
  {
    EncodeAppend(lead, part);
    assert " "[1..] == "" && |EncodeChar(' ')| == 1;
  }

  lemma {:induction false} JoinFits(parts: seq<string>, tail: string, limit: nat, lead: string)
    requires parts != [] && FitsPhysicalLines(parts, limit)
    requires (lead == "" && limit == FIRST_LIMIT) || (lead == " " && limit == NEXT_LIMIT)
    requires forall p :: p in parts ==> NoBreaks(p)
    requires forall l :: l in Lines(tail, "") ==> |Encode(l)| <= 75
    ensures forall l :: l in Lines(Join(parts) + "\r\n" + tail, lead) ==> |Encode(l)| <= 75
  {
    var first := parts[0];
    assert NoBreaks(first);
    LeadFits(lead, first, limit);
    if |parts| == 1 {
      LinesStep(first, tail, lead);
    } else {
      var more := Join(parts[1..]) + "\r\n" + tail;
      JoinFits(parts[1..], tail, NEXT_LIMIT, " ");
      LinesAfterSpace(more);
      LinesStep(first, " " + more, lead);
      JoinAssociates(first, Join(parts[1..]), tail);
    }
  }

  lemma LinesAfterSpace(more: string)
    ensures Lines(" " + more, "") == Lines(more, " ")
  {
    assert (" " + more)[1..] == more && "" + [' '] == " ";
  }

  lemma JoinAssociates(first: string, others: string, tail: string)
    ensures first + "\r\n " + others + "\r\n" + tail == first + "\r\n" + (" " + (others + "\r\n" + tail))
  {
    assert "\r\n " == "\r\n" + " ";
  }

  lemma RenderTail(e: Entry, names: seq<Name>)
    requires names != []
    ensures Render(e, names)[1..] == Render(e, names[1..])
  {
  }

  lemma {:induction false} ValueAt(e: Entry, names: seq<Name>, i: nat)
    requires i < |names|
    requires forall k :: 0 <= k < i ==> Initial(names[k]) != Initial(names[i])
    ensures ValueOf(Render(e, names), Label(names[i])) == Some(Value(e, names[i]))
  {
    var n := names[i];
    LabelIsPlain(n);
    if i == 0 {
      assert Render(e, names)[0] == Label(n) + Value(e, n);
    } else {
      LabelIsPlain(names[0]);
      assert Render(e, names)[0][0] == Initial(names[0]);
      assert !StartsWith(Render(e, names)[0], Label(n));
      ValueAt(e, names[1..], i - 1);
      RenderTail(e, names);
    }
  }

  /** The value of the line that begins with `name`. */
  function ReadLine(doc: string, name: string): Option<string> {
    ValueOf(Lines(Unfold(doc), ""), name)
  }

  function ReadText(doc: string, name: string): Option<string> {
    match ReadLine(doc, name)
    case None => None
    case Some(v) => Some(Unescape(v))
  }

  function ReadName(doc: string): Option<seq<string>> {
    match ReadLine(doc, "N:")
    case None => None
    case Some(v) => Some(UnescapeAll(Components(v, "")))
  }

  /** The N value splits into five components, and unescaping them gives the parts of the name. */
  lemma NameComponents(family: string, given: string)
    ensures Components(NameValue(family, given), "") == [Escape(family), Escape(given), "", "", ""]
  {
    var f, g := Escape(family), Escape(given);
    EscapeIsMap(family);
    EscapeIsMap(given);
    ComponentsStep(family, ";" + (g + ";;;"), "");
    ComponentsStep(given, ";;;", "");
    ComponentsSemicolon(g + ";;;", f);
    NoComponents(g);
    NameValueAssociates(f, g);
    assert "" + f == f && "" + g == g;
  }

  lemma NameValueAssociates(f: string, g: string)
    ensures f + ";" + g + ";;;" == f + (";" + (g + ";;;"))
  {
  }

  lemma ComponentsSemicolon(t: string, current: string)
    ensures Components(";" + t, current) == [current] + Components(t, "")
  {
    assert (";" + t)[1..] == t;
  }

  lemma NoComponents(current: string)
    ensures Components(";;;", current) == [current, "", "", ""]
  {
    ComponentsSemicolon(";;", current);
    ComponentsSemicolon(";", "");
    ComponentsSemicolon("", "");
    assert ";;;" == ";" + ";;" && ";;" == ";" + ";" && ";" == ";" + "";
  }

  lemma ReadAt(e: Entry, i: nat)
    requires i < |Names(e)| - 1
    ensures ReadLine(Vcard(e), Label(Names(e)[i])) == Some(Value(e, Names(e)[i]))
  {
    LogicalLines(e);
    InitialsDiffer(e, i);
    ValueAt(e, Names(e), i);
  }

  lemma InitialsDiffer(e: Entry, i: nat)
    requires i < |Names(e)| - 1
    ensures forall k :: 0 <= k < i ==> Initial(Names(e)[k]) != Initial(Names(e)[i])
  {
  }

  lemma ReadTextAt(e: Entry, i: nat, v: string)
    requires i < 7 && Value(e, Names(e)[i]) == Escape(v)
    ensures ReadText(Vcard(e), Label(Names(e)[i])) == Some(RemoveCR(v))
  {
    ReadAt(e, i);
    UnescapeEscape(v);
  }

  /** The parts of an address before and after its first '@'. */
  lemma AddressParts(address: string, a: string, b: string)
    requires address == a + ("@" + b) && '@' !in a
    ensures LocalPart(address) == a && Domain(address) == b
  {
    AtSign(a, b);
    assert address[..|a|] == a && address[|a| + 1..] == b;
  }

  lemma {:induction false} AtSign(a: string, b: string)
    requires '@' !in a
    ensures IndexOf(a + ("@" + b), '@') == |a|
  {
    if a == "" {
      assert a + ("@" + b) == "@" + b;
    } else {
      assert (a + ("@" + b))[1..] == a[1..] + ("@" + b);
      AtSign(a[1..], b);
    }
  }

  lemma DisplayIs(e: Entry, a: string, b: string)
    requires e.address == a + ("@" + b) && '@' !in a
    ensures Display(e) == if e.name != "" then e.name else a
  {
    AddressParts(e.address, a, b);
  }

  /** The round trip: whatever the mailbox is called, a reader of the published card recovers the name, or for
      want of one the part of the address before its '@'; the address; and the part after the '@' (all minus
      carriage returns). */
  lemma ReadVcard(e: Entry, a: string, b: string)
    requires e.address == a + ("@" + b) && '@' !in a
    ensures ReadText(Vcard(e), "FN:") == Some(RemoveCR(if e.name != "" then e.name else a))
    ensures ReadText(Vcard(e), "EMAIL;TYPE=INTERNET,PREF:") == Some(RemoveCR(e.address))
    ensures ReadText(Vcard(e), "ORG:") == Some(RemoveCR(b))
  {
    AddressParts(e.address, a, b);
    DisplayIs(e, a, b);
    ReadTextAt(e, 3, Display(e));
    ReadTextAt(e, 5, e.address);
    ReadTextAt(e, 6, Domain(e.address));
  }

  /** The other lines say what they must: a card of version 3.0 with the person's own identifier, and revision
      and photo where there are any; and there is nothing else. */
  lemma ReadFixedLines(e: Entry)
    ensures ReadLine(Vcard(e), "VERSION:") == Some("3.0")
    ensures ReadLine(Vcard(e), "UID:") == Some("ifinmail-" + e.id)
    ensures e.revision.Some? ==> ReadLine(Vcard(e), "REV:") == Some(e.revision.value)
    ensures e.photo.Some? ==> ReadLine(Vcard(e), "PHOTO;ENCODING=b;TYPE=JPEG:") == Some(e.photo.value)
  {
    ReadAt(e, 1);
    ReadAt(e, 2);
    if e.revision.Some? {
      ReadAt(e, 7);
    }
    if e.photo.Some? {
      ReadAt(e, |Names(e)| - 2);
    }
  }

  lemma Frame(e: Entry)
    ensures var lines := Lines(Unfold(Vcard(e)), "");
            && |lines| == 8 + (if e.revision.Some? then 1 else 0) + (if e.photo.Some? then 1 else 0)
            && lines[0] == "BEGIN:VCARD" && lines[|lines| - 1] == "END:VCARD"
  {
    LogicalLines(e);
    var names := Names(e);
    assert names[0] == Begin && names[|names| - 1] == End;
    assert Label(Begin) + Value(e, Begin) == "BEGIN:VCARD";
    assert Label(End) + Value(e, End) == "END:VCARD";
  }

  /** A display name of one word or none is the given name, as it is. */
  lemma SingleName(e: Entry)
    requires |Words(Display(e))| <= 1
    ensures ReadName(Vcard(e)) == Some(["", RemoveCR(Display(e)), "", "", ""])
  {
    ReadVcardName(e);
    assert RemoveCR("") == "";
  }

  /** Of ASCII, blanks, tabs, line ends and the separator controls stand between words. */
  lemma AsciiSpaces(c: char)
    requires c as int < 0x80
    ensures IsSpace(c) <==> c == ' ' || '\t' <= c <= '\r' || 0x1C <= c as int <= 0x1F
  {
  }

  /** ... and the five components of the name. */
  lemma ReadVcardName(e: Entry)
    ensures ReadName(Vcard(e))
            == Some([RemoveCR(Family(Display(e))), RemoveCR(Given(Display(e))), "", "", ""])
  {
    ReadAt(e, 4);
    assert Names(e)[4] == StructuredName && Label(StructuredName) == "N:";
    NameReads(Family(Display(e)), Given(Display(e)));
  }

  lemma NameReads(family: string, given: string)
    ensures UnescapeAll(Components(NameValue(family, given), "")) == [RemoveCR(family), RemoveCR(given), "", "", ""]
  {
    NameComponents(family, given);
    UnescapeEscape(family);
    UnescapeEscape(given);
    assert Unescape("") == "";
  }

  /** Family and given name together are the words of the display name, in order. */
  lemma NamePartsAreWords(display: string)
    requires |Words(display)| > 1
    ensures Words(display) == Words(Given(display)) + [Family(display)]
  {
    WordsAreWords(display);
    WordsOfJoin(Words(display)[..|Words(display)| - 1]);
  }

  ghost predicate IsWord(w: string) {
    w != "" && forall c :: c in w ==> !IsSpace(c)
  }

  lemma {:induction false} WordsAreWords(s: string)
    ensures forall w :: w in Words(s) ==> IsWord(w)
  {
    if s != "" {
      if IsSpace(s[0]) {
        WordsAreWords(s[1..]);
      } else {
        WordLengthIsWord(s);
        WordsAreWords(s[WordLength(s)..]);
      }
    }
  }

  lemma WordLengthIsWord(s: string)
    ensures forall i :: 0 <= i < WordLength(s) ==> !IsSpace(s[i])
  {
    if s != "" && !IsSpace(s[0]) {
      WordLengthIsWord(s[1..]);
      assert forall i :: 1 <= i < |s| ==> s[i] == s[1..][i - 1];
    }
  }

  lemma {:induction false} WordPrefix(w: string, t: string)
    requires forall c :: c in w ==> !IsSpace(c)
    requires t == "" || IsSpace(t[0])
    ensures WordLength(w + t) == |w|
  {
    if w == "" {
      assert w + t == t;
    } else {
      assert (w + t)[1..] == w[1..] + t;
      WordPrefix(w[1..], t);
    }
  }

  lemma {:induction false} WordsOfJoin(words: seq<string>)
    requires forall w :: w in words ==> IsWord(w)
    ensures Words(JoinWords(words)) == words
  {
    if words != [] {
      var w := words[0];
      assert IsWord(w);
      if |words| == 1 {
        WordPrefix(w, "");
        assert w + "" == w && w[..|w|] == w && w[|w|..] == "";
      } else {
        var t := " " + JoinWords(words[1..]);
        WordPrefix(w, t);
        assert JoinWords(words) == w + t && (w + t)[..|w|] == w && (w + t)[|w|..] == t;
        assert t[1..] == JoinWords(words[1..]);
        WordsOfJoin(words[1..]);
      }
    }
  }
}
