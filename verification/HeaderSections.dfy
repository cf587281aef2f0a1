/** The header sections that the parser accepts, and what it makes of them: named
    lines, and the lines that begin with a blank, which it treats in a way of its own. */
module HeaderSections {
  import opened Bytes
  import opened HeaderFields
  import opened HeaderLines
  import opened Parser
  import opened ParserRuns

  /** A line of a header section. Of a folded line the first character after the blanks
      is dropped, and the rest is inserted under an empty name; a line of nothing but
      blanks is skipped. */
  datatype HeaderLine =
    | Named(field: Field)
    | Folded(blanks: string, dropped: char, rest: string)
    | Blank(blanks: string)

  predicate IsBlank(c: char) {
    c == ' ' || c == '\t'
  }

  predicate AreBlanks(s: string) {
    forall i | 0 <= i < |s| :: IsBlank(s[i])
  }

  predicate IsHeaderLine(l: HeaderLine) {
    match l
    case Named(f) => IsField(f)
    case Folded(blanks, dropped, rest) =>
      blanks != "" && AreBlanks(blanks) && !IsBlank(dropped) && !IsCtl(dropped) && NoCtl(rest)
    case Blank(blanks) => blanks != "" && AreBlanks(blanks)
  }

  /** The first line is a named one. */
  predicate AreHeaderLines(lines: seq<HeaderLine>) {
    && (forall i | 0 <= i < |lines| :: IsHeaderLine(lines[i]))
    && (lines != [] ==> lines[0].Named?)
  }

  /** A line without its line end. */
  function Content(l: HeaderLine): string {
    match l
    case Named(f) => f.name + ": " + f.value
    case Folded(blanks, dropped, rest) => blanks + [dropped] + rest
    case Blank(blanks) => blanks
  }

  function LinesText(lines: seq<HeaderLine>): string {
    if lines == [] then "" else LinesText(lines[..|lines| - 1]) + Content(lines[|lines| - 1]) + "\r\n"
  }

  /** What a line inserts. */
  function Inserts(l: HeaderLine): seq<Field> {
    match l
    case Named(f) => [f]
    case Folded(_, _, rest) => [Field("", rest)]
    case Blank(_) => []
  }

  function FieldsOf(lines: seq<HeaderLine>): seq<Field> {
    if lines == [] then [] else FieldsOf(lines[..|lines| - 1]) + Inserts(lines[|lines| - 1])
  }

  /** The headers that a section leaves. */
  function HeadersOf(lines: seq<HeaderLine>): HeaderData {
    InsertAll(NO_HEADERS, FieldsOf(lines))
  }

  function WithLineInserted(h: HeaderData, l: HeaderLine): HeaderData {
    match l
    case Named(f) => Inserted(h, f.name, f.value)
    case Folded(_, _, rest) => Inserted(h, "", rest)
    case Blank(_) => h
  }

  lemma OneMoreLine(lines: seq<HeaderLine>, l: HeaderLine)
    ensures LinesText(lines + [l]) == LinesText(lines) + Content(l) + "\r\n"
    ensures FieldsOf(lines + [l]) == FieldsOf(lines) + Inserts(l)
    ensures HeadersOf(lines + [l]) == WithLineInserted(HeadersOf(lines), l)
  {
    hide Inserted;
    assert (lines + [l])[..|lines|] == lines;
    var fields := FieldsOf(lines);
    match l {
      case Named(f) => InsertOneMore(fields, f);
      case Folded(_, _, rest) => InsertOneMore(fields, Field("", rest));
      case Blank(_) => assert fields + [] == fields;
    }
  }

  lemma InsertOneMore(fields: seq<Field>, f: Field)
    ensures InsertAll(NO_HEADERS, fields + [f]) == Inserted(InsertAll(NO_HEADERS, fields), f.name, f.value)
  {
    hide Inserted;
    assert (fields + [f])[..|fields|] == fields;
  }

  lemma {:induction false} HeadersBegin(lines: seq<HeaderLine>)
    requires AreHeaderLines(lines)
    ensures lines == [] <==> HeadersOf(lines).values == map[]
  {
    if lines != [] {
      var init, last := lines[..|lines| - 1], lines[|lines| - 1];
      assert lines == init + [last];
      OneMoreLine(init, last);
      if init != [] {
        HeadersBegin(init);
      }
      hide Canonical;
      assert last.Named? ==> Canonical(last.field.name) in HeadersOf(lines).values;
      assert last.Folded? ==> Canonical("") in HeadersOf(lines).values;
    }
  }

  // ----- every section is accepted -----

  lemma {:induction false} BlanksRun(k: Config, s: string)
    requires k.parser.state == HeaderLws && AreBlanks(s)
    ensures Leads(k, s, k)
  {
    hide StepRequestLine, StepStatusLine, StepChunkLine, StepChunkData, Run, FramingOf, Inserted;
    if s == "" {
      NothingToRead(k, Start);
    } else {
      var init, c := s[..|s| - 1], s[|s| - 1];
      assert s == init + [c];
      BlanksRun(k, init);
      RunLast(k, init, c);
    }
  }

  lemma BlanksBegin(k: Config, c: char)
    requires k.parser.state == HeaderLineStart && k.message.headers.values != map[] && IsBlank(c)
    ensures Leads(k, [c], InLine(k, HeaderLws, k.parser.buffer, k.parser.valueBuffer))
  {
    hide StepRequestLine, StepStatusLine, StepChunkLine, StepChunkData, Leads, FramingOf, Inserted;
    LeadsOne(k, c);
  }

  lemma CharacterDropped(k: Config, c: char)
    requires k.parser.state == HeaderLws && !IsBlank(c) && !IsCtl(c)
    ensures Leads(k, [c], InLine(k, HeaderValue, k.parser.buffer, k.parser.valueBuffer))
  {
    hide StepRequestLine, StepStatusLine, StepChunkLine, StepChunkData, Leads, FramingOf, Inserted;
    LeadsOne(k, c);
  }

  lemma BlankLineEnd(k: Config)
    requires k.parser.state == HeaderLws
    ensures Leads(k, "\r\n", InLine(k, HeaderLineStart, k.parser.buffer, k.parser.valueBuffer))
  {
    hide StepRequestLine, StepStatusLine, StepChunkLine, StepChunkData, Leads, FramingOf, Inserted;
    LeadsTwo(k, '\r', '\n');
  }

  lemma LeadingBlanksRun(k: Config, blanks: string)
    requires k.parser.state == HeaderLineStart && k.message.headers.values != map[]
    requires blanks != "" && AreBlanks(blanks)
    ensures Leads(k, blanks, InLine(k, HeaderLws, k.parser.buffer, k.parser.valueBuffer))
  {
    hide Step, Run, Leads;
    var k' := InLine(k, HeaderLws, k.parser.buffer, k.parser.valueBuffer);
    BlanksBegin(k, blanks[0]);
    BlanksRun(k', blanks[1..]);
    LeadsJoin(k, [blanks[0]], k', blanks[1..], k');
    assert blanks == [blanks[0]] + blanks[1..];
  }

  /** The parser at the start of a line, with both scratch buffers empty. */
  function AtLine(k: Config, h: HeaderData): Config {
    InLine(k.(message := k.message.(headers := h)), HeaderLineStart, "", "")
  }

  lemma FoldedRun(k: Config, l: HeaderLine)
    requires l.Folded? && IsHeaderLine(l)
    requires k == AtLine(k, k.message.headers) && k.message.headers.values != map[]
    ensures Leads(k, Content(l) + "\r\n", AtLine(k, Inserted(k.message.headers, "", l.rest)))
  {
    hide Step, Run, Leads, Inserted;
    var k1 := InLine(k, HeaderLws, "", "");
    LeadingBlanksRun(k, l.blanks);
    var k2 := InLine(k, HeaderValue, "", "");
    CharacterDropped(k1, l.dropped);
    LeadsJoin(k, l.blanks, k1, [l.dropped], k2);
    var k3 := InLine(k, HeaderValue, "", l.rest);
    ValueRun(k2, l.rest);
    assert "" + l.rest == l.rest;
    LeadsJoin(k, l.blanks + [l.dropped], k2, l.rest, k3);
    LineEndRun(k3);
    LeadsJoin(k, Content(l), k3, "\r\n", AfterField(k3, Field("", l.rest)));
  }

  lemma BlankRun(k: Config, l: HeaderLine)
    requires l.Blank? && IsHeaderLine(l)
    requires k == AtLine(k, k.message.headers) && k.message.headers.values != map[]
    ensures Leads(k, Content(l) + "\r\n", k)
  {
    hide Step, Run, Leads;
    var k1 := InLine(k, HeaderLws, "", "");
    LeadingBlanksRun(k, l.blanks);
    BlankLineEnd(k1);
    LeadsJoin(k, l.blanks, k1, "\r\n", k);
  }

  /** The parser after a list of lines. */
  function AfterLines(k: Config, lines: seq<HeaderLine>): Config {
    if lines == [] then k else AtLine(k, HeadersOf(lines))
  }

  lemma LineRun(k: Config, lines: seq<HeaderLine>, l: HeaderLine)
    requires k.parser.state == HeaderLineStart && k.message.headers == NO_HEADERS
    requires AreHeaderLines(lines + [l])
    ensures Leads(AfterLines(k, lines), Content(l) + "\r\n", AfterLines(k, lines + [l]))
  {
    hide Step, Run, Leads, Inserted;
    assert forall i | 0 <= i < |lines| :: lines[i] == (lines + [l])[i];
    assert l == (lines + [l])[|lines|];
    var from := AfterLines(k, lines);
    OneMoreLine(lines, l);
    HeadersBegin(lines);
    assert lines == [] ==> HeadersOf(lines) == NO_HEADERS;
    match l {
      case Named(f) =>
        FieldRun(from, f);
        assert Content(l) + "\r\n" == Line(f);
      case Folded(_, _, _) => FoldedRun(from, l);
      case Blank(_) => BlankRun(from, l);
    }
  }

  lemma {:induction false} LinesRun(k: Config, lines: seq<HeaderLine>)
    requires k.parser.state == HeaderLineStart && k.message.headers == NO_HEADERS && AreHeaderLines(lines)
    ensures Leads(k, LinesText(lines), AfterLines(k, lines))
  {
    hide Step, Run, Leads, Content, IsHeaderLine, AfterLines;
    if lines == [] {
      LeadsNothing(k);
      NoLines(k);
    } else {
      var init, last := lines[..|lines| - 1], lines[|lines| - 1];
      assert lines == init + [last];
      LinesRun(k, init);
      LineRun(k, init, last);
      LeadsJoin(k, LinesText(init), AfterLines(k, init), Content(last) + "\r\n", AfterLines(k, lines));
      assert LinesText(init) + (Content(last) + "\r\n") == LinesText(lines);
    }
  }

  lemma NoLines(k: Config)
    ensures AfterLines(k, []) == k
  {}

  // ----- everything accepted is a section -----

  /** How the bytes of a header section read so far divide up: the lines completed, the
      blanks and the dropped character of a folded line in progress, and the line
      whose line feed is still to come. */
  datatype LineProgress = LineProgress(done: seq<HeaderLine>, blanks: string, dropped: string, last: HeaderLine)

  /** The bytes of the line in progress. */
  function CurrentLine(p: LineProgress, parser: ParserData): string {
    match parser.state
    case HeaderName => parser.buffer
    case HeaderSpace => parser.buffer + ":"
    case HeaderValue =>
      (if p.dropped == "" then parser.buffer + ": " else p.blanks + p.dropped) + parser.valueBuffer
    case HeaderLws => p.blanks
    case Newline2 => Content(p.last) + "\r"
    case Newline3 => "\r"
    case _ => ""
  }

  /** A folded line has begun, after a named one, with nothing left in the buffers. */
  predicate IsFold(p: LineProgress, parser: ParserData) {
    p.done != [] && p.blanks != "" && AreBlanks(p.blanks) && parser.buffer == ""
  }

  /** What the state says of the line in progress. */
  predicate LineShape(from: Config, p: LineProgress, parser: ParserData) {
    match parser.state
    case HeaderLineStart => parser == AfterLines(from, p.done).parser
    case HeaderName => parser.buffer != "" && IsToken(parser.buffer) && p.dropped == ""
    case HeaderSpace => parser.buffer != "" && IsToken(parser.buffer) && p.dropped == ""
    case HeaderValue =>
      && NoCtl(parser.valueBuffer)
      && if p.dropped == "" then parser.buffer != "" && IsToken(parser.buffer)
         else IsFold(p, parser) && |p.dropped| == 1 && !IsBlank(p.dropped[0]) && !IsCtl(p.dropped[0])
    case HeaderLws => IsFold(p, parser) && parser.valueBuffer == ""
    case Newline2 =>
      IsHeaderLine(p.last) && (p.done == [] ==> p.last.Named?) && parser.buffer == "" && parser.valueBuffer == ""
    case Newline3 => parser == AfterLines(from, p.done).parser.(state := Newline3)
    case _ => false
  }

  predicate LinesExplain(from: Config, p: LineProgress, k: Config, w: string) {
    var h := HeadersOf(p.done);
    && AreHeaderLines(p.done)
    && w == LinesText(p.done) + CurrentLine(p, k.parser)
    && k.message == from.message.(headers := if k.parser.state == Newline2 then WithLineInserted(h, p.last) else h)
    && k.parser.remaining == from.parser.remaining
    && LineShape(from, p, k.parser)
  }

  function LineAdvance(p: LineProgress, k: Config, c: char): LineProgress {
    match k.parser.state
    case HeaderLineStart => p.(blanks := [c], dropped := "")
    case HeaderLws =>
      if c == '\r' then p.(last := Blank(p.blanks))
      else if IsBlank(c) then p.(blanks := p.blanks + [c])
      else p.(dropped := [c])
    case HeaderValue =>
      if c != '\r' then p
      else if p.dropped == "" then p.(last := Named(Field(k.parser.buffer, k.parser.valueBuffer)))
      else p.(last := Folded(p.blanks, p.dropped[0], k.parser.valueBuffer))
    case Newline2 => p.(done := p.done + [p.last])
    case _ => p
  }

  lemma LineStartExplained(from: Config, p: LineProgress, k: Config, w: string, c: char)
    requires LinesExplain(from, p, k, w) && k.parser.state == HeaderLineStart && from.parser.state == HeaderLineStart
    requires Step(k, c).outcome == Incomplete
    ensures LinesExplain(from, LineAdvance(p, k, c), Step(k, c).config, w + [c])
  {
    hide StepRequestLine, StepStatusLine, StepChunkLine, StepChunkData, FramingOf, Inserted, LinesText, HeadersOf,
         AreHeaderLines;
    HeadersBegin(p.done);
    assert w + [c] == LinesText(p.done) + [c];
  }

  lemma NameExplained(from: Config, p: LineProgress, k: Config, w: string, c: char)
    requires LinesExplain(from, p, k, w) && (k.parser.state == HeaderName || k.parser.state == HeaderSpace)
    requires Step(k, c).outcome == Incomplete
    ensures LinesExplain(from, LineAdvance(p, k, c), Step(k, c).config, w + [c])
  {
    hide StepRequestLine, StepStatusLine, StepChunkLine, StepChunkData, FramingOf, Inserted, LinesText, HeadersOf,
         AreHeaderLines;
    var current := CurrentLine(p, k.parser);
    assert w + [c] == LinesText(p.done) + (current + [c]);
  }

  lemma FoldExplained(from: Config, p: LineProgress, k: Config, w: string, c: char)
    requires LinesExplain(from, p, k, w) && k.parser.state == HeaderLws
    requires Step(k, c).outcome == Incomplete
    ensures LinesExplain(from, LineAdvance(p, k, c), Step(k, c).config, w + [c])
  {
    hide StepRequestLine, StepStatusLine, StepChunkLine, StepChunkData, FramingOf, Inserted, LinesText, HeadersOf,
         AreHeaderLines;
    assert w + [c] == LinesText(p.done) + (p.blanks + [c]);
  }

  lemma ValueGoesOn(from: Config, p: LineProgress, k: Config, w: string, c: char)
    requires LinesExplain(from, p, k, w) && k.parser.state == HeaderValue && c != '\r'
    requires Step(k, c).outcome == Incomplete
    ensures LinesExplain(from, LineAdvance(p, k, c), Step(k, c).config, w + [c])
  {
    hide StepRequestLine, StepStatusLine, StepChunkLine, StepChunkData, FramingOf, Inserted, LinesText, HeadersOf,
         AreHeaderLines, IsToken;
    var value := k.parser.valueBuffer;
    assert w + [c] == LinesText(p.done) + (CurrentLine(p, k.parser) + [c]);
    assert forall front: string :: front + value + [c] == front + (value + [c]);
  }

  lemma ValueEnds(from: Config, p: LineProgress, k: Config, w: string)
    requires LinesExplain(from, p, k, w) && k.parser.state == HeaderValue
    ensures LinesExplain(from, LineAdvance(p, k, '\r'), Step(k, '\r').config, w + "\r")
  {
    hide StepRequestLine, StepStatusLine, StepChunkLine, StepChunkData, FramingOf, Inserted, LinesText, HeadersOf,
         AreHeaderLines, IsToken, NoCtl, AreBlanks;
    assert w + "\r" == LinesText(p.done) + (CurrentLine(p, k.parser) + "\r");
    if p.dropped != "" {
      assert p.dropped == [p.dropped[0]];
    }
  }

  lemma ValueExplained(from: Config, p: LineProgress, k: Config, w: string, c: char)
    requires LinesExplain(from, p, k, w) && k.parser.state == HeaderValue
    requires Step(k, c).outcome == Incomplete
    ensures LinesExplain(from, LineAdvance(p, k, c), Step(k, c).config, w + [c])
  {
    hide Step, LinesExplain, LineAdvance;
    if c == '\r' {
      ValueEnds(from, p, k, w);
    } else {
      ValueGoesOn(from, p, k, w, c);
    }
  }

  lemma LineEndExplained(from: Config, p: LineProgress, k: Config, w: string, c: char)
    requires LinesExplain(from, p, k, w) && k.parser.state == Newline2 && from.parser.state == HeaderLineStart
    requires Step(k, c).outcome == Incomplete
    ensures LinesExplain(from, LineAdvance(p, k, c), Step(k, c).config, w + [c])
  {
    hide StepRequestLine, StepStatusLine, StepChunkLine, StepChunkData, FramingOf, Inserted, LinesText, HeadersOf,
         Content;
    OneMoreLine(p.done, p.last);
    assert LinesText(p.done) + (Content(p.last) + "\r") + "\n" == LinesText(p.done) + Content(p.last) + "\r\n";
  }

  /** The intermediate states: whatever has been read of a header section divides up
      into lines, and the headers are what the completed lines insert. */
  lemma {:induction false} SectionSoFar(from: Config, w: string, k: Config) returns (p: LineProgress)
    requires from.parser.state == HeaderLineStart && from.message.headers == NO_HEADERS
    requires Leads(from, w, k) && IsHeaderSection(k.parser.state)
    ensures LinesExplain(from, p, k, w)
    decreases |w|
  {
    hide Step, Run, Leads, LinesExplain, Part, LineAdvance;
    if w == "" {
      NothingLeads(from, k);
      p := NothingExplained(from);
    } else {
      var init, c := w[..|w| - 1], w[|w| - 1];
      assert w == init + [c];
      LeadsLast(from, init, c, k);
      var before := Run(from, init).config;
      PartsGrow(from, init, before);
      PartGrows(before, c);
      PartIsHeaders(from.parser.state);
      PartIsHeaders(before.parser.state);
      PartIsHeaders(k.parser.state);
      var q := SectionSoFar(from, init, before);
      HeadersGoOnLine(before, c);
      match before.parser.state {
        case HeaderLineStart => LineStartExplained(from, q, before, init, c);
        case HeaderLws => FoldExplained(from, q, before, init, c);
        case HeaderValue => ValueExplained(from, q, before, init, c);
        case Newline2 => LineEndExplained(from, q, before, init, c);
        case _ => NameExplained(from, q, before, init, c);
      }
      p := LineAdvance(q, before, c);
    }
  }

  lemma PartIsHeaders(s: ParserState)
    ensures Part(s) == 1 <==> IsHeaderSection(s)
    ensures IsHeaderSection(s) ==> Part(s) == 1
  {}

  lemma HeadersGoOnLine(k: Config, c: char)
    requires IsHeaderSection(k.parser.state) && Step(k, c).outcome == Incomplete
    requires IsHeaderSection(Step(k, c).config.parser.state)
    ensures k.parser.state != Newline3
  {
    hide StepRequestLine, StepStatusLine, StepChunkLine, StepChunkData, FramingOf;
  }

  lemma NothingExplained(from: Config) returns (p: LineProgress)
    requires from.parser.state == HeaderLineStart && from.message.headers == NO_HEADERS
    ensures LinesExplain(from, p, from, "")
  {
    p := LineProgress([], "", "", Blank(""));
  }

  /** Sound: what takes the parser through a header section to the blank line's line feed
      is a list of lines, and the headers are what they insert. */
  lemma SectionIsLines(from: Config, w: string, k: Config) returns (lines: seq<HeaderLine>)
    requires from.parser.state == HeaderLineStart && from.message.headers == NO_HEADERS
    requires Leads(from, w, k) && k.parser.state == Newline3
    ensures AreHeaderLines(lines) && w == LinesText(lines) + "\r"
    ensures k == AfterLines(from, lines).(parser := AfterLines(from, lines).parser.(state := Newline3))
  {
    hide Run, Leads, Step, AreHeaderLines, LinesText, HeadersOf;
    var p := SectionSoFar(from, w, k);
    lines := p.done;
    NoLines(from);
    assert HeadersOf([]) == NO_HEADERS by { NoHeadersOf(); }
  }

  lemma NoHeadersOf()
    ensures HeadersOf([]) == NO_HEADERS
  {}
}
