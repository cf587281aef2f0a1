/** When the process stops instead of refusing a message: exactly on the semicolon of a
    chunk extension, and on a trailer after the last chunk, in a chunked message. */
module Aborts {
  import opened Bytes
  import opened HeaderFields
  import opened HeaderSections
  import opened FirstLines
  import opened Parser
  import opened ParserRuns
  import opened ChunkedBodies
  import opened FixedBodies
  import opened WireMessages
  import opened BodyFraming

  /** The parser stops the process on the last byte of `w`. */
  predicate Aborts(k: Config, w: string) {
    Run(k, w).outcome == Fatal && Run(k, w).consumed == |w|
  }

  /** What stops it after a length: a semicolon, or, if the length is zero, its line end and
      any byte that does not begin a blank line. */
  predicate Stopper(length: string, end: string) {
    || (IsLength(length) && end == ";")
    || (IsLastLength(length) && |end| == 3 && end[..2] == "\r\n" && end[2] != '\r')
  }

  ghost predicate StopsBody(w: string) {
    exists chunks, length, end :: AreWireChunks(chunks) && Stopper(length, end) && w == WireAll(chunks) + length + end
  }

  // ----- a chunked body -----

  lemma FatalStep(p: Progress, k: Config, c: char)
    requires Counts(p, k.parser.state, k.parser.remaining) && Step(k, c).outcome == Fatal
    ensures (k.parser.state == ChunkLength && c == ';') || (k.parser.state == ChunkTrailingHeaderLineStart && c != '\r')
  {
    hide StepRequestLine, StepStatusLine, StepHeaderSection, HexValue, LengthRead;
  }

  lemma StopperRead(p: Progress, k: Config, c: char) returns (end: string)
    requires Counts(p, k.parser.state, k.parser.remaining) && Step(k, c).outcome == Fatal
    ensures Stopper(p.length, end) && Unfinished(p, k.parser.state) + [c] == p.length + end
  {
    hide Step, LengthRead, AllHex;
    FatalStep(p, k, c);
    end := if k.parser.state == ChunkLength then ";" else "\r\n" + [c];
  }

  lemma AbortedBodyStops(k: Config, w: string)
    requires k.parser.state == ChunkLengthStart && Aborts(k, w)
    ensures StopsBody(w)
  {
    hide Step, Run, AreWireChunks, WireAll, Counts, Unfinished, Stopper;
    RunEnds(k, w);
    var before, c := w[..|w| - 1], w[|w| - 1];
    var p := BodySoFar(k, before);
    var mid := Run(k, before).config;
    var end := StopperRead(p, mid, c);
    assert w == before + [c] == WireAll(p.done) + (Unfinished(p, mid.parser.state) + [c]);
    assert w == WireAll(p.done) + p.length + end;
  }

  lemma SemicolonStops(k: Config)
    requires k.parser.state == ChunkLength
    ensures Step(k, ';').outcome == Fatal
  {
    hide StepRequestLine, StepStatusLine, StepHeaderSection, StepChunkData;
  }

  lemma TrailerStops(k: Config, c: char)
    requires k.parser.state == ChunkTrailingHeaderLineStart && c != '\r'
    ensures Step(k, c).outcome == Fatal
  {
    hide StepRequestLine, StepStatusLine, StepHeaderSection, StepChunkLine;
  }

  lemma StopsAtLast(k: Config, w: string, k': Config, c: char)
    requires Leads(k, w, k') && Step(k', c).outcome == Fatal
    ensures Aborts(k, w + [c])
  {
    hide Run, Step;
    RunLast(k, w, c);
  }

  lemma StopperAborts(k: Config, length: string, end: string)
    requires k.parser.state == ChunkLengthStart && Stopper(length, end)
    ensures Aborts(k, length + end)
  {
    hide Run, Step, Leads, Aborts, LengthRead, AllHex;
    var k1 := InState(k, ChunkLength, LengthRead(length), k.message.body);
    LengthRun(k, length);
    if end == ";" {
      SemicolonStops(k1);
      StopsAtLast(k, length, k1, ';');
    } else {
      var k2 := InState(k, ChunkTrailingHeaderLineStart, 0, k.message.body);
      LengthLineEnd(k1);
      LeadsJoin(k, length, k1, "\r\n", k2);
      TrailerStops(k2, end[2]);
      StopsAtLast(k, length + "\r\n", k2, end[2]);
      assert length + end == (length + "\r\n") + [end[2]];
    }
  }

  /** A chunked body stops the process on its last byte exactly when it is chunks followed by a
      length that something stops. */
  lemma BodyAbortsIff(k: Config, w: string)
    requires k.parser.state == ChunkLengthStart
    ensures Aborts(k, w) <==> StopsBody(w)
  {
    hide Run, Leads, WireAll, AreWireChunks, Stopper;
    if Aborts(k, w) {
      AbortedBodyStops(k, w);
    }
    if chunks, length, end :| AreWireChunks(chunks) && Stopper(length, end) && w == WireAll(chunks) + length + end {
      var k' := AfterChunks(k, chunks);
      ChunksRun(k, chunks);
      StopperAborts(k', length, end);
      LeadsThen(k, WireAll(chunks), k', length + end);
      assert w == WireAll(chunks) + (length + end);
    }
  }

  // ----- a whole message -----

  lemma OnlyBodiesAbort(k: Config, c: char)
    requires Part(k.parser.state) <= 1
    ensures Step(k, c).outcome != Fatal
  {
    hide StepChunkLine, StepChunkData, FramingOf, Inserted;
  }

  /** The header lines of a chunked message, and a body that stops the process. */
  ghost predicate StopsSection(w: string) {
    exists lines, body ::
      AreHeaderLines(lines) && SaysChunked(FieldsOf(lines)) && StopsBody(body) && w == HeaderText(lines) + body
  }

  /** After the header lines of a message with a body, the body decides. */
  lemma AfterHeaders(k: Config, lines: seq<HeaderLine>, body: string)
    requires k.parser.state == HeaderLineStart && k.message.headers == NO_HEADERS && IsSectionWithBody(lines)
    ensures Aborts(k, HeaderText(lines) + body) <==> SaysChunked(FieldsOf(lines)) && StopsBody(body)
  {
    hide Run, FramingOf, InsertAll, LinesText, AreHeaderLines, SaysChunked, StopsBody;
    var blank := BlankLineComes(k, lines, body);
    FramingOfGiven(FieldsOf(lines));
    if FramingOf(HeadersOf(lines)).Fixed? {
      FixedLengthFraming(blank, body);
    } else {
      var k' := InState(blank, ChunkLengthStart, blank.parser.remaining, "");
      BlankLineChunked(blank);
      LeadsThen(blank, "\n", k', body);
      BodyAbortsIff(k', body);
    }
  }

  lemma LeadsItself(k: Config, w: string)
    requires Run(k, w).outcome == Incomplete
    ensures Leads(k, w, Run(k, w).config)
  {
    hide Step;
  }

  /** A message can only stop the process in its body. */
  lemma AbortedInBody(k: Config, w: string) returns (before: string, c: char, mid: Config)
    requires Aborts(k, w)
    ensures w == before + [c] && Leads(k, before, mid) && Part(mid.parser.state) == 2
  {
    hide Run, Step, Part, Leads;
    RunEnds(k, w);
    before, c := w[..|w| - 1], w[|w| - 1];
    mid := Run(k, before).config;
    LeadsItself(k, before);
    PartBounds(mid.parser.state);
    if Part(mid.parser.state) <= 1 {
      OnlyBodiesAbort(mid, c);
    }
  }

  lemma SectionAbortsIff(k: Config, w: string)
    requires k.parser.state == HeaderLineStart && k.message.headers == NO_HEADERS
    ensures Aborts(k, w) <==> StopsSection(w)
  {
    hide Run, Part, Aborts, FramingOf, InsertAll, LinesText, AreHeaderLines, SaysChunked, StopsBody;
    if Aborts(k, w) {
      var before, c, mid := AbortedInBody(k, w);
      var lines, rest := SectionOf(k, before, mid);
      AfterHeaders(k, lines, rest + [c]);
      assert w == HeaderText(lines) + (rest + [c]);
    }
    if lines, body :| AreHeaderLines(lines) && SaysChunked(FieldsOf(lines)) && StopsBody(body)
                      && w == HeaderText(lines) + body {
      FramingOfGiven(FieldsOf(lines));
      AfterHeaders(k, lines, body);
    }
  }

  /** A run of a request that has got past the request line has begun with one. */
  lemma RequestLineOf(w: string, k: Config) returns (h: RequestHead, rest: string)
    requires Leads(REQUEST_PARSER, w, k) && Part(k.parser.state) > 0
    ensures IsRequestHead(h) && w == RequestHeadText(h) + rest
  {
    hide Step, Run, Leads, Part, RequestHeadText, IsToken, IsTarget, IsNumber, DecimalValue;
    FirstPart(REQUEST_PARSER.parser.state);
    var a, c;
    a, c, rest := LeavesPart(REQUEST_PARSER, w, k);
    var last := Run(REQUEST_PARSER, a).config;
    RequestKind(a, last);
    FirstPart(Step(last, c).config.parser.state);
    h := RequestLineIsHead(a, last, c);
  }

  /** The bytes on the last of which a request stops the process are exactly a request line,
      header lines that say "chunked", and chunks followed by a length with a semicolon, or
      by a zero length and something other than a blank line. */
  lemma RequestAbortsIff(w: string)
    ensures Aborts(REQUEST_PARSER, w)
       <==> exists h, section :: IsRequestHead(h) && StopsSection(section) && w == RequestHeadText(h) + section
  {
    hide Run, Part, RequestHeadText, IsRequestHead, StopsSection;
    if Aborts(REQUEST_PARSER, w) {
      var before, c, mid := AbortedInBody(REQUEST_PARSER, w);
      var h, rest := RequestLineOf(before, mid);
      var k := RequestHeadComes(h, rest + [c]);
      assert w == RequestHeadText(h) + (rest + [c]);
      SectionAbortsIff(k, rest + [c]);
    }
    if h, section :| IsRequestHead(h) && StopsSection(section) && w == RequestHeadText(h) + section {
      var k := RequestHeadComes(h, section);
      SectionAbortsIff(k, section);
    }
  }

  /** And of a response. */
  lemma ResponseAbortsIff(w: string)
    ensures Aborts(RESPONSE_PARSER, w)
       <==> exists h, section :: IsStatusHead(h) && StopsSection(section) && w == StatusHeadText(h) + section
  {
    hide Run, Part, StatusHeadText, IsStatusHead, StatusHeadMeaning, StopsSection;
    if Aborts(RESPONSE_PARSER, w) {
      var before, c, mid := AbortedInBody(RESPONSE_PARSER, w);
      var h, rest := StatusLineOf(before, mid);
      var k := StatusHeadComes(h, rest + [c]);
      assert w == StatusHeadText(h) + (rest + [c]);
      SectionAbortsIff(k, rest + [c]);
    }
    if h, section :| IsStatusHead(h) && StopsSection(section) && w == StatusHeadText(h) + section {
      var k := StatusHeadComes(h, section);
      SectionAbortsIff(k, section);
    }
  }
}
