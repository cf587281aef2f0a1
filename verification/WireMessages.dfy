/** Whole messages, requests and responses, with any body the parser can frame: exactly
    which texts the parser takes for a complete message, and what it makes of them. */
module WireMessages {
  import opened Bytes
  import opened HeaderFields
  import opened HeaderLines
  import opened HeaderSections
  import opened FirstLines
  import opened Messages
  import opened Parser
  import opened ParserRuns
  import opened Phases
  import opened FixedBodies
  import opened ChunkedBodies

  /** The parser completes on the last byte of `w`. */
  predicate Completes(k: Config, w: string) {
    Run(k, w).outcome == Valid && Run(k, w).consumed == |w|
  }

  // ----- the header section and the body -----

  /** A body as it is sent. */
  datatype WireBody = Plain(data: string) | InChunks(chunks: seq<WireChunk>, last: string)

  /** The framing that the headers call for is the framing of the body. */
  predicate Frames(framing: Framing, b: WireBody) {
    match framing
    case NoBody => b == Plain("")
    case Fixed(n) => b.Plain? && |b.data| == n
    case Chunked => b.InChunks? && AreWireChunks(b.chunks) && IsLastLength(b.last)
    case BadLength => false
  }

  function BodyText(b: WireBody): string {
    match b
    case Plain(data) => data
    case InChunks(chunks, last) => Encoding(chunks, last)
  }

  function BodyData(b: WireBody): string {
    match b
    case Plain(data) => data
    case InChunks(chunks, _) => Payload(chunks)
  }

  lemma BodyRun(k: Config, b: WireBody, rest: string)
    requires k.parser.state == Newline3 && k.message.body == "" && Frames(FramingOf(k.message.headers), b)
    ensures var r := Run(k, "\n" + BodyText(b) + rest);
            && r.outcome == Valid && r.consumed == 1 + |BodyText(b)|
            && r.config.message == k.message.(body := BodyData(b))
  {
    hide Step, Run, FramingOf, Encoding, Payload, AreWireChunks, IsLastLength;
    var w := BodyText(b) + rest;
    assert "\n" + BodyText(b) + rest == "\n" + w;
    match FramingOf(k.message.headers) {
      case NoBody => BlankLineStops(k, w);
      case Fixed(n) =>
        FixedLengthFraming(k, w);
        assert w[..n] == b.data;
      case Chunked =>
        var k' := InState(k, ChunkLengthStart, k.parser.remaining, "");
        BlankLineChunked(k);
        LeadsThen(k, "\n", k', w);
        EncodingRun(k', b.chunks, b.last, rest);
        assert "" + Payload(b.chunks) == Payload(b.chunks);
      case BadLength =>
    }
  }

  /** What follows the first line. */
  function SectionText(lines: seq<HeaderLine>, b: WireBody): string {
    LinesText(lines) + "\r\n" + BodyText(b)
  }

  predicate IsSection(lines: seq<HeaderLine>, b: WireBody) {
    AreHeaderLines(lines) && Frames(FramingOf(HeadersOf(lines)), b)
  }

  lemma LinesThenBlank(k: Config, lines: seq<HeaderLine>)
    requires k.parser.state == HeaderLineStart && k.message.headers == NO_HEADERS && AreHeaderLines(lines)
    ensures var k' := AfterLines(k, lines);
            Leads(k, LinesText(lines) + "\r", k'.(parser := k'.parser.(state := Newline3)))
    ensures AfterLines(k, lines).message == k.message.(headers := HeadersOf(lines))
  {
    hide Step, Run, Leads, AreHeaderLines, LinesText, HeadersOf;
    var k' := AfterLines(k, lines);
    LinesRun(k, lines);
    BlankLineBegins(k');
    LeadsJoin(k, LinesText(lines), k', "\r", InLine(k', Newline3, k'.parser.buffer, k'.parser.valueBuffer));
    NoHeadersOf();
  }

  /** Complete: a header section and the body it calls for are consumed exactly, whatever
      follows them. */
  lemma SectionRun(k: Config, lines: seq<HeaderLine>, b: WireBody, rest: string)
    requires k.parser.state == HeaderLineStart && k.message.headers == NO_HEADERS && k.message.body == ""
    requires IsSection(lines, b)
    ensures var r := Run(k, SectionText(lines, b) + rest);
            && r.outcome == Valid && r.consumed == |SectionText(lines, b)|
            && r.config.message == k.message.(headers := HeadersOf(lines), body := BodyData(b))
  {
    hide Step, Run, Leads, FramingOf, LinesText, AreHeaderLines, HeadersOf, Frames, BodyText, BodyData, AfterLines;
    var k1 := AfterLines(k, lines).(parser := AfterLines(k, lines).parser.(state := Newline3));
    LinesThenBlank(k, lines);
    BodyRun(k1, b, rest);
    LeadsThen(k, LinesText(lines) + "\r", k1, "\n" + BodyText(b) + rest);
    assert SectionText(lines, b) + rest == (LinesText(lines) + "\r") + ("\n" + BodyText(b) + rest);
  }

  lemma HeadersComplete(k: Config, c: char)
    requires Part(k.parser.state) <= 1 && Step(k, c).outcome == Valid
    ensures k.parser.state == Newline3 && c == '\n' && FramingOf(k.message.headers).NoBody?
  {
    hide StepChunkLine, StepChunkData, FramingOf;
  }

  lemma BodyBegins(k: Config)
    requires k.parser.state == Newline3 && Step(k, '\n').outcome == Incomplete
    ensures match FramingOf(k.message.headers)
            case Chunked => Step(k, '\n').config == InState(k, ChunkLengthStart, k.parser.remaining, "")
            case Fixed(n) => Step(k, '\n').config == InState(k, FixedLengthEntity, n, "")
            case _ => false
  {
    hide StepRequestLine, StepStatusLine, FramingOf;
  }

  /** What completes a message after the line feed of its blank line is its body. */
  lemma BodyIsFramed(k: Config, w: string) returns (b: WireBody)
    requires k.parser.state == Newline3 && Step(k, '\n').outcome == Incomplete
    requires Completes(Step(k, '\n').config, w)
    ensures Frames(FramingOf(k.message.headers), b) && w == BodyText(b)
  {
    hide Run, Step, FramingOf, AreWireChunks, IsLastLength, Encoding;
    BodyBegins(k);
    var k' := Step(k, '\n').config;
    match FramingOf(k.message.headers) {
      case Chunked =>
        var chunks, last := AcceptedIsEncoding(k', w);
        assert w[..|w|] == w;
        b := InChunks(chunks, last);
      case Fixed(n) =>
        FixedRun(k', w);
        assert w[..|w|] == w;
        b := Plain(w);
    }
  }

  /** The rest of a run after the bytes that lead to `k'`. */
  lemma CompletesAfter(k: Config, a: string, k': Config, b: string)
    requires Leads(k, a, k') && Completes(k, a + b)
    ensures Completes(k', b)
  {
    hide Run;
    LeadsThen(k, a, k', b);
  }

  /** Sound: what completes a message from its first header line on is a header section
      and the body it calls for. */
  lemma SectionIs(k: Config, w: string) returns (lines: seq<HeaderLine>, b: WireBody)
    requires k.parser.state == HeaderLineStart && k.message.headers == NO_HEADERS && k.message.body == ""
    requires Completes(k, w)
    ensures IsSection(lines, b) && w == SectionText(lines, b)
  {
    hide Run, Step, Leads, FramingOf, LinesText, AreHeaderLines, HeadersOf, Frames, BodyText, AfterLines, Part;
    var before, c := EndOf(k, w);
    var last := Run(k, before).config;
    PartsGrow(k, before, last);
    PartIsHeaders(k.parser.state);
    PartBounds(last.parser.state);
    if Part(last.parser.state) == 1 {
      HeadersComplete(last, c);
      lines := SectionIsLines(k, before, last);
      LinesThenBlank(k, lines);
      b := Plain("");
      assert Frames(FramingOf(HeadersOf(lines)), b) && BodyText(b) == "" by { NothingFramed(HeadersOf(lines)); }
      assert w == LinesText(lines) + "\r" + "\n" + "";
    } else {
      var a, d, rest := LeavesPart(k, before, last);
      var blank := Run(k, a).config;
      HeadersGoOn(blank, d);
      lines := SectionIsLines(k, a, blank);
      LinesThenBlank(k, lines);
      LeadsOne(blank, d);
      LeadsJoin(k, a, blank, [d], Step(blank, d).config);
      assert w == (a + [d]) + (rest + [c]);
      CompletesAfter(k, a + [d], Step(blank, d).config, rest + [c]);
      b := BodyIsFramed(blank, rest + [c]);
      assert w == LinesText(lines) + "\r" + "\n" + BodyText(b);
    }
  }

  lemma NothingFramed(h: HeaderData)
    ensures BodyText(Plain("")) == ""
    ensures FramingOf(h).NoBody? ==> Frames(FramingOf(h), Plain(""))
  {
    hide FramingOf;
  }

  /** The last byte of a completed message. */
  lemma EndOf(k: Config, w: string) returns (before: string, c: char)
    requires Completes(k, w)
    ensures w == before + [c] && Leads(k, before, Run(k, before).config)
    ensures Step(Run(k, before).config, c).outcome == Valid
  {
    hide Step;
    RunEnds(k, w);
    before, c := w[..|w| - 1], w[|w| - 1];
  }

  // ----- whole messages -----

  datatype WireRequest = WireRequest(head: RequestHead, lines: seq<HeaderLine>, body: WireBody)

  predicate IsWireRequest(r: WireRequest) {
    IsRequestHead(r.head) && IsSection(r.lines, r.body)
  }

  function RequestText(r: WireRequest): string {
    RequestHeadText(r.head) + SectionText(r.lines, r.body)
  }

  function RequestMeaning(r: WireRequest): Message
    requires IsWireRequest(r)
  {
    RequestHeadMeaning(r.head).(headers := HeadersOf(r.lines), body := BodyData(r.body))
  }

  datatype WireResponse = WireResponse(head: StatusHead, lines: seq<HeaderLine>, body: WireBody)

  predicate IsWireResponse(r: WireResponse) {
    IsStatusHead(r.head) && IsSection(r.lines, r.body)
  }

  function ResponseText(r: WireResponse): string {
    StatusHeadText(r.head) + SectionText(r.lines, r.body)
  }

  function ResponseMeaning(r: WireResponse): Message
    requires IsWireResponse(r)
  {
    StatusHeadMeaning(r.head).(headers := HeadersOf(r.lines), body := BodyData(r.body))
  }

  /** Every request is complete on its last byte and read as what it says, whatever
      follows it. */
  lemma RequestRun(r: WireRequest, rest: string)
    requires IsWireRequest(r)
    ensures var run := Run(REQUEST_PARSER, RequestText(r) + rest);
            run.outcome == Valid && run.consumed == |RequestText(r)| && run.config.message == RequestMeaning(r)
  {
    hide Step, Run, Leads, RequestHeadText, IsRequestHead, SectionText, IsSection, HeadersOf, BodyData;
    var k := WithLine(REQUEST_PARSER, HeaderLineStart, RequestHeadMeaning(r.head));
    RequestHeadRun(r.head);
    SectionRun(k, r.lines, r.body, rest);
    LeadsThen(REQUEST_PARSER, RequestHeadText(r.head), k, SectionText(r.lines, r.body) + rest);
    assert RequestText(r) + rest == RequestHeadText(r.head) + (SectionText(r.lines, r.body) + rest);
  }

  lemma ResponseRun(r: WireResponse, rest: string)
    requires IsWireResponse(r)
    ensures var run := Run(RESPONSE_PARSER, ResponseText(r) + rest);
            run.outcome == Valid && run.consumed == |ResponseText(r)| && run.config.message == ResponseMeaning(r)
  {
    hide Step, Run, Leads, StatusHeadText, IsPhrase, IsNumber, SectionText, IsSection, HeadersOf, BodyData;
    var k := Reading(HeaderLineStart, r.head.phrase, StatusHeadMeaning(r.head));
    StatusHeadRun(r.head);
    SectionRun(k, r.lines, r.body, rest);
    LeadsThen(RESPONSE_PARSER, StatusHeadText(r.head), k, SectionText(r.lines, r.body) + rest);
    assert ResponseText(r) + rest == StatusHeadText(r.head) + (SectionText(r.lines, r.body) + rest);
  }

  lemma {:induction false} RequestKind(w: string, k: Config)
    requires Leads(REQUEST_PARSER, w, k) && Part(k.parser.state) == 0
    ensures IsRequestLine(k.parser.state)
    decreases |w|
  {
    hide Step, Run, Leads, Part;
    if w == "" {
      NothingLeads(REQUEST_PARSER, k);
    } else {
      var init, c := w[..|w| - 1], w[|w| - 1];
      assert w == init + [c];
      LeadsLast(REQUEST_PARSER, init, c, k);
      var before := Run(REQUEST_PARSER, init).config;
      PartGrows(before, c);
      PartBounds(before.parser.state);
      RequestKind(init, before);
      KindStays(before, c);
      FirstPart(k.parser.state);
    }
  }

  lemma {:induction false} ResponseKind(w: string, k: Config)
    requires Leads(RESPONSE_PARSER, w, k) && Part(k.parser.state) == 0
    ensures IsStatusLine(k.parser.state)
    decreases |w|
  {
    hide Step, Run, Leads, Part;
    if w == "" {
      NothingLeads(RESPONSE_PARSER, k);
    } else {
      var init, c := w[..|w| - 1], w[|w| - 1];
      assert w == init + [c];
      LeadsLast(RESPONSE_PARSER, init, c, k);
      var before := Run(RESPONSE_PARSER, init).config;
      PartGrows(before, c);
      PartBounds(before.parser.state);
      ResponseKind(init, before);
      KindStays(before, c);
      FirstPart(k.parser.state);
    }
  }

  /** A completed message divides up into its first line and the rest. */
  lemma FirstLineOf(k: Config, w: string) returns (a: string, c: char, rest: string)
    requires Part(k.parser.state) == 0 && Completes(k, w)
    ensures w == a + [c] + rest
    ensures var last := Run(k, a).config;
            && Leads(k, a, last) && Part(last.parser.state) == 0
            && Step(last, c).outcome == Incomplete && Part(Step(last, c).config.parser.state) > 0
            && Completes(Step(last, c).config, rest)
  {
    hide Step, Run, Leads, Completes;
    var before, d := EndOf(k, w);
    var end := Run(k, before).config;
    if Part(end.parser.state) == 0 {
      HeadersComplete(end, d);
    }
    var b;
    a, c, b := LeavesPart(k, before, end);
    var last := Run(k, a).config;
    LeadsOne(last, c);
    LeadsJoin(k, a, last, [c], Step(last, c).config);
    rest := b + [d];
    assert w == (a + [c]) + rest;
    CompletesAfter(k, a + [c], Step(last, c).config, rest);
  }

  lemma CompletedRequestIs(w: string) returns (r: WireRequest)
    requires Completes(REQUEST_PARSER, w)
    ensures IsWireRequest(r) && w == RequestText(r)
  {
    hide Step, Run, Leads, Completes, Part, RequestHeadText, IsSection, SectionText, IsNumber, IsToken, IsTarget,
         DecimalValue;
    FirstPart(REQUEST_PARSER.parser.state);
    var a, c, rest := FirstLineOf(REQUEST_PARSER, w);
    var last := Run(REQUEST_PARSER, a).config;
    RequestKind(a, last);
    FirstPart(Step(last, c).config.parser.state);
    var head := RequestLineIsHead(a, last, c);
    var lines, body := SectionIs(Step(last, c).config, rest);
    r := WireRequest(head, lines, body);
  }

  lemma CompletedResponseIs(w: string) returns (r: WireResponse)
    requires Completes(RESPONSE_PARSER, w)
    ensures IsWireResponse(r) && w == ResponseText(r)
  {
    hide Step, Run, Leads, Completes, Part, StatusHeadText, IsSection, SectionText, IsNumber, IsPhrase, DecimalValue;
    FirstPart(RESPONSE_PARSER.parser.state);
    var a, c, rest := FirstLineOf(RESPONSE_PARSER, w);
    var last := Run(RESPONSE_PARSER, a).config;
    ResponseKind(a, last);
    FirstPart(Step(last, c).config.parser.state);
    var head := StatusLineIsHead(a, last, c);
    var lines, body := SectionIs(Step(last, c).config, rest);
    r := WireResponse(head, lines, body);
  }

  /** The texts that the parser takes for a request, complete on the last byte, are
      exactly the requests of the grammar. */
  lemma CompletesIffRequest(w: string)
    ensures Completes(REQUEST_PARSER, w) <==> exists r :: IsWireRequest(r) && w == RequestText(r)
  {
    hide Run, RequestText, IsWireRequest;
    if Completes(REQUEST_PARSER, w) {
      var r := CompletedRequestIs(w);
      assert IsWireRequest(r) && w == RequestText(r);
    }
    forall r | IsWireRequest(r) && w == RequestText(r) ensures Completes(REQUEST_PARSER, w) {
      RequestRun(r, "");
      assert w + "" == w;
    }
  }

  lemma CompletesIffResponse(w: string)
    ensures Completes(RESPONSE_PARSER, w) <==> exists r :: IsWireResponse(r) && w == ResponseText(r)
  {
    hide Run, ResponseText, IsWireResponse;
    if Completes(RESPONSE_PARSER, w) {
      var r := CompletedResponseIs(w);
      assert IsWireResponse(r) && w == ResponseText(r);
    }
    forall r | IsWireResponse(r) && w == ResponseText(r) ensures Completes(RESPONSE_PARSER, w) {
      ResponseRun(r, "");
      assert w + "" == w;
    }
  }

  // ----- what is read of a status line, and where a response pauses -----

  /** A run of a response that has got past the status line has begun with one. */
  lemma StatusLineOf(w: string, k: Config) returns (h: StatusHead, rest: string)
    requires Leads(RESPONSE_PARSER, w, k) && Part(k.parser.state) > 0
    ensures IsStatusHead(h) && w == StatusHeadText(h) + rest
    ensures Leads(Reading(HeaderLineStart, h.phrase, StatusHeadMeaning(h)), rest, k)
  {
    hide Step, Run, Leads, Part, StatusHeadText, IsNumber, IsPhrase, DecimalValue;
    FirstPart(RESPONSE_PARSER.parser.state);
    var a, c;
    a, c, rest := LeavesPart(RESPONSE_PARSER, w, k);
    var last := Run(RESPONSE_PARSER, a).config;
    ResponseKind(a, last);
    FirstPart(Step(last, c).config.parser.state);
    h := StatusLineIsHead(a, last, c);
  }

  /** A status line is read as what it says if and only if its reason phrase is not empty,
      is 7-bit and has no carriage return after its first character. */
  lemma StatusPhraseIff(h: StatusHead)
    requires IsNumber(h.major) && IsNumber(h.minor) && IsNumber(h.code)
    ensures Leads(RESPONSE_PARSER, StatusHeadText(h), Reading(HeaderLineStart, h.phrase, StatusHeadMeaning(h)))
       <==> IsPhrase(h.phrase)
  {
    hide Step, Run, Leads, Part, StatusHeadText, IsNumber, IsPhrase, DecimalValue, LinesExplain;
    var w, k := StatusHeadText(h), Reading(HeaderLineStart, h.phrase, StatusHeadMeaning(h));
    if IsPhrase(h.phrase) {
      StatusHeadRun(h);
    }
    if Leads(RESPONSE_PARSER, w, k) {
      PartIsHeaders(k.parser.state);
      var h', rest := StatusLineOf(w, k);
      var k' := Reading(HeaderLineStart, h'.phrase, StatusHeadMeaning(h'));
      var p := SectionSoFar(k', rest, k);
      NothingInserted(k', p, k, rest);
      NothingLeads(k', k);
    }
  }

  lemma NothingInserted(from: Config, p: LineProgress, k: Config, w: string)
    requires LinesExplain(from, p, k, w)
    requires k.parser.state == HeaderLineStart && k.message.headers == NO_HEADERS
    ensures w == ""
  {
    hide HeadersOf;
    HeadersBegin(p.done);
    assert LinesText([]) == "";
  }

  /** While a response is incomplete its status line has been received, and the parse has
      paused there, exactly when the bytes begin with a status line. */
  lemma StatusLinePauseIff(w: string)
    requires Run(RESPONSE_PARSER, w).outcome == Incomplete
    ensures PhasesOf(RESPONSE_PARSER, Start, w).final != Start
       <==> exists h :: IsStatusHead(h) && StatusHeadText(h) <= w
  {
    hide Step, Run, Part, PhasesOf, StatusHeadText, IsStatusHead;
    var k := Run(RESPONSE_PARSER, w).config;
    PhaseTracksState(RESPONSE_PARSER, w);
    PhaseIsPart(RESPONSE_PARSER.parser.state);
    PhaseIsPart(k.parser.state);
    if Part(k.parser.state) > 0 {
      var h, rest := StatusLineOf(w, k);
      assert IsStatusHead(h) && StatusHeadText(h) <= w;
    }
    if h :| IsStatusHead(h) && StatusHeadText(h) <= w {
      var text := StatusHeadText(h);
      AfterStatusLine(h, w[|text|..], k);
      assert w == text + w[|text|..];
    }
  }

  lemma AfterStatusLine(h: StatusHead, rest: string, k: Config)
    requires IsStatusHead(h)
    ensures Leads(RESPONSE_PARSER, StatusHeadText(h) + rest, k) ==>
              Leads(Reading(HeaderLineStart, h.phrase, StatusHeadMeaning(h)), rest, k) && Part(k.parser.state) > 0
  {
    hide Step, Run, Leads, Part, StatusHeadText, IsNumber, IsPhrase, DecimalValue;
    var k' := Reading(HeaderLineStart, h.phrase, StatusHeadMeaning(h));
    StatusHeadRun(h);
    if Leads(RESPONSE_PARSER, StatusHeadText(h) + rest, k) {
      LeadsRest(RESPONSE_PARSER, StatusHeadText(h), k', rest, k);
      PartsGrow(k', rest, k);
      PartIsHeaders(k'.parser.state);
    }
  }

  lemma LeadsRest(k: Config, a: string, k': Config, b: string, k'': Config)
    requires Leads(k, a, k') && Leads(k, a + b, k'')
    ensures Leads(k', b, k'')
  {
    hide Run;
    LeadsThen(k, a, k', b);
  }

  lemma PhaseIsPart(s: ParserState)
    ensures PhaseOfState(s) == Start <==> Part(s) == 0
    ensures PhaseOfState(s) == ReceivedHeaders <==> Part(s) == 2
  {}

  /** A header section that calls for a body, up to the line feed of its blank line. */
  predicate IsSectionWithBody(lines: seq<HeaderLine>) {
    AreHeaderLines(lines) && (FramingOf(HeadersOf(lines)).Chunked? || FramingOf(HeadersOf(lines)).Fixed?)
  }

  function ResponseHeadText(h: StatusHead, lines: seq<HeaderLine>): string {
    StatusHeadText(h) + (LinesText(lines) + "\r\n")
  }

  /** While a response is incomplete its headers have been received, and the parse has
      paused there, exactly when the bytes begin with a status line and a header section
      that calls for a body. */
  lemma HeadersPauseIff(w: string)
    requires Run(RESPONSE_PARSER, w).outcome == Incomplete
    ensures PhasesOf(RESPONSE_PARSER, Start, w).final == ReceivedHeaders
       <==> exists h, lines :: IsStatusHead(h) && IsSectionWithBody(lines) && ResponseHeadText(h, lines) <= w
  {
    hide Step, Run, Part, PhasesOf, StatusHeadText, IsNumber, IsPhrase, DecimalValue, IsSectionWithBody, LinesText;
    var k := Run(RESPONSE_PARSER, w).config;
    PhaseTracksState(RESPONSE_PARSER, w);
    PhaseIsPart(RESPONSE_PARSER.parser.state);
    PhaseIsPart(k.parser.state);
    if Part(k.parser.state) == 2 {
      var h, rest := StatusLineOf(w, k);
      var k' := Reading(HeaderLineStart, h.phrase, StatusHeadMeaning(h));
      var lines, body := SectionOf(k', rest, k);
      assert ResponseHeadText(h, lines) <= w;
    }
    if h, lines :| IsStatusHead(h) && IsSectionWithBody(lines) && ResponseHeadText(h, lines) <= w {
      var head, section := StatusHeadText(h), LinesText(lines) + "\r\n";
      var rest := w[|head + section|..];
      assert w == head + (section + rest);
      AfterStatusLine(h, section + rest, k);
      AfterSection(Reading(HeaderLineStart, h.phrase, StatusHeadMeaning(h)), lines, rest, k);
    }
  }

  /** A run that has got past the header section has begun with one that calls for a body. */
  lemma SectionOf(from: Config, w: string, k: Config) returns (lines: seq<HeaderLine>, rest: string)
    requires from.parser.state == HeaderLineStart && from.message.headers == NO_HEADERS
    requires Leads(from, w, k) && Part(k.parser.state) == 2
    ensures IsSectionWithBody(lines) && w == LinesText(lines) + "\r\n" + rest
  {
    hide Step, Run, Leads, Part, FramingOf, LinesText, AreHeaderLines, HeadersOf, AfterLines;
    PartIsHeaders(from.parser.state);
    var a, c;
    a, c, rest := LeavesPart(from, w, k);
    var blank := Run(from, a).config;
    PartIsHeaders(blank.parser.state);
    HeadersGoOn(blank, c);
    lines := SectionIsLines(from, a, blank);
    LinesThenBlank(from, lines);
    BodyBegins(blank);
  }

  lemma AfterSection(from: Config, lines: seq<HeaderLine>, rest: string, k: Config)
    requires from.parser.state == HeaderLineStart && from.message.headers == NO_HEADERS
    requires IsSectionWithBody(lines) && Leads(from, LinesText(lines) + "\r\n" + rest, k)
    ensures Part(k.parser.state) == 2
  {
    hide Step, Run, Leads, Part, FramingOf, LinesText, AreHeaderLines, HeadersOf, AfterLines;
    var blank := AfterLines(from, lines).(parser := AfterLines(from, lines).parser.(state := Newline3));
    LinesThenBlank(from, lines);
    var k' := BlankLineGoesOn(blank);
    LeadsJoin(from, LinesText(lines) + "\r", blank, "\n", k');
    assert LinesText(lines) + "\r" + "\n" == LinesText(lines) + "\r\n";
    LeadsRest(from, LinesText(lines) + "\r\n", k', rest, k);
    PartsGrow(k', rest, k);
    PartBounds(k.parser.state);
  }

  lemma BlankLineGoesOn(k: Config) returns (k': Config)
    requires k.parser.state == Newline3
    requires FramingOf(k.message.headers).Chunked? || FramingOf(k.message.headers).Fixed?
    ensures Leads(k, "\n", k') && Part(k'.parser.state) == 2
  {
    hide Leads, FramingOf;
    match FramingOf(k.message.headers) {
      case Chunked =>
        BlankLineChunked(k);
        k' := InState(k, ChunkLengthStart, k.parser.remaining, "");
      case Fixed(_) =>
        k' := BlankLineFixed(k);
    }
  }
}
