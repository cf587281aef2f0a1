/** What the requests that the parser produces look like, and which of them survive
    being printed for the next server and parsed there. */
module ParsedRequests {
  import opened Bytes
  import opened Text
  import opened HeaderFields
  import opened FirstLines
  import opened HeaderLines
  import opened Messages
  import opened Parser
  import opened ParserRuns
  import opened Phases
  import opened RequestPrinter
  import opened RoundTrip

  /** Every name is a token, or empty for a folded line; no value has control characters. */
  ghost predicate SoundHeaders(h: HeaderData) {
    && Consistent(h)
    && (forall n | n in h.values :: IsToken(n))
    && (forall n, i | n in h.values && 0 <= i < |h.values[n]| :: NoCtl(h.values[n][i]))
  }

  /** What holds of a parser reading a request, whatever it has read. */
  ghost predicate Sound(k: Config) {
    var m, s := k.message, k.parser.state;
    && !IsStatusLine(s)
    && m.statusCode == 0 && m.statusMessage == ""
    && IsToken(m.requestMethod) && (s != MethodStart ==> m.requestMethod != "")
    && IsTarget(m.uri)
    && SoundHeaders(m.headers)
    && IsToken(k.parser.buffer) && NoCtl(k.parser.valueBuffer)
    && SoundBody(s, k.parser.remaining, m)
  }

  predicate SoundBody(s: ParserState, remaining: UInt64, m: Message) {
    if IsRequestLine(s) || IsStatusLine(s) || IsHeaderSection(s) then m.body == ""
    else if s == FixedLengthEntity then remaining > 0 && FramingOf(m.headers).Fixed?
                                        && FramingOf(m.headers).length == |m.body| + remaining
    else (IsChunkLine(s) || IsChunkData(s)) && FramingOf(m.headers) == Chunked
  }

  /** The body of a complete message is the one its own headers called for. */
  predicate BodyAsDeclared(m: Message) {
    match FramingOf(m.headers)
    case NoBody => m.body == ""
    case Fixed(n) => |m.body| == n
    case Chunked => true
    case BadLength => false
  }

  lemma SoundRequestLine(k: Config, c: char)
    requires Sound(k) && IsRequestLine(k.parser.state)
    ensures Step(k, c).outcome != Valid
    ensures Step(k, c).outcome == Incomplete ==> Sound(Step(k, c).config)
  {
    hide StepStatusLine, StepHeaderSection, StepChunkLine, StepChunkData, FramingOf, SoundHeaders;
  }

  lemma SoundInsert(h: HeaderData, name: string, value: string)
    requires SoundHeaders(h) && IsToken(name) && NoCtl(value)
    ensures SoundHeaders(Inserted(h, name, value))
  {
    hide Canonical, IsToken, NoCtl;
    InsertConsistent(h, name, value);
    CanonicalToken(name);
  }

  lemma SoundHeaderSection(k: Config, c: char)
    requires Sound(k) && IsHeaderSection(k.parser.state) && k.parser.state != Newline3
    ensures Step(k, c).outcome != Valid
    ensures Step(k, c).outcome == Incomplete ==> Sound(Step(k, c).config)
  {
    hide StepRequestLine, StepStatusLine, StepChunkLine, StepChunkData, FramingOf, SoundHeaders, IsTarget, Inserted;
    if k.parser.state == HeaderValue && c == '\r' {
      SoundInsert(k.message.headers, k.parser.buffer, k.parser.valueBuffer);
    }
  }

  lemma SoundBlankLine(k: Config, c: char)
    requires Sound(k) && k.parser.state == Newline3
    ensures Step(k, c).outcome == Valid ==>
              BodyAsDeclared(k.message) && Step(k, c).config.message == k.message
    ensures Step(k, c).outcome == Incomplete ==> Sound(Step(k, c).config)
  {
    hide StepRequestLine, StepStatusLine, StepChunkLine, StepChunkData, FramingFrom, Find, Spelling,
         SoundHeaders, IsTarget, IsToken, NoCtl;
  }

  lemma SoundEntity(k: Config, c: char)
    requires Sound(k) && PhaseOfState(k.parser.state) == ReceivedHeaders
    ensures Step(k, c).outcome == Valid ==> BodyAsDeclared(Step(k, c).config.message)
    ensures Step(k, c).outcome == Valid ==>
              Step(k, c).config.message == k.message.(body := Step(k, c).config.message.body)
    ensures Step(k, c).outcome == Incomplete ==> Sound(Step(k, c).config)
  {
    hide StepRequestLine, StepStatusLine, StepHeaderSection, FramingOf, SoundHeaders, IsTarget, IsToken, NoCtl, ShiftIn;
  }

  lemma SoundStart()
    ensures Sound(REQUEST_PARSER)
  {}

  /** What holds of a request that has been parsed to its end. */
  ghost predicate SoundRequest(m: Message) {
    && m.statusCode == 0 && m.statusMessage == ""
    && m.requestMethod != "" && IsToken(m.requestMethod) && IsTarget(m.uri)
    && SoundHeaders(m.headers) && BodyAsDeclared(m)
  }

  lemma SoundStep(k: Config, c: char)
    requires Sound(k)
    ensures Step(k, c).outcome == Incomplete ==> Sound(Step(k, c).config)
    ensures Step(k, c).outcome == Valid ==> SoundRequest(Step(k, c).config.message)
  {
    hide Step, IsTarget, IsToken, NoCtl, SoundHeaders, BodyAsDeclared, FramingOf;
    if IsRequestLine(k.parser.state) {
      SoundRequestLine(k, c);
    } else if k.parser.state == Newline3 {
      SoundBlankLine(k, c);
    } else if IsHeaderSection(k.parser.state) {
      SoundHeaderSection(k, c);
    } else {
      SoundEntity(k, c);
    }
  }

  lemma {:induction false} SoundRun(k: Config, input: string)
    requires Sound(k)
    ensures Run(k, input).outcome == Incomplete ==> Sound(Run(k, input).config)
    ensures Run(k, input).outcome == Valid ==> SoundRequest(Run(k, input).config.message)
    decreases |input|
  {
    hide Step, Sound, SoundRequest;
    if input != "" {
      SoundStep(k, input[0]);
      if Step(k, input[0]).outcome == Incomplete {
        SoundRun(Step(k, input[0]).config, input[1..]);
      }
    }
  }

  /** Every request that is parsed has the body its headers declare, and can be printed
      again exactly when its body is 7-bit and no folded header line left a value under
      the empty name. */
  lemma ParsedRequestIsPrintable(w: string)
    requires Run(REQUEST_PARSER, w).outcome == Valid
    ensures var m := Run(REQUEST_PARSER, w).config.message;
            && BodyAsDeclared(m)
            && (Printable(m) <==> SevenBit(m.body) && "" !in m.headers.values)
  {
    hide Run, Sound, IsTarget, IsToken, NoCtl, BodyAsDeclared, Canonical;
    SoundStart();
    SoundRun(REQUEST_PARSER, w);
  }

  // ----- a name that is empty -----

  lemma {:induction false} PrintedBeginsWith(h: HeaderData, names: seq<string>, n: nat) returns (rest: string)
    requires n <= |names|
    ensures Lines(PrintedFields(h, names)) == Lines(PrintedFields(h, names[..n])) + rest
    decreases |names|
  {
    hide Lines, PrintedFields, Join, Find;
    if n == |names| {
      assert names[..n] == names;
      rest := "";
    } else {
      var init, last := names[..|names| - 1], names[|names| - 1];
      var rest' := PrintedBeginsWith(h, init, n);
      PrintOneMore(h, names, |init|);
      assert names[..|init| + 1] == names && init[..n] == names[..n];
      rest := rest' + (last + ": " + Join(Find(h, last)) + "\r\n");
      assert Lines(PrintedFields(h, names))
          == Lines(PrintedFields(h, init)) + (last + ": " + Join(Find(h, last)) + "\r\n");
    }
  }

  lemma ColonStops(k: Config, rest: string)
    requires k.parser.state == HeaderLineStart
    ensures Run(k, ":" + rest).outcome == Invalid
  {
    hide StepRequestLine, StepStatusLine, StepChunkLine, StepChunkData;
    assert (":" + rest)[0] == ':';
  }

  /** The text up to the line of an empty name, and from its colon on. */
  lemma EmptyNameText(m: Message, i: nat) returns (tail: string)
    requires i < |m.headers.order| && m.headers.order[i] == ""
    ensures Formatted(m)
         == RequestLine(m) + Lines(PrintedFields(m.headers, m.headers.order[..i])) + (":" + tail)
  {
    hide RequestLine, Lines, PrintedFields, Join, Find;
    var h := m.headers;
    PrintOneMore(h, h.order, i);
    var rest := PrintedBeginsWith(h, h.order, i + 1);
    var value := Join(Find(h, ""));
    tail := " " + value + "\r\n" + rest + "\r\n" + m.body;
    var before := Lines(PrintedFields(h, h.order[..i]));
    assert before + "" + ": " + value + "\r\n" + rest == before + (":" + (" " + value + "\r\n" + rest));
  }

  /** The parser at the start of that line. */
  lemma BeforeEmptyName(m: Message, names: seq<string>) returns (k: Config)
    requires SoundRequest(m) && forall n | n in names :: n != "" && n in m.headers.values
    ensures k.parser.state == HeaderLineStart
    ensures Leads(REQUEST_PARSER, RequestLine(m) + Lines(PrintedFields(m.headers, names)), k)
  {
    hide Run, Leads, RequestLine, Lines, PrintedFields, IsToken, IsTarget, NoCtl, BodyAsDeclared, Canonical;
    var start, fields := WithLine(REQUEST_PARSER, HeaderLineStart, LinePart(m)), PrintedFields(m.headers, names);
    assert forall j | 0 <= j < |names| :: names[j] in names;
    RequestLineRun(m);
    PrintedAreFields(m.headers, names);
    FieldsRun(start, fields);
    k := AfterFields(start, fields);
    LeadsJoin(REQUEST_PARSER, RequestLine(m), start, Lines(fields), k);
  }

  /** A value under the empty name prints as a line that begins with the colon, and the
      parser stops there. */
  lemma FoldedNotRecovered(m: Message)
    requires SoundRequest(m) && "" in m.headers.values
    ensures Run(REQUEST_PARSER, Formatted(m)).outcome == Invalid
    ensures !Recovers(m) && !RecoversExactly(m)
  {
    hide Run, Leads, RequestLine, Lines, PrintedFields, Formatted, IsToken, IsTarget, BodyAsDeclared;
    var i :| 0 <= i < |m.headers.order| && m.headers.order[i] == "";
    var names := m.headers.order[..i];
    assert forall n | n in names :: n in m.headers.order;
    var k := BeforeEmptyName(m, names);
    var tail := EmptyNameText(m, i);
    ColonStops(k, tail);
    LeadsThen(REQUEST_PARSER, RequestLine(m) + Lines(PrintedFields(m.headers, names)), k, ":" + tail);
  }

  /** Forwarding: take any bytes that parse as a request with a 7-bit body, and print the
      request. The text parses, to its last byte, as that request with repeated headers
      joined, newest first, if and only if the original was not chunked, had no folded
      line that left a value under the empty name, and gave its length at most once; and
      as exactly that request if and only if, besides, it repeated no name at all. */
  lemma ForwardedRequestIff(w: string)
    requires Run(REQUEST_PARSER, w).outcome == Valid && SevenBit(Run(REQUEST_PARSER, w).config.message.body)
    ensures var m := Run(REQUEST_PARSER, w).config.message;
            Recovers(m) <==> && !FramingOf(m.headers).Chunked?
                             && "" !in m.headers.values
                             && |Find(m.headers, Spelling(ContentLength))| <= 1
    ensures var m := Run(REQUEST_PARSER, w).config.message;
            RecoversExactly(m) <==> && !FramingOf(m.headers).Chunked?
                                    && "" !in m.headers.values
                                    && OneValueEach(m.headers)
  {
    hide Run, FramingOf, Normalised, Recovers, RecoversExactly, OneValueEach, SoundHeaders, IsToken, IsTarget, Find;
    var m := Run(REQUEST_PARSER, w).config.message;
    ParsedRequestIsPrintable(w);
    SoundStart();
    SoundRun(REQUEST_PARSER, w);
    if "" in m.headers.values {
      FoldedNotRecovered(m);
    } else {
      RoundTripIff(m);
      ExactRoundTripIff(m);
      FramingNormalised(m.headers);
      OneLength(m.headers);
    }
  }

  lemma OneLength(h: HeaderData)
    ensures OneValueEach(h) ==> |Find(h, Spelling(ContentLength))| <= 1
  {
    hide Canonical;
  }
}
