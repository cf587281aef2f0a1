/** Printing a request and parsing the text again. */
module RoundTrip {
  import opened Bytes
  import opened Text
  import opened HeaderFields
  import opened FirstLines
  import opened HeaderLines
  import opened Messages
  import opened Parser
  import opened ParserRuns
  import opened FixedBodies
  import opened ChunkedBodies
  import opened RequestPrinter

  /** A request that can be written down: a method that is a token, a target without
      blanks or control characters, header names and values that are fields, and a
      body of 7-bit characters, which a text stream writes as they are. */
  ghost predicate Printable(m: Message) {
    && m.requestMethod != "" && IsToken(m.requestMethod)
    && IsTarget(m.uri)
    && SevenBit(m.body)
    && Consistent(m.headers)
    && (forall n | n in m.headers.values :: n != "" && IsToken(n))
    && (forall n, i | n in m.headers.values && 0 <= i < |m.headers.values[n]| :: NoCtl(m.headers.values[n][i]))
  }

  /** The part of a request that its request line tells. */
  function LinePart(m: Message): Message {
    FRESH_MESSAGE.(requestMethod := m.requestMethod, uri := m.uri,
                  majorVersion := m.majorVersion, minorVersion := m.minorVersion)
  }

  lemma RequestLineRun(m: Message)
    requires m.requestMethod != "" && IsToken(m.requestMethod) && IsTarget(m.uri)
    ensures Leads(REQUEST_PARSER, RequestLine(m), WithLine(REQUEST_PARSER, HeaderLineStart, LinePart(m)))
  {
    hide Run, Leads, Decimal, DecimalValue, IsToken, IsTarget;
    DecimalRoundTrip(m.majorVersion);
    DecimalRoundTrip(m.minorVersion);
    var line := RequestHead(m.requestMethod, m.uri, Decimal(m.majorVersion), Decimal(m.minorVersion));
    RequestHeadRun(line);
    assert RequestLine(m) == RequestHeadText(line);
  }

  // ----- the headers -----

  /** What printing leaves of repeated headers: each name once, its values joined. */
  function Normalised(h: HeaderData): HeaderData {
    HeaderData(map n | n in h.values :: [Join(h.values[n])], h.order)
  }

  function JoinedValues(h: HeaderData, names: seq<string>): map<string, seq<string>> {
    map n | n in names :: [Join(Find(h, n))]
  }

  lemma InsertNew(h: HeaderData, name: string, value: string)
    requires Canonical(name) == name && name !in h.values
    ensures Inserted(h, name, value) == HeaderData(h.values[name := [value]], h.order + [name])
  {
    hide Canonical;
    assert [value] + [] == [value];
  }

  lemma JoinOneMore(h: HeaderData, init: seq<string>, last: string)
    ensures JoinedValues(h, init + [last]) == JoinedValues(h, init)[last := [Join(Find(h, last))]]
  {
    hide Join, Find;
    assert forall n :: n in init + [last] <==> n in init || n == last;
  }

  lemma {:induction false} PrintedReinserted(h: HeaderData, names: seq<string>)
    requires forall i, j | 0 <= i < j < |names| :: names[i] != names[j]
    requires forall i | 0 <= i < |names| :: Canonical(names[i]) == names[i]
    ensures InsertAll(NO_HEADERS, PrintedFields(h, names)) == HeaderData(JoinedValues(h, names), names)
  {
    hide Canonical, Join, Find, Inserted;
    if names == [] {
      assert PrintedFields(h, names) == [];
    } else {
      var init, last := names[..|names| - 1], names[|names| - 1];
      assert names == init + [last];
      var fields, f := PrintedFields(h, init), Field(last, Join(Find(h, last)));
      PrintedReinserted(h, init);
      assert PrintedFields(h, names) == fields + [f];
      assert (fields + [f])[..|fields|] == fields;
      assert last !in JoinedValues(h, init);
      InsertNew(InsertAll(NO_HEADERS, fields), last, f.value);
      JoinOneMore(h, init, last);
    }
  }

  /** Parsing the printed headers gives each name once, with its values joined. */
  lemma HeadersReinserted(h: HeaderData)
    requires Consistent(h)
    ensures InsertAll(NO_HEADERS, PrintedFields(h, h.order)) == Normalised(h)
  {
    hide Canonical, Join;
    PrintedReinserted(h, h.order);
    forall i | 0 <= i < |h.order| ensures Canonical(h.order[i]) == h.order[i] {
      assert h.order[i] in h.order;
    }
    assert forall n | n in h.values :: Find(h, n) == h.values[n];
  }

  /** The fields printed under names that are tokens can be parsed again. */
  lemma {:induction false} PrintedAreFields(h: HeaderData, names: seq<string>)
    requires Consistent(h)
    requires forall n, i | n in h.values && 0 <= i < |h.values[n]| :: NoCtl(h.values[n][i])
    requires forall i | 0 <= i < |names| :: names[i] in h.values && names[i] != "" && IsToken(names[i])
    ensures AreFields(PrintedFields(h, names))
  {
    hide Canonical, Join, IsToken, NoCtl;
    if names != [] {
      var last := names[|names| - 1];
      PrintedAreFields(h, names[..|names| - 1]);
      assert Find(h, last) == h.values[last];
      JoinNoCtl(h.values[last]);
    }
  }

  /** The parser on the line feed of the blank line of a printed request. */
  function HeadParsed(m: Message): Config {
    Config(REQUEST_RESET.(state := Newline3), LinePart(m).(headers := Normalised(m.headers)))
  }

  function HeadText(m: Message): string {
    RequestLine(m) + (Lines(PrintedFields(m.headers, m.headers.order)) + "\r")
  }

  lemma HeadRun(m: Message)
    requires Printable(m)
    ensures Leads(REQUEST_PARSER, HeadText(m), HeadParsed(m))
  {
    hide Step, Run, Leads, RequestLine, Lines, PrintedFields, IsToken, IsTarget, NoCtl;
    var fields := PrintedFields(m.headers, m.headers.order);
    var k := WithLine(REQUEST_PARSER, HeaderLineStart, LinePart(m));
    RequestLineRun(m);
    PrintedAreFields(m.headers, m.headers.order);
    HeadersReinserted(m.headers);
    HeaderSectionRun(k, fields);
    NoFieldsNoHeaders(fields);
    LeadsJoin(REQUEST_PARSER, RequestLine(m), k, Lines(fields) + "\r", HeadParsed(m));
  }

  lemma NoFieldsNoHeaders(fields: seq<Field>)
    ensures fields == [] ==> InsertAll(NO_HEADERS, fields) == NO_HEADERS
  {}

  /** Parsing a printed request comes down to parsing the blank line's line feed and
      the body after the printed head. */
  lemma ReparseIsBody(m: Message)
    requires Printable(m)
    ensures var rest := Run(HeadParsed(m), "\n" + m.body);
            Run(REQUEST_PARSER, Formatted(m)) == rest.(consumed := |HeadText(m)| + rest.consumed)
    ensures |Formatted(m)| == |HeadText(m)| + 1 + |m.body|
  {
    hide Run, Leads, RequestLine, Lines, PrintedFields, Normalised, Printable;
    HeadRun(m);
    LeadsThen(REQUEST_PARSER, HeadText(m), HeadParsed(m), "\n" + m.body);
    assert Formatted(m) == HeadText(m) + ("\n" + m.body);
  }

  // ----- the round trip -----

  /** What a parser recovers from the text of `m` when it recovers all of it. */
  function Recovered(m: Message): Message {
    LinePart(m).(headers := Normalised(m.headers), body := m.body)
  }

  /** A reset parser takes the printed text for a complete request on its last byte,
      and for the request that was printed. */
  predicate Recovers(m: Message) {
    var r := Run(REQUEST_PARSER, Formatted(m));
    r.outcome == Valid && r.consumed == |Formatted(m)| && r.config.message == Recovered(m)
  }

  /** The printed headers declare the body that is printed. */
  predicate DeclaresBody(m: Message) {
    match FramingOf(Normalised(m.headers))
    case NoBody => m.body == ""
    case Fixed(n) => |m.body| == n
    case Chunked => false
    case BadLength => false
  }

  /** A printed request is recovered exactly when its headers declare its body: no
      transfer encoding says "chunked", and the declared length, none meaning zero, is
      the length of the body. */
  lemma RoundTripIff(m: Message)
    requires Printable(m)
    ensures Recovers(m) <==> DeclaresBody(m)
  {
    hide Run, Step, Formatted, HeadText, FramingOf, Normalised, Printable;
    var k := HeadParsed(m);
    ReparseIsBody(m);
    match FramingOf(Normalised(m.headers)) {
      case Fixed(n) =>
        FixedLengthFraming(k, m.body);
      case Chunked =>
        ChunkedNotRecovered(m, k);
      case NoBody =>
        BlankLineStops(k, m.body);
      case BadLength =>
        BlankLineStops(k, m.body);
    }
  }

  /** A decoded body printed under "chunked" is never read back as itself: even when
      it happens to be an encoding, what it encodes is shorter. */
  lemma ChunkedNotRecovered(m: Message, k: Config)
    requires k.parser.state == Newline3 && FramingOf(k.message.headers).Chunked?
    ensures var r := Run(k, "\n" + m.body);
            !(r.outcome == Valid && r.consumed == |m.body| + 1 && r.config.message.body == m.body)
  {
    hide Run, FramingOf, Encoding, Payload, WireAll;
    var k' := InState(k, ChunkLengthStart, k.parser.remaining, "");
    BlankLineChunked(k);
    LeadsThen(k, "\n", k', m.body);
    var r := Run(k', m.body);
    if r.outcome == Valid && r.consumed == |m.body| {
      var chunks, last := AcceptedIsEncoding(k', m.body);
      assert m.body[..|m.body|] == m.body;
      PayloadShorter(chunks, last);
      assert "" + Payload(chunks) == Payload(chunks);
    }
  }

  lemma {:induction false} PayloadShorter(chunks: seq<WireChunk>, last: string)
    ensures |Payload(chunks)| < |Encoding(chunks, last)|
  {
    if chunks != [] {
      PayloadShorter(chunks[..|chunks| - 1], last);
    }
  }

  // ----- joined headers mean what separate ones did -----

  lemma NormalisedLookup(h: HeaderData, name: string)
    requires Consistent(h)
    ensures Find(Normalised(h), name) == if Find(h, name) == [] then [] else [Join(Find(h, name))]
  {
    hide Canonical, Join;
  }

  /** Joining values on one line does not change whether the body is chunked, and
      changes the declared length only when several were given. */
  lemma FramingNormalised(h: HeaderData)
    requires Consistent(h)
    ensures FramingOf(Normalised(h)).Chunked? <==> FramingOf(h).Chunked?
    ensures |Find(h, Spelling(ContentLength))| <= 1 ==> FramingOf(Normalised(h)) == FramingOf(h)
    ensures |Find(h, Spelling(ContentLength))| >= 2 ==>
              FramingOf(Normalised(h)).Chunked? || FramingOf(Normalised(h)).BadLength?
  {
    var encodings, lengths := Find(h, Spelling(TransferEncoding)), Find(h, Spelling(ContentLength));
    NormalisedLookup(h, Spelling(TransferEncoding));
    NormalisedLookup(h, Spelling(ContentLength));
    FramingJoined(encodings, lengths);
  }

  function JoinedList(values: seq<string>): seq<string> {
    if values == [] then [] else [Join(values)]
  }

  lemma FramingJoined(encodings: seq<string>, lengths: seq<string>)
    ensures var f := FramingFrom(JoinedList(encodings), JoinedList(lengths));
            && (f.Chunked? <==> FramingFrom(encodings, lengths).Chunked?)
            && (|lengths| <= 1 ==> f == FramingFrom(encodings, lengths))
            && (|lengths| >= 2 ==> f.Chunked? || f.BadLength?)
  {
    hide HasToken, Join, ToUInt64;
    if encodings != [] {
      JoinKeepsTokens(encodings, "chunked");
      assert [Join(encodings)][0] == Join(encodings);
      assert AnyHasToken([Join(encodings)], "chunked") <==> HasToken(Join(encodings), "chunked");
    }
    if |lengths| == 1 {
      JoinOfOne(lengths[0]);
      assert lengths == [lengths[0]];
    } else if |lengths| >= 2 {
      JoinedIsNoNumber(lengths);
    }
  }

  lemma JoinOfOne(value: string)
    ensures Join([value]) == value
  {}

  lemma {:induction false} PrintedFieldsNormalised(h: HeaderData, names: seq<string>)
    requires Consistent(h) && forall i | 0 <= i < |names| :: names[i] in h.values
    ensures PrintedFields(Normalised(h), names) == PrintedFields(h, names)
  {
    hide Canonical, Join;
    if names != [] {
      var last := names[|names| - 1];
      PrintedFieldsNormalised(h, names[..|names| - 1]);
      NormalisedLookup(h, last);
      JoinOfOne(Join(Find(h, last)));
      assert Canonical(last) == last;
      assert Find(h, last) != [];
    }
  }

  /** Printing stabilises: the request that is recovered prints as the same text, even
      when header names were repeated. */
  lemma PrintingStabilises(m: Message)
    requires Printable(m) && DeclaresBody(m)
    ensures Formatted(Run(REQUEST_PARSER, Formatted(m)).config.message) == Formatted(m)
  {
    hide Run, Lines, Canonical, Join, Decimal, Normalised, PrintedFields, Printable, DeclaresBody;
    RoundTripIff(m);
    var h := m.headers;
    assert Consistent(h) by { PrintableConsistent(m); }
    PrintedFieldsNormalised(h, h.order);
    assert Normalised(h).order == h.order by { NormalisedOrder(h); }
    assert Recovered(m).headers.order == h.order;
    assert RequestLine(Recovered(m)) == RequestLine(m);
  }

  lemma PrintableConsistent(m: Message)
    requires Printable(m)
    ensures Consistent(m.headers)
  {}

  lemma NormalisedOrder(h: HeaderData)
    ensures Normalised(h).order == h.order
  {}

  // ----- recovered exactly -----

  predicate OneValueEach(h: HeaderData) {
    forall n | n in h.values :: |h.values[n]| == 1
  }

  /** Joining leaves the headers as they are exactly when no name was repeated. */
  lemma SingleValuesIff(h: HeaderData)
    requires Consistent(h)
    ensures Normalised(h) == h <==> OneValueEach(h)
  {
    hide Canonical, Join;
    if Normalised(h) == h {
      assert forall n | n in h.values :: h.values[n] == Normalised(h).values[n];
    }
    if OneValueEach(h) {
      forall n | n in h.values ensures [Join(h.values[n])] == h.values[n] {
        JoinOfOne(h.values[n][0]);
        assert h.values[n] == [h.values[n][0]];
      }
    }
  }

  /** From the blank line on nothing but the body of a message changes. */
  lemma BodyOnly(k: Config, w: string)
    requires k.parser.state == Newline3 && Run(k, "\n" + w).outcome == Valid
    ensures var m := Run(k, "\n" + w).config.message; m == k.message.(body := m.body)
  {
    hide Run, FramingOf, IsEncoding;
    match FramingOf(k.message.headers) {
      case Fixed(_) => FixedLengthFraming(k, w);
      case Chunked =>
        var k' := InState(k, ChunkLengthStart, k.parser.remaining, "");
        BlankLineChunked(k);
        LeadsThen(k, "\n", k', w);
        var chunks, last := AcceptedIsEncoding(k', w);
      case NoBody => BlankLineStops(k, w);
      case BadLength => BlankLineStops(k, w);
    }
  }

  /** A reset parser takes the printed text for a complete request on its last byte, and
      for exactly the request that was printed, repeated values in their order and all. */
  predicate RecoversExactly(m: Message) {
    var r := Run(REQUEST_PARSER, Formatted(m));
    r.outcome == Valid && r.consumed == |Formatted(m)| && r.config.message == m
  }

  /** A printed request is recovered exactly if and only if its headers declare its body,
      no name is repeated, and it is a request: it has no status. */
  lemma ExactRoundTripIff(m: Message)
    requires Printable(m)
    ensures RecoversExactly(m)
       <==> && DeclaresBody(m) && OneValueEach(m.headers)
            && m.statusCode == 0 && m.statusMessage == ""
  {
    hide Run, Formatted, HeadText, Normalised, DeclaresBody, OneValueEach;
    RoundTripIff(m);
    SingleValuesIff(m.headers);
    if RecoversExactly(m) {
      ReparseIsBody(m);
      BodyOnly(HeadParsed(m), m.body);
      assert Recovered(m) == m;
    }
  }
}
