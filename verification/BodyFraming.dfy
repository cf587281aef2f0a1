/** How a body is delimited, said of the header lines that were sent: which of them are
    looked at, what their values have to say, and on which byte the message then ends. */
module BodyFraming {
  import opened Bytes
  import opened Text
  import opened HeaderFields
  import opened HeaderSections
  import opened FirstLines
  import opened Parser
  import opened ParserRuns
  import opened ChunkedBodies
  import opened FixedBodies
  import opened WireMessages

  // ----- the fields that count -----

  /** The field at position `i` is the last one of its name, in any letter case. */
  predicate IsNewest(fields: seq<Field>, name: string, i: nat) {
    && i < |fields| && SameName(fields[i].name, name)
    && forall j | i < j < |fields| :: !SameName(fields[j].name, name)
  }

  predicate IsAbsent(fields: seq<Field>, name: string) {
    forall i | 0 <= i < |fields| :: !SameName(fields[i].name, name)
  }

  /** Some transfer encoding lists "chunked". */
  ghost predicate SaysChunked(fields: seq<Field>) {
    exists i :: 0 <= i < |fields| && SameName(fields[i].name, "Transfer-Encoding") && Lists(fields[i].value, "chunked")
  }

  lemma {:induction false} NewestComesFirst(fields: seq<Field>, name: string, i: nat)
    requires IsNewest(fields, name, i)
    ensures ValuesNewestFirst(fields, name) != [] && ValuesNewestFirst(fields, name)[0] == fields[i].value
  {
    hide SameName;
    if i < |fields| - 1 {
      NewestComesFirst(fields[..|fields| - 1], name, i);
    }
  }

  lemma {:induction false} AbsentHasNoValues(fields: seq<Field>, name: string)
    requires IsAbsent(fields, name)
    ensures ValuesNewestFirst(fields, name) == []
  {
    hide SameName;
    if fields != [] {
      AbsentHasNoValues(fields[..|fields| - 1], name);
    }
  }

  lemma {:induction false} ValuesAreGiven(fields: seq<Field>, name: string, token: string)
    ensures AnyHasToken(ValuesNewestFirst(fields, name), token)
       <==> exists i :: 0 <= i < |fields| && SameName(fields[i].name, name) && HasToken(fields[i].value, token)
  {
    hide SameName, HasToken;
    var values := ValuesNewestFirst(fields, name);
    if fields != [] {
      var init, last := fields[..|fields| - 1], fields[|fields| - 1];
      var rest := ValuesNewestFirst(init, name);
      ValuesAreGiven(init, name, token);
      if AnyHasToken(rest, token) {
        var i :| 0 <= i < |init| && SameName(init[i].name, name) && HasToken(init[i].value, token);
        assert fields[i] == init[i];
        var j :| 0 <= j < |rest| && HasToken(rest[j], token);
        assert values[j + |values| - |rest|] == rest[j];
      }
      if SameName(last.name, name) && HasToken(last.value, token) {
        assert values[0] == last.value;
      }
      if j :| 0 <= j < |values| && HasToken(values[j], token) {
        if |values| == |rest| {
          assert values == rest;
        } else if j > 0 {
          assert values[j] == rest[j - 1];
        } else {
          assert fields[|init|] == last;
        }
      }
      if i :| 0 <= i < |fields| && SameName(fields[i].name, name) && HasToken(fields[i].value, token) {
        if i < |init| {
          assert init[i] == fields[i];
        }
      }
    }
  }

  lemma ChunkedIffSaid(fields: seq<Field>)
    ensures AnyHasToken(ValuesNewestFirst(fields, Spelling(TransferEncoding)), "chunked") <==> SaysChunked(fields)
  {
    hide SameName, HasToken, Lists, ValuesNewestFirst;
    ValuesAreGiven(fields, "Transfer-Encoding", "chunked");
    forall i | 0 <= i < |fields|
      ensures HasToken(fields[i].value, "chunked") <==> Lists(fields[i].value, "chunked")
    {
      ChunkedIsTrim();
      HasTokenIff(fields[i].value, "chunked");
    }
  }

  lemma ChunkedIsTrim()
    ensures IsTrim("chunked") && ',' !in "chunked"
  {}

  lemma FramingOfGiven(fields: seq<Field>)
    ensures var f, lengths := FramingOf(InsertAll(NO_HEADERS, fields)), ValuesNewestFirst(fields, "Content-Length");
            && (f.Chunked? <==> SaysChunked(fields))
            && (!SaysChunked(fields) ==> f == FramingFrom([], lengths))
  {
    hide SameName, AnyHasToken, ToUInt64, SaysChunked, ValuesNewestFirst, InsertAll, Find;
    FindAfterInserts(fields, Spelling(TransferEncoding));
    FindAfterInserts(fields, Spelling(ContentLength));
    ChunkedIffSaid(fields);
    NoTokenInNothing();
  }

  lemma NoTokenInNothing()
    ensures !AnyHasToken([], "chunked")
  {}

  /** Without a transfer encoding that lists "chunked" and without a length there is no body. */
  lemma NoLengthNoBody(fields: seq<Field>)
    requires !SaysChunked(fields) && IsAbsent(fields, "Content-Length")
    ensures FramingOf(InsertAll(NO_HEADERS, fields)) == NoBody
  {
    hide SameName, AnyHasToken, SaysChunked, ValuesNewestFirst, InsertAll, FramingOf, IsAbsent;
    FramingOfGiven(fields);
    AbsentHasNoValues(fields, "Content-Length");
    NoTokenInNothing();
  }

  /** The newest length decides: zero is no body, another number below 2^64 is the number of
      bytes, and anything else is refused. */
  lemma NewestLengthDecides(fields: seq<Field>, i: nat)
    requires !SaysChunked(fields) && IsNewest(fields, "Content-Length", i)
    ensures var f := FramingOf(InsertAll(NO_HEADERS, fields));
            && (f == NoBody <==> SpellsLength(fields[i].value, 0))
            && (forall n: UInt64 | n > 0 :: f == Fixed(n) <==> SpellsLength(fields[i].value, n))
            && (f == BadLength <==> forall n: nat | n < TWO_TO_THE_64 :: !SpellsLength(fields[i].value, n))
  {
    hide SameName, AnyHasToken, ToUInt64, SpellsLength, SaysChunked, ValuesNewestFirst, InsertAll, FramingOf;
    var value := fields[i].value;
    FramingOfGiven(fields);
    NewestComesFirst(fields, "Content-Length", i);
    NoTokenInNothing();
    NoLengthIff(value);
    forall n: UInt64 ensures ToUInt64(value) == Some(n) <==> SpellsLength(value, n) {
      ToUInt64Iff(value, n);
    }
  }

  // ----- on which byte the message ends -----

  /** What follows the first line, up to the line feed of the blank line. */
  function HeaderText(lines: seq<HeaderLine>): string {
    LinesText(lines) + "\r\n"
  }

  /** The parser on the line feed of the blank line. */
  lemma BlankLineComes(k: Config, lines: seq<HeaderLine>, w: string) returns (blank: Config)
    requires k.parser.state == HeaderLineStart && k.message.headers == NO_HEADERS && AreHeaderLines(lines)
    ensures blank.parser.state == Newline3 && blank.message == k.message.(headers := HeadersOf(lines))
    ensures Run(k, HeaderText(lines) + w)
         == var r := Run(blank, "\n" + w); r.(consumed := |HeaderText(lines)| - 1 + r.consumed)
  {
    hide Run, Leads, AreHeaderLines, LinesText, HeadersOf, AfterLines;
    blank := AfterLines(k, lines).(parser := AfterLines(k, lines).parser.(state := Newline3));
    LinesThenBlank(k, lines);
    LeadsThen(k, LinesText(lines) + "\r", blank, "\n" + w);
    assert HeaderText(lines) + w == (LinesText(lines) + "\r") + ("\n" + w);
  }

  /** After `head` bytes and then `w`: while fewer than n bytes have come after the head the
      message is incomplete; it is complete on the n-th, and the body is those n bytes. */
  predicate EndsAfter(r: RunResult, head: nat, n: nat, w: string) {
    && (r.outcome == Incomplete <==> |w| < n)
    && (r.outcome == Valid <==> n <= |w|)
    && (r.outcome == Valid ==> r.consumed == head + n)
    && r.config.message.body == if |w| < n then w else w[..n]
  }

  /** A message that is not chunked and whose newest length spells n: while fewer than n bytes
      have come after the blank line it is incomplete, and it is complete on exactly the
      n-th of them, on the blank line itself if n is zero; the body is those bytes. */
  lemma DeclaredLengthRun(k: Config, lines: seq<HeaderLine>, i: nat, n: UInt64, w: string)
    requires k.parser.state == HeaderLineStart && k.message.headers == NO_HEADERS && k.message.body == ""
    requires AreHeaderLines(lines) && !SaysChunked(FieldsOf(lines))
    requires IsNewest(FieldsOf(lines), "Content-Length", i) && SpellsLength(FieldsOf(lines)[i].value, n)
    ensures EndsAfter(Run(k, HeaderText(lines) + w), |HeaderText(lines)|, n, w)
    ensures var m := Run(k, HeaderText(lines) + w).config.message;
            m == k.message.(headers := HeadersOf(lines), body := m.body)
  {
    hide Run, FramingOf, InsertAll, AreHeaderLines, IsNewest, SaysChunked, SpellsLength, LinesText;
    var blank := BlankLineComes(k, lines, w);
    NewestLengthDecides(FieldsOf(lines), i);
    if n == 0 {
      BlankLineStops(blank, w);
    } else {
      FixedLengthFraming(blank, w);
    }
  }

  /** A message that is neither chunked nor gives its length ends on the blank line. */
  lemma NoLengthRun(k: Config, lines: seq<HeaderLine>, w: string)
    requires k.parser.state == HeaderLineStart && k.message.headers == NO_HEADERS
    requires AreHeaderLines(lines) && !SaysChunked(FieldsOf(lines)) && IsAbsent(FieldsOf(lines), "Content-Length")
    ensures var r := Run(k, HeaderText(lines) + w);
            && r.outcome == Valid && r.consumed == |HeaderText(lines)|
            && r.config.message == k.message.(headers := HeadersOf(lines))
  {
    hide Run, FramingOf, InsertAll, AreHeaderLines, IsAbsent, SaysChunked, LinesText;
    var blank := BlankLineComes(k, lines, w);
    NoLengthNoBody(FieldsOf(lines));
    BlankLineStops(blank, w);
  }

  /** A message that is not chunked is refused on the blank line exactly when its newest
      length spells no number below 2^64. */
  lemma BadLengthIff(k: Config, lines: seq<HeaderLine>, i: nat, w: string)
    requires k.parser.state == HeaderLineStart && k.message.headers == NO_HEADERS && k.message.body == ""
    requires AreHeaderLines(lines) && !SaysChunked(FieldsOf(lines)) && IsNewest(FieldsOf(lines), "Content-Length", i)
    ensures Run(k, HeaderText(lines) + w).outcome == Invalid
       <==> forall n: nat | n < TWO_TO_THE_64 :: !SpellsLength(FieldsOf(lines)[i].value, n)
    ensures Run(k, HeaderText(lines) + w).outcome == Invalid ==>
              Run(k, HeaderText(lines) + w).consumed == |HeaderText(lines)|
  {
    hide Run, FramingOf, InsertAll, AreHeaderLines, SaysChunked, SpellsLength, LinesText;
    var value := FieldsOf(lines)[i].value;
    if n: UInt64 :| SpellsLength(value, n) {
      DeclaredLengthRun(k, lines, i, n, w);
    } else {
      var blank := BlankLineComes(k, lines, w);
      NewestLengthDecides(FieldsOf(lines), i);
      BlankLineStops(blank, w);
    }
  }

  /** A message with a transfer encoding that lists "chunked", whatever length it gives:
      printed chunk lengths are what delimits its body. */
  lemma ChunkedRun(k: Config, lines: seq<HeaderLine>, pieces: seq<Piece>, zeros: nat, rest: string)
    requires k.parser.state == HeaderLineStart && k.message.headers == NO_HEADERS && k.message.body == ""
    requires AreHeaderLines(lines) && SaysChunked(FieldsOf(lines))
    requires forall i | 0 <= i < |pieces| :: 0 < |pieces[i].data| < TWO_TO_THE_64
    ensures var w := HeaderText(lines) + Encoding(AllSpelled(pieces), Zeros(zeros) + "0");
            var r := Run(k, w + rest);
            && r.outcome == Valid && r.consumed == |w|
            && r.config.message == k.message.(headers := HeadersOf(lines), body := AllData(pieces))
  {
    hide Run, FramingOf, InsertAll, AreHeaderLines, SaysChunked, LinesText, Encoding, AllSpelled, Zeros, AllData;
    var body := Encoding(AllSpelled(pieces), Zeros(zeros) + "0");
    var blank := BlankLineComes(k, lines, body + rest);
    FramingOfGiven(FieldsOf(lines));
    var k' := InState(blank, ChunkLengthStart, blank.parser.remaining, "");
    BlankLineChunked(blank);
    LeadsThen(blank, "\n", k', body + rest);
    PrintedLengthsRun(k', pieces, zeros, rest);
    assert "" + AllData(pieces) == AllData(pieces);
    assert HeaderText(lines) + body + rest == HeaderText(lines) + (body + rest);
  }

  // ----- whole messages -----

  lemma RequestHeadComes(h: RequestHead, w: string) returns (k: Config)
    requires IsRequestHead(h)
    ensures k.parser.state == HeaderLineStart && k.message.headers == NO_HEADERS && k.message.body == ""
    ensures Run(REQUEST_PARSER, RequestHeadText(h) + w)
         == var r := Run(k, w); r.(consumed := |RequestHeadText(h)| + r.consumed)
  {
    hide Run, Leads, RequestHeadText, IsToken, IsTarget, IsNumber, DecimalValue;
    k := WithLine(REQUEST_PARSER, HeaderLineStart, RequestHeadMeaning(h));
    RequestHeadRun(h);
    LeadsThen(REQUEST_PARSER, RequestHeadText(h), k, w);
  }

  lemma StatusHeadComes(h: StatusHead, w: string) returns (k: Config)
    requires IsStatusHead(h)
    ensures k.parser.state == HeaderLineStart && k.message.headers == NO_HEADERS && k.message.body == ""
    ensures Run(RESPONSE_PARSER, StatusHeadText(h) + w)
         == var r := Run(k, w); r.(consumed := |StatusHeadText(h)| + r.consumed)
  {
    hide Run, Leads, StatusHeadText, IsPhrase, IsNumber, DecimalValue;
    k := Reading(HeaderLineStart, h.phrase, StatusHeadMeaning(h));
    StatusHeadRun(h);
    LeadsThen(RESPONSE_PARSER, StatusHeadText(h), k, w);
  }

  /** A request with a declared length, from its first byte. */
  lemma RequestOfLength(h: RequestHead, lines: seq<HeaderLine>, i: nat, n: UInt64, w: string)
    requires IsRequestHead(h) && AreHeaderLines(lines) && !SaysChunked(FieldsOf(lines))
    requires IsNewest(FieldsOf(lines), "Content-Length", i) && SpellsLength(FieldsOf(lines)[i].value, n)
    ensures EndsAfter(Run(REQUEST_PARSER, RequestHeadText(h) + (HeaderText(lines) + w)),
                      |RequestHeadText(h)| + |HeaderText(lines)|, n, w)
  {
    hide Run, RequestHeadText, IsRequestHead, AreHeaderLines, IsNewest, SaysChunked, SpellsLength, HeaderText,
         HeadersOf;
    var k := RequestHeadComes(h, HeaderText(lines) + w);
    DeclaredLengthRun(k, lines, i, n, w);
  }

  /** A response with a declared length, from its first byte. */
  lemma ResponseOfLength(h: StatusHead, lines: seq<HeaderLine>, i: nat, n: UInt64, w: string)
    requires IsStatusHead(h) && AreHeaderLines(lines) && !SaysChunked(FieldsOf(lines))
    requires IsNewest(FieldsOf(lines), "Content-Length", i) && SpellsLength(FieldsOf(lines)[i].value, n)
    ensures EndsAfter(Run(RESPONSE_PARSER, StatusHeadText(h) + (HeaderText(lines) + w)),
                      |StatusHeadText(h)| + |HeaderText(lines)|, n, w)
  {
    hide Run, StatusHeadText, IsStatusHead, AreHeaderLines, IsNewest, SaysChunked, SpellsLength, HeaderText,
         HeadersOf;
    var k := StatusHeadComes(h, HeaderText(lines) + w);
    DeclaredLengthRun(k, lines, i, n, w);
  }
}
