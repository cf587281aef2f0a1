/** Which requests survive being parsed, printed for the next server and parsed there,
    said of what the client sent. */
module Forwarding {
  import opened Bytes
  import opened Text
  import opened HeaderFields
  import opened HeaderSections
  import opened FirstLines
  import opened Parser
  import opened ParserRuns
  import opened ChunkedBodies
  import opened WireMessages
  import opened RoundTrip
  import opened ParsedRequests

  // ----- folded lines -----

  predicate HasFolded(lines: seq<HeaderLine>) {
    exists i | 0 <= i < |lines| :: lines[i].Folded?
  }

  /** A value stands under the empty name exactly when a line was folded. */
  lemma {:induction false} EmptyNameIffFolded(lines: seq<HeaderLine>)
    requires forall i | 0 <= i < |lines| :: IsHeaderLine(lines[i])
    ensures "" in HeadersOf(lines).values <==> HasFolded(lines)
  {
    hide HeadersOf, IsHeaderLine;
    if lines == [] {
      NoHeadersOf();
    } else {
      var init, last := lines[..|lines| - 1], lines[|lines| - 1];
      assert lines == init + [last];
      EmptyNameIffFolded(init);
      OneMoreLine(init, last);
      LineInsertsEmpty(HeadersOf(init), last);
      if HasFolded(init) {
        var i :| 0 <= i < |init| && init[i].Folded?;
        assert lines[i].Folded?;
      }
      if HasFolded(lines) && !last.Folded? {
        var i :| 0 <= i < |lines| && lines[i].Folded?;
        assert init[i].Folded?;
      }
    }
  }

  lemma LineInsertsEmpty(h: HeaderData, l: HeaderLine)
    requires IsHeaderLine(l)
    ensures "" in WithLineInserted(h, l).values <==> "" in h.values || l.Folded?
  {
    hide Canonical;
    assert Canonical("") == "";
    assert l.Named? ==> Canonical(l.field.name) != "" by {
      assert l.Named? ==> |Canonical(l.field.name)| == |l.field.name| > 0;
    }
  }

  // ----- repeated names -----

  /** No two fields have the same name, in any letter case. */
  predicate DistinctNames(fields: seq<Field>) {
    forall i, j | 0 <= i < j < |fields| :: !SameName(fields[i].name, fields[j].name)
  }

  lemma {:induction false} SomeValue(fields: seq<Field>, name: string) returns (i: nat)
    requires ValuesNewestFirst(fields, name) != []
    ensures i < |fields| && SameName(fields[i].name, name)
  {
    hide SameName;
    var init := fields[..|fields| - 1];
    if SameName(fields[|init|].name, name) {
      i := |init|;
    } else {
      i := SomeValue(init, name);
    }
  }

  lemma {:induction false} ValueOf(fields: seq<Field>, name: string, i: nat)
    requires i < |fields| && SameName(fields[i].name, name)
    ensures ValuesNewestFirst(fields, name) != []
  {
    hide SameName;
    if i < |fields| - 1 {
      ValueOf(fields[..|fields| - 1], name, i);
    }
  }

  /** Where several values are found, two fields have the name. */
  lemma {:induction false} SeveralValues(fields: seq<Field>, name: string) returns (i: nat, j: nat)
    requires |ValuesNewestFirst(fields, name)| >= 2
    ensures i < j < |fields| && SameName(fields[i].name, name) && SameName(fields[j].name, name)
  {
    hide SameName;
    var init := fields[..|fields| - 1];
    if SameName(fields[|init|].name, name) {
      i := SomeValue(init, name);
      j := |init|;
    } else {
      i, j := SeveralValues(init, name);
    }
  }

  lemma {:induction false} SeveralFound(fields: seq<Field>, name: string, i: nat, j: nat)
    requires i < j < |fields| && SameName(fields[i].name, name) && SameName(fields[j].name, name)
    ensures |ValuesNewestFirst(fields, name)| >= 2
  {
    hide SameName;
    var init := fields[..|fields| - 1];
    if j == |init| {
      ValueOf(init, name, i);
    } else {
      SeveralFound(init, name, i, j);
    }
  }

  lemma SameNameIsEquality(a: string, b: string, c: string)
    ensures SameName(a, b) && SameName(c, b) ==> SameName(a, c)
    ensures SameName(a, b) ==> SameName(a, Canonical(b)) && SameName(b, Canonical(b))
  {
    CanonicalSameName(b);
  }

  /** After inserting fields every name has one value exactly when no name was repeated. */
  lemma OneValueIffDistinct(fields: seq<Field>)
    ensures OneValueEach(InsertAll(NO_HEADERS, fields)) <==> DistinctNames(fields)
  {
    hide SameName, InsertAll, ValuesNewestFirst, Canonical;
    var h := InsertAll(NO_HEADERS, fields);
    assert Consistent(h) by { ConsistentAfterInserts(fields); }
    if DistinctNames(fields) {
      forall n | n in h.values ensures |h.values[n]| == 1 {
        FindAfterInserts(fields, n);
        assert Find(h, n) == h.values[n];
        if |h.values[n]| >= 2 {
          var i, j := SeveralValues(fields, n);
          SameNameIsEquality(fields[i].name, n, fields[j].name);
        }
      }
    }
    if OneValueEach(h) {
      forall i, j | 0 <= i < j < |fields| ensures !SameName(fields[i].name, fields[j].name) {
        var n := Canonical(fields[j].name);
        SameNameIsEquality(fields[i].name, fields[j].name, fields[j].name);
        FindAfterInserts(fields, n);
        CanonicalIdempotent(fields[j].name);
        assert |Find(h, n)| <= 1;
        if SameName(fields[i].name, fields[j].name) {
          SeveralFound(fields, n, i, j);
        }
      }
    }
  }

  lemma ConsistentAfterInserts(fields: seq<Field>)
    ensures Consistent(InsertAll(NO_HEADERS, fields))
  {
    InsertAllConsistent(NO_HEADERS, fields);
  }

  // ----- forwarding -----

  /** The values that the client gave under a name, newest first. */
  function Given(r: WireRequest, name: KnownName): seq<string> {
    ValuesNewestFirst(FieldsOf(r.lines), Spelling(name))
  }

  /** Take any request that a client can send, with a 7-bit body. What is forwarded of it is
      parsed as the request, with the values of each name joined, newest first, if and only
      if it was sent with a plain body, no line folded, and its length given at most once;
      and as exactly the request if and only if it was sent with a plain body, no line
      folded and no name repeated. */
  lemma ForwardedAsSentIff(r: WireRequest)
    requires IsWireRequest(r) && SevenBit(BodyData(r.body))
    ensures Recovers(RequestMeaning(r))
       <==> r.body.Plain? && !HasFolded(r.lines) && |Given(r, ContentLength)| <= 1
    ensures RecoversExactly(RequestMeaning(r))
       <==> r.body.Plain? && !HasFolded(r.lines) && DistinctNames(FieldsOf(r.lines))
  {
    hide Run, RequestText, Recovers, RecoversExactly, HeadersOf, FramingOf, Find, OneValueEach, HasFolded,
         DistinctNames;
    RequestRun(r, "");
    assert RequestText(r) + "" == RequestText(r);
    ForwardedRequestIff(RequestText(r));
    assert FramingOf(HeadersOf(r.lines)).Chunked? <==> r.body.InChunks?;
    EmptyNameIffFolded(r.lines);
    LengthsFound(r);
    OneValueOfLines(r.lines);
  }

  lemma LengthsFound(r: WireRequest)
    ensures Find(HeadersOf(r.lines), Spelling(ContentLength)) == Given(r, ContentLength)
  {
    hide InsertAll, Find, ValuesNewestFirst;
    FindAfterInserts(FieldsOf(r.lines), Spelling(ContentLength));
  }

  lemma OneValueOfLines(lines: seq<HeaderLine>)
    ensures OneValueEach(HeadersOf(lines)) <==> DistinctNames(FieldsOf(lines))
  {
    hide InsertAll, OneValueEach, DistinctNames;
    OneValueIffDistinct(FieldsOf(lines));
  }

  // ----- requests that do not survive -----

  const PAGE := RequestHead("GET", "/", "1", "1")
  const HOST := Field("Host", "h")
  const LENGTH := Field("Content-Length", "0")
  const CODING := Field("Transfer-Encoding", "chunked")

  /** The framing that one or two lines call for. */
  lemma FramingOfFields(fields: seq<Field>)
    ensures FramingOf(InsertAll(NO_HEADERS, fields))
         == FramingFrom(ValuesNewestFirst(fields, Spelling(TransferEncoding)),
                        ValuesNewestFirst(fields, Spelling(ContentLength)))
  {
    hide InsertAll, Find, ValuesNewestFirst, FramingFrom;
    FindAfterInserts(fields, Spelling(TransferEncoding));
    FindAfterInserts(fields, Spelling(ContentLength));
  }

  lemma OneField(f: Field, name: string)
    ensures ValuesNewestFirst([f], name) == if SameName(f.name, name) then [f.value] else []
  {
    assert [f][..0] == [];
    assert ValuesNewestFirst([], name) == [];
  }

  lemma TwoFields(f: Field, g: Field, name: string)
    ensures ValuesNewestFirst([f, g], name)
         == (if SameName(g.name, name) then [g.value] else []) + (if SameName(f.name, name) then [f.value] else [])
  {
    hide SameName;
    assert [f, g][..1] == [f];
    OneField(f, name);
  }

  lemma OneNamed(f: Field)
    ensures FieldsOf([Named(f)]) == [f]
  {
    OneMoreLine([], Named(f));
    assert [] + [Named(f)] == [Named(f)];
  }

  lemma TwoLines(f: Field, l: HeaderLine)
    ensures FieldsOf([Named(f), l]) == [f] + Inserts(l)
  {
    OneMoreLine([Named(f)], l);
    OneNamed(f);
    assert [Named(f)] + [l] == [Named(f), l];
  }

  /** A request that is sent in chunks, none of them with data. */
  const CHUNKED := WireRequest(PAGE, [Named(CODING)], InChunks([], "0"))

  lemma SaysChunked()
    ensures AnyHasToken(["chunked"], "chunked")
  {
    SplitWhole("chunked", ',');
    assert Trimmed("chunked") == "chunked";
    assert [("chunked")][0] == "chunked";
    assert HasToken("chunked", "chunked") by { assert Split("chunked", ',')[0] == "chunked"; }
    assert HasToken(["chunked"][0], "chunked");
  }

  lemma CodingIsField()
    ensures IsHeaderLine(Named(CODING))
  {}

  lemma CodingFound()
    ensures ValuesNewestFirst([CODING], Spelling(TransferEncoding)) == ["chunked"]
  {
    hide ValuesNewestFirst;
    OneField(CODING, Spelling(TransferEncoding));
  }

  lemma PageIsHead()
    ensures IsRequestHead(PAGE)
  {}

  lemma ChunkedIsRequest()
    ensures IsWireRequest(CHUNKED)
  {
    hide InsertAll, ValuesNewestFirst, FramingOf, AnyHasToken, IsHeaderLine, IsRequestHead, IsLastLength;
    PageIsHead();
    FramingOfFields([CODING]);
    CodingFound();
    OneNamed(CODING);
    SaysChunked();
    ZeroEnds(0);
    assert Zeros(0) + "0" == "0";
    CodingIsField();
  }

  /** A request in chunks that is not forwarded as itself. */
  lemma ChunkedIsLost()
    ensures IsWireRequest(CHUNKED) && !Recovers(RequestMeaning(CHUNKED))
  {
    hide IsWireRequest, Recovers, HasFolded;
    ChunkedIsRequest();
    assert BodyData(CHUNKED.body) == "" by { NoPayload(); }
    ForwardedAsSentIff(CHUNKED);
  }

  lemma NoPayload()
    ensures Payload([]) == ""
  {}

  /** A request with a folded line. */
  const FOLDED := WireRequest(PAGE, [Named(HOST), Folded(" ", 'x', "y")], Plain(""))

  lemma FoldedIsRequest()
    ensures IsWireRequest(FOLDED)
  {
    hide InsertAll, ValuesNewestFirst, FramingOf, IsRequestHead;
    PageIsHead();
    var folded := Field("", "y");
    TwoLines(HOST, FOLDED.lines[1]);
    assert FieldsOf(FOLDED.lines) == [HOST, folded];
    FramingOfFields([HOST, folded]);
    TwoFields(HOST, folded, Spelling(TransferEncoding));
    TwoFields(HOST, folded, Spelling(ContentLength));
    assert IsHeaderLine(Named(HOST)) && IsHeaderLine(FOLDED.lines[1]);
  }

  lemma FoldedIsLost()
    ensures IsWireRequest(FOLDED) && !Recovers(RequestMeaning(FOLDED))
  {
    hide IsWireRequest, Recovers;
    FoldedIsRequest();
    assert FOLDED.lines[1].Folded?;
    ForwardedAsSentIff(FOLDED);
  }

  /** A request that gives its length twice. */
  const TWO_LENGTHS := WireRequest(PAGE, [Named(LENGTH), Named(LENGTH)], Plain(""))

  lemma LengthIsField()
    ensures IsHeaderLine(Named(LENGTH))
  {}

  lemma TwoLengthsFound()
    ensures ValuesNewestFirst([LENGTH, LENGTH], Spelling(TransferEncoding)) == []
    ensures ValuesNewestFirst([LENGTH, LENGTH], Spelling(ContentLength)) == ["0", "0"]
  {
    hide ValuesNewestFirst;
    TwoFields(LENGTH, LENGTH, Spelling(TransferEncoding));
    TwoFields(LENGTH, LENGTH, Spelling(ContentLength));
  }

  lemma TwoLengthsIsRequest()
    ensures IsWireRequest(TWO_LENGTHS) && Given(TWO_LENGTHS, ContentLength) == ["0", "0"]
  {
    hide InsertAll, ValuesNewestFirst, FramingOf, IsHeaderLine, ToUInt64, IsRequestHead;
    PageIsHead();
    TwoLines(LENGTH, Named(LENGTH));
    assert FieldsOf(TWO_LENGTHS.lines) == [LENGTH, LENGTH];
    FramingOfFields([LENGTH, LENGTH]);
    TwoLengthsFound();
    ZeroIsNoBody();
    LengthIsField();
  }

  lemma ZeroIsNoBody()
    ensures ToUInt64("0") == Some(0)
  {
    assert Trimmed("0") == "0";
    assert "0"[..0] == "";
  }

  lemma TwoLengthsAreLost()
    ensures IsWireRequest(TWO_LENGTHS) && !Recovers(RequestMeaning(TWO_LENGTHS))
  {
    hide IsWireRequest, Recovers, HasFolded, Given;
    TwoLengthsIsRequest();
    ForwardedAsSentIff(TWO_LENGTHS);
  }

  /** A request that repeats a name: it is recovered, but not as it was. */
  const REPEATED := WireRequest(PAGE, [Named(Field("A", "1")), Named(Field("A", "2"))], Plain(""))

  lemma RepeatedIsRequest()
    ensures IsWireRequest(REPEATED) && Given(REPEATED, ContentLength) == []
    ensures FieldsOf(REPEATED.lines) == [Field("A", "1"), Field("A", "2")]
  {
    hide InsertAll, ValuesNewestFirst, FramingOf, IsRequestHead;
    PageIsHead();
    var a, b := Field("A", "1"), Field("A", "2");
    TwoLines(a, Named(b));
    assert FieldsOf(REPEATED.lines) == [a, b];
    FramingOfFields([a, b]);
    TwoFields(a, b, Spelling(TransferEncoding));
    TwoFields(a, b, Spelling(ContentLength));
    assert IsHeaderLine(Named(a)) && IsHeaderLine(Named(b));
  }

  lemma NotDistinct(fields: seq<Field>)
    requires |fields| == 2 && fields[0].name == fields[1].name
    ensures !DistinctNames(fields)
  {
    assert SameName(fields[0].name, fields[1].name);
  }

  lemma NothingFolded()
    ensures !HasFolded(REPEATED.lines)
  {}

  lemma RepeatedIsChanged()
    ensures IsWireRequest(REPEATED)
    ensures Recovers(RequestMeaning(REPEATED)) && !RecoversExactly(RequestMeaning(REPEATED))
  {
    hide IsWireRequest, Recovers, RecoversExactly, Given, DistinctNames, HasFolded;
    RepeatedIsRequest();
    NotDistinct(FieldsOf(REPEATED.lines));
    NothingFolded();
    ForwardedAsSentIff(REPEATED);
  }
}
