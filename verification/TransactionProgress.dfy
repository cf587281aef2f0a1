/** Runs that get somewhere: an exchange whose operations all succeed is relayed whole,
    a CONNECT becomes a tunnel, and how often a tunnel then reports completion. */
module TransactionProgress {
  import HeaderFields
  import opened Parser
  import opened ParserRuns
  import opened WireMessages
  import opened Protocol
  import opened TunnelRuns
  import opened TransactionRuns
  import opened TransactionResults
  import FirstLines
  import HeaderSections
  import Printer = RequestPrinter

  // ----- reads -----

  const DONE := Done(NoError, "")

  /** One read after another, none of which fails. */
  function Reads(buffers: seq<string>): seq<Event> {
    if buffers == [] then []
    else Reads(buffers[..|buffers| - 1]) + [Done(NoError, buffers[|buffers| - 1])]
  }

  /** The buffers are a cutting of `text`, with `extra` after it in the last of them. */
  predicate Cuts(buffers: seq<string>, text: string, extra: string) {
    && buffers != []
    && Flatten(buffers) == text + extra
    && |Flatten(buffers[..|buffers| - 1])| < |text|
  }

  lemma {:induction false} FlattenLast(buffers: seq<string>)
    requires buffers != []
    ensures Flatten(buffers) == Flatten(buffers[..|buffers| - 1]) + buffers[|buffers| - 1]
  {
    var init := buffers[..|buffers| - 1];
    if init == [] {
      assert buffers[1..] == [];
    } else {
      FlattenLast(buffers[1..]);
      assert buffers[1..][..|buffers| - 2] == init[1..];
    }
  }

  lemma {:induction false} RunsOn(t: Transaction, a: seq<Event>, b: seq<Event>)
    ensures ReactAll(t, a + b) == ReactAll(ReactAll(t, a), b)
    decreases |b|
  {
    hide React;
    if b == [] {
      assert a + b == a;
    } else {
      assert (a + b)[..|a + b| - 1] == a + b[..|b| - 1];
      RunsOn(t, a, b[..|b| - 1]);
    }
  }

  lemma ReactOne(t: Transaction, e: Event)
    ensures ReactAll(t, [e]) == React(t, e)
  {
    hide React;
    assert [e][..0] == [];
  }

  /** A message is not complete before its last byte, and not changed by what follows it. */
  lemma CompletesAtTheEnd(k: Config, text: string, p: string, extra: string)
    requires Completes(k, text) && p <= text && |p| < |text|
    ensures Run(k, p).outcome == Incomplete
    ensures Run(k, text + extra) == Run(k, text)
  {
    RunSplit(k, p, text[|p|..]);
    assert text == p + text[|p|..];
    RunSplit(k, text, extra);
  }

  // ----- the request arrives -----

  lemma RequestGoesOn(t: Transaction, data: string)
    requires Invariant(t) && t.pending == ReadingRequest
    requires Run(REQUEST_PARSER, t.requestBytes + data).outcome == Incomplete
    ensures var t' := React(t, Done(NoError, data));
            && t'.pending == ReadingRequest && t'.requestBytes == t.requestBytes + data
            && t'.up == t.up && t'.down == t.down
  {
    hide Run, Drive, PhasesNotified, PhasesOf, Told;
    ReadExtendsRun(REQUEST_PARSER, t.requestBytes, Config(t.parser, t.request), data);
    PhasesNotifiedFrame(RequestBase(t, data), RequestDriven(t, data).announced);
  }

  lemma RequestArrives(t: Transaction, data: string)
    requires Invariant(t) && t.pending == ReadingRequest
    requires Run(REQUEST_PARSER, t.requestBytes + data).outcome == Valid
    ensures var t', m := React(t, Done(NoError, data)), Run(REQUEST_PARSER, t.requestBytes + data).config.message;
            && t'.requestBytes == t.requestBytes + data
            && t'.up == t.up && t'.down == t.down
            && (m.requestMethod == "CONNECT" ==> t'.pending.OpeningTunnel?)
            && (m.requestMethod != "CONNECT"
                && HeaderFields.Find(m.headers, HeaderFields.Spelling(HeaderFields.Host)) != []
                ==> t'.pending.OpeningRemote?)
  {
    hide Run, Drive, PhasesNotified, PhasesOf, Told, HeaderFields.Find, HostAndPort, SignalsBetween;
    ReadExtendsRun(REQUEST_PARSER, t.requestBytes, Config(t.parser, t.request), data);
    PhasesNotifiedFrame(RequestBase(t, data), RequestDriven(t, data).announced);
  }

  lemma {:induction false} RequestReads(t: Transaction, text: string, buffers: seq<string>)
    requires Invariant(t) && t.pending == ReadingRequest && t.requestBytes == ""
    requires Completes(REQUEST_PARSER, text) && Flatten(buffers) <= text && |Flatten(buffers)| < |text|
    ensures var t' := ReactAll(t, Reads(buffers));
            && Invariant(t') && t'.pending == ReadingRequest && t'.requestBytes == Flatten(buffers)
            && t'.up == t.up && t'.down == t.down
    decreases |buffers|
  {
    hide React, Invariant, Run, Completes;
    if buffers != [] {
      var init, last := buffers[..|buffers| - 1], buffers[|buffers| - 1];
      FlattenLast(buffers);
      RequestReads(t, text, init);
      var t' := ReactAll(t, Reads(init));
      CompletesAtTheEnd(REQUEST_PARSER, text, Flatten(buffers), "");
      RequestGoesOn(t', last);
      ReactKeeps(t', Done(NoError, last));
      assert Reads(buffers)[..|Reads(buffers)| - 1] == Reads(init);
    }
  }

  lemma WholeRequestRead(t: Transaction, text: string, extra: string, buffers: seq<string>)
    requires Invariant(t) && t.pending == ReadingRequest && t.requestBytes == ""
    requires Completes(REQUEST_PARSER, text) && Cuts(buffers, text, extra)
    ensures var t', m := ReactAll(t, Reads(buffers)), Run(REQUEST_PARSER, text).config.message;
            && Invariant(t') && t'.requestBytes == text + extra
            && t'.up == t.up && t'.down == t.down
            && (m.requestMethod == "CONNECT" ==> t'.pending.OpeningTunnel?)
            && (m.requestMethod != "CONNECT"
                && HeaderFields.Find(m.headers, HeaderFields.Spelling(HeaderFields.Host)) != []
                ==> t'.pending.OpeningRemote?)
  {
    hide React, Invariant, Run, Completes, HeaderFields.Find;
    var init, last := buffers[..|buffers| - 1], buffers[|buffers| - 1];
    FlattenLast(buffers);
    var read := Flatten(init);
    assert read == (text + extra)[..|read|] == text[..|read|];
    RequestReads(t, text, init);
    var t' := ReactAll(t, Reads(init));
    CompletesAtTheEnd(REQUEST_PARSER, text, read, extra);
    assert Run(REQUEST_PARSER, text + extra).outcome == Valid by { CompletesIsValid(REQUEST_PARSER, text); }
    RequestArrives(t', last);
    ReactKeeps(t', Done(NoError, last));
    assert Reads(buffers)[..|Reads(buffers)| - 1] == Reads(init);
  }

  lemma CompletesIsValid(k: Config, w: string)
    requires Completes(k, w)
    ensures Run(k, w).outcome == Valid
  {}

  /** From the beginning. */
  lemma RequestComes(readBuffer: string, remoteBuffer: string, r: WireRequest, extra: string, buffers: seq<string>)
    requires IsWireRequest(r) && Cuts(buffers, RequestText(r), extra)
    ensures var t := Reach(readBuffer, remoteBuffer, [Begin] + Reads(buffers));
            && Invariant(t) && t.requestBytes == RequestText(r) + extra
            && t.up == IdleHalf(readBuffer) && t.down == IdleHalf(remoteBuffer)
            && (r.head.verb == "CONNECT" ==> t.pending.OpeningTunnel?)
            && (r.head.verb != "CONNECT" && HasHost(r) ==> t.pending.OpeningRemote?)
  {
    hide React, Invariant, Run, RequestText, IsWireRequest, HeaderFields.Find, HeaderSections.HeadersOf, BodyData,
         FirstLines.IsRequestHead;
    var t0 := Initial(readBuffer, remoteBuffer);
    RequestRun(r, "");
    assert RequestText(r) + "" == RequestText(r);
    RunsOn(t0, [Begin], Reads(buffers));
    ReactOne(t0, Begin);
    Begins(readBuffer, remoteBuffer);
    WholeRequestRead(React(t0, Begin), RequestText(r), extra, buffers);
  }

  predicate HasHost(r: WireRequest) {
    HeaderFields.Find(HeaderSections.HeadersOf(r.lines), HeaderFields.Spelling(HeaderFields.Host)) != []
  }

  lemma Begins(readBuffer: string, remoteBuffer: string)
    ensures var t := React(Initial(readBuffer, remoteBuffer), Begin);
            && Invariant(t) && t.pending == ReadingRequest && t.requestBytes == ""
            && t.up == IdleHalf(readBuffer) && t.down == IdleHalf(remoteBuffer)
  {
    hide Run;
    BegunKept(Initial(readBuffer, remoteBuffer));
  }

  // ----- the response arrives -----

  lemma ResponseGoesOn(t: Transaction, data: string)
    requires Invariant(t) && t.pending == ReadingResponse
    requires Run(RESPONSE_PARSER, t.responseBytes + data).outcome == Incomplete
    ensures var t' := React(t, Done(NoError, data));
            && t'.pending == ReadingResponse && t'.responseBytes == t.responseBytes + data
            && t'.requestBytes == t.requestBytes
  {
    hide Run, Drive, PhasesNotified, PhasesOf, Told, Printer.Formatted;
    ReadExtendsRun(RESPONSE_PARSER, t.responseBytes, Config(t.parser, t.response), data);
    PhasesNotifiedFrame(ResponseBase(t, data), ResponseDriven(t, data).announced);
  }

  lemma ResponseArrives(t: Transaction, data: string)
    requires Invariant(t) && t.pending == ReadingResponse
    requires Run(RESPONSE_PARSER, t.responseBytes + data).outcome == Valid
    ensures var t' := React(t, Done(NoError, data));
            && t'.pending == SendingResponse && t'.responseBytes == t.responseBytes + data
            && t'.requestBytes == t.requestBytes
  {
    hide Run, Drive, PhasesNotified, PhasesOf, Told, Printer.Formatted, SignalsBetween;
    ReadExtendsRun(RESPONSE_PARSER, t.responseBytes, Config(t.parser, t.response), data);
    PhasesNotifiedFrame(ResponseBase(t, data), ResponseDriven(t, data).announced);
  }

  lemma {:induction false} ResponseReads(t: Transaction, text: string, buffers: seq<string>)
    requires Invariant(t) && t.pending == ReadingResponse && t.responseBytes == ""
    requires Completes(RESPONSE_PARSER, text) && Flatten(buffers) <= text && |Flatten(buffers)| < |text|
    ensures var t' := ReactAll(t, Reads(buffers));
            && Invariant(t') && t'.pending == ReadingResponse && t'.responseBytes == Flatten(buffers)
            && t'.requestBytes == t.requestBytes
    decreases |buffers|
  {
    hide React, Invariant, Run, Completes;
    if buffers != [] {
      var init, last := buffers[..|buffers| - 1], buffers[|buffers| - 1];
      FlattenLast(buffers);
      ResponseReads(t, text, init);
      var t' := ReactAll(t, Reads(init));
      CompletesAtTheEnd(RESPONSE_PARSER, text, Flatten(buffers), "");
      ResponseGoesOn(t', last);
      ReactKeeps(t', Done(NoError, last));
      assert Reads(buffers)[..|Reads(buffers)| - 1] == Reads(init);
    }
  }

  lemma WholeResponseRead(t: Transaction, text: string, extra: string, buffers: seq<string>)
    requires Invariant(t) && t.pending == ReadingResponse && t.responseBytes == ""
    requires Completes(RESPONSE_PARSER, text) && Cuts(buffers, text, extra)
    ensures var t' := ReactAll(t, Reads(buffers));
            && Invariant(t') && t'.pending == SendingResponse && t'.responseBytes == text + extra
            && t'.requestBytes == t.requestBytes
  {
    hide React, Invariant, Run, Completes;
    var init, last := buffers[..|buffers| - 1], buffers[|buffers| - 1];
    FlattenLast(buffers);
    var read := Flatten(init);
    assert read == (text + extra)[..|read|] == text[..|read|];
    ResponseReads(t, text, init);
    var t' := ReactAll(t, Reads(init));
    CompletesAtTheEnd(RESPONSE_PARSER, text, read, extra);
    assert Run(RESPONSE_PARSER, text + extra).outcome == Valid by { CompletesIsValid(RESPONSE_PARSER, text); }
    ResponseArrives(t', last);
    ReactKeeps(t', Done(NoError, last));
    assert Reads(buffers)[..|Reads(buffers)| - 1] == Reads(init);
  }

  // ----- a whole exchange -----

  lemma ConnectionOpens(t: Transaction)
    requires Invariant(t) && t.pending.OpeningRemote?
    ensures var t' := React(t, DONE);
            Invariant(t') && t'.pending == SendingRequest && t'.requestBytes == t.requestBytes
  {
    hide Run, Told, NamedByHost, Printer.Formatted;
    ReactKeeps(t, DONE);
  }

  lemma RequestIsSent(t: Transaction)
    requires Invariant(t) && t.pending == SendingRequest
    ensures var t' := React(t, DONE);
            && Invariant(t') && t'.pending == ReadingResponse && t'.responseBytes == ""
            && t'.requestBytes == t.requestBytes
  {
    hide Run, Told, Printer.Formatted;
    ReactKeeps(t, DONE);
  }

  lemma ResponseIsSent(t: Transaction)
    requires Invariant(t) && t.pending == SendingResponse
    ensures var t' := React(t, DONE);
            && Invariant(t') && t'.pending == Finished && t'.notification == ResponseComplete
            && t'.requestBytes == t.requestBytes && t'.responseBytes == t.responseBytes
  {
    hide Run, Told, Printer.Formatted;
    ReactKeeps(t, DONE);
  }

  /** The request is read, a connection opened, the request written, the response read
      and written; nothing fails. */
  function Exchange(request: seq<string>, response: seq<string>): seq<Event> {
    [Begin] + Reads(request) + [DONE] + [DONE] + Reads(response) + [DONE]
  }

  lemma ExchangeFinishes(readBuffer: string, remoteBuffer: string,
                         r: WireRequest, extra: string, request: seq<string>,
                         s: WireResponse, extra': string, response: seq<string>)
    requires IsWireRequest(r) && r.head.verb != "CONNECT" && HasHost(r) && Cuts(request, RequestText(r), extra)
    requires IsWireResponse(s) && Cuts(response, ResponseText(s), extra')
    ensures var t := Reach(readBuffer, remoteBuffer, Exchange(request, response));
            && t.pending == Finished && t.notification == ResponseComplete
            && t.requestBytes == RequestText(r) + extra && t.responseBytes == ResponseText(s) + extra'
  {
    hide React, Invariant, Run, RequestText, IsWireRequest, ResponseText, IsWireResponse, Cuts, HasHost, Reads;
    var t0 := Initial(readBuffer, remoteBuffer);
    var a := [Begin] + Reads(request);
    RequestComes(readBuffer, remoteBuffer, r, extra, request);
    RunsOn(t0, a, [DONE]);
    var t1 := ReactAll(t0, a);
    ReactOne(t1, DONE);
    ConnectionOpens(t1);
    RunsOn(t0, a + [DONE], [DONE]);
    var t2 := React(t1, DONE);
    ReactOne(t2, DONE);
    RequestIsSent(t2);
    var t3 := React(t2, DONE);
    ResponseRun(s, "");
    assert ResponseText(s) + "" == ResponseText(s);
    WholeResponseRead(t3, ResponseText(s), extra', response);
    RunsOn(t0, a + [DONE] + [DONE], Reads(response));
    var t4 := ReactAll(t3, Reads(response));
    RunsOn(t0, a + [DONE] + [DONE] + Reads(response), [DONE]);
    ReactOne(t4, DONE);
    ResponseIsSent(t4);
  }

  /** Take any request other than CONNECT that names a host, and any response, cut into
      reads anyhow, whatever else the last read of either brings. If every operation
      succeeds, the transaction ends without a failure and has emitted its start, the
      request read, the response headers read and its completion; the remote end has been
      sent the request as it prints, the client the response and what came with it; and
      request and response are what they say. */
  lemma ExchangeCompletes(readBuffer: string, remoteBuffer: string,
                          r: WireRequest, extra: string, request: seq<string>,
                          s: WireResponse, extra': string, response: seq<string>)
    requires IsWireRequest(r) && r.head.verb != "CONNECT" && HasHost(r) && Cuts(request, RequestText(r), extra)
    requires IsWireResponse(s) && Cuts(response, ResponseText(s), extra')
    ensures var t := Reach(readBuffer, remoteBuffer, Exchange(request, response));
            && t.pending == Finished && t.error == NoError
            && t.signals == [TransactionStart, RequestRead, ResponseHeadersRead, TransactionComplete]
            && t.request == RequestMeaning(r) && t.response == ResponseMeaning(s)
            && t.sentToRemote == [Printer.Formatted(RequestMeaning(r))]
            && t.sentToClient == [ResponseText(s) + extra']
            && t.clientCloses == 1 && t.remoteCloses == 1
  {
    hide ReactAll, Run, RequestText, IsWireRequest, ResponseText, IsWireResponse, Cuts, HasHost, Exchange,
         Printer.Formatted;
    var events := Exchange(request, response);
    ExchangeFinishes(readBuffer, remoteBuffer, r, extra, request, s, extra', response);
    FaithfulRelay(readBuffer, remoteBuffer, events);
    OrdinaryEnding(readBuffer, remoteBuffer, events);
    RequestRun(r, extra);
    ResponseRun(s, extra');
    EndsInOrder(readBuffer, remoteBuffer, events);
  }

  lemma EndsInOrder(readBuffer: string, remoteBuffer: string, events: seq<Event>)
    requires var t := Reach(readBuffer, remoteBuffer, events);
             t.pending == Finished && t.notification == ResponseComplete
    ensures var t := Reach(readBuffer, remoteBuffer, events);
            && t.error == NoError && t.clientCloses == 1 && t.remoteCloses == 1
            && t.signals == [TransactionStart, RequestRead, ResponseHeadersRead, TransactionComplete]
  {
    hide ReactAll, Run, SignalsBetween, Reached;
    ReachableInvariant(readBuffer, remoteBuffer, events);
    OrdinaryEnding(readBuffer, remoteBuffer, events);
  }

  const HOST := HeaderFields.Field("Host", "h")

  /** A short request for a page. */
  const GET := WireRequest(FirstLines.RequestHead("GET", "/", "1", "1"), [HeaderSections.Named(HOST)], Plain(""))

  lemma GetIsRequest()
    ensures IsWireRequest(GET) && HasHost(GET)
  {
    hide HeaderFields.Canonical, HeaderSections.HeadersOf, FramingOf;
    DeclaresNothing(HOST);
    assert HeaderSections.IsHeaderLine(HeaderSections.Named(HOST));
  }

  /** There is such an exchange. */
  lemma AnExchange(readBuffer: string, remoteBuffer: string) returns (events: seq<Event>)
    ensures var t := Reach(readBuffer, remoteBuffer, events);
            t.pending == Finished && t.error == NoError && t.sentToClient == [ResponseText(Reply(true))]
  {
    hide ReactAll, RequestText, IsWireRequest, ResponseText, IsWireResponse, HasHost, Exchange, TunnelReply, Flatten;
    var request, response := [RequestText(GET) + ""], [ResponseText(Reply(true)) + ""];
    GetIsRequest();
    OneRead(GET, "");
    ReplyText(true);
    OneResponseRead(Reply(true));
    ExchangeCompletes(readBuffer, remoteBuffer, GET, "", request, Reply(true), "", response);
    events := Exchange(request, response);
    assert ResponseText(Reply(true)) + "" == ResponseText(Reply(true));
  }

  lemma OneResponseRead(s: WireResponse)
    ensures Cuts([ResponseText(s) + ""], ResponseText(s), "")
  {
    var buffers := [ResponseText(s) + ""];
    assert buffers[..0] == [] && buffers[1..] == [];
    assert Flatten([]) == "";
    assert |ResponseText(s)| > 0;
  }

  lemma OpeningKnows(t: Transaction)
    requires Invariant(t) && t.pending.OpeningRemote?
    ensures RequestReceived(t) && t.responseBytes == ""
  {
    hide RequestReceived, Live, NamedByHost;
  }

  /** The signal is late: a run in which the request has been received whole, and that it
      has been read has not been signalled. */
  lemma ReceivedUnsignalled(readBuffer: string, remoteBuffer: string) returns (events: seq<Event>)
    ensures var t := Reach(readBuffer, remoteBuffer, events); RequestReceived(t) && RequestRead !in t.signals
  {
    hide ReactAll, Invariant, RequestText, IsWireRequest, RequestReceived, ResponseReceived, ResponseHeadersReceived;
    events := [Begin] + Reads([RequestText(GET) + ""]);
    GetIsRequest();
    OneRead(GET, "");
    RequestComes(readBuffer, remoteBuffer, GET, "", [RequestText(GET) + ""]);
    var t := Reach(readBuffer, remoteBuffer, events);
    OpeningKnows(t);
    NothingReceived(t);
    SignalledExactlyWhenDue(readBuffer, remoteBuffer, events);
  }

  // ----- a tunnel opens -----

  /** A CONNECT is read, a connection opened, the reply written, and both directions start
      to read. */
  function Opening(request: seq<string>): seq<Event> {
    [Begin] + Reads(request) + [DONE] + [DONE] + [UpEvent(Proceed)] + [DownEvent(Proceed)]
  }

  lemma TunnelConnects(t: Transaction)
    requires Invariant(t) && t.pending.OpeningTunnel?
    ensures var t' := React(t, DONE);
            && Invariant(t') && t'.pending == SendingReply(true, NoError) && t'.requestBytes == t.requestBytes
            && t'.up == t.up && t'.down == t.down
  {
    hide Run, Told, Names, TunnelReply;
    ReactKeeps(t, DONE);
  }

  lemma BothDirectionsRead(t: Transaction)
    requires Invariant(t) && t.pending == SendingReply(true, NoError)
    ensures var t' := React(React(React(t, DONE), UpEvent(Proceed)), DownEvent(Proceed));
            && t'.pending == Tunnelling && t'.requestBytes == t.requestBytes
            && t'.up == t.up.(state := Reading) && t'.down == t.down.(state := Reading)
            && t'.client && t'.remote
  {
    hide Run, Told, TunnelReply;
  }

  /** Every CONNECT, cut into reads anyhow, becomes a tunnel in which both directions read,
      if a connection is opened and the reply written. */
  lemma TunnelOpens(readBuffer: string, remoteBuffer: string, r: WireRequest, extra: string, request: seq<string>)
    requires IsWireRequest(r) && r.head.verb == "CONNECT" && Cuts(request, RequestText(r), extra)
    ensures var t := Reach(readBuffer, remoteBuffer, Opening(request));
            && t.pending == Tunnelling && t.requestBytes == RequestText(r) + extra
            && t.up == IdleHalf(readBuffer).(state := Reading)
            && t.down == IdleHalf(remoteBuffer).(state := Reading)
            && t.client && t.remote
  {
    hide React, Invariant, Run, RequestText, IsWireRequest, Cuts, Reads;
    var t0 := Initial(readBuffer, remoteBuffer);
    var a := [Begin] + Reads(request);
    RequestComes(readBuffer, remoteBuffer, r, extra, request);
    var t1 := ReactAll(t0, a);
    RunsOn(t0, a, [DONE]);
    ReactOne(t1, DONE);
    TunnelConnects(t1);
    var t2 := React(t1, DONE);
    RunsOn(t0, a + [DONE], [DONE]);
    ReactOne(t2, DONE);
    BothDirectionsRead(t2);
    RunsOn(t0, a + [DONE] + [DONE], [UpEvent(Proceed)]);
    ReactOne(React(t2, DONE), UpEvent(Proceed));
    RunsOn(t0, a + [DONE] + [DONE] + [UpEvent(Proceed)], [DownEvent(Proceed)]);
    ReactOne(React(React(t2, DONE), UpEvent(Proceed)), DownEvent(Proceed));
  }

  /** Bytes are lost: whatever follows the head of a CONNECT in the same read reaches
      neither the wire nor the buffer. */
  lemma TunnelLosesBytes(readBuffer: string, remoteBuffer: string, r: WireRequest, extra: string)
    requires IsWireRequest(r) && r.head.verb == "CONNECT"
    ensures var t := Reach(readBuffer, remoteBuffer, Opening([RequestText(r) + extra]));
            && t.pending == Tunnelling && Flowing(t.up)
            && AfterHead(t) == extra && t.up.delivered + InFlight(t.up) == ""
  {
    hide ReactAll, Run, RequestText, IsWireRequest, Opening;
    OneRead(r, extra);
    TunnelOpens(readBuffer, remoteBuffer, r, extra, [RequestText(r) + extra]);
    RequestRun(r, extra);
    assert (RequestText(r) + extra)[|RequestText(r)|..] == extra;
  }

  lemma OneRead(r: WireRequest, extra: string)
    ensures Cuts([RequestText(r) + extra], RequestText(r), extra)
  {
    var buffers := [RequestText(r) + extra];
    assert buffers[..0] == [] && buffers[1..] == [];
    assert Flatten([]) == "";
    assert |RequestText(r)| > 0;
  }

  // ----- how often a tunnel reports completion -----

  /** Along every run the directions that have begun to fail are as many as the operations
      of the tunnel that have failed. */
  lemma {:induction false} FaultsAreFailures(readBuffer: string, remoteBuffer: string, events: seq<Event>)
    ensures var t := Reach(readBuffer, remoteBuffer, events);
            var faults := Faults(Initial(readBuffer, remoteBuffer), events);
            if t.pending == Tunnelling then Failures(t.up) + Failures(t.down) == faults else faults == 0
  {
    hide React, Invariant, Fault;
    if events != [] {
      var init, last := events[..|events| - 1], events[|events| - 1];
      var t := Reach(readBuffer, remoteBuffer, init);
      FaultsAreFailures(readBuffer, remoteBuffer, init);
      ReachableInvariant(readBuffer, remoteBuffer, init);
      if t.pending == Tunnelling {
        FaultBeginsFailure(t, last);
        StaysTunnel(t, last);
      } else {
        NoFaultYet(t, last);
      }
    }
  }

  lemma StaysTunnel(t: Transaction, e: Event)
    requires Invariant(t) && t.pending == Tunnelling
    ensures React(t, e).pending == Tunnelling
  {
    hide React, TunnelInvariant, RequestReceived;
    TunnelKept(t, e);
    StillTunnelling(React(t, e));
  }

  lemma NoFaultYet(t: Transaction, e: Event)
    requires Invariant(t) && t.pending != Tunnelling
    ensures !Fault(t, e)
    ensures var t' := React(t, e); t'.pending == Tunnelling ==> Failures(t'.up) + Failures(t'.down) == 0
  {
    hide OnRequestRead, OnRemoteOpened, OnRequestSent, OnResponseRead, OnResponseSent, OnTunnelOpened, Run, Told,
         TunnelReply, TunnelInvariant, Ended, Begun;
    BegunReads(t);
    if e.Done? {
      NoTunnelYet(t, e.result, e.data);
    }
  }

  /** In every run, a tunnel that is over has reported as many completions, and as many
      failures, as operations of the tunnel failed; so it has completed exactly once if
      and only if exactly one of them did. Until then it has reported no more. */
  lemma TunnelCompletesOnceIff(readBuffer: string, remoteBuffer: string, events: seq<Event>)
    requires Reach(readBuffer, remoteBuffer, events).pending == Tunnelling
    ensures var t := Reach(readBuffer, remoteBuffer, events);
            var faults := Faults(Initial(readBuffer, remoteBuffer), events);
            && Count(t.signals, TransactionComplete) <= faults <= 2
            && (t.up.state.Stopped? && t.down.state.Stopped? ==>
                  && Count(t.signals, TransactionComplete) == Count(t.signals, TransactionFailed) == faults
                  && (Count(t.signals, TransactionComplete) == 1 <==> faults == 1)
                  && !t.client && !t.remote && t.clientCloses == 1 && t.remoteCloses == 1)
  {
    hide ReactAll, Faults, Run, RequestReceived;
    var t := Reach(readBuffer, remoteBuffer, events);
    ReachableInvariant(readBuffer, remoteBuffer, events);
    FaultsAreFailures(readBuffer, remoteBuffer, events);
    CompletionsSoFar(t);
    if t.up.state.Stopped? && t.down.state.Stopped? {
      SignalsAtEnd(t);
    }
  }

  lemma CompletionsSoFar(t: Transaction)
    requires TunnelInvariant(t)
    ensures Count(t.signals, TransactionComplete) <= Failures(t.up) + Failures(t.down)
  {
    hide Count, Conserves;
  }

  /** The shortest of all CONNECT requests. */
  const CONNECT := WireRequest(FirstLines.RequestHead("CONNECT", "h", "1", "1"), [], Plain(""))

  lemma ConnectIsRequest()
    ensures IsWireRequest(CONNECT)
  {
    HeaderSections.NoHeadersOf();
  }

  lemma ReplyFails(t: Transaction)
    requires t.pending == SendingReply(true, NoError)
    ensures var t' := React(t, Done(NetworkError, ""));
            t'.pending == Finished && t'.notification == Error && t'.error == NoError
  {}

  /** A failure without a reason: a run in which a tunnel is opened and the reply cannot be
      written. */
  lemma FailsWithoutReason(readBuffer: string, remoteBuffer: string) returns (events: seq<Event>)
    ensures var t := Reach(readBuffer, remoteBuffer, events);
            t.pending == Finished && t.notification == Error && t.error == NoError
  {
    hide React, Invariant, RequestText, IsWireRequest, Reads;
    var t0, a := Initial(readBuffer, remoteBuffer), [Begin] + Reads([RequestText(CONNECT) + ""]);
    ConnectIsRequest();
    OneRead(CONNECT, "");
    RequestComes(readBuffer, remoteBuffer, CONNECT, "", [RequestText(CONNECT) + ""]);
    var t1 := ReactAll(t0, a);
    TunnelConnects(t1);
    RunsOn(t0, a, [DONE]);
    ReactOne(t1, DONE);
    RunsOn(t0, a + [DONE], [Done(NetworkError, "")]);
    ReactOne(React(t1, DONE), Done(NetworkError, ""));
    ReplyFails(React(t1, DONE));
    events := a + [DONE] + [Done(NetworkError, "")];
  }

  /** A tunnel may end without any completion: both ends reach the end of their input. */
  lemma TunnelMayEndUnreported(readBuffer: string, remoteBuffer: string) returns (events: seq<Event>)
    ensures var t := Reach(readBuffer, remoteBuffer, events);
            && t.pending == Tunnelling && t.up.state.Stopped? && t.down.state.Stopped?
            && Count(t.signals, TransactionComplete) == 0
  {
    hide React, RequestText, IsWireRequest, Opening;
    var start := Opening([RequestText(CONNECT) + ""]);
    ConnectIsRequest();
    OneRead(CONNECT, "");
    TunnelOpens(readBuffer, remoteBuffer, CONNECT, "", [RequestText(CONNECT) + ""]);
    var t := Reach(readBuffer, remoteBuffer, start);
    var a, b := [UpEvent(ReadDone(Eof, "")), UpEvent(Proceed)], [DownEvent(ReadDone(Eof, "")), DownEvent(Proceed)];
    UpEnds(t);
    DownEnds(ReactAll(t, a));
    events := start + a + b;
    RunsOn(Initial(readBuffer, remoteBuffer), start, a);
    RunsOn(Initial(readBuffer, remoteBuffer), start + a, b);
    NoFaultsAtEnd(readBuffer, remoteBuffer, events);
  }

  lemma NoFaultsAtEnd(readBuffer: string, remoteBuffer: string, events: seq<Event>)
    requires var t := Reach(readBuffer, remoteBuffer, events);
             t.pending == Tunnelling && t.up.state == Stopped(false) && t.down.state == Stopped(false)
    ensures Count(Reach(readBuffer, remoteBuffer, events).signals, TransactionComplete) == 0
  {
    hide ReactAll, Faults, Run, RequestReceived;
    FaultsAreFailures(readBuffer, remoteBuffer, events);
    TunnelCompletesOnceIff(readBuffer, remoteBuffer, events);
  }

  lemma UpEnds(t: Transaction)
    requires t.pending == Tunnelling && t.up.state == Reading && !t.down.state.Blocked?
    ensures var t' := ReactAll(t, [UpEvent(ReadDone(Eof, "")), UpEvent(Proceed)]);
            t'.pending == Tunnelling && t'.up.state == Stopped(false) && t'.down == t.down
  {
    TwoEvents(t, UpEvent(ReadDone(Eof, "")), UpEvent(Proceed));
  }

  lemma DownEnds(t: Transaction)
    requires t.pending == Tunnelling && t.down.state == Reading
    ensures var t' := ReactAll(t, [DownEvent(ReadDone(Eof, "")), DownEvent(Proceed)]);
            t'.pending == Tunnelling && t'.down.state == Stopped(false) && t'.up == t.up
  {
    TwoEvents(t, DownEvent(ReadDone(Eof, "")), DownEvent(Proceed));
  }

  lemma TwoEvents(t: Transaction, a: Event, b: Event)
    ensures ReactAll(t, [a, b]) == React(React(t, a), b)
  {
    hide React;
    assert [a, b] == [a] + [b];
    RunsOn(t, [a], [b]);
    ReactOne(t, a);
    ReactOne(React(t, a), b);
  }

  const BYTE_READ := ReadDone(NoError, "x")
  const WRITE_FAILED := WriteDone(NetworkError)

  lemma UpWrites(t: Transaction)
    requires t.pending == Tunnelling && t.remote && t.up.state == Reading && t.up.buffer != "" && !t.down.state.Blocked?
    ensures var t' := ReactAll(t, [UpEvent(BYTE_READ), UpEvent(Proceed)]);
            && t'.pending == Tunnelling && t'.up.state.Writing? && t'.down == t.down
            && t'.client == t.client && t'.remote
  {
    TwoEvents(t, UpEvent(BYTE_READ), UpEvent(Proceed));
  }

  lemma DownWrites(t: Transaction)
    requires t.pending == Tunnelling && t.client && t.down.state == Reading && t.down.buffer != ""
    ensures var t' := ReactAll(t, [DownEvent(BYTE_READ), DownEvent(Proceed)]);
            t'.pending == Tunnelling && t'.down.state.Writing? && t'.up == t.up
  {
    TwoEvents(t, DownEvent(BYTE_READ), DownEvent(Proceed));
  }

  /** A write fails, and the direction goes through all of its ending. */
  function UpFails(): seq<Event> {
    [UpEvent(WRITE_FAILED), UpEvent(Proceed)] + [UpEvent(Proceed), UpEvent(Proceed)] + [UpEvent(Proceed)]
  }

  function DownFails(): seq<Event> {
    [DownEvent(WRITE_FAILED), DownEvent(Proceed)] + [DownEvent(Proceed), DownEvent(Proceed)] + [DownEvent(Proceed)]
  }

  lemma UpFailsToWrite(t: Transaction)
    requires t.pending == Tunnelling && t.up.state.Writing? && !t.down.state.Blocked?
    ensures var t' := ReactAll(t, UpFails());
            t'.pending == Tunnelling && t'.up.state == Stopped(true) && t'.down == t.down
  {
    hide React;
    var a, b := [UpEvent(WRITE_FAILED), UpEvent(Proceed)], [UpEvent(Proceed), UpEvent(Proceed)];
    RunsOn(t, a, b);
    RunsOn(t, a + b, [UpEvent(Proceed)]);
    UpFailsFirst(t);
    UpFailsSecond(ReactAll(t, a));
    UpFailsLast(ReactAll(ReactAll(t, a), b));
  }

  lemma UpFailsFirst(t: Transaction)
    requires t.pending == Tunnelling && t.up.state.Writing? && !t.down.state.Blocked?
    ensures var t' := ReactAll(t, [UpEvent(WRITE_FAILED), UpEvent(Proceed)]);
            t'.pending == Tunnelling && t'.up.state.FailingReleased? && t'.down == t.down
  {
    TwoEvents(t, UpEvent(WRITE_FAILED), UpEvent(Proceed));
  }

  lemma UpFailsSecond(t: Transaction)
    requires t.pending == Tunnelling && t.up.state.FailingReleased?
    ensures var t' := ReactAll(t, [UpEvent(Proceed), UpEvent(Proceed)]);
            t'.pending == Tunnelling && t'.up.state == FailureReleased && t'.down == t.down
  {
    TwoEvents(t, UpEvent(Proceed), UpEvent(Proceed));
  }

  lemma UpFailsLast(t: Transaction)
    requires t.pending == Tunnelling && t.up.state == FailureReleased
    ensures var t' := ReactAll(t, [UpEvent(Proceed)]);
            t'.pending == Tunnelling && t'.up.state == Stopped(true) && t'.down == t.down
  {
    ReactOne(t, UpEvent(Proceed));
  }

  lemma DownFailsToWrite(t: Transaction)
    requires t.pending == Tunnelling && t.down.state.Writing?
    ensures var t' := ReactAll(t, DownFails());
            t'.pending == Tunnelling && t'.down.state == Stopped(true) && t'.up == t.up
  {
    hide React;
    var a, b := [DownEvent(WRITE_FAILED), DownEvent(Proceed)], [DownEvent(Proceed), DownEvent(Proceed)];
    RunsOn(t, a, b);
    RunsOn(t, a + b, [DownEvent(Proceed)]);
    DownFailsFirst(t);
    DownFailsSecond(ReactAll(t, a));
    DownFailsLast(ReactAll(ReactAll(t, a), b));
  }

  lemma DownFailsFirst(t: Transaction)
    requires t.pending == Tunnelling && t.down.state.Writing?
    ensures var t' := ReactAll(t, [DownEvent(WRITE_FAILED), DownEvent(Proceed)]);
            t'.pending == Tunnelling && t'.down.state.FailingReleased? && t'.up == t.up
  {
    TwoEvents(t, DownEvent(WRITE_FAILED), DownEvent(Proceed));
  }

  lemma DownFailsSecond(t: Transaction)
    requires t.pending == Tunnelling && t.down.state.FailingReleased?
    ensures var t' := ReactAll(t, [DownEvent(Proceed), DownEvent(Proceed)]);
            t'.pending == Tunnelling && t'.down.state == FailureReleased && t'.up == t.up
  {
    TwoEvents(t, DownEvent(Proceed), DownEvent(Proceed));
  }

  lemma DownFailsLast(t: Transaction)
    requires t.pending == Tunnelling && t.down.state == FailureReleased
    ensures var t' := ReactAll(t, [DownEvent(Proceed)]);
            t'.pending == Tunnelling && t'.down.state == Stopped(true) && t'.up == t.up
  {
    ReactOne(t, DownEvent(Proceed));
  }

  /** A tunnel may report completion twice: both directions fail to write. */
  lemma TunnelMayEndReportedTwice(readBuffer: string, remoteBuffer: string) returns (events: seq<Event>)
    requires |readBuffer| == |remoteBuffer| == BUFFER_SIZE
    ensures var t := Reach(readBuffer, remoteBuffer, events);
            && t.pending == Tunnelling && t.up.state.Stopped? && t.down.state.Stopped?
            && Count(t.signals, TransactionComplete) == 2
  {
    hide React, RequestText, IsWireRequest, Opening, UpFails, DownFails;
    var t0, start := Initial(readBuffer, remoteBuffer), Opening([RequestText(CONNECT) + ""]);
    ConnectIsRequest();
    OneRead(CONNECT, "");
    TunnelOpens(readBuffer, remoteBuffer, CONNECT, "", [RequestText(CONNECT) + ""]);
    var a, b := [UpEvent(BYTE_READ), UpEvent(Proceed)], [DownEvent(BYTE_READ), DownEvent(Proceed)];
    RunsOn(t0, start, a);
    UpWrites(ReactAll(t0, start));
    RunsOn(t0, start + a, b);
    DownWrites(ReactAll(t0, start + a));
    RunsOn(t0, start + a + b, UpFails());
    UpFailsToWrite(ReactAll(t0, start + a + b));
    RunsOn(t0, start + a + b + UpFails(), DownFails());
    DownFailsToWrite(ReactAll(t0, start + a + b + UpFails()));
    events := start + a + b + UpFails() + DownFails();
    TwoFaultsAtEnd(readBuffer, remoteBuffer, events);
  }

  lemma TwoFaultsAtEnd(readBuffer: string, remoteBuffer: string, events: seq<Event>)
    requires var t := Reach(readBuffer, remoteBuffer, events);
             t.pending == Tunnelling && t.up.state == Stopped(true) && t.down.state == Stopped(true)
    ensures Count(Reach(readBuffer, remoteBuffer, events).signals, TransactionComplete) == 2
  {
    hide ReactAll, Faults, Run, RequestReceived;
    FaultsAreFailures(readBuffer, remoteBuffer, events);
    TunnelCompletesOnceIff(readBuffer, remoteBuffer, events);
  }
}
