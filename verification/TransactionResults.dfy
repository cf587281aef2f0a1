/** What the invariant of a transaction means for those who watch it: the ends of the
    connections, the listeners of the signals, and the two peers. Every result is
    about every state that any sequence of events reaches. */
module TransactionResults {
  import opened Bytes
  import HeaderFields
  import opened Parser
  import opened ParserRuns
  import opened FirstLines
  import opened HeaderLines
  import opened HeaderSections
  import opened WireMessages
  import opened Protocol
  import opened TunnelRuns
  import opened TransactionRuns
  import Printer = RequestPrinter
  import RoundTrip
  import ParsedRequests

  /** The state that a run of events leads to. */
  function Reach(readBuffer: string, remoteBuffer: string, events: seq<Event>): Transaction {
    ReactAll(Initial(readBuffer, remoteBuffer), events)
  }

  // ----- connections -----

  /** No thread ever waits for the mutex it holds: the failures that would be reported
      with the mutex held are never reported, because the connections that are tested
      there are never null. */
  lemma NoSelfDeadlock(readBuffer: string, remoteBuffer: string, events: seq<Event>)
    ensures Reach(readBuffer, remoteBuffer, events).pending != Deadlocked
  {
    hide ReactAll;
    ReachableInvariant(readBuffer, remoteBuffer, events);
  }

  /** Each connection is closed at most once, whichever ends meet and however two
      directions interleave; the client's connection has been closed exactly when it
      is null, and then the remote one is null too. */
  lemma ClosedAtMostOnce(readBuffer: string, remoteBuffer: string, events: seq<Event>)
    ensures var t := Reach(readBuffer, remoteBuffer, events);
            && t.clientCloses == (if t.client then 0 else 1)
            && t.remoteCloses <= 1
            && (t.remote ==> t.client && t.remoteCloses == 0)
  {
    hide ReactAll, Run, Told, EndedAt, Conserves, SignalsAgree;
    ReachableInvariant(readBuffer, remoteBuffer, events);
  }

  /** A remote connection has been opened at some point of the run. */
  predicate EverOpened(t: Transaction, events: seq<Event>) {
    ReactAll(t, events).remote || (events != [] && EverOpened(t, events[..|events| - 1]))
  }

  /** What a step does to the remote connection: it is opened, kept, or closed. */
  predicate RemoteMoves(t: Transaction, t': Transaction) {
    || (t'.remoteCloses == t.remoteCloses && (t.remote ==> t'.remote))
    || (t.remote && !t'.remote && t'.remoteCloses > t.remoteCloses)
  }

  lemma EndingMoves(t: Transaction, reason: ErrorCode)
    ensures RemoteMoves(t, Failed(t, reason)) && RemoteMoves(t, Completed(t))
  {}

  lemma ReadsMove(t: Transaction, ec: ErrorCode, data: string)
    ensures RemoteMoves(t, OnRequestRead(t, ec, data)) && RemoteMoves(t, OnResponseRead(t, ec, data))
  {
    hide Drive, PhasesNotified, HeaderFields.Find, HostAndPort, SignalsBetween, Failed, Rank;
    PhasesNotifiedFrame(RequestBase(t, data), RequestDriven(t, data).announced);
    PhasesNotifiedFrame(ResponseBase(t, data), ResponseDriven(t, data).announced);
    EndingMoves(t, if ec == Eof then ClientDisconnected else ec);
    EndingMoves(t, if ec == Eof then RemoteDisconnected else ec);
    EndingMoves(RequestParsed(t, data), MalformedRequest);
    EndingMoves(Notified(RequestParsed(t, data), RequestComplete), MalformedRequest);
    EndingMoves(ResponseParsed(t, data), MalformedResponse);
  }

  lemma OthersMove(t: Transaction, ec: ErrorCode)
    ensures RemoteMoves(t, OnRemoteOpened(t, ec)) && RemoteMoves(t, OnTunnelOpened(t, ec))
    ensures RemoteMoves(t, OnRequestSent(t, ec)) && RemoteMoves(t, OnResponseSent(t, ec))
    ensures t.pending.SendingReply? ==> RemoteMoves(t, OnReplySent(t, ec))
  {
    hide Failed, Completed, Printer.Formatted, TunnelReply;
    EndingMoves(t, ec);
    if t.pending.SendingReply? {
      EndingMoves(t, t.pending.openResult);
    }
  }

  lemma HalfRemoteMoves(t: Transaction, h: Half, destination: bool)
    ensures RemoteMoves(t, HalfProceeds(t, h, destination).0)
  {}

  lemma StepRemoteMoves(t: Transaction, e: Event)
    ensures RemoteMoves(t, React(t, e))
  {
    hide OnRequestRead, OnResponseRead, OnRemoteOpened, OnTunnelOpened, OnRequestSent, OnResponseSent, OnReplySent,
         HalfIo, HalfProceeds;
    if t.pending == Tunnelling {
      HalfRemoteMoves(t, t.up, t.remote);
      HalfRemoteMoves(t, t.down, t.client);
    } else if e.Done? {
      ReadsMove(t, e.result, e.data);
      OthersMove(t, e.result);
    }
  }

  lemma {:induction false} OpenedIsOpenOrClosed(readBuffer: string, remoteBuffer: string, events: seq<Event>)
    ensures var t := Reach(readBuffer, remoteBuffer, events);
            EverOpened(Initial(readBuffer, remoteBuffer), events) <==> t.remote || t.remoteCloses > 0
  {
    hide React;
    if events != [] {
      var init, last := events[..|events| - 1], events[|events| - 1];
      OpenedIsOpenOrClosed(readBuffer, remoteBuffer, init);
      StepRemoteMoves(Reach(readBuffer, remoteBuffer, init), last);
    }
  }

  /** No connection leaks: once the client's connection has been released, in any run, it has
      been closed once, and the remote one once if one was ever opened. */
  lemma ClosedOnceIfOpened(readBuffer: string, remoteBuffer: string, events: seq<Event>)
    requires !Reach(readBuffer, remoteBuffer, events).client
    ensures var t := Reach(readBuffer, remoteBuffer, events);
            && t.clientCloses == 1
            && t.remoteCloses == if EverOpened(Initial(readBuffer, remoteBuffer), events) then 1 else 0
  {
    hide ReactAll, EverOpened;
    ClosedAtMostOnce(readBuffer, remoteBuffer, events);
    OpenedIsOpenOrClosed(readBuffer, remoteBuffer, events);
  }

  /** A transaction that ends, or a tunnel both of whose directions have stopped, has released
      its connections. */
  lemma OverIsReleased(readBuffer: string, remoteBuffer: string, events: seq<Event>)
    requires var t := Reach(readBuffer, remoteBuffer, events);
             t.pending == Finished || (t.pending == Tunnelling && (t.up.state.Stopped? || t.down.state.Stopped?))
    ensures !Reach(readBuffer, remoteBuffer, events).client
  {
    hide ReactAll, Run, Told, EndedAt, Conserves, SignalsAgree, RequestReceived, TunnelAnnounced;
    ReachableInvariant(readBuffer, remoteBuffer, events);
  }

  lemma HalfStaysReleased(t: Transaction, h: Half, destination: bool)
    requires !t.client && !t.remote
    ensures var t' := HalfProceeds(t, h, destination).0;
            && !t'.client && !t'.remote
            && t'.clientCloses == t.clientCloses && t'.remoteCloses == t.remoteCloses
  {}

  lemma TunnelStaysReleased(t: Transaction, e: Event)
    requires t.pending == Tunnelling && !t.client && !t.remote
    ensures var t' := React(t, e);
            && !t'.client && !t'.remote
            && t'.clientCloses == t.clientCloses && t'.remoteCloses == t.remoteCloses
  {
    hide HalfIo, HalfProceeds;
    HalfStaysReleased(t, t.up, t.remote);
    HalfStaysReleased(t, t.down, t.client);
  }

  lemma StaysReleased(t: Transaction, e: Event)
    requires Invariant(t) && !t.client
    ensures var t' := React(t, e);
            && !t'.client && !t'.remote
            && t'.clientCloses == t.clientCloses && t'.remoteCloses == t.remoteCloses
  {
    hide Run, Told, EndedAt, Conserves, SignalsAgree, UpReacts, DownReacts;
    if t.pending == Tunnelling {
      TunnelStaysReleased(t, e);
    }
  }

  /** Once released, both connections stay null, and neither is closed again. */
  lemma {:induction false} ReleasedForever(readBuffer: string, remoteBuffer: string,
                                           events: seq<Event>, more: seq<Event>)
    requires !Reach(readBuffer, remoteBuffer, events).client
    ensures var t, t' := Reach(readBuffer, remoteBuffer, events), Reach(readBuffer, remoteBuffer, events + more);
            && !t'.client && !t'.remote
            && t'.clientCloses == t.clientCloses && t'.remoteCloses == t.remoteCloses
    decreases |more|
  {
    hide React, Invariant;
    if more == [] {
      assert events + more == events;
      hide ReactAll;
      ClosedAtMostOnce(readBuffer, remoteBuffer, events);
    } else {
      var init, last := more[..|more| - 1], more[|more| - 1];
      ReleasedForever(readBuffer, remoteBuffer, events, init);
      assert (events + more)[..|events + more| - 1] == events + init;
      ReachableInvariant(readBuffer, remoteBuffer, events + init);
      StaysReleased(Reach(readBuffer, remoteBuffer, events + init), last);
    }
  }

  /** The connection that is asked for is the one the request names: the first Host value,
      or the target of a CONNECT, cut at its first colon. */
  lemma RemoteIsNamed(readBuffer: string, remoteBuffer: string, events: seq<Event>)
    ensures var t := Reach(readBuffer, remoteBuffer, events);
            && (t.pending.OpeningRemote? ==> !IsConnect(t) && NamedByHost(t, t.pending.host, t.pending.port))
            && (t.pending.OpeningTunnel? ==>
                  IsConnect(t) && Names(t.request.uri, t.pending.host, t.pending.port, "443"))
  {
    hide ReactAll, Run, NamedByHost, Names, Told;
    ReachableInvariant(readBuffer, remoteBuffer, events);
  }

  lemma ReadsFailWithReason(t: Transaction, ec: ErrorCode, data: string)
    requires Live(t)
    ensures t.pending != Finished && OnRequestRead(t, ec, data).pending == Finished ==>
              OnRequestRead(t, ec, data).error != NoError
    ensures t.pending != Finished && OnResponseRead(t, ec, data).pending == Finished ==>
              OnResponseRead(t, ec, data).error != NoError
  {
    hide Run, SignalsBetween, Drive, PhasesNotified, HeaderFields.Find, HostAndPort, Told;
    PhasesNotifiedFrame(RequestBase(t, data), RequestDriven(t, data).announced);
    PhasesNotifiedFrame(ResponseBase(t, data), ResponseDriven(t, data).announced);
  }

  lemma OrdinaryFailureReason(t: Transaction, e: Event)
    requires Invariant(t) && t.pending != Finished && t.pending != Tunnelling
    requires React(t, e).pending == Finished && React(t, e).notification == Error
    ensures React(t, e).error == NoError <==> t.pending.SendingReply? && t.pending.connected
  {
    hide OnRequestRead, OnResponseRead, Run, TunnelReply, Printer.Formatted, Told, NamedByHost, Names, Ended,
         TunnelInvariant;
    if Live(t) && e.Done? {
      ReadsFailWithReason(t, e.result, e.data);
    }
  }

  lemma FailedIsOver(t: Transaction)
    requires Invariant(t) && t.notification == Error
    ensures t.pending == Finished || t.pending == Tunnelling
    ensures t.pending == Tunnelling ==> t.error != NoError
  {
    hide Run, SignalsBetween, Ended, TunnelInvariant, Reached;
  }

  lemma TunnelBeginsWell(t: Transaction, e: Event)
    requires t.pending != Tunnelling && React(t, e).pending == Tunnelling
    ensures React(t, e).notification == t.notification
  {
    hide Begun, OnRequestRead, OnRemoteOpened, OnRequestSent, OnResponseRead, OnResponseSent, OnTunnelOpened;
    if e.Done? {
      NoTunnelYet(t, e.result, e.data);
    }
    BegunReads(t);
  }

  lemma BegunReads(t: Transaction)
    ensures Begun(t).pending != Tunnelling
  {}

  lemma ReadsOpenNoTunnel(t: Transaction, ec: ErrorCode, data: string)
    requires t.pending != Tunnelling
    ensures OnRequestRead(t, ec, data).pending != Tunnelling && OnResponseRead(t, ec, data).pending != Tunnelling
  {
    hide Drive, PhasesNotified, HeaderFields.Find, HostAndPort, SignalsBetween;
  }

  lemma NoTunnelYet(t: Transaction, ec: ErrorCode, data: string)
    requires t.pending != Tunnelling
    ensures OnRequestRead(t, ec, data).pending != Tunnelling && OnResponseRead(t, ec, data).pending != Tunnelling
    ensures OnRemoteOpened(t, ec).pending != Tunnelling && OnTunnelOpened(t, ec).pending != Tunnelling
    ensures OnRequestSent(t, ec).pending != Tunnelling && OnResponseSent(t, ec).pending != Tunnelling
  {
    hide OnRequestRead, OnResponseRead, Printer.Formatted, TunnelReply, Failed, Completed;
    ReadsOpenNoTunnel(t, ec, data);
    FailedIsFinished(t, ec);
  }

  lemma FailedIsFinished(t: Transaction, reason: ErrorCode)
    ensures Failed(t, reason).pending == Finished && Completed(t).pending == Finished
  {}

  /** The event that makes a transaction fail gives it a reason, except exactly when a
      tunnel was opened but the client could not be told: then the success of opening is
      reported as the reason. */
  lemma FailureReasonIff(t: Transaction, e: Event)
    requires Invariant(t) && t.notification != Error && React(t, e).notification == Error
    ensures React(t, e).error == NoError <==> t.pending.SendingReply? && t.pending.connected
  {
    hide React, Invariant;
    ReactKeeps(t, e);
    FailedIsOver(React(t, e));
    if React(t, e).pending == Tunnelling {
      if t.pending != Tunnelling {
        TunnelBeginsWell(t, e);
      }
    } else {
      StillRunning(t, e);
      OrdinaryFailureReason(t, e);
    }
  }

  lemma StillRunning(t: Transaction, e: Event)
    requires Invariant(t) && t.notification != Error
    requires React(t, e).notification == Error && React(t, e).pending == Finished
    ensures t.pending != Finished && t.pending != Tunnelling
  {
    hide OnRequestRead, OnRemoteOpened, OnRequestSent, OnResponseRead, OnResponseSent, OnTunnelOpened, OnReplySent,
         Begun, HalfIo, HalfProceeds, Ended, TunnelInvariant;
    HalfStays(t, t.up, t.remote);
    HalfStays(t, t.down, t.client);
  }

  lemma HalfStays(t: Transaction, h: Half, destination: bool)
    ensures HalfProceeds(t, h, destination).0.pending == t.pending
  {}

  /** Over whole runs, tunnels included: a transaction that has failed is without a reason
      if and only if it ended as a CONNECT whose client was sent the reply that the tunnel
      is open. */
  lemma ReasonlessFailureIff(readBuffer: string, remoteBuffer: string, events: seq<Event>)
    requires Reach(readBuffer, remoteBuffer, events).notification == Error
    ensures var t := Reach(readBuffer, remoteBuffer, events);
            t.error == NoError <==> t.pending == Finished && TunnelAnnounced(t)
  {
    hide ReactAll, Run, Reached, TunnelAnnounced;
    var t := Reach(readBuffer, remoteBuffer, events);
    ReachableInvariant(readBuffer, remoteBuffer, events);
    FailedIsOver(t);
  }

  const AGENT := HeaderFields.Field("Proxy-Agent", "amanuensis 0.1.0")

  lemma AgentIsField()
    ensures IsField(AGENT)
  {}

  lemma DeclaresNothing(f: HeaderFields.Field)
    requires |f.name| != |"Transfer-Encoding"| && |f.name| != |"Content-Length"|
    ensures FramingOf(HeadersOf([Named(f)])) == NoBody
    ensures HeadersOf([Named(f)]) == HeaderFields.Inserted(HeaderFields.NO_HEADERS, f.name, f.value)
  {
    hide HeaderFields.Canonical, HeadersOf;
    OneMoreLine([], Named(f));
    NoHeadersOf();
    assert [] + [Named(f)] == [Named(f)];
  }

  /** The reply as a response of the grammar. */
  function Reply(connected: bool): WireResponse {
    WireResponse(if connected then StatusHead("1", "1", "200", "OK") else StatusHead("1", "1", "400", "Bad Request"),
                 [Named(AGENT)], Plain(""))
  }

  lemma AgentLine()
    ensures Content(Named(AGENT)) + "\r\n" == "Proxy-Agent: amanuensis 0.1.0\r\n"
  {}

  lemma ReplySection()
    ensures IsSection([Named(AGENT)], Plain(""))
    ensures SectionText([Named(AGENT)], Plain("")) == "Proxy-Agent: amanuensis 0.1.0\r\n" + "\r\n"
  {
    hide FramingOf, IsField, HeadersOf, LinesText, Content;
    AgentIsField();
    DeclaresNothing(AGENT);
    AgentLine();
    NoText();
    OneMoreLine([], Named(AGENT));
    assert [] + [Named(AGENT)] == [Named(AGENT)];
    var line := Content(Named(AGENT));
    assert "" + line + "\r\n" == line + "\r\n";
  }

  lemma StatusTexts()
    ensures StatusHeadText(StatusHead("1", "1", "200", "OK")) == "HTTP/1.1 200 OK\r\n"
    ensures StatusHeadText(StatusHead("1", "1", "400", "Bad Request")) == "HTTP/1.1 400 Bad Request\r\n"
  {}

  lemma NoText()
    ensures LinesText([]) == ""
  {}

  lemma ReplyNumbers()
    ensures IsNumber("1") && IsNumber("200") && IsNumber("400")
    ensures DecimalValue("1") == 1 && DecimalValue("200") == 200 && DecimalValue("400") == 400
  {
    assert "1"[..0] == "";
    assert "200"[..2] == "20" && "20"[..1] == "2" && "2"[..0] == "";
    assert "400"[..2] == "40" && "40"[..1] == "4" && "4"[..0] == "";
  }

  lemma ReplyPhrase(s: string)
    requires s == "OK" || s == "Bad Request"
    ensures IsPhrase(s)
  {}

  lemma ReplyText(connected: bool)
    ensures IsWireResponse(Reply(connected)) && ResponseText(Reply(connected)) == TunnelReply(connected)
  {
    hide IsNumber, IsPhrase, IsSection, SectionText, DecimalValue, StatusHeadText;
    ReplySection();
    StatusTexts();
    ReplyNumbers();
    ReplyPhrase(Reply(connected).head.phrase);
  }

  /** What a client asking for a tunnel is told is a complete response, with status 200
      when the tunnel has been opened and 400 when it has not. */
  lemma TunnelReplyUnderstood(connected: bool)
    ensures var r := Run(RESPONSE_PARSER, TunnelReply(connected));
            && r.outcome == Valid && r.consumed == |TunnelReply(connected)|
            && r.config.message.statusCode == (if connected then 200 else 400)
            && r.config.message.majorVersion == 1 && r.config.message.minorVersion == 1
            && r.config.message.body == ""
  {
    hide Run, IsWireResponse, ResponseText, TunnelReply, DecimalValue, HeadersOf;
    ReplyText(connected);
    ReplyNumbers();
    ResponseRun(Reply(connected), "");
    assert TunnelReply(connected) + "" == TunnelReply(connected);
  }

  // ----- signals -----

  lemma {:induction false} SignalsOf(ns: NotificationState)
    requires Rank(ns) <= Rank(ResponseComplete)
    ensures SignalsBetween(NoneYet, ns)
         == (if Rank(ns) > Rank(RequestComplete) then [RequestRead] else [])
            + (if Rank(ns) > Rank(ResponseHeaders) then [ResponseHeadersRead] else [])
  {
    if Rank(ns) <= Rank(RequestComplete) {
      SignalsUpTo(NoneYet, ns);
    } else {
      hide SignalsBetween;
      SignalsChain(NoneYet, RequestComplete, ns);
      SignalsUpTo(NoneYet, RequestComplete);
      SignalsAfterRequest(ns);
    }
  }

  lemma SignalsAfterRequest(ns: NotificationState)
    requires Rank(RequestComplete) < Rank(ns) <= Rank(ResponseComplete)
    ensures SignalsBetween(RequestComplete, ns)
         == [RequestRead] + (if Rank(ns) > Rank(ResponseHeaders) then [ResponseHeadersRead] else [])
  {
    assert SignalsBetween(ResponseComplete, ns) == [];
    assert Rank(ns) > Rank(ResponseBody) ==> SignalsBetween(ResponseBody, ns) == [];
    assert Rank(ns) > Rank(ResponseHeaders) ==> SignalsBetween(ResponseHeaders, ns) == [ResponseHeadersRead];
  }

  /** The order in which an ordinary transaction emits its signals: those of the
      optional two that it emits at all come between the start and the ending. */
  predicate OrdinarySignals(signals: seq<Signal>, ending: seq<Signal>) {
    && (ResponseHeadersRead in signals ==> RequestRead in signals)
    && signals == [TransactionStart] + (if RequestRead in signals then [RequestRead] else [])
                  + (if ResponseHeadersRead in signals then [ResponseHeadersRead] else []) + ending
  }

  /** How the signals of a transaction that is over end. */
  function Ending(t: Transaction): seq<Signal> {
    if t.notification == Error then [TransactionFailed, TransactionComplete] else [TransactionComplete]
  }

  /** A signal is emitted exactly when it is due, which is late: the request read once the
      request has been parsed to its end and the response's header section has been
      received, the response headers read once the response has been parsed to its end. */
  predicate SignalsDue(t: Transaction) {
    && (RequestRead in t.signals <==> RequestReceived(t) && ResponseHeadersReceived(t))
    && (ResponseHeadersRead in t.signals <==> ResponseReceived(t))
  }

  /** The optional signals, when both or the first or neither come. */
  function Optional(first: bool, second: bool): seq<Signal> {
    (if first then [RequestRead] else []) + (if second then [ResponseHeadersRead] else [])
  }

  lemma SignalsShape(signals: seq<Signal>, first: bool, second: bool, ending: seq<Signal>)
    requires signals == [TransactionStart] + Optional(first, second) + ending
    requires second ==> first
    requires RequestRead !in ending && ResponseHeadersRead !in ending
    ensures RequestRead in signals <==> first
    ensures ResponseHeadersRead in signals <==> second
    ensures OrdinarySignals(signals, ending)
  {
    if first {
      assert signals[1] == RequestRead;
    }
    if second {
      assert signals[2] == ResponseHeadersRead;
    }
  }

  lemma SignalsOfEnded(t: Transaction, ns: NotificationState)
    requires EndedAt(t, ns)
    ensures OrdinarySignals(t.signals, Ending(t)) && SignalsDue(t)
    ensures t.notification != Error ==> RequestRead in t.signals && ResponseHeadersRead in t.signals
  {
    hide Run, SignalsBetween, OrdinarySignals, RequestReceived, ResponseReceived, ResponseHeadersReceived;
    SignalsOf(ns);
    SignalsShape(t.signals, Rank(ns) > Rank(RequestComplete), Rank(ns) > Rank(ResponseHeaders), Ending(t));
  }

  /** A transaction that ends without a tunnel has emitted, in this order: its start;
      the request read, at most once; the response headers read, at most once; a
      failure, at most once; and one completion, last. Each of the two in the middle has
      been emitted exactly if it was due, and without a failure both have been. */
  lemma OrdinaryEnding(readBuffer: string, remoteBuffer: string, events: seq<Event>)
    requires Reach(readBuffer, remoteBuffer, events).pending == Finished
    ensures var t := Reach(readBuffer, remoteBuffer, events);
            && OrdinarySignals(t.signals, Ending(t)) && SignalsDue(t)
            && (t.notification != Error ==> RequestRead in t.signals && ResponseHeadersRead in t.signals)
  {
    hide ReactAll, Run, SignalsBetween, EndedAt, OrdinarySignals;
    ReachableInvariant(readBuffer, remoteBuffer, events);
    var t := Reach(readBuffer, remoteBuffer, events);
    var ns :| EndedAt(t, ns);
    SignalsOfEnded(t, ns);
  }

  lemma SignalsOfLive(t: Transaction)
    requires Live(t) && Reached(t, t.notification)
    ensures OrdinarySignals(t.signals, []) && SignalsDue(t)
  {
    hide Run, SignalsBetween, OrdinarySignals, RequestReceived, ResponseReceived, ResponseHeadersReceived;
    SignalsOf(t.notification);
    assert t.signals == t.signals + [];
    SignalsShape(t.signals, Rank(t.notification) > Rank(RequestComplete),
                 Rank(t.notification) > Rank(ResponseHeaders), []);
  }

  lemma LiveHasReached(t: Transaction)
    requires Invariant(t) && t.pending != NotBegun && t.pending != Tunnelling && t.pending != Finished
    ensures Live(t) && Reached(t, t.notification)
  {
    hide Run, Told, Printer.Formatted, TunnelReply, NamedByHost, Names;
    if t.responseBytes == "" {
      NothingReceived(t);
    }
  }

  /** Until a transaction ends or becomes a tunnel, and even if the process stops, it has
      emitted nothing that ends it, and what was due and nothing else. */
  lemma NothingEndsEarly(readBuffer: string, remoteBuffer: string, events: seq<Event>)
    requires var t := Reach(readBuffer, remoteBuffer, events);
             t.pending != NotBegun && t.pending != Tunnelling && t.pending != Finished
    ensures var t := Reach(readBuffer, remoteBuffer, events);
            OrdinarySignals(t.signals, []) && SignalsDue(t)
  {
    hide ReactAll, Invariant, Live, Reached, OrdinarySignals, SignalsDue;
    ReachableInvariant(readBuffer, remoteBuffer, events);
    LiveHasReached(Reach(readBuffer, remoteBuffer, events));
    SignalsOfLive(Reach(readBuffer, remoteBuffer, events));
  }

  /** In every state of every run, of a tunnel too, each of the two signals has been emitted
      exactly if it was due. */
  lemma SignalledExactlyWhenDue(readBuffer: string, remoteBuffer: string, events: seq<Event>)
    ensures SignalsDue(Reach(readBuffer, remoteBuffer, events))
  {
    hide ReactAll, Run, RequestReceived, ResponseReceived, ResponseHeadersReceived, OrdinarySignals, Live, Ended,
         TunnelInvariant, Reached;
    var t := Reach(readBuffer, remoteBuffer, events);
    ReachableInvariant(readBuffer, remoteBuffer, events);
    if t.pending == Finished {
      OrdinaryEnding(readBuffer, remoteBuffer, events);
    } else if t.pending == Tunnelling {
      NothingReceived(t);
      TunnelSignals(t);
    } else if t.pending == NotBegun {
      NothingReceived(t);
    } else {
      NothingEndsEarly(readBuffer, remoteBuffer, events);
    }
  }

  lemma TunnelSignals(t: Transaction)
    requires TunnelInvariant(t)
    ensures RequestRead !in t.signals && ResponseHeadersRead !in t.signals && ResponseRead !in t.signals
  {
    hide Count, Conserves, ConnectionsAgree;
    CountOfMember(t.signals, RequestRead);
    CountOfMember(t.signals, ResponseHeadersRead);
    CountOfMember(t.signals, ResponseRead);
  }

  /** The signal for a response read is never emitted, in any run of any kind. */
  lemma ResponseReadNeverEmitted(readBuffer: string, remoteBuffer: string, events: seq<Event>)
    ensures ResponseRead !in Reach(readBuffer, remoteBuffer, events).signals
  {
    hide ReactAll, RequestReceived, TunnelAnnounced, FailuresExplained, OrdinarySignals, SignalsDue, TunnelInvariant,
         Ended, Live;
    ReachableInvariant(readBuffer, remoteBuffer, events);
    var t := Reach(readBuffer, remoteBuffer, events);
    if t.pending == Finished {
      OrdinaryEnding(readBuffer, remoteBuffer, events);
      NotAmongOrdinary(t.signals, Ending(t));
    } else if t.pending == Tunnelling {
      TunnelSignals(t);
    } else if t.pending != NotBegun {
      NothingEndsEarly(readBuffer, remoteBuffer, events);
      NotAmongOrdinary(t.signals, []);
    }
  }

  lemma NotAmongOrdinary(signals: seq<Signal>, ending: seq<Signal>)
    requires OrdinarySignals(signals, ending) && ResponseRead !in ending
    ensures ResponseRead !in signals
  {}

  lemma {:induction false} CountOfMember(signals: seq<Signal>, s: Signal)
    ensures s in signals <==> Count(signals, s) > 0
  {
    if signals != [] {
      CountOfMember(signals[..|signals| - 1], s);
    }
  }

  lemma ErrorIsHighest(t: Transaction, reason: ErrorCode, low: NotificationState)
    ensures Rank(low) <= Rank(Failed(t, reason).notification)
  {}

  lemma RequestReadRank(t: Transaction, ec: ErrorCode, data: string)
    ensures Rank(t.notification) <= Rank(OnRequestRead(t, ec, data).notification)
  {
    hide SignalsBetween, Drive, PhasesNotified, HeaderFields.Find, HostAndPort, Rank, Failed;
    PhasesNeverDecrease(RequestBase(t, data), RequestDriven(t, data).announced);
    var t' := RequestParsed(t, data);
    ErrorIsHighest(t, if ec == Eof then ClientDisconnected else ec, t.notification);
    ErrorIsHighest(t', MalformedRequest, t.notification);
    ErrorIsHighest(Notified(t', RequestComplete), MalformedRequest, t.notification);
  }

  lemma ResponseReadRank(t: Transaction, ec: ErrorCode, data: string)
    ensures Rank(t.notification) <= Rank(OnResponseRead(t, ec, data).notification)
  {
    hide SignalsBetween, Drive, PhasesNotified, Rank, Failed;
    PhasesNeverDecrease(ResponseBase(t, data), ResponseDriven(t, data).announced);
    ErrorIsHighest(t, if ec == Eof then RemoteDisconnected else ec, t.notification);
    ErrorIsHighest(ResponseParsed(t, data), MalformedResponse, t.notification);
  }

  lemma HalfRank(t: Transaction, h: Half, destination: bool)
    ensures Rank(t.notification) <= Rank(HalfProceeds(t, h, destination).0.notification)
  {
    hide Rank;
    ErrorIsLast(t.notification);
  }

  lemma TunnelRank(t: Transaction, e: Event)
    requires t.pending == Tunnelling
    ensures Rank(t.notification) <= Rank(React(t, e).notification)
  {
    hide HalfIo, HalfProceeds, Rank;
    match e {
      case UpEvent(_) => HalfRank(t, t.up, t.remote);
      case DownEvent(_) => HalfRank(t, t.down, t.client);
      case _ =>
    }
  }

  lemma OpeningsRank(t: Transaction, ec: ErrorCode)
    ensures Rank(t.notification) <= Rank(OnRemoteOpened(t, ec).notification)
    ensures Rank(t.notification) <= Rank(OnTunnelOpened(t, ec).notification)
    ensures t.pending.SendingReply? ==> Rank(t.notification) <= Rank(OnReplySent(t, ec).notification)
  {
    hide Failed, Rank, Printer.Formatted, TunnelReply;
    ErrorIsHighest(t, ec, t.notification);
    if t.pending.SendingReply? {
      ErrorIsHighest(t, t.pending.openResult, t.notification);
    }
  }

  lemma WritesRank(t: Transaction, ec: ErrorCode)
    ensures Rank(t.notification) <= Rank(OnRequestSent(t, ec).notification)
    ensures Rank(t.notification) <= Rank(OnResponseSent(t, ec).notification)
  {
    hide Failed, Rank;
    ErrorIsHighest(t, ec, t.notification);
  }

  /** The notification state never moves back. */
  lemma NotificationNeverDecreases(t: Transaction, e: Event)
    ensures Rank(t.notification) <= Rank(React(t, e).notification)
  {
    hide Rank, OnRequestRead, OnResponseRead, OnRemoteOpened, OnTunnelOpened, OnReplySent, OnRequestSent,
         OnResponseSent;
    if t.pending == Tunnelling {
      TunnelRank(t, e);
    } else if e.Done? {
      RequestReadRank(t, e.result, e.data);
      ResponseReadRank(t, e.result, e.data);
      OpeningsRank(t, e.result);
      WritesRank(t, e.result);
    }
  }

  /** The transaction with a read parsed and nothing announced yet. */
  function RequestBase(t: Transaction, data: string): Transaction {
    var d := RequestDriven(t, data);
    t.(parser := d.config.parser, request := d.config.message, requestPhase := d.phase,
       requestBytes := t.requestBytes + data)
  }

  function ResponseBase(t: Transaction, data: string): Transaction {
    var d := ResponseDriven(t, data);
    t.(parser := d.config.parser, response := d.config.message, responsePhase := d.phase,
       raw := t.raw + data, responseBytes := t.responseBytes + data)
  }

  lemma {:induction false} PhasesNeverDecrease(t: Transaction, phases: seq<ParsePhase>)
    ensures Rank(t.notification) <= Rank(PhasesNotified(t, phases).notification)
    decreases |phases|
  {
    hide SignalsBetween;
    if phases != [] {
      PhasesNeverDecrease(PhaseNotified(t, phases[0]), phases[1..]);
    }
  }

  // ----- the relay -----

  /** Faithful relay: when a transaction ends without a tunnel and without a failure,
      the client has been sent, in one write, exactly the bytes read from the remote
      end, and the recorded request and response are what a fresh parser makes of all
      the bytes read from either end in one go, whatever the sizes of the reads. */
  lemma FaithfulRelay(readBuffer: string, remoteBuffer: string, events: seq<Event>)
    requires var t := Reach(readBuffer, remoteBuffer, events); t.pending == Finished && t.notification != Error
    ensures var t := Reach(readBuffer, remoteBuffer, events);
            var request, response := Run(REQUEST_PARSER, t.requestBytes), Run(RESPONSE_PARSER, t.responseBytes);
            && t.sentToClient == [t.responseBytes]
            && request.outcome == Valid && t.request == request.config.message
            && response.outcome == Valid && t.response == response.config.message
            && t.sentToRemote == [Printer.Formatted(t.request)]
  {
    hide ReactAll, Run, SignalsBetween, Reached;
    ReachableInvariant(readBuffer, remoteBuffer, events);
  }

  lemma SentSoFar(t: Transaction)
    requires Invariant(t)
    ensures SentAsDue(t)
  {
    hide Run, Live, Reached, TunnelInvariant, FailuresExplained, TunnelReply, Printer.Formatted, NamedByHost, Names,
         SignalsBetween;
  }

  /** In every state of every run, failing ones too: the remote end has been sent nothing, or
      once the request as it prints; the client nothing, or once the whole response after
      it has been received, or once the reply to its CONNECT. */
  lemma SentOnlyAsDue(readBuffer: string, remoteBuffer: string, events: seq<Event>)
    ensures SentAsDue(Reach(readBuffer, remoteBuffer, events))
  {
    hide ReactAll, Invariant, SentAsDue;
    ReachableInvariant(readBuffer, remoteBuffer, events);
    SentSoFar(Reach(readBuffer, remoteBuffer, events));
  }

  /** What the remote end is sent, for 7-bit bodies: it parses there as the client's
      request with repeated headers joined, newest first, if and only if the request was
      not chunked, had no folded line that left a value under the empty name, and gave
      its length at most once; and as exactly the client's request if and only if,
      besides, it repeated no name at all. */
  lemma RemoteUnderstandsIff(readBuffer: string, remoteBuffer: string, events: seq<Event>)
    requires var t := Reach(readBuffer, remoteBuffer, events);
             t.pending == Finished && t.notification != Error && SevenBit(t.request.body)
    ensures var t := Reach(readBuffer, remoteBuffer, events);
            var h := t.request.headers;
            && t.sentToRemote == [Printer.Formatted(t.request)]
            && (RoundTrip.Recovers(t.request)
                <==> && !FramingOf(h).Chunked?
                     && "" !in h.values
                     && |HeaderFields.Find(h, HeaderFields.Spelling(HeaderFields.ContentLength))| <= 1)
            && (RoundTrip.RecoversExactly(t.request)
                <==> && !FramingOf(h).Chunked?
                     && "" !in h.values
                     && RoundTrip.OneValueEach(h))
  {
    hide ReactAll, Run, FramingOf, RoundTrip.Recovers, RoundTrip.RecoversExactly, RoundTrip.OneValueEach,
         HeaderFields.Find;
    FaithfulRelay(readBuffer, remoteBuffer, events);
    ParsedRequests.ForwardedRequestIff(Reach(readBuffer, remoteBuffer, events).requestBytes);
  }

  /** In every state of a tunnel, for each direction: what has been put on the wire
      comes first in what has been read, and while the direction flows the rest of it
      is in the direction's buffer. */
  lemma TunnelConserves(readBuffer: string, remoteBuffer: string, events: seq<Event>)
    requires Reach(readBuffer, remoteBuffer, events).pending == Tunnelling
    ensures var t := Reach(readBuffer, remoteBuffer, events);
            && t.up.delivered <= t.up.received && t.down.delivered <= t.down.received
            && (Flowing(t.up) ==> t.up.received == t.up.delivered + InFlight(t.up))
            && (Flowing(t.down) ==> t.down.received == t.down.delivered + InFlight(t.down))
  {
    hide ReactAll, Run, SignalsAgree, ConnectionsAgree;
    ReachableInvariant(readBuffer, remoteBuffer, events);
  }

  /** The bytes that the client has sent after the head of its CONNECT: those that came in
      the read that completed it, and those read since. */
  function AfterHead(t: Transaction): string {
    t.requestBytes[Run(REQUEST_PARSER, t.requestBytes).consumed..] + t.up.received
  }

  /** While the client's direction flows, all that the client has sent after the head of its
      CONNECT is delivered or in flight if and only if none of it came in the same read as
      the end of the head: what did is lost. */
  lemma ClientBytesConservedIff(readBuffer: string, remoteBuffer: string, events: seq<Event>)
    requires var t := Reach(readBuffer, remoteBuffer, events); t.pending == Tunnelling && Flowing(t.up)
    ensures var t := Reach(readBuffer, remoteBuffer, events);
            AfterHead(t) == t.up.delivered + InFlight(t.up)
            <==> Run(REQUEST_PARSER, t.requestBytes).consumed == |t.requestBytes|
  {
    hide ReactAll, Run, InFlight;
    var t := Reach(readBuffer, remoteBuffer, events);
    TunnelConserves(readBuffer, remoteBuffer, events);
    var lost := t.requestBytes[Run(REQUEST_PARSER, t.requestBytes).consumed..];
    assert |AfterHead(t)| == |lost| + |t.up.received|;
    if lost == "" {
      assert AfterHead(t) == t.up.received;
    }
  }
}
