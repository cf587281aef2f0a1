/** What holds in every reachable state of every run of a transaction. */
module TransactionRuns {
  import opened Messages
  import HeaderFields
  import opened Parser
  import opened ParserRuns
  import opened Phases
  import opened Protocol
  import opened TunnelRuns
  import Printer = RequestPrinter

  // ----- notifications -----

  lemma {:induction false} SignalsChain(a: NotificationState, b: NotificationState, c: NotificationState)
    requires Rank(a) <= Rank(b) <= Rank(c)
    ensures SignalsBetween(a, c) == SignalsBetween(a, b) + SignalsBetween(b, c)
    decreases Rank(b) - Rank(a)
  {
    hide SignalsOnLeaving, Rank, Next;
    if Rank(a) < Rank(b) {
      assert a != Error by { ErrorIsLast(b); }
      SignalsChain(Next(a), b, c);
      var left := SignalsOnLeaving(a);
      assert SignalsBetween(a, b) == left + SignalsBetween(Next(a), b);
      assert SignalsBetween(a, c) == left + SignalsBetween(Next(a), c);
    } else {
      RankInjective(a, b);
      assert SignalsBetween(a, b) == [];
    }
  }

  lemma ErrorIsLast(ns: NotificationState)
    ensures Rank(ns) <= Rank(Error)
  {}

  lemma RankInjective(a: NotificationState, b: NotificationState)
    requires Rank(a) == Rank(b)
    ensures a == b
  {}

  /** The signals are those of the states passed so far, the last of them at most
      `ResponseComplete`. */
  ghost predicate Told(t: Transaction) {
    && Rank(t.notification) <= Rank(ResponseComplete)
    && t.signals == [TransactionStart] + SignalsBetween(NoneYet, t.notification)
  }

  lemma NotifiedTold(t: Transaction, ns: NotificationState)
    requires Told(t) && Rank(ns) <= Rank(ResponseComplete)
    ensures Told(Notified(t, ns))
  {
    hide SignalsBetween, Rank;
    if Rank(t.notification) < Rank(ns) {
      assert Rank(NoneYet) <= Rank(t.notification) by { RankZero(); }
      SignalsChain(NoneYet, t.notification, ns);
    }
  }

  lemma RankZero()
    ensures Rank(NoneYet) == 0
  {}

  /** Announcing phases changes the notification state and the signals, nothing else. */
  lemma {:induction false} PhasesNotifiedFrame(t: Transaction, phases: seq<ParsePhase>)
    ensures var t' := PhasesNotified(t, phases);
            t' == t.(notification := t'.notification, signals := t'.signals)
    decreases |phases|
  {
    hide Notified, SignalsBetween;
    if phases != [] {
      NotifiedFrame(t, phases[0]);
      PhasesNotifiedFrame(PhaseNotified(t, phases[0]), phases[1..]);
    }
  }

  lemma NotifiedFrame(t: Transaction, phase: ParsePhase)
    ensures var t' := PhaseNotified(t, phase);
            t' == t.(notification := t'.notification, signals := t'.signals)
  {
    hide SignalsBetween;
  }

  /** While a request is being parsed its phases are announced below `RequestComplete`. */
  lemma {:induction false} RequestPhasesTold(t: Transaction, phases: seq<ParsePhase>)
    requires Told(t) && Rank(t.notification) < Rank(RequestComplete)
    requires forall p | p in phases :: p == ReceivedMessageLine || p == ReceivedHeaders
    ensures var t' := PhasesNotified(t, phases);
            Told(t') && Rank(t'.notification) < Rank(RequestComplete)
    decreases |phases|
  {
    hide Told;
    if phases != [] {
      var t1 := PhaseNotified(t, phases[0]);
      NotifiedTold(t, RequestLine);
      NotifiedTold(t, RequestHeaders);
      assert phases[0] in phases && forall p | p in phases[1..] :: p in phases;
      RequestPhasesTold(t1, phases[1..]);
    }
  }

  /** While a response is being parsed, the end of its headers is announced and
      nothing else. */
  lemma ResponsePhasesTold(t: Transaction, from: ParsePhase, to: ParsePhase)
    requires Told(t)
    requires t.notification == if from == ReceivedHeaders then ResponseHeaders else RequestComplete
    requires from == ReceivedHeaders ==> to == ReceivedHeaders
    ensures var t' := PhasesNotified(t, Between(from, to));
            && Told(t')
            && t'.notification == if to == ReceivedHeaders then ResponseHeaders else RequestComplete
  {
    hide Told, SignalsBetween;
    NotifiedTold(t, ResponseHeaders);
    var phases := Between(from, to);
    assert PhaseNotified(t, ReceivedMessageLine) == t;
    var t1 := PhaseNotified(t, ReceivedHeaders);
    if phases == [ReceivedMessageLine] {
      assert PhasesNotified(t, phases) == PhasesNotified(t, []);
    } else if phases == [ReceivedHeaders] {
      assert PhasesNotified(t, phases) == PhasesNotified(t1, []);
    } else if phases == [ReceivedMessageLine, ReceivedHeaders] {
      assert phases[1..] == [ReceivedHeaders];
      assert PhasesNotified(t, phases) == PhasesNotified(t, [ReceivedHeaders]) == PhasesNotified(t1, []);
    }
  }

  // ----- the invariant -----

  /** Nothing has been released and nothing has failed. */
  ghost predicate Live(t: Transaction) {
    && t.client && t.clientCloses == 0 && t.remoteCloses == 0
    && t.error == NoError
    && Told(t)
    && t.up == IdleHalf(t.up.buffer) && t.down == IdleHalf(t.down.buffer)
  }

  /** The response has not begun. */
  predicate NoResponse(t: Transaction) {
    t.response == FRESH_MESSAGE && t.responsePhase == Start && t.responseBytes == "" && t.sentToClient == []
  }

  /** The request is what a reset parser makes of the bytes read from the client. */
  predicate RequestReceived(t: Transaction) {
    var r := Run(REQUEST_PARSER, t.requestBytes);
    r.outcome == Valid && r.config.message == t.request
  }

  predicate RequestUnderWay(t: Transaction) {
    && Run(REQUEST_PARSER, t.requestBytes)
       == RunResult(Incomplete, Config(t.parser, t.request), |t.requestBytes|)
    && t.requestPhase == PhaseOfState(t.parser.state)
  }

  /** The response is what a reset parser makes of the bytes read from the remote end. */
  predicate ResponseReceived(t: Transaction) {
    var r := Run(RESPONSE_PARSER, t.responseBytes);
    r.outcome == Valid && r.config.message == t.response
  }

  predicate ResponseUnderWay(t: Transaction) {
    && Run(RESPONSE_PARSER, t.responseBytes)
       == RunResult(Incomplete, Config(t.parser, t.response), |t.responseBytes|)
    && t.responsePhase == PhaseOfState(t.parser.state)
    && t.raw == t.responseBytes
  }

  /** The header section of the response has been received. */
  predicate ResponseHeadersReceived(t: Transaction) {
    var r := Run(RESPONSE_PARSER, t.responseBytes);
    r.outcome == Valid || PhaseOfState(r.config.parser.state) == ReceivedHeaders
  }

  predicate IsConnect(t: Transaction) {
    t.request.requestMethod == "CONNECT"
  }

  /** `address` names a host and a port: split at its first colon if it has one,
      otherwise a host with the default port. */
  predicate Names(address: string, host: string, port: string, defaultPort: string) {
    ':' !in host
    && if ':' in address then address == host + ":" + port else address == host && port == defaultPort
  }

  lemma HostAndPortNames(address: string, defaultPort: string)
    ensures var (host, port) := HostAndPort(address, defaultPort); Names(address, host, port, defaultPort)
  {
    var i := IndexOf(address, ':');
    if i < |address| {
      assert address == address[..i] + ":" + address[i + 1..];
      assert address[i] in address;
    }
  }

  /** The first of the request's Host fields, the newest, names the host and the port. */
  predicate NamedByHost(t: Transaction, host: string, port: string) {
    var hosts := HeaderFields.Find(t.request.headers, HeaderFields.Spelling(HeaderFields.Host));
    hosts != [] && Names(hosts[0], host, port, "80")
  }

  /** The request has been received and sent on. */
  predicate RequestForwarded(t: Transaction) {
    RequestReceived(t) && !IsConnect(t) && t.sentToRemote == [Printer.Formatted(t.request)]
  }

  /** What is known once the notification state has reached `ns`. */
  predicate Reached(t: Transaction, ns: NotificationState) {
    && (Rank(ns) >= Rank(RequestComplete) ==> RequestReceived(t))
    && (Rank(ns) > Rank(RequestComplete) <==> RequestReceived(t) && ResponseHeadersReceived(t))
    && (Rank(ns) > Rank(ResponseHeaders) <==> ResponseReceived(t))
  }

  /** A tunnel has been opened, and the client has been sent the reply that says so. */
  predicate TunnelAnnounced(t: Transaction) {
    IsConnect(t) && t.sentToClient == [TunnelReply(true)]
  }

  /** What the two ends have been sent, in one write each: the remote end nothing, or the
      request as it prints; the client nothing, the whole response once it has been
      received, or the reply to its CONNECT. */
  predicate SentAsDue(t: Transaction) {
    && (t.sentToRemote == [] || RequestForwarded(t))
    && (|| t.sentToClient == []
        || (t.sentToClient == [t.responseBytes] && ResponseReceived(t) && RequestForwarded(t))
        || (t.sentToRemote == [] && RequestReceived(t) && IsConnect(t)
            && (t.sentToClient == [TunnelReply(true)] || t.sentToClient == [TunnelReply(false)])))
  }

  /** How a transaction without a tunnel ends, having got as far as `ns`: one closing
      completion, directly after a failure unless the response has been relayed. */
  ghost predicate EndedAt(t: Transaction, ns: NotificationState) {
    && Rank(ns) <= Rank(ResponseComplete)
    && Reached(t, ns)
    && SentAsDue(t)
    && t.signals == [TransactionStart] + SignalsBetween(NoneYet, ns)
                    + (if t.notification == Error then [TransactionFailed, TransactionComplete]
                       else [TransactionComplete])
    && (t.notification == Error ==> (t.error == NoError <==> TunnelAnnounced(t)))
    && (t.notification != Error ==>
          && t.notification == ns == ResponseComplete
          && RequestForwarded(t) && ResponseReceived(t)
          && t.sentToClient == [t.responseBytes] && t.error == NoError && t.remoteCloses == 1)
  }

  ghost predicate Ended(t: Transaction) {
    && !t.client && !t.remote && t.clientCloses == 1 && t.remoteCloses <= 1
    && exists ns :: EndedAt(t, ns)
  }

  ghost predicate Invariant(t: Transaction) {
    match t.pending
    case NotBegun => t == Initial(t.up.buffer, t.down.buffer)
    case ReadingRequest =>
      Live(t) && !t.remote && NoResponse(t) && t.sentToRemote == [] && RequestUnderWay(t)
      && Rank(t.notification) < Rank(RequestComplete)
    case OpeningRemote(host, port) =>
      Live(t) && !t.remote && NoResponse(t) && t.sentToRemote == [] && RequestReceived(t) && !IsConnect(t)
      && t.notification == RequestComplete && NamedByHost(t, host, port)
    case SendingRequest =>
      Live(t) && t.remote && NoResponse(t) && RequestForwarded(t) && t.notification == RequestComplete
    case ReadingResponse =>
      Live(t) && t.remote && t.sentToClient == [] && RequestForwarded(t) && ResponseUnderWay(t)
      && t.notification == (if t.responsePhase == ReceivedHeaders then ResponseHeaders else RequestComplete)
    case SendingResponse =>
      Live(t) && t.remote && RequestForwarded(t) && ResponseReceived(t) && t.notification == ResponseComplete
      && t.sentToClient == [t.responseBytes]
    case OpeningTunnel(host, port) =>
      Live(t) && !t.remote && NoResponse(t) && t.sentToRemote == [] && RequestReceived(t) && IsConnect(t)
      && Rank(t.notification) < Rank(RequestComplete) && Names(t.request.uri, host, port, "443")
    case SendingReply(connected, result) =>
      Live(t) && t.remote == connected == (result == NoError) && RequestReceived(t) && IsConnect(t)
      && Rank(t.notification) < Rank(RequestComplete) && t.sentToClient == [TunnelReply(connected)]
      && t.responseBytes == "" && t.sentToRemote == []
    case Tunnelling =>
      TunnelInvariant(t) && FailuresExplained(t) && RequestReceived(t) && TunnelAnnounced(t)
      && t.responseBytes == "" && t.sentToRemote == []
    case Finished => Ended(t)
    case Deadlocked => false
    case Aborted => Live(t) && Reached(t, t.notification) && SentAsDue(t)
  }

  // ----- each step keeps it -----

  /** A response of which nothing has come has not been received, nor have its headers. */
  lemma NothingReceived(t: Transaction)
    requires t.responseBytes == ""
    ensures !ResponseReceived(t) && !ResponseHeadersReceived(t)
  {
    NothingToRead(RESPONSE_PARSER, Start);
  }

  lemma RepliesDiffer()
    ensures TunnelReply(true) != TunnelReply(false)
  {
    assert TunnelReply(true)[9] != TunnelReply(false)[9];
  }

  /** A live transaction that fails is ended. */
  lemma FailedEnds(t: Transaction, reason: ErrorCode)
    requires Live(t) && Reached(t, t.notification) && SentAsDue(t)
    requires reason == NoError <==> TunnelAnnounced(t)
    ensures Invariant(Failed(t, reason))
  {
    hide Run, SignalsBetween, PhaseOfState, TunnelReply, Printer.Formatted, Rank;
    var t' := Failed(t, reason);
    assert Reached(t', t.notification);
    assert t'.signals == t.signals + [TransactionFailed, TransactionComplete];
    assert EndedAt(t', t.notification);
  }

  lemma CompletedEnds(t: Transaction)
    requires t.pending == SendingResponse && Invariant(t)
    ensures Invariant(Completed(t))
  {
    hide Run, SignalsBetween, PhaseOfState;
    var t' := Completed(t);
    assert EndedAt(t', ResponseComplete);
  }

  lemma BegunKept(t: Transaction)
    requires t.pending == NotBegun && Invariant(t)
    ensures Invariant(Begun(t))
  {
    hide Run;
    NothingToRead(REQUEST_PARSER, Start);
    assert [] + [TransactionStart] == [TransactionStart] + [];
  }

  /** A read, parsed with pauses and announcements, extends the run over all bytes. */
  lemma ReadExtendsRun(start: Config, bytes: string, k: Config, data: string)
    requires Run(start, bytes) == RunResult(Incomplete, k, |bytes|)
    ensures var d, r := Drive(k, PhaseOfState(k.parser.state), data), Run(start, bytes + data);
            && r.outcome == d.outcome && r.config == d.config
            && (d.outcome == Incomplete ==> r.consumed == |bytes + data|)
            && d.phase == (if d.outcome == Valid then ReceivedFullMessage else PhaseOfState(d.config.parser.state))
            && d.announced == Between(PhaseOfState(k.parser.state), PhaseOfState(d.config.parser.state))
            && (PhaseOfState(k.parser.state) == ReceivedHeaders ==>
                  PhaseOfState(d.config.parser.state) == ReceivedHeaders)
  {
    hide Run, Drive, PhasesOf, PhaseOfState, Between;
    RunSplit(start, bytes, data);
    DriveIsRun(k, PhaseOfState(k.parser.state), data);
    PhaseTracksState(k, data);
    PhaseOnlyGrows(k, data);
  }

  /** The request is complete and is not CONNECT. */
  lemma OpenRemoteKept(t: Transaction)
    requires Live(t) && !t.remote && NoResponse(t) && t.sentToRemote == []
    requires Rank(t.notification) < Rank(RequestComplete) && RequestReceived(t) && !IsConnect(t)
    ensures Invariant(OpenRemote(Notified(t, RequestComplete)))
  {
    hide Run, SignalsBetween, Ended, HeaderFields.Find, HostAndPort;
    NotifiedTold(t, RequestComplete);
    NothingReceived(Notified(t, RequestComplete));
    FailedEnds(Notified(t, RequestComplete), MalformedRequest);
    var hosts := HeaderFields.Find(t.request.headers, HeaderFields.Spelling(HeaderFields.Host));
    if hosts != [] {
      HostAndPortNames(hosts[0], "80");
    }
  }

  lemma RequestReadKept(t: Transaction, ec: ErrorCode, data: string)
    requires t.pending == ReadingRequest && Invariant(t)
    ensures Invariant(OnRequestRead(t, ec, data))
  {
    hide Run, PhaseOfState, Drive, RequestParsed, SignalsBetween, Ended, OpenRemote, Notified, HostAndPort;
    NothingReceived(t);
    if ec != NoError {
      FailedEnds(t, if ec == Eof then ClientDisconnected else ec);
    } else {
      var t' := RequestParsed(t, data);
      RequestParsedLive(t, data);
      NothingReceived(t');
      match RequestDriven(t, data).outcome {
        case Incomplete =>
        case Invalid => FailedEnds(t', MalformedRequest);
        case Fatal =>
        case Valid =>
          if IsConnect(t') {
            HostAndPortNames(t'.request.uri, "443");
          } else {
            OpenRemoteKept(t');
          }
      }
    }
  }

  lemma RequestParsedLive(t: Transaction, data: string)
    requires t.pending == ReadingRequest && Invariant(t)
    ensures var d, t' := RequestDriven(t, data), RequestParsed(t, data);
            && t'.pending == ReadingRequest
            && Live(t') && !t'.remote && NoResponse(t') && t'.sentToRemote == []
            && Rank(t'.notification) < Rank(RequestComplete)
            && (d.outcome == Incomplete ==> RequestUnderWay(t'))
            && (d.outcome == Valid ==> RequestReceived(t'))
  {
    hide Run, SignalsBetween, PhaseOfState, Drive, PhasesNotified, Told;
    var d := RequestDriven(t, data);
    ReadExtendsRun(REQUEST_PARSER, t.requestBytes, Config(t.parser, t.request), data);
    var t1 := t.(parser := d.config.parser, request := d.config.message, requestPhase := d.phase,
                 requestBytes := t.requestBytes + data);
    assert Told(t1) by { SameTold(t, t1); }
    RequestPhasesTold(t1, d.announced);
    PhasesNotifiedFrame(t1, d.announced);
  }

  lemma SameTold(t: Transaction, t': Transaction)
    requires Told(t) && t'.notification == t.notification && t'.signals == t.signals
    ensures Told(t')
  {}

  lemma ResponseParsedLive(t: Transaction, data: string)
    requires t.pending == ReadingResponse && Invariant(t)
    ensures var d, t' := ResponseDriven(t, data), ResponseParsed(t, data);
            && t'.pending == ReadingResponse
            && Live(t') && t'.remote && t'.sentToClient == [] && RequestForwarded(t')
            && t'.raw == t'.responseBytes && t'.parser == d.config.parser
            && t'.notification == (if PhaseOfState(d.config.parser.state) == ReceivedHeaders
                                   then ResponseHeaders else RequestComplete)
            && (d.outcome != Valid ==> (t'.notification == ResponseHeaders <==> ResponseHeadersReceived(t')))
            && (d.outcome == Incomplete ==> ResponseUnderWay(t'))
            && (d.outcome == Valid <==> ResponseReceived(t'))
            && (d.outcome == Valid ==> ResponseHeadersReceived(t'))
  {
    hide Run, SignalsBetween, PhaseOfState, Drive, PhasesNotified, Told, Between;
    var d := ResponseDriven(t, data);
    ReadExtendsRun(RESPONSE_PARSER, t.responseBytes, Config(t.parser, t.response), data);
    var t1 := t.(parser := d.config.parser, response := d.config.message, responsePhase := d.phase,
                 raw := t.raw + data, responseBytes := t.responseBytes + data);
    assert Told(t1) by { SameTold(t, t1); }
    ResponsePhasesTold(t1, PhaseOfState(t.parser.state), PhaseOfState(d.config.parser.state));
    PhasesNotifiedFrame(t1, d.announced);
  }

  lemma ResponseReadKept(t: Transaction, ec: ErrorCode, data: string)
    requires t.pending == ReadingResponse && Invariant(t)
    ensures Invariant(OnResponseRead(t, ec, data))
  {
    hide Run, PhaseOfState, Drive, ResponseParsed, SignalsBetween, Ended, Failed, Names, Printer.Formatted,
         TunnelInvariant;
    if ec != NoError {
      FailedEnds(t, if ec == Eof then RemoteDisconnected else ec);
    } else {
      var t' := ResponseParsed(t, data);
      ResponseParsedLive(t, data);
      match ResponseDriven(t, data).outcome {
        case Incomplete =>
        case Invalid => FailedEnds(t', MalformedResponse);
        case Fatal =>
        case Valid => NotifiedTold(t', ResponseComplete);
      }
    }
  }

  lemma RemoteOpenedKept(t: Transaction, ec: ErrorCode)
    requires t.pending.OpeningRemote? && Invariant(t)
    ensures Invariant(OnRemoteOpened(t, ec))
  {
    hide Run, SignalsBetween, Ended;
    NothingReceived(t);
    if ec != NoError {
      hide RequestReceived, ResponseReceived, ResponseHeadersReceived;
      FailedEnds(t, ec);
    }
  }

  lemma RequestSentKept(t: Transaction, ec: ErrorCode)
    requires t.pending.SendingRequest? && Invariant(t)
    ensures Invariant(OnRequestSent(t, ec))
  {
    hide Run, SignalsBetween, Ended, Failed, Names, Printer.Formatted, TunnelInvariant;
    NothingReceived(t);
    if ec != NoError {
      hide RequestReceived, ResponseReceived, ResponseHeadersReceived, PhaseOfState;
      FailedEnds(t, ec);
    } else {
      NothingToRead(RESPONSE_PARSER, Start);
    }
  }

  lemma ResponseSentKept(t: Transaction, ec: ErrorCode)
    requires t.pending.SendingResponse? && Invariant(t)
    ensures Invariant(OnResponseSent(t, ec))
  {
    hide Run, SignalsBetween, Ended;
    if ec != NoError {
      FailedEnds(t, ec);
    } else {
      CompletedEnds(t);
    }
  }

  lemma TunnelOpenedKept(t: Transaction, ec: ErrorCode)
    requires t.pending.OpeningTunnel? && Invariant(t)
    ensures Invariant(OnTunnelOpened(t, ec))
  {
    hide Run, SignalsBetween, TunnelReply;
  }

  lemma {:induction false} OnlyStart(ns: NotificationState)
    requires Rank(ns) <= Rank(RequestComplete)
    ensures SignalsBetween(NoneYet, ns) == []
  {
    if Rank(ns) > 0 {
      assert Rank(ns) <= 4;
      SignalsUpTo(NoneYet, ns);
    }
  }

  lemma {:induction false} SignalsUpTo(from: NotificationState, ns: NotificationState)
    requires Rank(from) <= Rank(ns) <= Rank(RequestComplete)
    ensures SignalsBetween(from, ns) == []
    decreases Rank(ns) - Rank(from)
  {
    if Rank(from) < Rank(ns) {
      SignalsUpTo(Next(from), ns);
    }
  }

  /** The reply that the tunnel is open has been written. */
  lemma TunnelBegins(t: Transaction)
    requires t.pending.SendingReply? && t.pending.connected && Invariant(t)
    ensures Invariant(OnReplySent(t, NoError))
  {
    hide Run, SignalsBetween, TunnelReply, Failed;
    OnlyStart(t.notification);
    assert t.signals == [TransactionStart];
    StartCounts();
  }

  lemma ReplySentKept(t: Transaction, ec: ErrorCode)
    requires t.pending.SendingReply? && Invariant(t)
    ensures Invariant(OnReplySent(t, ec))
  {
    hide Run, SignalsBetween, EndedAt, Failed, TunnelReply;
    if ec == NoError && t.pending.connected {
      TunnelBegins(t);
    } else {
      NothingReceived(t);
      RepliesDiffer();
      hide RequestReceived, ResponseReceived, ResponseHeadersReceived;
      FailedEnds(t, t.pending.openResult);
    }
  }

  lemma StartCounts()
    ensures forall s :: Count([TransactionStart], s) == if s == TransactionStart then 1 else 0
  {
    forall s ensures Count([TransactionStart], s) == if s == TransactionStart then 1 else 0 {
      CountOneMore([], TransactionStart, s);
      assert [] + [TransactionStart] == [TransactionStart];
    }
  }

  /** Every event keeps the invariant. */
  lemma ReactKeeps(t: Transaction, e: Event)
    requires Invariant(t)
    ensures Invariant(React(t, e))
  {
    hide Invariant, OnRequestRead, OnRemoteOpened, OnRequestSent, OnResponseRead, OnResponseSent, OnTunnelOpened,
         OnReplySent, Begun;
    match t.pending {
      case NotBegun => BegunKept(t);
      case ReadingRequest => if e.Done? { RequestReadKept(t, e.result, e.data); }
      case OpeningRemote(_, _) => if e.Done? { RemoteOpenedKept(t, e.result); }
      case SendingRequest => if e.Done? { RequestSentKept(t, e.result); }
      case ReadingResponse => if e.Done? { ResponseReadKept(t, e.result, e.data); }
      case SendingResponse => if e.Done? { ResponseSentKept(t, e.result); }
      case OpeningTunnel(_, _) => if e.Done? { TunnelOpenedKept(t, e.result); }
      case SendingReply(_, _) => if e.Done? { ReplySentKept(t, e.result); }
      case Tunnelling => TunnelEventKept(t, e);
      case _ =>
    }
  }

  lemma TunnelEventKept(t: Transaction, e: Event)
    requires t.pending.Tunnelling? && Invariant(t)
    ensures Invariant(React(t, e))
  {
    hide TunnelInvariant, FailuresExplained, Run, HalfIo, HalfProceeds;
    TunnelKept(t, e);
    FailuresStayExplained(t, e);
    TunnelKeepsRequest(t, e);
    assert React(t, e).pending == Tunnelling by { StillTunnelling(React(t, e)); }
  }

  lemma StillTunnelling(t: Transaction)
    requires TunnelInvariant(t)
    ensures t.pending == Tunnelling
  {}

  lemma TunnelKeepsRequest(t: Transaction, e: Event)
    requires t.pending.Tunnelling?
    ensures React(t, e).request == t.request && React(t, e).requestBytes == t.requestBytes
    ensures React(t, e).responseBytes == t.responseBytes
    ensures React(t, e).sentToRemote == t.sentToRemote && React(t, e).sentToClient == t.sentToClient
  {
    hide HalfIo, HalfProceeds;
    HalfKeepsRequest(t, t.up, t.remote);
    HalfKeepsRequest(t, t.down, t.client);
  }

  lemma HalfKeepsRequest(t: Transaction, h: Half, destination: bool)
    ensures var t' := HalfProceeds(t, h, destination).0;
            && t'.request == t.request && t'.requestBytes == t.requestBytes && t'.responseBytes == t.responseBytes
            && t'.sentToRemote == t.sentToRemote && t'.sentToClient == t.sentToClient
  {}

  /** In every state that any run reaches, the invariant holds. */
  lemma {:induction false} ReachableInvariant(readBuffer: string, remoteBuffer: string, events: seq<Event>)
    ensures Invariant(ReactAll(Initial(readBuffer, remoteBuffer), events))
  {
    hide React;
    if events != [] {
      hide Invariant;
      ReachableInvariant(readBuffer, remoteBuffer, events[..|events| - 1]);
      ReactKeeps(ReactAll(Initial(readBuffer, remoteBuffer), events[..|events| - 1]), events[|events| - 1]);
    }
  }
}
