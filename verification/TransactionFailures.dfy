/** What makes a transaction fail, and with which reason: every operation that fails, an
    invalid message, a request that names no host, and nothing else. */
module TransactionFailures {
  import opened Bytes
  import HeaderFields
  import opened Parser
  import opened ParserRuns
  import opened Phases
  import opened Protocol
  import opened TunnelRuns
  import opened TransactionRuns
  import opened TransactionResults
  import opened TransactionProgress
  import Printer = RequestPrinter

  // ----- an operation that fails -----

  /** An ordinary transaction is waiting for an operation. */
  predicate Awaits(t: Transaction) {
    || t.pending.ReadingRequest? || t.pending.OpeningRemote? || t.pending.SendingRequest?
    || t.pending.ReadingResponse? || t.pending.SendingResponse?
    || t.pending.OpeningTunnel? || t.pending.SendingReply?
  }

  /** The reason that is due when the operation completes with `ec`: an end of input is the
      disconnection of the peer that was read; a reply that could not be written is put
      down to the result of opening the tunnel; any other code is its own reason. */
  function ReasonDue(t: Transaction, ec: ErrorCode): ErrorCode {
    if t.pending.ReadingRequest? && ec == Eof then ClientDisconnected
    else if t.pending.ReadingResponse? && ec == Eof then RemoteDisconnected
    else if t.pending.SendingReply? then t.pending.openResult
    else ec
  }

  /** The transaction after it has failed: released, with the reason, reported as failed and
      then as complete, and otherwise as it was. */
  function AfterFailure(t: Transaction, reason: ErrorCode): Transaction {
    t.(client := false, remote := false,
       clientCloses := 1, remoteCloses := if t.remote then 1 else 0,
       notification := Error, error := reason, pending := Finished,
       signals := t.signals + [TransactionFailed, TransactionComplete])
  }

  lemma FailedIs(t: Transaction, reason: ErrorCode)
    requires Live(t)
    ensures Failed(t, reason) == AfterFailure(t, reason)
  {
    hide Told;
    assert t.signals + [TransactionFailed] + [TransactionComplete]
        == t.signals + [TransactionFailed, TransactionComplete];
  }

  lemma FailsOn(t: Transaction, ec: ErrorCode, data: string)
    requires Invariant(t) && Awaits(t) && !t.pending.OpeningTunnel? && ec != NoError
    ensures React(t, Done(ec, data)) == AfterFailure(t, ReasonDue(t, ec))
  {
    hide Run, Told, Failed, AfterFailure, NamedByHost, Printer.Formatted, TunnelReply;
    FailedIs(t, ReasonDue(t, ec));
  }

  /** From every state of every run in which an ordinary transaction waits for an operation,
      that operation failing makes the transaction fail: at once, with exactly the reason
      due, both connections released, and the failure and the completion as the last
      signals. (For the opening of a tunnel see `OpeningTunnelFails`.) */
  lemma FailedOperationFails(readBuffer: string, remoteBuffer: string, events: seq<Event>, ec: ErrorCode, data: string)
    requires var t := Reach(readBuffer, remoteBuffer, events); Awaits(t) && !t.pending.OpeningTunnel?
    requires ec != NoError
    ensures var t := Reach(readBuffer, remoteBuffer, events);
            Reach(readBuffer, remoteBuffer, events + [Done(ec, data)]) == AfterFailure(t, ReasonDue(t, ec))
  {
    hide React, Invariant, Awaits, AfterFailure, ReasonDue;
    var t0 := Initial(readBuffer, remoteBuffer);
    ReachableInvariant(readBuffer, remoteBuffer, events);
    RunsOn(t0, events, [Done(ec, data)]);
    ReactOne(ReactAll(t0, events), Done(ec, data));
    FailsOn(ReactAll(t0, events), ec, data);
  }

  /** What the client has been told when a tunnel cannot be opened. */
  function AfterRefusal(t: Transaction, ec: ErrorCode): Transaction {
    t.(sentToClient := [TunnelReply(false)], pending := SendingReply(false, ec))
  }

  lemma RefusesOn(t: Transaction, ec: ErrorCode, data: string)
    requires Invariant(t) && t.pending.OpeningTunnel? && ec != NoError
    ensures React(t, Done(ec, data)) == AfterRefusal(t, ec) && Live(AfterRefusal(t, ec))
  {
    hide Run, Told, Names, TunnelReply;
    SameTold(t, AfterRefusal(t, ec));
  }

  lemma RefusalFails(t: Transaction, ec: ErrorCode, second: ErrorCode, data: string)
    requires t.pending == SendingReply(false, ec) && Live(t)
    ensures React(t, Done(second, data)) == AfterFailure(t, ec)
  {
    hide Failed, AfterFailure, Live;
    FailedIs(t, ec);
  }

  /** A tunnel that cannot be opened: the client is sent the refusal, and when that has been
      written, or not, the transaction fails with the result of opening. */
  lemma OpeningTunnelFails(readBuffer: string, remoteBuffer: string, events: seq<Event>,
                           ec: ErrorCode, data: string, second: ErrorCode, data': string)
    requires Reach(readBuffer, remoteBuffer, events).pending.OpeningTunnel? && ec != NoError
    ensures var t, e, e' := Reach(readBuffer, remoteBuffer, events), Done(ec, data), Done(second, data');
            && Reach(readBuffer, remoteBuffer, events + [e]) == AfterRefusal(t, ec)
            && Reach(readBuffer, remoteBuffer, events + [e] + [e']) == AfterFailure(AfterRefusal(t, ec), ec)
  {
    hide React, Invariant, Live, AfterFailure;
    var t0, e, e' := Initial(readBuffer, remoteBuffer), Done(ec, data), Done(second, data');
    var t := ReactAll(t0, events);
    ReachableInvariant(readBuffer, remoteBuffer, events);
    RunsOn(t0, events, [e]);
    ReactOne(t, e);
    RefusesOn(t, ec, data);
    RunsOn(t0, events + [e], [e']);
    ReactOne(React(t, e), e');
    RefusalFails(AfterRefusal(t, ec), ec, second, data');
  }

  // ----- why an ordinary run has ended -----

  /** The reason due for the first awaited operation of a run that failed, if one did. */
  function FirstFailure(t: Transaction, events: seq<Event>): Option<ErrorCode> {
    if events == [] then None
    else
      var init := events[..|events| - 1];
      OrElse(FirstFailure(t, init), FailureOf(ReactAll(t, init), events[|events| - 1]))
  }

  function OrElse(first: Option<ErrorCode>, second: Option<ErrorCode>): Option<ErrorCode> {
    if first.Some? then first else second
  }

  function FailureOf(t: Transaction, e: Event): Option<ErrorCode> {
    if Awaits(t) && e.Done? && e.result != NoError then Some(ReasonDue(t, e.result)) else None
  }

  predicate NamesHost(t: Transaction) {
    HeaderFields.Find(t.request.headers, "Host") != []
  }

  /** A parser says of the bytes read from one of the two ends that they are no message. */
  predicate RequestEnds(t: Transaction, outcome: Outcome) {
    Run(REQUEST_PARSER, t.requestBytes).outcome == outcome
  }

  predicate ResponseEnds(t: Transaction, outcome: Outcome) {
    Run(RESPONSE_PARSER, t.responseBytes).outcome == outcome
  }

  /** How a run ends: if an operation failed, with the reason due for the first that did; if
      none failed, because the request is invalid or names no host, or the response is
      invalid; and otherwise without a failure, both messages complete. */
  predicate EndedAsDue(t: Transaction, failure: Option<ErrorCode>) {
    if failure.Some? then t.notification == Error && t.error == failure.value
    else if RequestEnds(t, Invalid) then t.notification == Error && t.error == MalformedRequest
    else if !NamesHost(t) then t.notification == Error && t.error == MalformedRequest && RequestReceived(t)
    else if ResponseEnds(t, Invalid) then t.notification == Error && t.error == MalformedResponse
    else t.notification == ResponseComplete && t.error == NoError && RequestReceived(t) && ResponseReceived(t)
  }

  /** What a run has come to so far. */
  predicate ComesAsDue(t: Transaction, failure: Option<ErrorCode>) {
    if t.pending.SendingReply? then
      failure == if t.pending.openResult == NoError then None else Some(t.pending.openResult)
    else if t.pending == Finished then EndedAsDue(t, failure)
    else
      && failure == None
      && (t.pending == SendingRequest || t.pending == ReadingResponse || t.pending == SendingResponse ==> NamesHost(t))
  }

  lemma FailureComes(t: Transaction, ec: ErrorCode, data: string)
    requires Invariant(t) && Awaits(t) && !t.pending.OpeningTunnel? && ec != NoError
    ensures ComesAsDue(React(t, Done(ec, data)), FailureOf(t, Done(ec, data)))
  {
    hide Invariant, React, Awaits, ReasonDue;
    FailsOn(t, ec, data);
  }

  lemma ReadingKnows(t: Transaction)
    requires Invariant(t) && t.pending == ReadingRequest
    ensures RequestUnderWay(t) && t.responseBytes == ""
  {}

  lemma RequestReadComes(t: Transaction, data: string)
    requires Invariant(t) && t.pending == ReadingRequest
    ensures ComesAsDue(React(t, Done(NoError, data)), None)
  {
    hide Run, Drive, PhasesNotified, PhasesOf, Invariant, HeaderFields.Find, HostAndPort, SignalsBetween;
    ReadingKnows(t);
    ReadExtendsRun(REQUEST_PARSER, t.requestBytes, Config(t.parser, t.request), data);
    PhasesNotifiedFrame(RequestBase(t, data), RequestDriven(t, data).announced);
  }

  lemma ResponseReadComes(t: Transaction, data: string)
    requires Invariant(t) && t.pending == ReadingResponse && NamesHost(t)
    ensures ComesAsDue(React(t, Done(NoError, data)), None)
  {
    hide Run, Drive, PhasesNotified, PhasesOf, Invariant, HeaderFields.Find, SignalsBetween, NamesHost;
    ResponseReadingKnows(t);
    ReadExtendsRun(RESPONSE_PARSER, t.responseBytes, Config(t.parser, t.response), data);
    PhasesNotifiedFrame(ResponseBase(t, data), ResponseDriven(t, data).announced);
    SameHost(t, React(t, Done(NoError, data)));
  }

  lemma ResponseReadingKnows(t: Transaction)
    requires Invariant(t) && t.pending == ReadingResponse
    ensures ResponseUnderWay(t) && RequestReceived(t)
  {
    hide Printer.Formatted;
  }

  lemma SameHost(t: Transaction, t': Transaction)
    requires t'.request == t.request
    ensures NamesHost(t) == NamesHost(t')
  {}

  lemma OthersCome(t: Transaction, data: string)
    requires Invariant(t) && ComesAsDue(t, None)
    requires t.pending.OpeningRemote? || t.pending == SendingRequest || t.pending == SendingResponse
             || t.pending == SendingReply(true, NoError)
    ensures ComesAsDue(React(t, Done(NoError, data)), None)
  {
    hide Run, Told, Names, Printer.Formatted, TunnelReply, HeaderFields.Find, TunnelInvariant, Ended;
  }

  lemma OpeningComes(t: Transaction, ec: ErrorCode, data: string)
    requires Invariant(t) && t.pending.OpeningTunnel?
    ensures ComesAsDue(React(t, Done(ec, data)), if ec == NoError then None else Some(ec))
  {
    hide Run, Told, Names, TunnelReply;
  }

  lemma ReplyKnows(t: Transaction)
    requires Invariant(t) && t.pending.SendingReply?
    ensures t.pending.connected <==> t.pending.openResult == NoError
  {}

  lemma ReplyComes(t: Transaction, failure: Option<ErrorCode>, ec: ErrorCode, data: string)
    requires Invariant(t) && t.pending.SendingReply? && ComesAsDue(t, failure)
    ensures var e := Done(ec, data); ComesAsDue(React(t, e), OrElse(failure, FailureOf(t, e)))
  {
    hide Invariant, Live;
    ReplyKnows(t);
    if t.pending.connected {
      if ec == NoError {
        OthersCome(t, data);
      } else {
        FailureComes(t, ec, data);
      }
    } else {
      hide AfterFailure, React;
      ReplyIsLive(t);
      RefusalFails(t, t.pending.openResult, ec, data);
    }
  }

  lemma ReplyIsLive(t: Transaction)
    requires Invariant(t) && t.pending.SendingReply?
    ensures Live(t)
  {
    hide Told, TunnelReply;
  }

  lemma AwaitedComes(t: Transaction, failure: Option<ErrorCode>, ec: ErrorCode, data: string)
    requires Invariant(t) && Awaits(t) && ComesAsDue(t, failure)
    ensures var e := Done(ec, data); ComesAsDue(React(t, e), OrElse(failure, FailureOf(t, e)))
  {
    hide Invariant, React, EndedAsDue, NamesHost;
    if t.pending.SendingReply? {
      ReplyComes(t, failure, ec, data);
    } else if t.pending.OpeningTunnel? {
      OpeningComes(t, ec, data);
    } else if ec != NoError {
      FailureComes(t, ec, data);
    } else if t.pending == ReadingRequest {
      RequestReadComes(t, data);
    } else if t.pending == ReadingResponse {
      ResponseReadComes(t, data);
    } else {
      OthersCome(t, data);
    }
  }

  lemma NothingAwaited(t: Transaction, failure: Option<ErrorCode>, e: Event)
    requires Invariant(t) && ComesAsDue(t, failure) && t.pending != Tunnelling && !(Awaits(t) && e.Done?)
    ensures ComesAsDue(React(t, e), failure)
  {
    hide EndedAsDue, Ended, Live, Released;
    hide OnRequestRead, OnRemoteOpened, OnRequestSent, OnResponseRead, OnResponseSent, OnTunnelOpened, OnReplySent;
  }

  lemma StepComes(t: Transaction, failure: Option<ErrorCode>, e: Event)
    requires Invariant(t) && ComesAsDue(t, failure)
    ensures ComesAsDue(React(t, e), OrElse(failure, FailureOf(t, e)))
  {
    hide React, Invariant, EndedAsDue;
    if Awaits(t) && e.Done? {
      hide ComesAsDue;
      AwaitedComes(t, failure, e.result, e.data);
    } else if t.pending == Tunnelling {
      StaysTunnel(t, e);
    } else {
      NothingAwaited(t, failure, e);
    }
  }

  lemma {:induction false} RunComes(readBuffer: string, remoteBuffer: string, events: seq<Event>)
    ensures ComesAsDue(Reach(readBuffer, remoteBuffer, events),
                       FirstFailure(Initial(readBuffer, remoteBuffer), events))
  {
    hide React, Invariant, FailureOf, EndedAsDue;
    if events != [] {
      hide ComesAsDue;
      var init := events[..|events| - 1];
      RunComes(readBuffer, remoteBuffer, init);
      ReachableInvariant(readBuffer, remoteBuffer, init);
      StepComes(Reach(readBuffer, remoteBuffer, init), FirstFailure(Initial(readBuffer, remoteBuffer), init),
                events[|events| - 1]);
    }
  }

  /** Every run that ends without becoming a tunnel ends for the reason that is due. If an
      operation failed, it has failed, with the reason due for the first that did. If none
      did, it has failed as malformed exactly because the request is invalid, or names no
      host, or the response is invalid; otherwise it has not failed, and both messages are
      complete. */
  lemma EndsAsDue(readBuffer: string, remoteBuffer: string, events: seq<Event>)
    requires Reach(readBuffer, remoteBuffer, events).pending == Finished
    ensures EndedAsDue(Reach(readBuffer, remoteBuffer, events),
                       FirstFailure(Initial(readBuffer, remoteBuffer), events))
  {
    hide ReactAll, FirstFailure, EndedAsDue;
    RunComes(readBuffer, remoteBuffer, events);
  }

  /** A run that has ended has done so without a failure if and only if every operation it
      awaited succeeded, both messages are complete, and the request names a host. */
  lemma WithoutFailureIff(readBuffer: string, remoteBuffer: string, events: seq<Event>)
    requires Reach(readBuffer, remoteBuffer, events).pending == Finished
    ensures var t := Reach(readBuffer, remoteBuffer, events);
            t.notification != Error
            <==> && FirstFailure(Initial(readBuffer, remoteBuffer), events) == None
                 && RequestReceived(t) && NamesHost(t) && ResponseReceived(t)
  {
    hide ReactAll, FirstFailure, Run, NamesHost;
    EndsAsDue(readBuffer, remoteBuffer, events);
  }

  // ----- when the process stops -----

  /** One of the two parsers stops the process over the bytes read. */
  predicate ReadStops(t: Transaction) {
    RequestEnds(t, Fatal) || ResponseEnds(t, Fatal)
  }

  lemma RequestReadStops(t: Transaction, data: string)
    requires Invariant(t) && t.pending == ReadingRequest
    ensures var t' := React(t, Done(NoError, data)); t'.pending == Aborted <==> ReadStops(t')
  {
    hide Run, Drive, PhasesNotified, PhasesOf, Invariant, HeaderFields.Find, HostAndPort, SignalsBetween;
    NothingToRead(RESPONSE_PARSER, Start);
    ReadingKnows(t);
    ReadExtendsRun(REQUEST_PARSER, t.requestBytes, Config(t.parser, t.request), data);
    PhasesNotifiedFrame(RequestBase(t, data), RequestDriven(t, data).announced);
  }

  lemma ResponseReadStops(t: Transaction, data: string)
    requires Invariant(t) && t.pending == ReadingResponse
    ensures var t' := React(t, Done(NoError, data)); t'.pending == Aborted <==> ReadStops(t')
  {
    hide Run, Drive, PhasesNotified, PhasesOf, Invariant, SignalsBetween;
    ResponseReadingKnows(t);
    ReadExtendsRun(RESPONSE_PARSER, t.responseBytes, Config(t.parser, t.response), data);
    PhasesNotifiedFrame(ResponseBase(t, data), ResponseDriven(t, data).announced);
  }

  lemma EndingsReadNothing(t: Transaction, reason: ErrorCode)
    ensures Failed(t, reason).requestBytes == t.requestBytes && Failed(t, reason).responseBytes == t.responseBytes
    ensures Completed(t).requestBytes == t.requestBytes && Completed(t).responseBytes == t.responseBytes
    ensures Failed(t, reason).pending == Completed(t).pending == Finished
  {}

  /** Other events read nothing, and stop nothing. */
  lemma OthersReadNothing(t: Transaction, e: Event)
    requires e.Done? && e.result == NoError ==> t.pending != ReadingRequest && t.pending != ReadingResponse
    requires t.pending != Tunnelling
    ensures var t' := React(t, e);
            && t'.requestBytes == t.requestBytes && t'.responseBytes == t.responseBytes
            && (t'.pending == Aborted <==> t.pending == Aborted)
  {
    hide Printer.Formatted, TunnelReply, Failed, Completed, RequestParsed, ResponseParsed, Drive, OpenRemote;
    if e.Done? {
      EndingsReadNothing(t, e.result);
      EndingsReadNothing(t, ReasonDue(t, e.result));
    }
  }

  lemma StepStops(t: Transaction, e: Event)
    requires Invariant(t) && (t.pending == Aborted <==> ReadStops(t))
    ensures React(t, e).pending == Aborted <==> ReadStops(React(t, e))
  {
    hide React, Invariant, Run;
    if e.Done? && e.result == NoError && t.pending == ReadingRequest {
      RequestReadStops(t, e.data);
    } else if e.Done? && e.result == NoError && t.pending == ReadingResponse {
      ResponseReadStops(t, e.data);
    } else if t.pending == Tunnelling {
      TunnelKeepsRequest(t, e);
      StaysTunnel(t, e);
    } else {
      OthersReadNothing(t, e);
    }
  }

  /** In every run the process has stopped if and only if a parser stops it over the bytes
      that have been read. */
  lemma {:induction false} StopsIff(readBuffer: string, remoteBuffer: string, events: seq<Event>)
    ensures var t := Reach(readBuffer, remoteBuffer, events); t.pending == Aborted <==> ReadStops(t)
  {
    hide React, Invariant, Run;
    if events == [] {
      NothingToRead(REQUEST_PARSER, Start);
      NothingToRead(RESPONSE_PARSER, Start);
    } else {
      var init := events[..|events| - 1];
      StopsIff(readBuffer, remoteBuffer, init);
      ReachableInvariant(readBuffer, remoteBuffer, init);
      StepStops(Reach(readBuffer, remoteBuffer, init), events[|events| - 1]);
    }
  }

  // ----- the reason a tunnel fails -----

  /** The reason of an operation of a direction that fails: its code, or for a write that
      stays short a network error. */
  function IoReason(h: HalfEvent): ErrorCode {
    match h
    case ReadDone(ec, _) => ec
    case WriteDone(ec) => if ec != NoError then ec else NetworkError
    case _ => NoError
  }

  function FaultReason(e: Event): ErrorCode {
    match e
    case UpEvent(h) => IoReason(h)
    case DownEvent(h) => IoReason(h)
    case _ => NoError
  }

  /** The reasons of the operations of a tunnel that failed in a run, in order. */
  function FaultReasons(t: Transaction, events: seq<Event>): seq<ErrorCode> {
    if events == [] then []
    else
      var init, last := events[..|events| - 1], events[|events| - 1];
      if Fault(ReactAll(t, init), last) then FaultReasons(t, init) + [FaultReason(last)] else FaultReasons(t, init)
  }

  /** A direction about to report a failure has one of the reasons. */
  predicate HasReason(h: Half, reasons: seq<ErrorCode>) {
    (h.state.Failing? || h.state.FailingReleased?) ==> h.state.reason in reasons
  }

  predicate ReasonsKnown(t: Transaction, reasons: seq<ErrorCode>) {
    && HasReason(t.up, reasons) && HasReason(t.down, reasons)
    && (t.notification == Error ==> t.error in reasons)
  }

  lemma IoHasReason(h: Half, e: HalfEvent, reasons: seq<ErrorCode>)
    requires HasReason(h, reasons)
    ensures HasReason(HalfIo(h, e), if IoFails(h, e) then reasons + [IoReason(e)] else reasons)
  {}

  lemma ProceedHasReason(t: Transaction, h: Half, destination: bool, reasons: seq<ErrorCode>)
    requires HasReason(h, reasons) && (t.notification == Error ==> t.error in reasons)
    ensures var (t', h') := HalfProceeds(t, h, destination);
            && HasReason(h', reasons) && (t'.notification == Error ==> t'.error in reasons)
            && t'.up == t.up && t'.down == t.down
  {}

  lemma StepReasons(t: Transaction, e: Event, reasons: seq<ErrorCode>)
    requires t.pending == Tunnelling && ReasonsKnown(t, reasons)
    ensures ReasonsKnown(React(t, e), if Fault(t, e) then reasons + [FaultReason(e)] else reasons)
  {
    hide HalfIo, HalfProceeds, IoFails, IoReason;
    match e {
      case UpEvent(h) =>
        NoFaultInProceeding(t.up, h);
        IoHasReason(t.up, h, reasons);
        ProceedHasReason(t, t.up, t.remote, reasons);
      case DownEvent(h) =>
        NoFaultInProceeding(t.down, h);
        IoHasReason(t.down, h, reasons);
        ProceedHasReason(t, t.down, t.client, reasons);
      case _ =>
    }
  }

  lemma NoFaultInProceeding(h: Half, e: HalfEvent)
    ensures e.Proceed? ==> !IoFails(h, e)
  {}

  lemma TunnelStartsWell(t: Transaction, e: Event)
    requires Invariant(t) && t.pending != Tunnelling && React(t, e).pending == Tunnelling
    ensures ReasonsKnown(React(t, e), [])
  {
    hide Run, Told, TunnelReply, RequestReceived, Printer.Formatted;
    hide Begun, OnRequestRead, OnRemoteOpened, OnRequestSent, OnResponseRead, OnResponseSent, OnTunnelOpened;
    if e.Done? {
      NoTunnelYet(t, e.result, e.data);
    }
    BegunReads(t);
  }

  /** The reason recorded for a tunnel that has failed, in whatever order its directions run,
      is that of one of its operations that failed; if only one did, exactly that. */
  lemma {:induction false} TunnelFailsAsDue(readBuffer: string, remoteBuffer: string, events: seq<Event>)
    requires Reach(readBuffer, remoteBuffer, events).pending == Tunnelling
    ensures var t, reasons := Reach(readBuffer, remoteBuffer, events),
                              FaultReasons(Initial(readBuffer, remoteBuffer), events);
            && ReasonsKnown(t, reasons)
            && |reasons| == Faults(Initial(readBuffer, remoteBuffer), events)
            && (t.notification == Error && |reasons| == 1 ==> t.error == reasons[0])
  {
    hide React, Invariant, Fault, FaultReason, HasReason;
    var init, last := events[..|events| - 1], events[|events| - 1];
    var t0 := Initial(readBuffer, remoteBuffer);
    var t := ReactAll(t0, init);
    ReachableInvariant(readBuffer, remoteBuffer, init);
    if t.pending == Tunnelling {
      TunnelFailsAsDue(readBuffer, remoteBuffer, init);
      StepReasons(t, last, FaultReasons(t0, init));
    } else {
      FaultsAreFailures(readBuffer, remoteBuffer, init);
      ReasonsAreFaults(t0, init);
      NoFaultYet(t, last);
      TunnelStartsWell(t, last);
    }
  }

  lemma {:induction false} ReasonsAreFaults(t: Transaction, events: seq<Event>)
    ensures |FaultReasons(t, events)| == Faults(t, events)
  {
    hide React, Fault, FaultReason;
    if events != [] {
      ReasonsAreFaults(t, events[..|events| - 1]);
    }
  }

  // ----- the notification state while a request comes -----

  /** The notification that stands for a phase of the request. */
  function StandsFor(phase: ParsePhase): NotificationState {
    match phase
    case Start => NoneYet
    case ReceivedMessageLine => RequestLine
    case ReceivedHeaders => RequestHeaders
    case ReceivedBody => RequestBody
    case ReceivedFullMessage => RequestComplete
  }

  /** A phase moves the notification state to the one that stands for it, three places further
      up on the side of the response; there, the first line has none. */
  lemma NotificationStandsForPhase(current: NotificationState, phase: ParsePhase)
    ensures var ns, request := NotificationFor(current, phase), Rank(current) < Rank(RequestComplete);
            && (ns == None <==> phase == Start || (phase == ReceivedMessageLine && !request))
            && (ns.Some? ==> Rank(ns.value) == Rank(StandsFor(phase)) + (if request then 0 else 3))
  {}

  /** The phase of the request, as a reset parser makes it of the bytes read. */
  function RequestPhase(t: Transaction): ParsePhase {
    PhaseOfState(Run(REQUEST_PARSER, t.requestBytes).config.parser.state)
  }

  /** While the request is not relayed, the notification state stands for its phase. */
  predicate StateTells(t: Transaction) {
    t.pending.ReadingRequest? || t.pending.OpeningTunnel? || t.pending.SendingReply? ==>
      t.notification == StandsFor(RequestPhase(t))
  }

  lemma PhasesTell(t: Transaction, from: ParsePhase, to: ParsePhase)
    requires t.notification == StandsFor(from)
    requires from == Start || from == ReceivedMessageLine || from == ReceivedHeaders
    requires to == from || (from == Start && to != Start) || to == ReceivedHeaders
    requires to == Start || to == ReceivedMessageLine || to == ReceivedHeaders
    ensures PhasesNotified(t, Between(from, to)).notification == StandsFor(to)
  {
    hide SignalsBetween;
    var phases := Between(from, to);
    if phases == [ReceivedMessageLine] {
      assert PhasesNotified(t, phases) == PhasesNotified(PhaseNotified(t, ReceivedMessageLine), []);
    } else if phases == [ReceivedHeaders] {
      assert PhasesNotified(t, phases) == PhasesNotified(PhaseNotified(t, ReceivedHeaders), []);
    } else if phases == [ReceivedMessageLine, ReceivedHeaders] {
      var t1 := PhaseNotified(t, ReceivedMessageLine);
      assert phases[1..] == [ReceivedHeaders];
      assert PhasesNotified(t, phases) == PhasesNotified(t1, [ReceivedHeaders])
          == PhasesNotified(PhaseNotified(t1, ReceivedHeaders), []);
    }
  }

  lemma PhaseIsOneOfThree(s: ParserState)
    ensures PhaseOfState(s) == Start || PhaseOfState(s) == ReceivedMessageLine || PhaseOfState(s) == ReceivedHeaders
  {}

  lemma RequestReadTells(t: Transaction, data: string)
    requires Invariant(t) && t.pending == ReadingRequest && StateTells(t)
    ensures StateTells(React(t, Done(NoError, data)))
  {
    hide Run, Drive, PhasesNotified, PhasesOf, PhaseOfState, Invariant, HeaderFields.Find, HostAndPort,
         SignalsBetween, Between;
    ReadingKnows(t);
    ReadExtendsRun(REQUEST_PARSER, t.requestBytes, Config(t.parser, t.request), data);
    RunSplit(REQUEST_PARSER, t.requestBytes, data);
    PhaseOnlyGrows(Config(t.parser, t.request), data);
    var d := RequestDriven(t, data);
    PhaseIsOneOfThree(t.parser.state);
    PhaseIsOneOfThree(d.config.parser.state);
    PhasesNotifiedFrame(RequestBase(t, data), d.announced);
    PhasesTell(RequestBase(t, data), PhaseOfState(t.parser.state), PhaseOfState(d.config.parser.state));
  }

  lemma OthersTell(t: Transaction, e: Event)
    requires Invariant(t) && StateTells(t)
    requires !(t.pending == ReadingRequest && e.Done? && e.result == NoError) && t.pending != Tunnelling
    ensures StateTells(React(t, e))
  {
    hide Run, PhaseOfState, StandsFor, OnResponseRead, Ended, TunnelReply, Printer.Formatted, Names, Told, Released;
    if t.pending == NotBegun {
      NothingToRead(REQUEST_PARSER, Start);
      assert PhaseOfState(MethodStart) == Start && StandsFor(Start) == NoneYet by { BeginningTells(); }
    } else if t.pending == ReadingResponse && e.Done? {
      ResponseReadPast(t, e.result, e.data);
    }
  }

  lemma BeginningTells()
    ensures PhaseOfState(MethodStart) == Start && StandsFor(Start) == NoneYet
  {}

  lemma ResponseReadPast(t: Transaction, ec: ErrorCode, data: string)
    requires t.pending == ReadingResponse
    ensures var t' := OnResponseRead(t, ec, data);
            !t'.pending.ReadingRequest? && !t'.pending.OpeningTunnel? && !t'.pending.SendingReply?
  {
    hide Drive, PhasesNotified, SignalsBetween;
  }

  /** In every run, until a request is relayed or its tunnel begins, the notification state
      stands for the phase that a reset parser has reached over all the bytes read: none, the
      request line, or the headers. */
  lemma {:induction false} StateTellsPhase(readBuffer: string, remoteBuffer: string, events: seq<Event>)
    ensures StateTells(Reach(readBuffer, remoteBuffer, events))
  {
    hide React, Invariant, StateTells;
    if events == [] {
      assert StateTells(Initial(readBuffer, remoteBuffer)) by { InitialTells(readBuffer, remoteBuffer); }
    } else {
      var init, last := events[..|events| - 1], events[|events| - 1];
      var t := Reach(readBuffer, remoteBuffer, init);
      StateTellsPhase(readBuffer, remoteBuffer, init);
      ReachableInvariant(readBuffer, remoteBuffer, init);
      if t.pending == Tunnelling {
        StaysTunnel(t, last);
        TunnelTells(React(t, last));
      } else if t.pending == ReadingRequest && last.Done? && last.result == NoError {
        RequestReadTells(t, last.data);
      } else {
        OthersTell(t, last);
      }
    }
  }

  lemma InitialTells(readBuffer: string, remoteBuffer: string)
    ensures StateTells(Initial(readBuffer, remoteBuffer))
  {}

  lemma TunnelTells(t: Transaction)
    requires t.pending == Tunnelling
    ensures StateTells(t)
  {}
}
