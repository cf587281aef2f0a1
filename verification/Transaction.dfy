/** A transaction as the program has it: an object whose methods run between one
    asynchronous operation and the next, and change its fields in place. Each method is
    proved to do what the state machine of `Protocol` says. */
module Transactions {
  import opened Bytes
  import HeaderFields
  import opened Messages
  import opened Parser
  import opened ParserRuns
  import opened P = Protocol
  import Printer = RequestPrinter
  import opened TransactionRuns

  class Connection {
    var closes: nat                      // how often it has been closed
    ghost var written: seq<string>       // what it has been given to write

    constructor ()
      ensures Unused()
    {
      closes, written := 0, [];
    }

    ghost predicate Unused()
      reads this
    {
      closes == 0 && written == []
    }

    method Close()
      modifies `closes
      ensures closes == old(closes) + 1
    {
      closes := closes + 1;
    }

    /** Starts a read, whose bytes come with its completion. */
    method AsyncRead() {
    }

    /** Starts a write from a buffer of the tunnel, which has to stay as it is meanwhile. */
    method AsyncWriteBuffer() {
    }

    method AsyncWrite(data: string)
      modifies `written
      ensures written == old(written) + [data]
    {
      written := written + [data];
    }
  }

  lemma OneStep(current: NotificationState, ns: NotificationState, emitted: seq<Signal>)
    requires Rank(current) < Rank(ns)
    ensures current != Error
    ensures emitted + SignalsBetween(current, ns)
         == emitted + SignalsOnLeaving(current) + SignalsBetween(Next(current), ns)
  {
    hide Rank, SignalsOnLeaving;
    ErrorIsLast(ns);
    assert SignalsBetween(current, ns) == SignalsOnLeaving(current) + SignalsBetween(Next(current), ns);
  }

  lemma Arrived(current: NotificationState, ns: NotificationState)
    requires Rank(current) >= Rank(ns)
    ensures SignalsBetween(current, ns) == []
    ensures Rank(current) == Rank(ns) ==> current == ns
  {}

  lemma EventReacts(t: P.Transaction, e: Event)
    ensures Invariant(t) ==> Invariant(React(t, e)) && React(t, e).pending != Deadlocked
  {
    hide React, Run, Told, EndedAt;
    if Invariant(t) {
      ReactKeeps(t, e);
    }
  }

  // ----- resuming a paused parse -----

  datatype Side = RequestSide | ResponseSide

  function ConfigOf(t: P.Transaction, side: Side): Config {
    Config(t.parser, if side.RequestSide? then t.request else t.response)
  }

  function PhaseOf(t: P.Transaction, side: Side): ParsePhase {
    if side.RequestSide? then t.requestPhase else t.responsePhase
  }

  function WithParse(t: P.Transaction, side: Side, config: Config, phase: ParsePhase): P.Transaction {
    if side.RequestSide? then t.(parser := config.parser, request := config.message, requestPhase := phase)
    else t.(parser := config.parser, response := config.message, responsePhase := phase)
  }

  /** What the rest of a read makes of a transaction, and how its parse comes out. */
  function Applied(t: P.Transaction, side: Side, data: string): (P.Transaction, Outcome) {
    var d := Drive(ConfigOf(t, side), PhaseOf(t, side), data);
    (PhasesNotified(WithParse(t, side, d.config, d.phase), d.announced), d.outcome)
  }

  /** The same after one call of `parse`: either that was all, or it stopped at a new
      phase, which is announced before the rest is parsed. */
  function Resumed(t: P.Transaction, side: Side, outcome: Outcome, current: ParsePhase, rest: string)
    : (P.Transaction, Outcome) {
    if outcome == Incomplete && current != PhaseOf(t, side)
    then Applied(PhaseNotified(t, PhaseOf(t, side)), side, rest)
    else (t, outcome)
  }

  lemma PhaseNotifiedCommutes(t: P.Transaction, side: Side, told: ParsePhase, config: Config, phase: ParsePhase)
    ensures WithParse(PhaseNotified(t, told), side, config, phase)
         == PhaseNotified(WithParse(t, side, config, phase), told)
    ensures ConfigOf(PhaseNotified(t, told), side) == ConfigOf(t, side)
    ensures PhaseOf(PhaseNotified(t, told), side) == PhaseOf(t, side)
  {
    hide SignalsBetween, Rank;
  }

  lemma ParseResumes(t: P.Transaction, side: Side, data: string)
    ensures var phase := PhaseOf(t, side);
            var p := Parsed(ConfigOf(t, side), Some(phase), data);
            && p.phase.Some?
            && Resumed(WithParse(t, side, p.config, p.phase.value), side, p.outcome, phase, data[p.consumed..])
               == Applied(t, side, data)
            && (p.phase != Some(phase) ==> p.phase != Some(Start) && p.consumed > 0)
  {
    hide PhaseNotified;
    var phase := PhaseOf(t, side);
    NewPhaseIsNotStart(ConfigOf(t, side), phase, phase, data);
    var p := Parsed(ConfigOf(t, side), Some(phase), data);
    var paused := WithParse(t, side, p.config, p.phase.value);
    var d := Drive(p.config, p.phase.value, data[p.consumed..]);
    PhaseNotifiedCommutes(paused, side, p.phase.value, d.config, d.phase);
  }

  lemma RequestAppliedIsParsed(t: P.Transaction, data: string)
    ensures Applied(t.(requestBytes := t.requestBytes + data), RequestSide, data)
         == (RequestParsed(t, data), RequestDriven(t, data).outcome)
  {
    hide Drive, PhasesNotified;
  }

  lemma ResponseAppliedIsParsed(t: P.Transaction, data: string)
    ensures Applied(t.(raw := t.raw + data, responseBytes := t.responseBytes + data), ResponseSide, data)
         == (ResponseParsed(t, data), ResponseDriven(t, data).outcome)
  {
    hide Drive, PhasesNotified;
  }

  lemma {:induction false} NewPhaseIsNotStart(k: Config, phase: ParsePhase, starting: ParsePhase, input: string)
    ensures var p := ParseFrom(k, Some(phase), starting, input);
            p.phase == Some(phase) || p.phase != Some(Start)
    decreases |input|
  {
    hide Step;
    if input != "" {
      var s := Step(k, input[0]);
      NewPhaseIsNotStart(s.config, PhaseForTransition(phase, k.parser.state, s.config.parser.state),
                         starting, input[1..]);
    }
  }

  /** A direction that releases the connections, or reports a failure. */
  predicate GivingUp(s: HalfState) {
    s.Releasing? || s.Failing? || s.FailingReleased? || s.FailureTold? || s.FailureReleased?
  }

  class Transaction {
    var error_: ErrorCode
    var client_: Connection?
    var remote_: Connection?
    const parser_: HttpMessageParser
    var raw_input_: string
    var request_parse_phase_: ParsePhase
    const request_: HttpMessage
    var response_parse_phase_: ParsePhase
    const response_: HttpMessage
    var notification_state_: NotificationState
    var mutex_: bool                     // held
    var pending_: Pending                // the asynchronous operation whose completion comes next
    var up_: Half
    var down_: Half

    // what the ends and the listeners have seen
    var signals: seq<Signal>
    ghost const client: Connection       // the connections, whether released or not
    ghost var remote: Connection?
    ghost var requestBytes: string
    ghost var responseBytes: string

    ghost predicate Shape()
      reads this
    {
      && request_ != response_ && request_.headers_ != response_.headers_
      && (client_ == null || client_ == client)
      && (remote_ == null || remote_ == remote)
      && remote != client
    }

    /** Between two events nobody holds the mutex, unless somebody waits for it forever,
        and there has been no remote connection until one has been asked for. */
    ghost predicate Valid()
      reads this
    {
      && Shape()
      && (mutex_ ==> pending_ == Deadlocked)
      && (pending_.NotBegun? || pending_.ReadingRequest? || pending_.OpeningRemote? || pending_.OpeningTunnel?
          ==> remote == null)
    }

    /** The parser, the request and the response as values. */
    ghost function Parsing(): (ParserData, Message, Message)
      reads parser_, request_, request_.headers_, response_, response_.headers_
    {
      (parser_.Data(), request_.Data(), response_.Data())
    }

    /** The transaction as a value. */
    ghost function View(): (t: P.Transaction)
      reads this, parser_, request_, request_.headers_, response_, response_.headers_, client, remote
      ensures t.requestPhase == request_parse_phase_ && t.responsePhase == response_parse_phase_
      ensures t.pending == pending_ && t.up == up_ && t.down == down_
      ensures t.notification == notification_state_ && t.signals == signals
    {
      P.Transaction(client_ != null, remote_ != null,
                    client.closes, if remote == null then 0 else remote.closes,
                    notification_state_, error_, Parsing().0,
                    request_parse_phase_, Parsing().1, response_parse_phase_, Parsing().2,
                    raw_input_, pending_, signals, requestBytes, responseBytes,
                    if remote == null then [] else remote.written, client.written, up_, down_)
    }

    constructor (connection: Connection, readBuffer: string, remoteBuffer: string)
      requires connection.Unused()
      ensures Valid() && client == connection
      ensures View() == Initial(readBuffer, remoteBuffer)
    {
      error_, client_, remote_ := NoError, connection, null;
      parser_ := new HttpMessageParser();
      raw_input_, request_parse_phase_, response_parse_phase_ := "", Start, Start;
      request_ := new HttpMessage();
      response_ := new HttpMessage();
      notification_state_, mutex_, pending_ := NoneYet, false, NotBegun;
      up_, down_ := IdleHalf(readBuffer), IdleHalf(remoteBuffer);
      signals, client, remote := [], connection, null;
      requestBytes, responseBytes := "", "";
    }

    // ----- notifications -----

    method SetNotificationState(ns: NotificationState)
      modifies `notification_state_
      ensures View() == old(View()).(notification := ns)
    {
      hide Parsing;
      notification_state_ := ns;
    }

    method EmitSignal(signal: Signal)
      modifies `signals
      ensures View() == Emit(old(View()), [signal])
    {
      hide Parsing;
      signals := signals + [signal];
    }

    /** Emits what a notification state emits when it is left. */
    method EmitOnLeaving(current: NotificationState)
      modifies `signals
      ensures View() == Emit(old(View()), SignalsOnLeaving(current))
    {
      hide View;
      match current {
        case RequestComplete => EmitSignal(RequestRead);
        case ResponseHeaders => EmitSignal(ResponseHeadersRead);
        case ResponseComplete =>
          EmitSignal(ResponseRead);
          EmitSignal(TransactionComplete);
        case _ =>
      }
    }

    /** Steps through the notification states up to `ns`. */
    method DoNotification(ns: NotificationState)
      modifies `notification_state_, `signals
      ensures View() == Notified(old(View()), ns)
    {
      hide View, SignalsBetween, SignalsOnLeaving, Rank;
      ghost var from := notification_state_;
      while Rank(notification_state_) < Rank(ns)
        invariant Rank(from) < Rank(ns) ==> Rank(notification_state_) <= Rank(ns)
        invariant Rank(from) >= Rank(ns) ==> notification_state_ == from && signals == old(signals)
        invariant signals + SignalsBetween(notification_state_, ns) == old(signals) + SignalsBetween(from, ns)
        invariant View() == old(View()).(notification := notification_state_, signals := signals)
        decreases Rank(ns) - Rank(notification_state_)
      {
        var current := notification_state_;
        OneStep(current, ns, signals);
        SetNotificationState(Next(current));
        EmitOnLeaving(current);
      }
      Arrived(notification_state_, ns);
      assert signals + [] == signals;
    }

    method NotifyPhaseChange(phase: ParsePhase)
      requires phase != Start
      modifies `notification_state_, `signals
      ensures View() == PhaseNotified(old(View()), phase)
    {
      hide Notified, Parsing;
      var request := Rank(notification_state_) < Rank(RequestComplete);
      var ns;
      match phase {
        case Start => assert false;
        case ReceivedMessageLine =>
          if !request {
            return;
          }
          ns := RequestLine;
        case ReceivedHeaders => ns := if request then RequestHeaders else ResponseHeaders;
        case ReceivedBody => ns := if request then RequestBody else ResponseBody;
        case ReceivedFullMessage => ns := if request then RequestComplete else ResponseComplete;
      }
      DoNotification(ns);
    }

    // ----- one field at a time -----

    /** Starts an asynchronous operation, or ends. */
    method Await(operation: Pending)
      modifies `pending_
      ensures pending_ == operation && View() == old(View()).(pending := operation)
    {
      hide Parsing;
      pending_ := operation;
    }

    method Lock()
      requires !mutex_
      modifies `mutex_
      ensures mutex_ && View() == old(View())
    {
      mutex_ := true;
    }

    method Unlock()
      modifies `mutex_
      ensures !mutex_ && View() == old(View())
    {
      mutex_ := false;
    }

    method ClearRawInput()
      modifies `raw_input_
      ensures View() == old(View()).(raw := "")
    {
      hide Parsing;
      raw_input_ := "";
    }

    method MarkFailed(ec: ErrorCode)
      modifies `error_, `notification_state_
      ensures View() == old(View()).(error := ec, notification := Error)
    {
      hide Parsing;
      error_, notification_state_ := ec, Error;
    }

    // ----- endings -----

    /** Closes and forgets both connections. The mutex does not let a thread in twice:
        if this thread holds it, it waits for itself and never goes on. */
    method ReleaseConnections() returns (done: bool)
      requires Shape()
      modifies `client_, `remote_, `pending_, client, remote
      ensures Shape() && (mutex_ ==> pending_ == Deadlocked)
      ensures done == !old(mutex_)
      ensures old(mutex_) ==> View() == FailedUnderLock(old(View()))
      ensures !old(mutex_) ==> View() == Released(old(View())) && pending_ == old(pending_)
    {
      hide Parsing;
      if mutex_ {
        pending_ := Deadlocked;
        return false;
      }
      if client_ != null {
        client_.Close();
      }
      if remote_ != null {
        remote_.Close();
      }
      client_ := null;
      remote_ := null;
      return true;
    }

    method CompleteTransaction()
      requires Shape() && !mutex_
      modifies `client_, `remote_, `pending_, `signals, client, remote
      ensures Valid() && !mutex_
      ensures View() == Completed(old(View()))
    {
      hide View, Released;
      var done := ReleaseConnections();
      EmitSignal(TransactionComplete);
      Await(Finished);
    }

    method NotifyFailure(ec: ErrorCode)
      requires Shape()
      modifies `client_, `remote_, `pending_, `signals, `error_, `notification_state_, client, remote
      ensures Valid()
      ensures old(mutex_) ==> View() == FailedUnderLock(old(View()))
      ensures !old(mutex_) ==> View() == Failed(old(View()), ec)
    {
      hide View, Released, Completed;
      var done := ReleaseConnections();
      if !done {
        return;
      }
      MarkFailed(ec);
      EmitSignal(TransactionFailed);
      CompleteTransaction();
    }

    // ----- the request -----

    method Begin()
      requires Valid() && pending_ == NotBegun
      modifies this, client, remote
      ensures Valid()
      ensures View() == Begun(old(View()))
    {
      hide View, ReadRequest;
      EmitSignal(TransactionStart);
      ClearRawInput();
      ReadClientRequest();
    }

    method ReadClientRequest()
      requires Valid() && !mutex_ && remote == null
      modifies `client_, `remote_, `pending_, `signals, `error_, `notification_state_, `mutex_, client, remote
      ensures Valid()
      ensures View() == ReadRequest(old(View()))
    {
      hide View;
      ViewFields();
      Lock();
      if client_ == null {
        NotifyFailure(ClientDisconnected);
        return;
      }
      client_.AsyncRead();
      Await(ReadingRequest);
      Unlock();
    }

    /** The client's bytes, or an error, have come. */
    method OnRequestRead(ec: ErrorCode, data: string)
      requires Valid() && pending_ == ReadingRequest
      modifies this, parser_, request_, request_.headers_, client, remote
      ensures Valid()
      ensures View() == P.OnRequestRead(old(View()), ec, data)
    {
      hide View, Failed, Notified, P.OpenRemote, P.OpenTunnel, ReadRequest, RequestParsed, RequestDriven;
      if ec == Eof {
        NotifyFailure(ClientDisconnected);
        return;
      }
      if ec != NoError {
        NotifyFailure(ec);
        return;
      }
      var outcome := ParseRequest(data);
      match outcome {
        case Incomplete => ReadClientRequest();
        case Invalid => NotifyFailure(MalformedRequest);
        case Fatal => Await(Aborted);
        case Valid => RelayRequest();
      }
    }

    /** A whole request has come: it asks for a tunnel, or is relayed. */
    method RelayRequest()
      requires Valid() && pending_ == ReadingRequest
      modifies `client_, `remote_, `pending_, `signals, `error_, `notification_state_, client, remote
      ensures Valid()
      ensures var t := old(View());
              View() == if t.request.requestMethod == "CONNECT" then OpenTunnel(t)
                        else OpenRemote(Notified(t, RequestComplete))
    {
      hide View, Notified, P.OpenRemote, P.OpenTunnel;
      ViewFields();
      if request_.method_ == "CONNECT" {
        EstablishTlsTunnel();
      } else {
        DoNotification(RequestComplete);
        OpenRemoteConnection();
      }
    }

    /** One call of `parse`, with the request's phase passed by reference. What is left
        to do after it is what was to be done before it. */
    method ResumeRequest(data: string, start: nat) returns (outcome: Outcome, start': nat)
      requires Valid() && start <= |data|
      modifies `request_parse_phase_, parser_, request_, request_.headers_
      ensures start <= start' <= |data|
      ensures Resumed(View(), RequestSide, outcome, old(request_parse_phase_), data[start'..])
           == Applied(old(View()), RequestSide, data[start..])
      ensures request_parse_phase_ != old(request_parse_phase_) ==> request_parse_phase_ != Start && start < start'
    {
      hide Parsed, Applied, Resumed;
      ghost var t := View();
      ParseResumes(t, RequestSide, data[start..]);
      var phase;
      outcome, start', phase := parser_.Parse(request_, data, start, Some(request_parse_phase_));
      request_parse_phase_ := phase.value;
      assert data[start..][start' - start..] == data[start'..];
    }

    /** Parses the rest of a read, announcing every new phase and resuming the parse after it. */
    method DriveRequest(data: string) returns (outcome: Outcome)
      requires Valid()
      modifies `request_parse_phase_, `notification_state_, `signals, parser_, request_, request_.headers_
      ensures (View(), outcome) == Applied(old(View()), RequestSide, data)
    {
      hide PhaseNotified, Applied, View;
      ghost var all := Applied(View(), RequestSide, data);
      assert data[0..] == data;
      var current := request_parse_phase_;
      var start;
      outcome, start := ResumeRequest(data, 0);
      while outcome == Incomplete && current != request_parse_phase_
        invariant start <= |data|
        invariant Resumed(View(), RequestSide, outcome, current, data[start..]) == all
        invariant current != request_parse_phase_ ==> request_parse_phase_ != Start
        decreases |data| - start, if current != request_parse_phase_ then 1 else 0
      {
        NotifyPhaseChange(request_parse_phase_);
        current := request_parse_phase_;
        outcome, start := ResumeRequest(data, start);
      }
    }

    method ParseRequest(data: string) returns (outcome: Outcome)
      requires Valid()
      modifies `request_parse_phase_, `requestBytes, `notification_state_, `signals,
               parser_, request_, request_.headers_
      ensures View() == RequestParsed(old(View()), data)
      ensures outcome == RequestDriven(old(View()), data).outcome
    {
      hide View, Applied, RequestParsed, RequestDriven;
      RequestAppliedIsParsed(View(), data);
      RecordRequestBytes(data);
      outcome := DriveRequest(data);
    }

    ghost method RecordRequestBytes(data: string)
      modifies `requestBytes
      ensures View() == old(View()).(requestBytes := old(View()).requestBytes + data)
    {
      hide Parsing;
      requestBytes := requestBytes + data;
    }

    /** Asks the pool for a connection to the host that the request names. */
    method OpenRemoteConnection()
      requires Valid() && !mutex_ && remote == null
      modifies `client_, `remote_, `pending_, `signals, `error_, `notification_state_, client, remote
      ensures Valid()
      ensures View() == OpenRemote(old(View()))
    {
      hide View, Failed, HeaderFields.Find, HeaderFields.Canonical;
      ViewFields();
      var hosts := request_.headers_.FindByName(HeaderFields.Spelling(HeaderFields.Host));
      if hosts == [] {
        NotifyFailure(MalformedRequest);
        return;
      }
      var host, port := hosts[0], "80";
      var separator := IndexOf(host, ':');
      if separator != |host| {
        port := host[separator + 1..];
        host := host[..separator];
      }
      Await(OpeningRemote(host, port));
    }

    lemma ViewFields()
      ensures View().request == request_.Data() && View().response == response_.Data()
      ensures View().client == (client_ != null) && View().remote == (remote_ != null)
      ensures View().raw == raw_input_
    {
      hide HttpMessage.Data;
    }

    method EstablishTlsTunnel()
      requires Valid() && !mutex_ && remote == null
      modifies `pending_
      ensures Valid()
      ensures View() == OpenTunnel(old(View()))
    {
      hide View;
      ViewFields();
      var host, port := request_.uri_, "443";
      var separator := IndexOf(host, ':');
      if separator != |host| {
        port := host[separator + 1..];
        host := host[..separator];
      }
      Await(OpeningTunnel(host, port));
    }

    /** The pool has opened a connection, or has failed to. */
    method OnRemoteOpened(connection: Connection?, ec: ErrorCode)
      requires Valid() && pending_.OpeningRemote?
      requires ec == NoError ==> connection != null && connection != client && connection.Unused()
      modifies this, client, connection
      ensures Valid()
      ensures View() == P.OnRemoteOpened(old(View()), ec)
    {
      hide View, Failed, SendRequest;
      if ec != NoError {
        NotifyFailure(ec);
        return;
      }
      SetRemote(connection);
      SendClientRequestToRemote();
    }

    method SetRemote(connection: Connection)
      requires remote == null && connection != client && connection.Unused()
      modifies `remote_, `remote
      ensures remote_ == remote == connection
      ensures View() == old(View()).(remote := true)
    {
      hide Parsing;
      remote_ := connection;
      remote := connection;
    }

    method SendClientRequestToRemote()
      requires Shape() && !mutex_
      modifies `client_, `remote_, `pending_, `signals, `error_, `notification_state_, `mutex_,
               client, remote
      ensures Valid()
      ensures View() == SendRequest(old(View()))
    {
      hide View, Printer.Formatted;
      ViewFields();
      Lock();
      if client_ == null || remote_ == null {
        NotifyFailure(ClientDisconnected);
        return;
      }
      var formatted := Printer.Format(request_);
      WriteToRemote(formatted);
      Await(SendingRequest);
      Unlock();
    }

    method WriteToRemote(data: string)
      requires Shape() && remote_ != null
      modifies remote`written
      ensures View() == old(View()).(sentToRemote := old(View()).sentToRemote + [data])
    {
      hide Parsing;
      remote_.AsyncWrite(data);
    }

    method WriteToClient(data: string)
      requires Shape() && client_ != null
      modifies client`written
      ensures View() == old(View()).(sentToClient := old(View()).sentToClient + [data])
    {
      hide Parsing;
      client_.AsyncWrite(data);
    }

    /** The request has been written, or not. */
    method OnRequestSent(ec: ErrorCode)
      requires Valid() && pending_ == SendingRequest
      modifies this, parser_, client, remote
      ensures Valid()
      ensures View() == P.OnRequestSent(old(View()), ec)
    {
      hide View, Failed, ReadResponse;
      if ec != NoError {
        NotifyFailure(ec);
        return;
      }
      ClearRawInput();
      ResetParser();
      ReadRemoteResponse();
    }

    method ResetParser()
      modifies parser_
      ensures View() == old(View()).(parser := RESPONSE_RESET)
    {
      parser_.ResetForResponse();
    }

    // ----- the response -----

    method ReadRemoteResponse()
      requires Valid() && !mutex_
      modifies `client_, `remote_, `pending_, `signals, `error_, `notification_state_, `mutex_, client, remote
      ensures Valid()
      ensures View() == ReadResponse(old(View()))
    {
      hide View;
      ViewFields();
      Lock();
      if client_ == null || remote_ == null {
        NotifyFailure(ClientDisconnected);
        return;
      }
      remote_.AsyncRead();
      Await(ReadingResponse);
      Unlock();
    }

    /** The remote end's bytes, or an error, have come. */
    method OnResponseRead(ec: ErrorCode, data: string)
      requires Valid() && pending_ == ReadingResponse
      modifies this, parser_, response_, response_.headers_, client, remote
      ensures Valid()
      ensures View() == P.OnResponseRead(old(View()), ec, data)
    {
      hide View, Failed, Notified, SendResponse, ReadResponse, ResponseParsed, ResponseDriven;
      if ec == Eof {
        NotifyFailure(RemoteDisconnected);
        return;
      }
      if ec != NoError {
        NotifyFailure(ec);
        return;
      }
      var outcome := ParseResponse(data);
      match outcome {
        case Incomplete => ReadRemoteResponse();
        case Invalid => NotifyFailure(MalformedResponse);
        case Fatal => Await(Aborted);
        case Valid =>
          DoNotification(ResponseComplete);
          SendRemoteResponseToClient();
      }
    }

    /** One call of `parse`, with the response's phase passed by reference. What is left
        to do after it is what was to be done before it. */
    method ResumeResponse(data: string, start: nat) returns (outcome: Outcome, start': nat)
      requires Valid() && start <= |data|
      modifies `response_parse_phase_, parser_, response_, response_.headers_
      ensures start <= start' <= |data|
      ensures Resumed(View(), ResponseSide, outcome, old(response_parse_phase_), data[start'..])
           == Applied(old(View()), ResponseSide, data[start..])
      ensures response_parse_phase_ != old(response_parse_phase_) ==> response_parse_phase_ != Start && start < start'
    {
      hide Parsed, Applied, Resumed;
      ghost var t := View();
      ParseResumes(t, ResponseSide, data[start..]);
      var phase;
      outcome, start', phase := parser_.Parse(response_, data, start, Some(response_parse_phase_));
      response_parse_phase_ := phase.value;
      assert data[start..][start' - start..] == data[start'..];
    }

    /** Parses the rest of a read, announcing every new phase and resuming the parse after it. */
    method DriveResponse(data: string) returns (outcome: Outcome)
      requires Valid()
      modifies `response_parse_phase_, `notification_state_, `signals, parser_, response_, response_.headers_
      ensures (View(), outcome) == Applied(old(View()), ResponseSide, data)
    {
      hide PhaseNotified, Applied, View;
      ghost var all := Applied(View(), ResponseSide, data);
      assert data[0..] == data;
      var current := response_parse_phase_;
      var start;
      outcome, start := ResumeResponse(data, 0);
      while outcome == Incomplete && current != response_parse_phase_
        invariant start <= |data|
        invariant Resumed(View(), ResponseSide, outcome, current, data[start..]) == all
        invariant current != response_parse_phase_ ==> response_parse_phase_ != Start
        decreases |data| - start, if current != response_parse_phase_ then 1 else 0
      {
        NotifyPhaseChange(response_parse_phase_);
        current := response_parse_phase_;
        outcome, start := ResumeResponse(data, start);
      }
    }

    method ParseResponse(data: string) returns (outcome: Outcome)
      requires Valid()
      modifies `response_parse_phase_, `raw_input_, `responseBytes, `notification_state_, `signals,
               parser_, response_, response_.headers_
      ensures View() == ResponseParsed(old(View()), data)
      ensures outcome == ResponseDriven(old(View()), data).outcome
    {
      hide View, Applied, ResponseParsed, ResponseDriven;
      ResponseAppliedIsParsed(View(), data);
      Record(data);
      outcome := DriveResponse(data);
    }

    /** Keeps the remote end's bytes to be relayed as they are. */
    method Record(data: string)
      modifies `raw_input_, `responseBytes
      ensures View() == old(View()).(raw := old(View()).raw + data,
                                     responseBytes := old(View()).responseBytes + data)
    {
      hide Parsing;
      raw_input_ := raw_input_ + data;
      responseBytes := responseBytes + data;
    }

    method SendRemoteResponseToClient()
      requires Valid() && !mutex_
      modifies `client_, `remote_, `pending_, `signals, `error_, `notification_state_, `mutex_,
               client, remote
      ensures Valid()
      ensures View() == SendResponse(old(View()))
    {
      hide View;
      ViewFields();
      Lock();
      if client_ == null {
        NotifyFailure(ClientDisconnected);
        return;
      }
      WriteToClient(raw_input_);
      Await(SendingResponse);
      Unlock();
    }

    /** The response has been written, or not. */
    method OnResponseSent(ec: ErrorCode)
      requires Valid() && pending_ == SendingResponse
      modifies this, client, remote
      ensures Valid()
      ensures View() == P.OnResponseSent(old(View()), ec)
    {
      hide View, Failed, Completed;
      if ec != NoError {
        NotifyFailure(ec);
        return;
      }
      CompleteTransaction();
    }

    // ----- the tunnel -----

    /** The pool has opened a connection, or has failed to: either way the client is told. */
    method OnTunnelOpened(connection: Connection?, ec: ErrorCode)
      requires Valid() && pending_.OpeningTunnel?
      requires ec == NoError ==> connection != null && connection != client && connection.Unused()
      modifies this, client, connection
      ensures Valid()
      ensures View() == P.OnTunnelOpened(old(View()), ec)
    {
      hide View, TunnelReply;
      var success := ec == NoError;
      if success {
        SetRemote(connection);
      }
      ViewFields();
      Lock();
      if client_ == null {
        NotifyFailure(ClientDisconnected);
        return;
      }
      WriteToClient(TunnelReply(success));
      Await(SendingReply(success, ec));
      Unlock();
    }

    /** The reply has been written, or not: a tunnel starts, or the transaction fails with
        the result of opening, whatever went wrong with the reply. */
    method OnReplySent(ec: ErrorCode)
      requires Valid() && pending_.SendingReply?
      modifies this, client, remote
      ensures Valid()
      ensures View() == P.OnReplySent(old(View()), ec)
    {
      hide View, Failed;
      ViewFields();
      var success := pending_.connected && ec == NoError;
      if success {
        StartTunnel();
      } else {
        NotifyFailure(pending_.openResult);
      }
    }

    method StartTunnel()
      modifies `pending_, `up_
      ensures pending_ == Tunnelling
      ensures View() == old(View()).(pending := Tunnelling, up := old(View()).up.(state := Entering))
    {
      hide Parsing;
      pending_ := Tunnelling;
      up_ := up_.(state := Entering);
    }

    method SetUp(state: HalfState)
      modifies `up_
      ensures View() == old(View()).(up := old(up_).(state := state))
    {
      hide Parsing;
      up_ := up_.(state := state);
    }

    method SetDown(state: HalfState)
      modifies `down_
      ensures View() == old(View()).(down := old(down_).(state := state))
    {
      hide Parsing;
      down_ := down_.(state := state);
    }

    /** Starts a read of the client, if both ends are still there; the first time, the
        thread goes on to start the other direction. */
    method SendClientRequestViaTunnel()
      requires Valid() && pending_ == Tunnelling && up_.state == Entering
      modifies `up_, `down_, `mutex_
      ensures Valid()
      ensures View() == UpReacts(old(View()), Proceed)
    {
      hide View;
      ViewFields();
      Lock();
      if client_ == null || remote_ == null {
        SetUp(Stopped(false));
      } else {
        client_.AsyncRead();
        SetUp(Reading);
      }
      Unlock();
      if down_.state == Blocked {
        SetDown(Entering);
      }
    }

    /** Bytes of the client have come into the buffer, or its end, or an error. */
    method OnTunnelRequestRead(ec: ErrorCode, data: string)
      requires Valid() && pending_ == Tunnelling && up_.state == Reading
      requires |data| <= |up_.buffer| || ec != NoError || data == ""
      modifies `up_
      ensures Valid()
      ensures View() == UpReacts(old(View()), ReadDone(ec, data))
    {
      hide Parsing;
      if ec == Eof || data == "" {
        up_ := up_.(state := Releasing);
      } else if ec != NoError {
        up_ := up_.(state := Failing(ec));
      } else {
        up_ := up_.(state := Received(|data|), buffer := data + up_.buffer[|data|..],
                   received := up_.received + data);
      }
    }

    /** Starts to write what has been read, if the remote end is still there. */
    method WriteTunnelRequest()
      requires Valid() && pending_ == Tunnelling && up_.state.Received?
      modifies `up_, `mutex_
      ensures Valid()
      ensures View() == UpReacts(old(View()), Proceed)
    {
      hide View;
      ViewFields();
      Lock();
      if remote_ == null {
        SetUp(Stopped(false));
      } else {
        remote_.AsyncWriteBuffer();
        SetUp(Writing(up_.state.size, 0));
      }
      Unlock();
    }

    /** What has been read has been written, or not; the direction reads on. */
    method OnTunnelRequestWritten(ec: ErrorCode)
      requires Valid() && pending_ == Tunnelling && up_.state.Writing?
      modifies `up_
      ensures Valid()
      ensures View() == UpReacts(old(View()), WriteDone(ec))
    {
      hide View;
      if ec != NoError {
        SetUp(Failing(ec));
      } else if up_.state.sent != up_.state.size {
        SetUp(Failing(NetworkError));
      } else {
        SetUp(Entering);
      }
    }

    method ReleaseUp(next: HalfState)
      requires Valid() && !mutex_ && pending_ == Tunnelling
      modifies `client_, `remote_, `pending_, `up_, client, remote
      ensures Valid() && !mutex_
      ensures View() == Released(old(View())).(up := old(up_).(state := next))
    {
      hide View;
      var done := ReleaseConnections();
      SetUp(next);
    }

    method ReportUp()
      requires Valid() && pending_ == Tunnelling && (up_.state.FailingReleased? || up_.state.FailureReleased?)
      modifies `signals, `error_, `notification_state_, `up_
      ensures Valid()
      ensures View() == UpReacts(old(View()), Proceed)
    {
      hide View;
      if up_.state.FailingReleased? {
        MarkFailed(up_.state.reason);
        EmitSignal(TransactionFailed);
        SetUp(FailureTold);
      } else {
        EmitSignal(TransactionComplete);
        SetUp(Stopped(true));
      }
    }

    /** The next section of a thread of the client's direction that is giving up. */
    method EndUp()
      requires Valid() && pending_ == Tunnelling && GivingUp(up_.state)
      modifies `client_, `remote_, `pending_, `signals, `error_, `notification_state_, `up_, client, remote
      ensures Valid()
      ensures View() == UpReacts(old(View()), Proceed)
    {
      hide View, Released;
      if up_.state.FailingReleased? || up_.state.FailureReleased? {
        ReportUp();
      } else if up_.state.Releasing? {
        ReleaseUp(Stopped(false));
      } else if up_.state.Failing? {
        ReleaseUp(FailingReleased(up_.state.reason));
      } else {
        ReleaseUp(FailureReleased);
      }
    }

    /** The same for what the remote end sends. */
    method SendServerResponseViaTunnel()
      requires Valid() && pending_ == Tunnelling && down_.state == Entering
      modifies `down_, `mutex_
      ensures Valid()
      ensures View() == DownReacts(old(View()), Proceed)
    {
      hide View;
      ViewFields();
      Lock();
      if client_ == null || remote_ == null {
        SetDown(Stopped(false));
      } else {
        remote_.AsyncRead();
        SetDown(Reading);
      }
      Unlock();
    }

    /** Bytes of the remote end have come into the buffer, or its end, or an error. */
    method OnTunnelResponseRead(ec: ErrorCode, data: string)
      requires Valid() && pending_ == Tunnelling && down_.state == Reading
      requires |data| <= |down_.buffer| || ec != NoError || data == ""
      modifies `down_
      ensures Valid()
      ensures View() == DownReacts(old(View()), ReadDone(ec, data))
    {
      hide Parsing;
      if ec == Eof || data == "" {
        down_ := down_.(state := Releasing);
      } else if ec != NoError {
        down_ := down_.(state := Failing(ec));
      } else {
        down_ := down_.(state := Received(|data|), buffer := data + down_.buffer[|data|..],
                       received := down_.received + data);
      }
    }

    /** Starts to write what has been read, if the client is still there. */
    method WriteTunnelResponse()
      requires Valid() && pending_ == Tunnelling && down_.state.Received?
      modifies `down_, `mutex_
      ensures Valid()
      ensures View() == DownReacts(old(View()), Proceed)
    {
      hide View;
      ViewFields();
      Lock();
      if client_ == null {
        SetDown(Stopped(false));
      } else {
        client_.AsyncWriteBuffer();
        SetDown(Writing(down_.state.size, 0));
      }
      Unlock();
    }

    /** What has been read has been written, or not; the direction reads on. */
    method OnTunnelResponseWritten(ec: ErrorCode)
      requires Valid() && pending_ == Tunnelling && down_.state.Writing?
      modifies `down_
      ensures Valid()
      ensures View() == DownReacts(old(View()), WriteDone(ec))
    {
      hide View;
      if ec != NoError {
        SetDown(Failing(ec));
      } else if down_.state.sent != down_.state.size {
        SetDown(Failing(NetworkError));
      } else {
        SetDown(Entering);
      }
    }

    method ReleaseDown(next: HalfState)
      requires Valid() && !mutex_ && pending_ == Tunnelling
      modifies `client_, `remote_, `pending_, `down_, client, remote
      ensures Valid() && !mutex_
      ensures View() == Released(old(View())).(down := old(down_).(state := next))
    {
      hide View;
      var done := ReleaseConnections();
      SetDown(next);
    }

    method ReportDown()
      requires Valid() && pending_ == Tunnelling && (down_.state.FailingReleased? || down_.state.FailureReleased?)
      modifies `signals, `error_, `notification_state_, `down_
      ensures Valid()
      ensures View() == DownReacts(old(View()), Proceed)
    {
      hide View;
      if down_.state.FailingReleased? {
        MarkFailed(down_.state.reason);
        EmitSignal(TransactionFailed);
        SetDown(FailureTold);
      } else {
        EmitSignal(TransactionComplete);
        SetDown(Stopped(true));
      }
    }

    /** The next section of a thread of the other direction that is giving up. */
    method EndDown()
      requires Valid() && pending_ == Tunnelling && GivingUp(down_.state)
      modifies `client_, `remote_, `pending_, `signals, `error_, `notification_state_, `down_, client, remote
      ensures Valid()
      ensures View() == DownReacts(old(View()), Proceed)
    {
      hide View, Released;
      if down_.state.FailingReleased? || down_.state.FailureReleased? {
        ReportDown();
      } else if down_.state.Releasing? {
        ReleaseDown(Stopped(false));
      } else if down_.state.Failing? {
        ReleaseDown(FailingReleased(down_.state.reason));
      } else {
        ReleaseDown(FailureReleased);
      }
    }

    // ----- events -----

    method OnUpEvent(e: HalfEvent)
      requires Valid() && pending_ == Tunnelling
      modifies this, client, remote
      ensures Valid()
      ensures View() == UpReacts(old(View()), e)
    {
      hide View;
      match (up_.state, e) {
        case (Entering, Proceed) => SendClientRequestViaTunnel();
        case (Received(_), Proceed) => WriteTunnelRequest();
        case (Reading, ReadDone(ec, data)) =>
          if |data| <= |up_.buffer| || ec != NoError || data == "" {
            OnTunnelRequestRead(ec, data);
          }
        case (Writing(_, _), WriteDone(ec)) => OnTunnelRequestWritten(ec);
        case (_, Proceed) =>
          if GivingUp(up_.state) {
            EndUp();
          }
        case _ => FillUp(e);
      }
    }

    /** The network stores into the buffer of a pending read, or sends from the buffer of a
        pending write. */
    method FillUp(e: HalfEvent)
      requires Valid() && pending_ == Tunnelling && !e.Proceed?
      modifies `up_
      ensures Valid()
      ensures View() == UpReacts(old(View()), e)
    {
      hide Parsing, HalfIo;
      up_ := HalfIo(up_, e);
    }

    method OnDownEvent(e: HalfEvent)
      requires Valid() && pending_ == Tunnelling
      modifies this, client, remote
      ensures Valid()
      ensures View() == DownReacts(old(View()), e)
    {
      hide View;
      match (down_.state, e) {
        case (Entering, Proceed) => SendServerResponseViaTunnel();
        case (Received(_), Proceed) => WriteTunnelResponse();
        case (Reading, ReadDone(ec, data)) =>
          if |data| <= |down_.buffer| || ec != NoError || data == "" {
            OnTunnelResponseRead(ec, data);
          }
        case (Writing(_, _), WriteDone(ec)) => OnTunnelResponseWritten(ec);
        case (_, Proceed) =>
          if GivingUp(down_.state) {
            EndDown();
          }
        case _ => FillDown(e);
      }
    }

    method FillDown(e: HalfEvent)
      requires Valid() && pending_ == Tunnelling && !e.Proceed?
      modifies `down_
      ensures Valid()
      ensures View() == DownReacts(old(View()), e)
    {
      hide Parsing, HalfIo;
      down_ := HalfIo(down_, e);
    }

    /** Whatever happens next, the transaction reacts as the state machine does. A pool
        that succeeds hands over a connection. */
    method OnEvent(e: Event, connection: Connection?)
      requires Valid()
      requires e.Done? && e.result == NoError && (pending_.OpeningRemote? || pending_.OpeningTunnel?) ==>
                 connection != null && connection != client && connection.Unused()
      modifies this, parser_, request_, request_.headers_, response_, response_.headers_, client, remote, connection
      ensures Valid()
      ensures View() == React(old(View()), e)
      ensures Invariant(old(View())) ==> Invariant(View()) && !mutex_
    {
      hide View, Invariant, Begun, P.OnRequestRead, P.OnRemoteOpened, P.OnRequestSent, P.OnResponseRead,
           P.OnResponseSent,
           P.OnTunnelOpened, P.OnReplySent, UpReacts, DownReacts;
      EventReacts(View(), e);
      match (pending_, e) {
        case (NotBegun, Begin) => Begin();
        case (ReadingRequest, Done(ec, data)) => OnRequestRead(ec, data);
        case (OpeningRemote(_, _), Done(ec, _)) => OnRemoteOpened(connection, ec);
        case (SendingRequest, Done(ec, _)) => OnRequestSent(ec);
        case (ReadingResponse, Done(ec, data)) => OnResponseRead(ec, data);
        case (SendingResponse, Done(ec, _)) => OnResponseSent(ec);
        case (OpeningTunnel(_, _), Done(ec, _)) => OnTunnelOpened(connection, ec);
        case (SendingReply(_, _), Done(ec, _)) => OnReplySent(ec);
        case (Tunnelling, UpEvent(h)) => OnUpEvent(h);
        case (Tunnelling, DownEvent(h)) => OnDownEvent(h);
        case _ =>
      }
    }
  }
}
