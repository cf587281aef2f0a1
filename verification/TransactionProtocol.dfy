/** One proxied transaction as a state machine. Every asynchronous operation is a
    pending state that some later event completes, with any result; in a tunnel two
    threads take turns in any order, one section of code between locks at a time. */
module Protocol {
  import opened Bytes
  import opened HeaderFields
  import opened Messages
  import opened Parser
  import opened ParserRuns
  import Printer = RequestPrinter

  datatype NotificationState =
    | NoneYet | RequestLine | RequestHeaders | RequestBody | RequestComplete
    | ResponseHeaders | ResponseBody | ResponseComplete
    | TlsTunnel
    | Error

  datatype Signal =
    | TransactionStart | RequestRead | ResponseHeadersRead | ResponseRead
    | TransactionComplete | TransactionFailed

  /** The result of an asynchronous operation, or the reason a transaction failed. */
  datatype ErrorCode =
    | NoError | Eof | System(code: int)
    | ClientDisconnected | RemoteDisconnected | MalformedRequest | MalformedResponse | NetworkError

  /** What an ordinary transaction is waiting for. `Deadlocked` is a thread waiting for
      the mutex it holds itself; `Aborted` is a process that has stopped. */
  datatype Pending =
    | NotBegun
    | ReadingRequest
    | OpeningRemote(host: string, port: string)
    | SendingRequest
    | ReadingResponse
    | SendingResponse
    | OpeningTunnel(host: string, port: string)
    | SendingReply(connected: bool, openResult: ErrorCode)
    | Tunnelling
    | Finished
    | Deadlocked
    | Aborted

  /** Where one direction of a tunnel stands: waiting for the other direction to start,
      about to read, reading, holding `size` bytes read, writing them with `sent` of
      them on the wire, about to release the connections, somewhere in reporting a
      failure, or over. */
  datatype HalfState =
    | Blocked
    | Entering
    | Reading
    | Received(size: nat)
    | Writing(size: nat, sent: nat)
    | Releasing
    | Failing(reason: ErrorCode)
    | FailingReleased(reason: ErrorCode)
    | FailureTold
    | FailureReleased
    | Stopped(failed: bool)

  /** One direction: its buffer, all bytes read and all bytes put on the wire. */
  datatype Half = Half(state: HalfState, buffer: string, received: string, delivered: string)

  datatype Transaction = Transaction(
    client: bool, remote: bool,                    // the connections are not null
    clientCloses: nat, remoteCloses: nat,          // how often each has been closed
    notification: NotificationState, error: ErrorCode,
    parser: ParserData,
    requestPhase: ParsePhase, request: Message,
    responsePhase: ParsePhase, response: Message,
    raw: string,                                   // recorded bytes, to be relayed
    pending: Pending,
    signals: seq<Signal>,                          // emitted so far
    requestBytes: string, responseBytes: string,   // read so far from either end
    sentToRemote: seq<string>, sentToClient: seq<string>,
    up: Half, down: Half)                          // client to remote, remote to client

  const BUFFER_SIZE: nat := 8192

  function IdleHalf(buffer: string): Half {
    Half(Blocked, buffer, "", "")
  }

  function Initial(readBuffer: string, remoteBuffer: string): Transaction {
    Transaction(true, false, 0, 0, NoneYet, NoError, REQUEST_RESET, Start, FRESH_MESSAGE, Start, FRESH_MESSAGE,
                "", NotBegun, [], "", "", [], [], IdleHalf(readBuffer), IdleHalf(remoteBuffer))
  }

  // ----- notifications -----

  function Rank(ns: NotificationState): nat {
    match ns
    case NoneYet => 0
    case RequestLine => 1
    case RequestHeaders => 2
    case RequestBody => 3
    case RequestComplete => 4
    case ResponseHeaders => 5
    case ResponseBody => 6
    case ResponseComplete => 7
    case TlsTunnel => 8
    case Error => 9
  }

  function Next(ns: NotificationState): (next: NotificationState)
    requires ns != Error
    ensures Rank(next) == Rank(ns) + 1
  {
    match ns
    case NoneYet => RequestLine
    case RequestLine => RequestHeaders
    case RequestHeaders => RequestBody
    case RequestBody => RequestComplete
    case RequestComplete => ResponseHeaders
    case ResponseHeaders => ResponseBody
    case ResponseBody => ResponseComplete
    case ResponseComplete => TlsTunnel
    case TlsTunnel => Error
  }

  /** The signals emitted when a notification state is left. */
  function SignalsOnLeaving(ns: NotificationState): seq<Signal> {
    match ns
    case RequestComplete => [RequestRead]
    case ResponseHeaders => [ResponseHeadersRead]
    case ResponseComplete => [ResponseRead, TransactionComplete]
    case _ => []
  }

  /** The signals emitted by moving from one notification state up to another. */
  function SignalsBetween(from: NotificationState, to: NotificationState): seq<Signal>
    decreases Rank(to) - Rank(from)
  {
    if Rank(from) >= Rank(to) then [] else SignalsOnLeaving(from) + SignalsBetween(Next(from), to)
  }

  function Emit(t: Transaction, signals: seq<Signal>): Transaction {
    t.(signals := t.signals + signals)
  }

  /** Moves up to a notification state, through every state between, if it is higher. */
  function Notified(t: Transaction, ns: NotificationState): Transaction {
    if Rank(t.notification) >= Rank(ns) then t
    else Emit(t, SignalsBetween(t.notification, ns)).(notification := ns)
  }

  /** The notification that a parse phase calls for, if any. */
  function NotificationFor(current: NotificationState, phase: ParsePhase): Option<NotificationState> {
    var request := Rank(current) < Rank(RequestComplete);
    match phase
    case Start => None
    case ReceivedMessageLine => if request then Some(RequestLine) else None
    case ReceivedHeaders => Some(if request then RequestHeaders else ResponseHeaders)
    case ReceivedBody => Some(if request then RequestBody else ResponseBody)
    case ReceivedFullMessage => Some(if request then RequestComplete else ResponseComplete)
  }

  function PhaseNotified(t: Transaction, phase: ParsePhase): Transaction {
    match NotificationFor(t.notification, phase)
    case None => t
    case Some(ns) => Notified(t, ns)
  }

  function PhasesNotified(t: Transaction, phases: seq<ParsePhase>): Transaction
    decreases |phases|
  {
    if phases == [] then t else PhasesNotified(PhaseNotified(t, phases[0]), phases[1..])
  }

  // ----- endings -----

  function Released(t: Transaction): Transaction {
    t.(client := false, remote := false,
       clientCloses := t.clientCloses + (if t.client then 1 else 0),
       remoteCloses := t.remoteCloses + (if t.remote then 1 else 0))
  }

  function Completed(t: Transaction): Transaction {
    Emit(Released(t), [TransactionComplete]).(pending := Finished)
  }

  function Failed(t: Transaction, reason: ErrorCode): Transaction {
    Completed(Emit(Released(t).(error := reason, notification := Error), [TransactionFailed]))
  }

  /** `notify_failure` called with the mutex held: it takes the mutex again. */
  function FailedUnderLock(t: Transaction): Transaction {
    t.(pending := Deadlocked)
  }

  // ----- the chain of an ordinary transaction -----

  function Begun(t: Transaction): Transaction {
    ReadRequest(Emit(t, [TransactionStart]).(raw := ""))
  }

  function ReadRequest(t: Transaction): Transaction {
    if !t.client then FailedUnderLock(t) else t.(pending := ReadingRequest)
  }

  function RequestDriven(t: Transaction, data: string): DriveResult {
    Drive(Config(t.parser, t.request), t.requestPhase, data)
  }

  /** The request, its phase and its notifications after one more read. */
  function RequestParsed(t: Transaction, data: string): Transaction {
    var d := RequestDriven(t, data);
    PhasesNotified(t.(parser := d.config.parser, request := d.config.message, requestPhase := d.phase,
                      requestBytes := t.requestBytes + data),
                   d.announced)
  }

  function OnRequestRead(t: Transaction, ec: ErrorCode, data: string): Transaction {
    if ec == Eof then Failed(t, ClientDisconnected)
    else if ec != NoError then Failed(t, ec)
    else
      var t' := RequestParsed(t, data);
      match RequestDriven(t, data).outcome
      case Incomplete => ReadRequest(t')
      case Invalid => Failed(t', MalformedRequest)
      case Fatal => t'.(pending := Aborted)
      case Valid =>
        if t'.request.requestMethod == "CONNECT" then OpenTunnel(t')
        else OpenRemote(Notified(t', RequestComplete))
  }

  /** The part of `address` before its first colon and the part after it. */
  function HostAndPort(address: string, defaultPort: string): (string, string) {
    var i := IndexOf(address, ':');
    if i == |address| then (address, defaultPort) else (address[..i], address[i + 1..])
  }

  function IndexOf(s: string, c: char): (i: nat)
    ensures i <= |s|
    ensures i < |s| ==> s[i] == c
    ensures forall j | 0 <= j < i :: s[j] != c
  {
    if s == "" || s[0] == c then 0 else 1 + IndexOf(s[1..], c)
  }

  function OpenRemote(t: Transaction): Transaction {
    var hosts := Find(t.request.headers, Spelling(Host));
    if hosts == [] then Failed(t, MalformedRequest)
    else
      var (host, port) := HostAndPort(hosts[0], "80");
      t.(pending := OpeningRemote(host, port))
  }

  function OnRemoteOpened(t: Transaction, ec: ErrorCode): Transaction {
    if ec != NoError then Failed(t, ec) else SendRequest(t.(remote := true))
  }

  function SendRequest(t: Transaction): Transaction {
    if !t.client || !t.remote then FailedUnderLock(t)
    else t.(sentToRemote := t.sentToRemote + [Printer.Formatted(t.request)], pending := SendingRequest)
  }

  function OnRequestSent(t: Transaction, ec: ErrorCode): Transaction {
    if ec != NoError then Failed(t, ec)
    else ReadResponse(t.(raw := "", parser := RESPONSE_RESET))
  }

  function ReadResponse(t: Transaction): Transaction {
    if !t.client || !t.remote then FailedUnderLock(t) else t.(pending := ReadingResponse)
  }

  function ResponseDriven(t: Transaction, data: string): DriveResult {
    Drive(Config(t.parser, t.response), t.responsePhase, data)
  }

  function ResponseParsed(t: Transaction, data: string): Transaction {
    var d := ResponseDriven(t, data);
    PhasesNotified(t.(parser := d.config.parser, response := d.config.message, responsePhase := d.phase,
                      raw := t.raw + data, responseBytes := t.responseBytes + data),
                   d.announced)
  }

  function OnResponseRead(t: Transaction, ec: ErrorCode, data: string): Transaction {
    if ec == Eof then Failed(t, RemoteDisconnected)
    else if ec != NoError then Failed(t, ec)
    else
      var t' := ResponseParsed(t, data);
      match ResponseDriven(t, data).outcome
      case Incomplete => ReadResponse(t')
      case Invalid => Failed(t', MalformedResponse)
      case Fatal => t'.(pending := Aborted)
      case Valid => SendResponse(Notified(t', ResponseComplete))
  }

  function SendResponse(t: Transaction): Transaction {
    if !t.client then FailedUnderLock(t)
    else t.(sentToClient := t.sentToClient + [t.raw], pending := SendingResponse)
  }

  function OnResponseSent(t: Transaction, ec: ErrorCode): Transaction {
    if ec != NoError then Failed(t, ec) else Completed(t)
  }

  // ----- opening a tunnel -----

  function OpenTunnel(t: Transaction): Transaction {
    var (host, port) := HostAndPort(t.request.uri, "443");
    t.(pending := OpeningTunnel(host, port))
  }

  function TunnelReply(connected: bool): string {
    (if connected then "HTTP/1.1 200 OK\r\n" else "HTTP/1.1 400 Bad Request\r\n")
    + "Proxy-Agent: amanuensis 0.1.0\r\n"
    + "\r\n"
  }

  function OnTunnelOpened(t: Transaction, ec: ErrorCode): Transaction {
    var t' := if ec == NoError then t.(remote := true) else t;
    if !t'.client then FailedUnderLock(t')
    else t'.(sentToClient := t'.sentToClient + [TunnelReply(ec == NoError)],
             pending := SendingReply(ec == NoError, ec))
  }

  /** The reply has been written, or not; a failure reports the result of opening. */
  function OnReplySent(t: Transaction, ec: ErrorCode): Transaction
    requires t.pending.SendingReply?
  {
    if ec == NoError && t.pending.connected
    then t.(pending := Tunnelling, up := t.up.(state := Entering))
    else Failed(t, t.pending.openResult)
  }

  // ----- the two directions of a tunnel -----

  /** What can happen to a direction: its thread runs up to the next lock or wait, its
      pending read stores into its buffer or completes, its pending write puts more
      bytes on the wire or completes. */
  datatype HalfEvent =
    | Proceed
    | Store(content: string)
    | ReadDone(readResult: ErrorCode, data: string)
    | Transmit(count: nat)
    | WriteDone(writeResult: ErrorCode)

  datatype Event =
    | Begin
    | Done(result: ErrorCode, data: string)
    | UpEvent(up: HalfEvent)
    | DownEvent(down: HalfEvent)

  /** A direction's thread runs one section. `destination` says that the connection it
      writes to is not null. */
  function HalfProceeds(t: Transaction, h: Half, destination: bool): (Transaction, Half) {
    match h.state
    case Entering =>
      (t, h.(state := if !t.client || !t.remote then Stopped(false) else Reading))
    case Received(size) =>
      (t, h.(state := if !destination then Stopped(false) else Writing(size, 0)))
    case Releasing => (Released(t), h.(state := Stopped(false)))
    case Failing(reason) => (Released(t), h.(state := FailingReleased(reason)))
    case FailingReleased(reason) =>
      (Emit(t.(error := reason, notification := Error), [TransactionFailed]), h.(state := FailureTold))
    case FailureTold => (Released(t), h.(state := FailureReleased))
    case FailureReleased => (Emit(t, [TransactionComplete]), h.(state := Stopped(true)))
    case _ => (t, h)
  }

  /** A pending read or write of a direction goes on or completes. */
  function HalfIo(h: Half, e: HalfEvent): Half {
    match (h.state, e)
    case (Reading, Store(content)) =>
      if |content| == |h.buffer| then h.(buffer := content) else h
    case (Reading, ReadDone(ec, data)) =>
      if ec == Eof || data == "" then h.(state := Releasing)
      else if ec != NoError then h.(state := Failing(ec))
      else if |data| > |h.buffer| then h
      else h.(state := Received(|data|), buffer := data + h.buffer[|data|..], received := h.received + data)
    case (Writing(size, sent), Transmit(count)) =>
      if sent + count > size || size > |h.buffer| then h
      else h.(state := Writing(size, sent + count), delivered := h.delivered + h.buffer[sent..sent + count])
    case (Writing(size, sent), WriteDone(ec)) =>
      if ec != NoError then h.(state := Failing(ec))
      else if sent != size then h.(state := Failing(NetworkError))
      else h.(state := Entering)
    case _ => h
  }

  function UpReacts(t: Transaction, e: HalfEvent): Transaction {
    if !e.Proceed? then t.(up := HalfIo(t.up, e))
    else
      var (t', up) := HalfProceeds(t, t.up, t.remote);
      // the thread that started this direction goes on to start the other
      t'.(up := up, down := if t.up.state == Entering && t.down.state == Blocked
                            then t.down.(state := Entering) else t.down)
  }

  function DownReacts(t: Transaction, e: HalfEvent): Transaction {
    if !e.Proceed? then t.(down := HalfIo(t.down, e))
    else
      var (t', down) := HalfProceeds(t, t.down, t.client);
      t'.(down := down)
  }

  // ----- runs -----

  /** The transaction reacts to an event; an event that cannot happen changes nothing. */
  function React(t: Transaction, e: Event): Transaction {
    match t.pending
    case NotBegun => if e.Begin? then Begun(t) else t
    case ReadingRequest => if e.Done? then OnRequestRead(t, e.result, e.data) else t
    case OpeningRemote(_, _) => if e.Done? then OnRemoteOpened(t, e.result) else t
    case SendingRequest => if e.Done? then OnRequestSent(t, e.result) else t
    case ReadingResponse => if e.Done? then OnResponseRead(t, e.result, e.data) else t
    case SendingResponse => if e.Done? then OnResponseSent(t, e.result) else t
    case OpeningTunnel(_, _) => if e.Done? then OnTunnelOpened(t, e.result) else t
    case SendingReply(_, _) => if e.Done? then OnReplySent(t, e.result) else t
    case Tunnelling =>
      (match e
       case UpEvent(h) => UpReacts(t, h)
       case DownEvent(h) => DownReacts(t, h)
       case _ => t)
    case Finished => t
    case Deadlocked => t
    case Aborted => t
  }

  function ReactAll(t: Transaction, events: seq<Event>): Transaction {
    if events == [] then t else React(ReactAll(t, events[..|events| - 1]), events[|events| - 1])
  }
}
