/** What every interleaving of the two directions of a tunnel keeps. */
module TunnelRuns {
  import opened Protocol

  // ----- one direction -----

  /** Bytes read that are not on the wire yet. */
  function InFlight(h: Half): string {
    match h.state
    case Received(size) => if size <= |h.buffer| then h.buffer[..size] else ""
    case Writing(size, sent) => if sent <= size <= |h.buffer| then h.buffer[sent..size] else ""
    case _ => ""
  }

  /** The direction is still passing bytes on. */
  predicate Flowing(h: Half) {
    h.state.Blocked? || h.state.Entering? || h.state.Reading? || h.state.Received? || h.state.Writing?
  }

  /** No byte is lost, invented or reordered: what has been delivered comes first in
      what has been received, and as long as the direction flows, what has been
      delivered and what is in flight make up all that has been received. */
  predicate Conserves(h: Half) {
    && h.delivered <= h.received
    && (Flowing(h) ==> h.received == h.delivered + InFlight(h))
    && (h.state.Received? ==> h.state.size <= |h.buffer|)
    && (h.state.Writing? ==> h.state.sent <= h.state.size <= |h.buffer|)
  }

  lemma IoConserves(h: Half, e: HalfEvent)
    requires Conserves(h)
    ensures Conserves(HalfIo(h, e))
  {
    var h' := HalfIo(h, e);
    if h.state.Reading? && e.ReadDone? && h'.state.Received? {
      assert h'.buffer[..|e.data|] == e.data;
    }
    if h.state.Writing? && e.Transmit? && h' != h {
      var size, sent := h.state.size, h.state.sent;
      assert h.buffer[sent..size] == h.buffer[sent..sent + e.count] + h.buffer[sent + e.count..size];
    }
  }

  lemma ProceedConserves(t: Transaction, h: Half, destination: bool)
    requires Conserves(h)
    ensures Conserves(HalfProceeds(t, h, destination).1)
  {}

  /** A buffer is only stored into by the read that is pending on it: while bytes in it
      are waiting to be written or being written it does not change. */
  lemma BufferHeldWhileInFlight(t: Transaction, e: Event)
    requires t.pending.Tunnelling?
    ensures !t.up.state.Reading? ==> React(t, e).up.buffer == t.up.buffer
    ensures !t.down.state.Reading? ==> React(t, e).down.buffer == t.down.buffer
  {}

  // ----- both directions -----

  function Count(signals: seq<Signal>, s: Signal): nat {
    if signals == [] then 0
    else Count(signals[..|signals| - 1], s) + (if signals[|signals| - 1] == s then 1 else 0)
  }

  lemma CountOneMore(signals: seq<Signal>, last: Signal, s: Signal)
    ensures Count(signals + [last], s) == Count(signals, s) + (if last == s then 1 else 0)
  {
    assert (signals + [last])[..|signals|] == signals;
  }

  /** 1 once the direction has reported failure. */
  function ToldFailures(h: Half): nat {
    if h.state.FailureTold? || h.state.FailureReleased? || h.state == Stopped(true) then 1 else 0
  }

  /** 1 once the direction has reported the transaction complete. */
  function Over(h: Half): nat {
    if h.state == Stopped(true) then 1 else 0
  }

  /** The direction has released the connections, or has found them released. */
  predicate PastRelease(h: Half) {
    || h.state.FailingReleased? || h.state.FailureTold? || h.state.FailureReleased?
    || h.state.Stopped?
  }

  /** Both connections open and never closed, or both released and closed once. */
  predicate OpenOrClosed(t: Transaction) {
    t.client == t.remote && t.clientCloses == t.remoteCloses == (if t.client then 0 else 1)
  }

  /** They are released once a direction has got past releasing them. */
  predicate ConnectionsAgree(t: Transaction) {
    OpenOrClosed(t) && (PastRelease(t.up) || PastRelease(t.down) ==> !t.client)
  }

  /** The signals: one for the start, then one failure and one completion for each
      direction that fails. */
  ghost predicate SignalsAgree(t: Transaction) {
    && Count(t.signals, TransactionStart) == 1
    && Count(t.signals, TransactionFailed) == ToldFailures(t.up) + ToldFailures(t.down)
    && Count(t.signals, TransactionComplete) == Over(t.up) + Over(t.down)
    && Count(t.signals, RequestRead) == Count(t.signals, ResponseHeadersRead) == Count(t.signals, ResponseRead) == 0
    && (if ToldFailures(t.up) + ToldFailures(t.down) > 0 then t.notification == Error
        else Rank(t.notification) < Rank(RequestComplete))
  }

  ghost predicate TunnelInvariant(t: Transaction) {
    && DirectionsAgree(t)
    && ConnectionsAgree(t)
    && SignalsAgree(t)
  }

  lemma HalfConnections(t: Transaction, h: Half, destination: bool)
    requires OpenOrClosed(t) && destination == t.client && (PastRelease(h) ==> !t.client)
    ensures var (t', h') := HalfProceeds(t, h, destination);
            && OpenOrClosed(t') && (PastRelease(h') ==> !t'.client) && (!t.client ==> !t'.client)
            && t'.up == t.up && t'.down == t.down
  {}

  lemma IoPast(h: Half, e: HalfEvent)
    ensures PastRelease(HalfIo(h, e)) <==> PastRelease(h)
  {}

  lemma UpConnectionsKept(t: Transaction, e: HalfEvent)
    requires ConnectionsAgree(t)
    ensures ConnectionsAgree(UpReacts(t, e))
  {
    hide HalfIo, HalfProceeds;
    IoPast(t.up, e);
    HalfConnections(t, t.up, t.remote);
  }

  lemma DownConnectionsKept(t: Transaction, e: HalfEvent)
    requires ConnectionsAgree(t)
    ensures ConnectionsAgree(DownReacts(t, e))
  {
    hide HalfIo, HalfProceeds;
    IoPast(t.down, e);
    HalfConnections(t, t.down, t.client);
  }

  lemma ConnectionsKept(t: Transaction, e: Event)
    requires TunnelInvariant(t)
    ensures ConnectionsAgree(React(t, e))
  {
    hide SignalsAgree, ConnectionsAgree, Conserves, UpReacts, DownReacts;
    match e {
      case UpEvent(h) => UpConnectionsKept(t, h);
      case DownEvent(h) => DownConnectionsKept(t, h);
      case _ =>
    }
  }

  lemma EmitCounts(t: Transaction, signal: Signal, s: Signal)
    ensures Count(Emit(t, [signal]).signals, s) == Count(t.signals, s) + (if signal == s then 1 else 0)
  {
    CountOneMore(t.signals, signal, s);
  }

  lemma HalfSignals(t: Transaction, h: Half, destination: bool)
    ensures var (t', h') := HalfProceeds(t, h, destination);
            && (forall s :: Count(t'.signals, s) == Count(t.signals, s)
                 + (if s == TransactionFailed then ToldFailures(h') - ToldFailures(h)
                    else if s == TransactionComplete then Over(h') - Over(h) else 0))
            && t'.notification == (if ToldFailures(h') > ToldFailures(h) then Error else t.notification)
            && ToldFailures(h') >= ToldFailures(h)
  {
    hide Count;
    forall s
      ensures Count(HalfProceeds(t, h, destination).0.signals, s) == Count(t.signals, s)
                 + (if s == TransactionFailed then ToldFailures(HalfProceeds(t, h, destination).1) - ToldFailures(h)
                    else if s == TransactionComplete then Over(HalfProceeds(t, h, destination).1) - Over(h) else 0)
    {
      if h.state.FailingReleased? {
        EmitCounts(t.(error := h.state.reason, notification := Error), TransactionFailed, s);
      } else if h.state.FailureReleased? {
        EmitCounts(t, TransactionComplete, s);
      }
    }
  }

  lemma UpSignalsKept(t: Transaction, e: HalfEvent)
    requires TunnelInvariant(t)
    ensures SignalsAgree(UpReacts(t, e))
  {
    hide Count, Conserves, ConnectionsAgree;
    if e.Proceed? {
      HalfSignals(t, t.up, t.remote);
      hide HalfProceeds;
    }
  }

  lemma DownSignalsKept(t: Transaction, e: HalfEvent)
    requires TunnelInvariant(t)
    ensures SignalsAgree(DownReacts(t, e))
  {
    hide Count, Conserves, ConnectionsAgree;
    if e.Proceed? {
      HalfSignals(t, t.down, t.client);
      hide HalfProceeds;
    }
  }

  lemma SignalsKept(t: Transaction, e: Event)
    requires TunnelInvariant(t)
    ensures SignalsAgree(React(t, e))
  {
    hide SignalsAgree, Conserves, ConnectionsAgree, UpReacts, DownReacts;
    match e {
      case UpEvent(h) => UpSignalsKept(t, h);
      case DownEvent(h) => DownSignalsKept(t, h);
      case _ =>
    }
  }

  predicate DirectionsAgree(t: Transaction) {
    && t.pending == Tunnelling
    && Conserves(t.up) && Conserves(t.down)
    && (t.down.state.Blocked? ==> t.up.state == Entering) && !t.up.state.Blocked?
  }

  lemma UpDirectionKept(t: Transaction, e: HalfEvent)
    requires DirectionsAgree(t)
    ensures DirectionsAgree(UpReacts(t, e))
  {
    hide Conserves;
    IoConserves(t.up, e);
    ProceedConserves(t, t.up, t.remote);
    if t.down.state == Blocked {
      BlockedConserves(t.down);
    }
    if !e.Proceed? {
      hide HalfProceeds;
      EnteringKeeps(t.up, e);
      hide HalfIo;
    } else {
      hide HalfIo;
    }
  }

  lemma EnteringKeeps(h: Half, e: HalfEvent)
    ensures h.state.Entering? ==> HalfIo(h, e) == h
    ensures HalfIo(h, e).state.Blocked? ==> h.state.Blocked?
  {}

  lemma DownDirectionKept(t: Transaction, e: HalfEvent)
    requires DirectionsAgree(t)
    ensures DirectionsAgree(DownReacts(t, e))
  {
    hide Conserves;
    IoConserves(t.down, e);
    ProceedConserves(t, t.down, t.client);
    if !e.Proceed? {
      hide HalfProceeds;
      EnteringKeeps(t.down, e);
      hide HalfIo;
    } else {
      hide HalfIo;
    }
  }

  lemma DirectionsKept(t: Transaction, e: Event)
    requires TunnelInvariant(t)
    ensures DirectionsAgree(React(t, e))
  {
    hide SignalsAgree, ConnectionsAgree, Conserves, UpReacts, DownReacts;
    match e {
      case UpEvent(h) => UpDirectionKept(t, h);
      case DownEvent(h) => DownDirectionKept(t, h);
      case _ =>
    }
  }

  lemma BlockedConserves(h: Half)
    requires Conserves(h) && h.state == Blocked
    ensures Conserves(h.(state := Entering))
  {}

  /** A direction that fails has a reason to. */
  predicate Explained(h: Half) {
    && (h.state.Failing? ==> h.state.reason != NoError)
    && (h.state.FailingReleased? ==> h.state.reason != NoError)
  }

  predicate FailuresExplained(t: Transaction) {
    Explained(t.up) && Explained(t.down) && (t.notification == Error ==> t.error != NoError)
  }

  lemma IoExplained(h: Half, e: HalfEvent)
    requires Explained(h)
    ensures Explained(HalfIo(h, e))
  {}

  lemma ProceedExplained(t: Transaction, h: Half, destination: bool)
    requires Explained(h) && (t.notification == Error ==> t.error != NoError)
    ensures var (t', h') := HalfProceeds(t, h, destination);
            && Explained(h') && (t'.notification == Error ==> t'.error != NoError)
            && t'.up == t.up && t'.down == t.down
  {}

  lemma FailuresStayExplained(t: Transaction, e: Event)
    requires t.pending == Tunnelling && FailuresExplained(t)
    ensures FailuresExplained(React(t, e))
  {
    hide HalfIo, HalfProceeds;
    match e {
      case UpEvent(h) =>
        IoExplained(t.up, h);
        ProceedExplained(t, t.up, t.remote);
      case DownEvent(h) =>
        IoExplained(t.down, h);
        ProceedExplained(t, t.down, t.client);
      case _ =>
    }
  }

  /** Every event, in either direction, keeps the tunnel's invariant. */
  lemma TunnelKept(t: Transaction, e: Event)
    requires TunnelInvariant(t)
    ensures TunnelInvariant(React(t, e))
  {
    hide React, SignalsAgree, ConnectionsAgree, Conserves;
    ConnectionsKept(t, e);
    SignalsKept(t, e);
    DirectionsKept(t, e);
  }

  lemma HalfStarts(t: Transaction, h: Half, destination: bool)
    ensures var (t', h') := HalfProceeds(t, h, destination);
            && (h'.state.Reading? && !h.state.Reading? ==> t.client && t.remote)
            && (h'.state.Writing? && !h.state.Writing? ==> destination)
            && t'.up == t.up && t'.down == t.down
  {}

  lemma IoStartsNothing(h: Half, e: HalfEvent)
    ensures HalfIo(h, e).state.Reading? ==> h.state.Reading?
    ensures HalfIo(h, e).state.Writing? ==> h.state.Writing?
  {}

  /** A read or a write is only ever started while both connections are open. */
  lemma IoStartsOnOpenConnections(t: Transaction, e: Event)
    requires TunnelInvariant(t)
    ensures var t' := React(t, e);
            && (t'.up.state.Reading? && !t.up.state.Reading? ==> t.client && t.remote)
            && (t'.up.state.Writing? && !t.up.state.Writing? ==> t.client && t.remote)
            && (t'.down.state.Reading? && !t.down.state.Reading? ==> t.client && t.remote)
            && (t'.down.state.Writing? && !t.down.state.Writing? ==> t.client && t.remote)
  {
    hide SignalsAgree, Conserves, HalfIo, HalfProceeds;
    match e {
      case UpEvent(h) =>
        IoStartsNothing(t.up, h);
        HalfStarts(t, t.up, t.remote);
      case DownEvent(h) =>
        IoStartsNothing(t.down, h);
        HalfStarts(t, t.down, t.client);
      case _ =>
    }
  }

  // ----- how often a tunnel completes -----

  /** An operation of a direction fails: a read that has brought bytes completes with an
      error, or a write completes with an error or short. */
  predicate IoFails(h: Half, e: HalfEvent) {
    match (h.state, e)
    case (Reading, ReadDone(ec, data)) => ec != NoError && ec != Eof && data != ""
    case (Writing(size, sent), WriteDone(ec)) => ec != NoError || sent != size
    case _ => false
  }

  predicate Fault(t: Transaction, e: Event) {
    && t.pending == Tunnelling
    && match e
       case UpEvent(h) => IoFails(t.up, h)
       case DownEvent(h) => IoFails(t.down, h)
       case _ => false
  }

  /** The number of operations of a tunnel that fail in a run. */
  function Faults(t: Transaction, events: seq<Event>): nat {
    if events == [] then 0
    else
      var init, last := events[..|events| - 1], events[|events| - 1];
      Faults(t, init) + (if Fault(ReactAll(t, init), last) then 1 else 0)
  }

  /** 1 once the direction has begun to fail. */
  function Failures(h: Half): nat {
    if h.state.Failing? || h.state.FailingReleased? || h.state.FailureTold? || h.state.FailureReleased?
       || h.state == Stopped(true)
    then 1 else 0
  }

  lemma IoFailures(h: Half, e: HalfEvent)
    ensures Failures(HalfIo(h, e)) == Failures(h) + (if IoFails(h, e) then 1 else 0)
  {}

  lemma ProceedFailures(t: Transaction, h: Half, destination: bool)
    ensures var (t', h') := HalfProceeds(t, h, destination);
            Failures(h') == Failures(h) && t'.up == t.up && t'.down == t.down
  {}

  lemma FaultBeginsFailure(t: Transaction, e: Event)
    requires t.pending == Tunnelling
    ensures var t' := React(t, e);
            Failures(t'.up) + Failures(t'.down)
            == Failures(t.up) + Failures(t.down) + (if Fault(t, e) then 1 else 0)
  {
    hide HalfIo, HalfProceeds;
    match e {
      case UpEvent(h) =>
        IoFailures(t.up, h);
        ProceedFailures(t, t.up, t.remote);
      case DownEvent(h) =>
        IoFailures(t.down, h);
        ProceedFailures(t, t.down, t.client);
      case _ =>
    }
  }

  /** A tunnel that is over has reported one failure and one completion for each
      direction that failed. */
  lemma SignalsAtEnd(t: Transaction)
    requires TunnelInvariant(t) && t.up.state.Stopped? && t.down.state.Stopped?
    ensures Count(t.signals, TransactionFailed) == Count(t.signals, TransactionComplete)
         == Failures(t.up) + Failures(t.down)
    ensures !t.client && !t.remote && t.clientCloses == 1 && t.remoteCloses == 1
  {
    hide Count;
  }
}
