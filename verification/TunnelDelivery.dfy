/** A tunnel whose operations succeed delivers: in any interleaving what has been read is
    on the wire or on its way there, and nothing but the pending writes stands between. */
module TunnelDelivery {
  import opened Protocol
  import opened TunnelRuns
  import opened TransactionRuns
  import opened TransactionResults
  import opened TransactionProgress
  import opened WireMessages

  // ----- operations that succeed -----

  /** The operation of a direction that completes, if any, succeeds: a read with bytes that
      fit in the buffer, a write whole. */
  predicate Succeeds(h: Half, e: HalfEvent) {
    match (h.state, e)
    case (Reading, ReadDone(ec, data)) => ec == NoError && 0 < |data| <= |h.buffer|
    case (Writing(size, sent), WriteDone(ec)) => ec == NoError && sent == size
    case _ => true
  }

  predicate EventSucceeds(t: Transaction, e: Event) {
    match e
    case UpEvent(h) => Succeeds(t.up, h)
    case DownEvent(h) => Succeeds(t.down, h)
    case _ => true
  }

  /** Every operation that completes in a run succeeds. */
  predicate AllSucceed(t: Transaction, events: seq<Event>) {
    events == [] || (AllSucceed(t, events[..|events| - 1])
                     && EventSucceeds(ReactAll(t, events[..|events| - 1]), events[|events| - 1]))
  }

  /** The bytes that an event brings to a direction. */
  function Brings(h: Half, e: HalfEvent): string {
    if h.state.Reading? && e.ReadDone? then e.data else ""
  }

  function UpBrings(t: Transaction, e: Event): string {
    if e.UpEvent? then Brings(t.up, e.up) else ""
  }

  function DownBrings(t: Transaction, e: Event): string {
    if e.DownEvent? then Brings(t.down, e.down) else ""
  }

  /** The bytes of all reads of the client in a run, in order. */
  function UpReads(t: Transaction, events: seq<Event>): string {
    if events == [] then ""
    else
      var init := events[..|events| - 1];
      UpReads(t, init) + UpBrings(ReactAll(t, init), events[|events| - 1])
  }

  function DownReads(t: Transaction, events: seq<Event>): string {
    if events == [] then ""
    else
      var init := events[..|events| - 1];
      DownReads(t, init) + DownBrings(ReactAll(t, init), events[|events| - 1])
  }

  // ----- what they keep -----

  /** A tunnel in which nothing has gone wrong. */
  predicate Flows(t: Transaction) {
    t.pending == Tunnelling && t.client && t.remote && Flowing(t.up) && Flowing(t.down)
  }

  lemma IoFlows(h: Half, e: HalfEvent)
    requires Flowing(h) && Succeeds(h, e)
    ensures Flowing(HalfIo(h, e)) && HalfIo(h, e).received == h.received + Brings(h, e)
  {}

  lemma ProceedFlows(t: Transaction, h: Half, destination: bool)
    requires Flowing(h) && t.client && t.remote && destination
    ensures var (t', h') := HalfProceeds(t, h, destination);
            t' == t && Flowing(h') && h'.received == h.received
  {}

  lemma StepFlows(t: Transaction, e: Event)
    requires Flows(t) && EventSucceeds(t, e)
    ensures var t' := React(t, e);
            && Flows(t')
            && t'.up.received == t.up.received + UpBrings(t, e)
            && t'.down.received == t.down.received + DownBrings(t, e)
  {
    hide HalfIo, HalfProceeds, Succeeds;
    match e {
      case UpEvent(h) =>
        ProceedFlows(t, t.up, t.remote);
        IoFlows(t.up, h);
      case DownEvent(h) =>
        ProceedFlows(t, t.down, t.client);
        IoFlows(t.down, h);
      case _ =>
    }
  }

  lemma {:induction false} RunFlows(t: Transaction, events: seq<Event>)
    requires Flows(t) && AllSucceed(t, events)
    ensures var t' := ReactAll(t, events);
            && Flows(t')
            && t'.up.received == t.up.received + UpReads(t, events)
            && t'.down.received == t.down.received + DownReads(t, events)
  {
    hide React, Flows, EventSucceeds, UpBrings, DownBrings;
    if events != [] {
      var init := events[..|events| - 1];
      RunFlows(t, init);
      StepFlows(ReactAll(t, init), events[|events| - 1]);
    }
  }

  // ----- delivery -----

  /** The direction holds no byte: it reads, or is about to. */
  predicate Idle(h: Half) {
    h.state.Blocked? || h.state.Entering? || h.state.Reading?
  }

  /** After any CONNECT has become a tunnel, in any interleaving of the two directions, with
      reads of any sizes and writes that go out in any pieces: as long as the operations
      succeed the connections stay open, and each way what has been delivered and what is
      in flight are all the bytes read, in order. A direction that is reading, or about to,
      has delivered all of them. */
  lemma TunnelDelivers(readBuffer: string, remoteBuffer: string, r: WireRequest, extra: string, request: seq<string>,
                       events: seq<Event>)
    requires IsWireRequest(r) && r.head.verb == "CONNECT" && Cuts(request, RequestText(r), extra)
    requires AllSucceed(Reach(readBuffer, remoteBuffer, Opening(request)), events)
    ensures var start := Reach(readBuffer, remoteBuffer, Opening(request));
            var t := Reach(readBuffer, remoteBuffer, Opening(request) + events);
            && t.pending == Tunnelling && t.client && t.remote
            && UpReads(start, events) == t.up.delivered + InFlight(t.up)
            && DownReads(start, events) == t.down.delivered + InFlight(t.down)
            && (Idle(t.up) ==> t.up.delivered == UpReads(start, events))
            && (Idle(t.down) ==> t.down.delivered == DownReads(start, events))
  {
    hide ReactAll, IsWireRequest, RequestText, Cuts, Opening, AllSucceed, UpReads, DownReads;
    TunnelOpens(readBuffer, remoteBuffer, r, extra, request);
    var start := Reach(readBuffer, remoteBuffer, Opening(request));
    RunsOn(Initial(readBuffer, remoteBuffer), Opening(request), events);
    RunFlows(start, events);
    TunnelConserves(readBuffer, remoteBuffer, Opening(request) + events);
    var t := Reach(readBuffer, remoteBuffer, Opening(request) + events);
    assert "" + UpReads(start, events) == UpReads(start, events);
    assert "" + DownReads(start, events) == DownReads(start, events);
    assert Idle(t.up) ==> t.up.delivered + "" == t.up.delivered;
    assert Idle(t.down) ==> t.down.delivered + "" == t.down.delivered;
  }

  // ----- it can always be finished -----

  /** An event that brings nothing, as a run of one. */
  lemma NoReadYet(t: Transaction, e: Event) returns (events: seq<Event>)
    requires Flows(t) && EventSucceeds(t, e) && UpBrings(t, e) == "" && DownBrings(t, e) == ""
    ensures AllSucceed(t, events) && UpReads(t, events) == "" && DownReads(t, events) == ""
    ensures ReactAll(t, events) == React(t, e) && Flows(React(t, e))
  {
    hide React, Flows, EventSucceeds, UpBrings, DownBrings;
    events := [e];
    ReactOne(t, e);
    NoEvents(t);
    assert events[..0] == [];
    StepFlows(t, e);
  }

  lemma NoEvents(t: Transaction)
    ensures ReactAll(t, []) == t && AllSucceed(t, []) && UpReads(t, []) == "" && DownReads(t, []) == ""
  {}

  lemma {:induction false} Joined(t: Transaction, a: seq<Event>, b: seq<Event>)
    ensures AllSucceed(t, a + b) <==> AllSucceed(t, a) && AllSucceed(ReactAll(t, a), b)
    ensures UpReads(t, a + b) == UpReads(t, a) + UpReads(ReactAll(t, a), b)
    ensures DownReads(t, a + b) == DownReads(t, a) + DownReads(ReactAll(t, a), b)
    ensures ReactAll(t, a + b) == ReactAll(ReactAll(t, a), b)
    decreases |b|
  {
    hide React, EventSucceeds, UpBrings, DownBrings;
    RunsOn(t, a, b);
    if b == [] {
      assert a + b == a;
    } else {
      var init := b[..|b| - 1];
      assert (a + b)[..|a + b| - 1] == a + init;
      Joined(t, a, init);
    }
  }

  lemma Fits(h: Half)
    requires Conserves(h)
    ensures h.state.Received? ==> h.state.size <= |h.buffer|
    ensures h.state.Writing? ==> h.state.sent <= h.state.size <= |h.buffer|
  {}

  lemma UpStarts(t: Transaction)
    requires Flows(t) && t.up.state.Received?
    ensures var t' := React(t, UpEvent(Proceed));
            t'.up.state == Writing(t.up.state.size, 0) && t'.up.buffer == t.up.buffer && t'.down == t.down
  {}

  lemma UpTransmits(t: Transaction)
    requires Flows(t) && t.up.state.Writing? && t.up.state.sent <= t.up.state.size <= |t.up.buffer|
    ensures var size := t.up.state.size;
            var t' := React(t, UpEvent(Transmit(size - t.up.state.sent)));
            t'.up.state == Writing(size, size) && t'.down == t.down
  {}

  lemma UpIsWritten(t: Transaction)
    requires Flows(t) && t.up.state.Writing? && t.up.state.sent == t.up.state.size
    ensures var t' := React(t, UpEvent(WriteDone(NoError)));
            t'.up.state == Entering && t'.down == t.down
  {}

  /** What a direction has in flight can be delivered, without another read. */
  lemma UpDrains(t: Transaction) returns (events: seq<Event>)
    requires Flows(t) && Conserves(t.up)
    ensures AllSucceed(t, events) && UpReads(t, events) == "" && DownReads(t, events) == ""
    ensures var t' := ReactAll(t, events); Flows(t') && Idle(t'.up) && t'.down == t.down
  {
    hide React, Conserves, AllSucceed, UpReads, DownReads;
    if t.up.state.Received? {
      Fits(t.up);
      var a := NoReadYet(t, UpEvent(Proceed));
      UpStarts(t);
      var b := UpFinishes(ReactAll(t, a));
      events := a + b;
      Joined(t, a, b);
    } else if t.up.state.Writing? {
      Fits(t.up);
      events := UpFinishes(t);
    } else {
      events := [];
      NoEvents(t);
    }
  }

  lemma UpFinishes(t: Transaction) returns (events: seq<Event>)
    requires Flows(t) && t.up.state.Writing? && t.up.state.sent <= t.up.state.size <= |t.up.buffer|
    ensures AllSucceed(t, events) && UpReads(t, events) == "" && DownReads(t, events) == ""
    ensures var t' := ReactAll(t, events); Flows(t') && Idle(t'.up) && t'.down == t.down
  {
    hide React, AllSucceed, UpReads, DownReads;
    var a := NoReadYet(t, UpEvent(Transmit(t.up.state.size - t.up.state.sent)));
    UpTransmits(t);
    var b := NoReadYet(ReactAll(t, a), UpEvent(WriteDone(NoError)));
    UpIsWritten(ReactAll(t, a));
    events := a + b;
    Joined(t, a, b);
  }

  lemma DownStarts(t: Transaction)
    requires Flows(t) && t.down.state.Received?
    ensures var t' := React(t, DownEvent(Proceed));
            t'.down.state == Writing(t.down.state.size, 0) && t'.down.buffer == t.down.buffer && t'.up == t.up
  {}

  lemma DownTransmits(t: Transaction)
    requires Flows(t) && t.down.state.Writing? && t.down.state.sent <= t.down.state.size <= |t.down.buffer|
    ensures var size := t.down.state.size;
            var t' := React(t, DownEvent(Transmit(size - t.down.state.sent)));
            t'.down.state == Writing(size, size) && t'.up == t.up
  {}

  lemma DownIsWritten(t: Transaction)
    requires Flows(t) && t.down.state.Writing? && t.down.state.sent == t.down.state.size
    ensures var t' := React(t, DownEvent(WriteDone(NoError)));
            t'.down.state == Entering && t'.up == t.up
  {}

  lemma DownDrains(t: Transaction) returns (events: seq<Event>)
    requires Flows(t) && Conserves(t.down)
    ensures AllSucceed(t, events) && UpReads(t, events) == "" && DownReads(t, events) == ""
    ensures var t' := ReactAll(t, events); Flows(t') && Idle(t'.down) && t'.up == t.up
  {
    hide React, Conserves, AllSucceed, UpReads, DownReads;
    if t.down.state.Received? {
      Fits(t.down);
      var a := NoReadYet(t, DownEvent(Proceed));
      DownStarts(t);
      var b := DownFinishes(ReactAll(t, a));
      events := a + b;
      Joined(t, a, b);
    } else if t.down.state.Writing? {
      Fits(t.down);
      events := DownFinishes(t);
    } else {
      events := [];
      NoEvents(t);
    }
  }

  lemma DownFinishes(t: Transaction) returns (events: seq<Event>)
    requires Flows(t) && t.down.state.Writing? && t.down.state.sent <= t.down.state.size <= |t.down.buffer|
    ensures AllSucceed(t, events) && UpReads(t, events) == "" && DownReads(t, events) == ""
    ensures var t' := ReactAll(t, events); Flows(t') && Idle(t'.down) && t'.up == t.up
  {
    hide React, AllSucceed, UpReads, DownReads;
    var a := NoReadYet(t, DownEvent(Transmit(t.down.state.size - t.down.state.sent)));
    DownTransmits(t);
    var b := NoReadYet(ReactAll(t, a), DownEvent(WriteDone(NoError)));
    DownIsWritten(ReactAll(t, a));
    events := a + b;
    Joined(t, a, b);
  }

  /** From any point of such a run, a few more operations that succeed, none of them a read,
      deliver everything that has been read, both ways. */
  lemma TunnelDrains(readBuffer: string, remoteBuffer: string, r: WireRequest, extra: string, request: seq<string>,
                     events: seq<Event>) returns (more: seq<Event>)
    requires IsWireRequest(r) && r.head.verb == "CONNECT" && Cuts(request, RequestText(r), extra)
    requires AllSucceed(Reach(readBuffer, remoteBuffer, Opening(request)), events)
    ensures var start := Reach(readBuffer, remoteBuffer, Opening(request));
            var t := Reach(readBuffer, remoteBuffer, Opening(request) + (events + more));
            && AllSucceed(start, events + more)
            && UpReads(start, events + more) == UpReads(start, events)
            && DownReads(start, events + more) == DownReads(start, events)
            && t.up.delivered == UpReads(start, events)
            && t.down.delivered == DownReads(start, events)
  {
    hide ReactAll, IsWireRequest, RequestText, Cuts, Opening, AllSucceed, UpReads, DownReads, Conserves, Flowing;
    var t0, opening := Initial(readBuffer, remoteBuffer), Opening(request);
    var start := Reach(readBuffer, remoteBuffer, opening);
    TunnelDelivers(readBuffer, remoteBuffer, r, extra, request, events);
    RunsOn(t0, opening, events);
    var t := ReactAll(start, events);
    FlowsFrom(readBuffer, remoteBuffer, r, extra, request, events);
    var a := UpDrains(t);
    var b := DownDrains(ReactAll(t, a));
    more := a + b;
    Joined(t, a, b);
    Joined(start, events, more);
    RunsOn(t0, opening, events + more);
    RunsOn(t, a, b);
    TunnelDelivers(readBuffer, remoteBuffer, r, extra, request, events + more);
  }

  lemma FlowsFrom(readBuffer: string, remoteBuffer: string, r: WireRequest, extra: string, request: seq<string>,
                  events: seq<Event>)
    requires IsWireRequest(r) && r.head.verb == "CONNECT" && Cuts(request, RequestText(r), extra)
    requires AllSucceed(Reach(readBuffer, remoteBuffer, Opening(request)), events)
    ensures var t := ReactAll(Reach(readBuffer, remoteBuffer, Opening(request)), events);
            Flows(t) && Conserves(t.up) && Conserves(t.down)
  {
    hide ReactAll, IsWireRequest, RequestText, Cuts, Opening, AllSucceed, UpReads, DownReads, Conserves,
         RequestReceived, TunnelAnnounced, SignalsAgree;
    TunnelOpens(readBuffer, remoteBuffer, r, extra, request);
    RunFlows(Reach(readBuffer, remoteBuffer, Opening(request)), events);
    RunsOn(Initial(readBuffer, remoteBuffer), Opening(request), events);
    ReachableInvariant(readBuffer, remoteBuffer, Opening(request) + events);
  }
}
