/** What one call on a reliable channel does with the message it is about: which requests reach the
    application, what an answer ends, and what goes out. */
module CoapExchange {
  import opened Basics
  import opened Ticks
  import opened CoapTypes
  import opened CoapModel
  import opened CoapFacts
  import opened CoapWait
  import opened CoapReliable
  import opened CoapDelivery

  // ---- Requests ------------------------------------------------------------------------------

  /** What the channel yields next. */
  function Next(l: Link, o: Oracle): Arrival {
    o.arrival(l.world.taken)
  }

  /** A confirmable request reaches the application, unchanged, exactly if its id is not in the server
      store and there is room to remember it. A known one is consumed; without room it is an error. */
  lemma ConIsPassedUpIff(l: Link, o: Oracle, id: int)
    requires Next(l, o).error == NoError && TypeOf(Next(l, o).data) == CON
    ensures var data := Next(l, o).data;
            var known, r := Has(l.server, DecodedId(data, id)), LinkReceive(l, o, id, true);
            && ((r.error == NoError && r.data == data) <==> !known && o.room(l.world.allocations))
            && (known ==> r.data == [])
            && (!known && !o.room(l.world.allocations) ==> r.error == InsufficientStorage)
  {
    hide Housekeep, Put;
    HasIffFound(l.server, DecodedId(Next(l, o).data, id));
  }

  /** A request that needs no confirmation always does. */
  lemma NonIsPassedUp(l: Link, o: Oracle, id: int)
    requires Next(l, o).error == NoError && TypeOf(Next(l, o).data) == NON
    ensures var r := LinkReceive(l, o, id, true); r.error == NoError && r.data == Next(l, o).data
  {
    hide Housekeep;
  }

  /** Over every run: a confirmable request reaches the application if there is room and nothing has
      happened to its id since the channel was established, and the history says so. */
  lemma NewRequestIsPassedUp(start: Link, run: seq<Event>, o: Oracle, id: int)
    requires Monotone(o) && start.server == [] && IsRun(start, run, o)
    ensures var l, h := Last(start, run), History(start, run, o);
            var data := Next(l, o).data;
            var r := LinkReceive(l, o, id, true);
            Next(l, o).error == NoError && TypeOf(data) == CON && Latest(h, DecodedId(data, id)).None? &&
            o.room(l.world.allocations) ==>
              && r.error == NoError && r.data == data
              && Happenings(l, o, Recv(id, true)) == [PassedUp(DecodedId(data, id), o.clock(l.world.readings))]
  {
    hide IsRun, Last, History, LinkReceive;
    var l, h := Last(start, run), History(start, run, o);
    var data := Next(l, o).data;
    if Next(l, o).error == NoError && TypeOf(data) == CON {
      RunKeepsMemory(start, run, o);
      ConIsPassedUpIff(l, o, id);
      KnownHasHappened(l.server, h, o.clock(l.world.readings), DecodedId(data, id));
    }
  }

  lemma KnownHasHappened(server: seq<Entry>, h: seq<Happening>, now: nat, id: MessageId)
    requires Memory(server, h, now)
    ensures Has(server, id) ==> Latest(h, id).Some?
  {
    hide Latest, Remembers;
    if Has(server, id) {
      var i :| 0 <= i < |server| && server[i].id == id;
      assert server[i] in server;
    }
  }

  /** A receive that delivers nothing: the channel failed or had nothing, or a request came and only answers
      are wanted. */
  predicate DeliversNothing(l: Link, o: Oracle, requests: bool) {
    Next(l, o).error != NoError || Next(l, o).data == [] || (IsRequest(Next(l, o).data) && !requests)
  }

  /** Then the message is left as it is, neither remembered nor consumed, and all that happens are the
      time-outs of both stores. */
  lemma UnwantedIsLeftAlone(l: Link, o: Oracle, id: int, requests: bool)
    requires DeliversNothing(l, o, requests)
    ensures var r := LinkReceive(l, o, id, requests);
            && r.error == Next(l, o).error && (r.error == NoError ==> r.data == Next(l, o).data)
            && r.link.world.taken == l.world.taken + 1
            && exists j :: OnlyTimeouts(l, o, j, r.link.world.log)
  {
    hide Process, AllActions, IsRequest;
    var w1 := ReceivedFrom(o, l.world);
    var i := l.world.readings;
    ProcessLog(l.client, ToTick(o.clock(i)), o, w1.(readings := i + 1));
    var c := Process(l.client, ToTick(o.clock(i)), o, w1.(readings := i + 1));
    var j := c.world.readings;
    ProcessLog(l.server, ToTick(o.clock(j)), o, c.world.(readings := j + 1));
    assert w1.log == l.world.log + Arrivals(l, o);
    assert OnlyTimeouts(l, o, j, LinkReceive(l, o, id, requests).link.world.log);
  }

  function Arrivals(l: Link, o: Oracle): seq<Action> {
    if Next(l, o).error == NoError then [Arrived(Next(l, o).data)] else []
  }

  predicate OnlyTimeouts(l: Link, o: Oracle, j: nat, log: seq<Action>) {
    log == l.world.log + Arrivals(l, o)
           + AllActions(l.client, ToTick(o.clock(l.world.readings))) + AllActions(l.server, ToTick(o.clock(j)))
  }

  // ---- Answers -------------------------------------------------------------------------------

  /** What an answer makes the store say: a reset tells the handler of its message and discards the
      session. */
  function Notices(e: Option<Entry>, t: CoapType): seq<Action> {
    if t != RESET then []
    else
      (if e.Some? && e.value.handler.Some? then [Notify(e.value.handler.value, DeliveredNack)] else [])
      + [Issue(DiscardSession)]
  }

  /** The log of a receive in which an answer came: the answer, what it makes the store say, and the
      time-outs of both stores without its message. */
  predicate PassedWithout(l: Link, o: Oracle, data: seq<byte>, i: nat, j: nat, log: seq<Action>)
    requires |data| >= 4
  {
    var mid := HeaderId(data);
    log == l.world.log + [Arrived(data)] + Notices(Find(l.client, mid), TypeOf(data))
           + AllActions(Without(l.client, mid), ToTick(o.clock(i))) + AllActions(l.server, ToTick(o.clock(j)))
  }

  /** An acknowledgement or a reset takes its message out of the client store before the time-outs run, so
      the message is not sent again; no other message is touched by it. It is passed on if there was one,
      and consumed if not. */
  lemma AnswerEndsMessage(l: Link, o: Oracle, id: int, requests: bool)
    requires DistinctIds(l.client) && Next(l, o).error == NoError && |Next(l, o).data| >= 4 && IsAckOrReset(Next(l, o).data)
    ensures var data := Next(l, o).data;
            var mid, r := HeaderId(data), LinkReceive(l, o, id, requests);
            var rest := Without(l.client, mid);
            && r.error == NoError && r.data == (if Has(l.client, mid) then data else [])
            && !Has(rest, mid) && (forall other: MessageId :: other != mid ==> Find(rest, other) == Find(l.client, other))
            && !Has(r.link.client, mid)
            && exists i, j :: PassedWithout(l, o, data, i, j, r.link.world.log)
  {
    hide Process, AllActions, Find, Without, Has, StoreReceive;
    var data := Next(l, o).data;
    var mid, w1 := HeaderId(data), ReceivedFrom(o, l.world);
    var w2 := w1.(readings := w1.readings + 1);
    var now := ToTick(o.clock(w1.readings));
    AnswerStore(l.client, data, id, now, o, w2);
    var a := StoreReceive(l.client, data, id, now, o, w2);
    WithoutKeeps(l.client, mid);
    forall other: MessageId | other != mid ensures Find(Without(l.client, mid), other) == Find(l.client, other) {
      FindElsewhere(l.client, mid, other);
    }
    var i := a.world.readings;
    var w3 := a.world.(readings := i + 1);
    ProcessLog(a.entries, ToTick(o.clock(i)), o, w3);
    GoneStaysGone(a.entries, ToTick(o.clock(i)), o, w3, mid);
    var c := Process(a.entries, ToTick(o.clock(i)), o, w3);
    var j := c.world.readings;
    ProcessLog(l.server, ToTick(o.clock(j)), o, c.world.(readings := j + 1));
    assert PassedWithout(l, o, data, i, j, LinkReceive(l, o, id, requests).link.world.log);
  }

  lemma AnswerStore(es: seq<Entry>, data: seq<byte>, id: int, now: Tick, o: Oracle, w: World)
    requires |data| >= 4 && IsAckOrReset(data)
    ensures var mid, r := HeaderId(data), StoreReceive(es, data, id, now, o, w);
            && r.error == NoError && r.entries == Without(es, mid) && r.data == (if Has(es, mid) then data else [])
            && r.world.log == w.log + Notices(Find(es, mid), TypeOf(data))
  {
    hide Find;
    var mid := HeaderId(data);
    if !Has(es, mid) {
      NothingWithout(es, mid);
    }
    assert w.log + [] == w.log;
  }

  lemma {:induction false} NothingWithout(es: seq<Entry>, id: MessageId)
    requires !Has(es, id)
    ensures Without(es, id) == es
  {
    if es == [] {
    } else {
      assert es[0].id != id && forall i :: 0 <= i < |es[1..]| ==> es[1..][i] == es[i + 1];
      NothingWithout(es[1..], id);
    }
  }

  lemma GoneStaysGone(es: seq<Entry>, now: Tick, o: Oracle, w: World, id: MessageId)
    requires DistinctIds(es) && !Has(es, id)
    ensures !Has(Process(es, now, o, w).entries, id)
  {
    hide Process;
    HasIffFound(es, id);
    HasIffFound(Process(es, now, o, w).entries, id);
    ProcessFind(es, now, o, w, id);
  }

  // ---- Sending -------------------------------------------------------------------------------

  /** A message that is not waited for goes out exactly once, unless it has no id or there is no room; the
      result is then that of the channel. A CON is also stored in the client store, to be sent again after
      4 to 6 s, an answer in the server store for 45 s; nothing else is stored, and no other message goes. */
  lemma SendGoesOutOnce(l: Link, o: Oracle, data: seq<byte>, id: int)
    requires DistinctIds(l.client) && DistinctIds(l.server) && |data| >= 4
    ensures var r, mid, now := LinkSend(l, o, data, id), NarrowId(id), ToTick(o.clock(l.world.readings));
            if !Sendable(data, id, o, l.world) then
              && r.error == (if id < 0 then MissingMessageId else InsufficientStorage)
              && r.link.world.log == l.world.log && r.link.client == l.client && r.link.server == l.server
            else
              && r.error == o.sendError(l.world.sent) && r.link.world.log == l.world.log + [Transmit(data)]
              && (if TypeOf(data) == CON then
                    && r.link.server == l.server && r.link.client != [] && r.link.client[1..] == Without(l.client, mid)
                    && (exists wait :: 4000 <= wait < 6000 && r.link.client[0] == Entry(mid, AddTick(now, wait), 1, None, data))
                  else if IsAckOrReset(data) then
                    && r.link.client == l.client && r.link.server != [] && r.link.server[1..] == Without(l.server, mid)
                    && r.link.server[0].id == mid && r.link.server[0].data == data
                    && r.link.server[0].timeout == AddTick(now, 45000) && r.link.server[0].count > 4
                  else r.link.client == l.client && r.link.server == l.server)
  {
    hide TransmitTimeout, Has, Without;
    if Sendable(data, id, o, l.world) && TypeOf(data) == CON {
      var wait := TransmitTimeout(0, o.draw(l.world.drawn));
      WaitInRange(0, o.draw(l.world.drawn));
      assert Pow2(0) == 1;
    }
  }

  /** A message too short for a header goes straight out. */
  lemma ShortGoesOut(l: Link, o: Oracle, data: seq<byte>, id: int)
    requires |data| < 4
    ensures var r := LinkSend(l, o, data, id);
            && r.error == o.sendError(l.world.sent) && r.link.world.log == l.world.log + [Transmit(data)]
            && r.link.client == l.client && r.link.server == l.server
  {
  }
}
