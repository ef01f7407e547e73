/** At-most-once delivery (RFC 7252 section 4.5) over every run of a reliable channel. */
module CoapDelivery {
  import opened Basics
  import opened Ticks
  import opened CoapTypes
  import opened CoapModel
  import opened CoapFacts
  import opened CoapInvariants
  import opened CoapSync
  import opened CoapReliable

  // ---- Runs ----------------------------------------------------------------------------------

  /** One call on the channel. */
  datatype Op =
    | Establish
    | Recv(id: int, requests: bool)
    | Snd(data: seq<byte>, id: int)
    | SndSync(data: seq<byte>, id: int, handler: nat, error: ProtocolError)

  /** A call and the state it leaves. */
  datatype Event = Event(op: Op, after: Link)

  ghost predicate CanFollow(l: Link, ev: Event, o: Oracle) {
    match ev.op
    case Establish => ev.after == Forgotten(l)
    case Recv(id, requests) => ev.after == LinkReceive(l, o, id, requests).link
    case Snd(data, id) => ev.after == LinkSend(l, o, data, id).link
    case SndSync(data, id, h, error) => SynchronousStep(l, ev.after, o, data, id, h, error)
  }

  function Last(start: Link, run: seq<Event>): Link {
    if run == [] then start else run[|run| - 1].after
  }

  ghost predicate IsRun(start: Link, run: seq<Event>, o: Oracle) {
    forall i :: 0 <= i < |run| ==> CanFollow(Last(start, run[..i]), run[i], o)
  }

  // ---- What the application sees -------------------------------------------------------------

  /** Things that happen to a request id on the server side, with their true times: the request is
      passed up to the application, or the application's answer to it is stored. */
  datatype Happening =
    | PassedUp(id: MessageId, at: nat)
    | Answered(id: MessageId, at: nat, answer: seq<byte>)

  /** What one call makes happen, from state `l`. */
  function Happenings(l: Link, o: Oracle, op: Op): seq<Happening> {
    var at := o.clock(l.world.readings);
    match op
    case Establish => []
    case Recv(id, requests) =>
      var r := LinkReceive(l, o, id, requests);
      if r.error == NoError && requests && TypeOf(r.data) == CON then [PassedUp(DecodedId(r.data, id), at)] else []
    case Snd(data, id) =>
      if |data| >= 4 && IsAckOrReset(data) && id >= 0 && o.room(l.world.allocations)
      then [Answered(NarrowId(id), at, data)] else []
    case SndSync(_, _, _, _) => []
  }

  /** What happened since the channel was last established. */
  function History(start: Link, run: seq<Event>, o: Oracle): seq<Happening> {
    if run == [] || run[|run| - 1].op.Establish? then []
    else
      var n := |run| - 1;
      History(start, run[..n], o) + Happenings(Last(start, run[..n]), o, run[n].op)
  }

  /** The latest thing that happened to an id. */
  function Latest(h: seq<Happening>, id: MessageId): Option<Happening> {
    if h == [] then None
    else if h[|h| - 1].id == id then Some(h[|h| - 1])
    else Latest(h[..|h| - 1], id)
  }

  // ---- The invariant -------------------------------------------------------------------------

  /** A server entry is the memory of the latest happening with its id: it expires
      `MAX_TRANSMIT_SPAN` after it, and holds the answer if there was one. */
  ghost predicate Remembers(e: Entry, x: Happening) {
    && e.id == x.id
    && e.timeout == ToTick(x.at + MAX_TRANSMIT_SPAN)
    && if x.Answered? then e.data == x.answer && IsAckOrReset(e.data) else TypeOf(e.data) == CON
  }

  /** `now` is the time of the next clock reading. */
  ghost predicate Memory(server: seq<Entry>, h: seq<Happening>, now: nat) {
    && ServerOk(server)
    && (forall e :: e in server ==> Latest(h, e.id).Some? && Remembers(e, Latest(h, e.id).value))
    && (forall id: MessageId :: Latest(h, id).Some? && !Has(server, id) ==>
          Latest(h, id).value.at + MAX_TRANSMIT_SPAN <= now)
    && (forall x :: x in h ==> x.at <= now)
  }

  /** A request is never passed up within `MAX_TRANSMIT_SPAN` of anything that happened to its id. */
  ghost predicate Spread(h: seq<Happening>) {
    forall i, j :: 0 <= i < j < |h| && h[j].PassedUp? && h[i].id == h[j].id ==>
      h[i].at + MAX_TRANSMIT_SPAN <= h[j].at
  }

  ghost predicate Ordered(h: seq<Happening>) {
    forall i, j :: 0 <= i < j < |h| ==> h[i].at <= h[j].at
  }

  lemma {:induction false} LatestIsLatest(h: seq<Happening>, id: MessageId)
    requires Ordered(h)
    ensures Latest(h, id).Some? ==> Latest(h, id).value in h && Latest(h, id).value.id == id
    ensures forall x :: x in h && x.id == id ==> Latest(h, id).Some? && x.at <= Latest(h, id).value.at
  {
    if h == [] {
    } else {
      var n := |h| - 1;
      LatestIsLatest(h[..n], id);
      assert forall x :: x in h <==> x in h[..n] || x == h[n];
      forall x | x in h && x.id == id ensures Latest(h, id).Some? && x.at <= Latest(h, id).value.at {
        var i :| 0 <= i < |h| && h[i] == x;
        if i < n { assert h[..n][i] == x; }
      }
    }
  }

  // ---- What each step does to the memory -----------------------------------------------------

  /** Time-outs forget an id only once its time is over. */
  lemma PassKeepsMemory(server: seq<Entry>, h: seq<Happening>, now: nat, o: Oracle, w: World, later: nat)
    requires Memory(server, h, now) && now <= later
    ensures Memory(Process(server, ToTick(now), o, w).entries, h, later)
  {
    var s := Process(server, ToTick(now), o, w);
    ProcessKeeps(server, ToTick(now), o, w);
    forall e | e in s.entries ensures e in server {
      var e0 := SurvivorOf(server, ToTick(now), o, w, e);
    }
    forall id: MessageId | Latest(h, id).Some? && !Has(s.entries, id)
      ensures Latest(h, id).value.at + MAX_TRANSMIT_SPAN <= later
    {
      if Has(server, id) {
        ForgottenInTime(server, h, now, o, w, id);
      }
    }
  }

  lemma ForgottenInTime(server: seq<Entry>, h: seq<Happening>, now: nat, o: Oracle, w: World, id: MessageId)
    requires Memory(server, h, now) && Has(server, id) && !Has(Process(server, ToTick(now), o, w).entries, id)
    ensures Latest(h, id).Some? && Latest(h, id).value.at + MAX_TRANSMIT_SPAN <= now
  {
    HasIffFound(server, id);
    HasIffFound(Process(server, ToTick(now), o, w).entries, id);
    ProcessFind(server, ToTick(now), o, w, id);
    var e := Find(server, id).value;
    var expiry := Latest(h, id).value.at + MAX_TRANSMIT_SPAN;
    LatestInHistory(h, id);
    assert Due(e, ToTick(now));
    if now < expiry {
      TimeHasPassedIsTrueOrder(now, expiry);
    }
  }

  lemma {:induction false} LatestInHistory(h: seq<Happening>, id: MessageId)
    ensures Latest(h, id).Some? ==> Latest(h, id).value in h && Latest(h, id).value.id == id
  {
    if h == [] {
    } else {
      LatestInHistory(h[..|h| - 1], id);
    }
  }

  /** Remembering a new happening, by a new or a replacing entry. */
  lemma PutKeepsMemory(server: seq<Entry>, h: seq<Happening>, x: Happening, e: Entry, now: nat)
    requires Memory(server, h, now) && x.at == now && Remembers(e, x)
    requires e.count == MAX_RETRANSMIT + 2 && e.handler == None
    ensures Memory(Put(server, e), h + [x], now)
  {
    PutKeeps(server, e);
    var h' := h + [x];
    assert h'[..|h|] == h;
    assert forall id: MessageId :: Latest(h', id) == if id == x.id then Some(x) else Latest(h, id);
    forall id: MessageId | Latest(h', id).Some? && !Has(Put(server, e), id)
      ensures Latest(h', id).value.at + MAX_TRANSMIT_SPAN <= now
    {
      HasIffFound(Put(server, e), id);
      assert id != e.id;
      FindAfterPut(server, e, id);
      HasIffFound(server, id);
    }
  }

  lemma LaterMemory(server: seq<Entry>, h: seq<Happening>, now: nat, later: nat)
    requires Memory(server, h, now) && now <= later
    ensures Memory(server, h, later)
  {
  }

  // ---- Steps ---------------------------------------------------------------------------------

  /** A well-behaved history: in order, and no request passed up too soon. */
  ghost predicate GoodHistory(h: seq<Happening>) {
    Ordered(h) && Spread(h)
  }

  /** Adding a happening keeps the history good: a request may be passed up only if its id is not
      in the store. */
  lemma HistoryGrows(server: seq<Entry>, h: seq<Happening>, x: Happening, now: nat)
    requires Memory(server, h, now) && GoodHistory(h) && x.at == now
    requires x.PassedUp? ==> !Has(server, x.id)
    ensures GoodHistory(h + [x])
  {
    hide ServerOk, Remembers;
    LatestIsLatest(h, x.id);
    var h' := h + [x];
    forall i, j | 0 <= i < j < |h'| ensures h'[i].at <= h'[j].at {
      if j == |h| { assert h'[i] in h; }
    }
    forall i, j | 0 <= i < j < |h'| && h'[j].PassedUp? && h'[i].id == h'[j].id
      ensures h'[i].at + MAX_TRANSMIT_SPAN <= h'[j].at
    {
      if j == |h| { assert h'[i] in h; }
    }
  }

  /** What delivering an arrival to the server store makes happen, and what it remembers of it. */
  lemma RequestKeepsMemory(server: seq<Entry>, h: seq<Happening>, data: seq<byte>, id: int, now: nat, o: Oracle, w: World)
    requires Memory(server, h, now) && GoodHistory(h) && IsRequest(data)
    ensures var r := StoreReceive(server, data, id, ToTick(now), o, w);
            var more := if r.error == NoError && TypeOf(r.data) == CON then [PassedUp(DecodedId(r.data, id), now)] else [];
            Memory(r.entries, h + more, now) && GoodHistory(h + more)
  {
    var mid := DecodedId(data, id);
    HasIffFound(server, mid);
    assert h + [] == h;
    if TypeOf(data) == CON && !Has(server, mid) && o.room(w.allocations) {
      var x, e := PassedUp(mid, now), Remembered(mid, ToTick(now), Prefix(data, 5));
      AddTickOfTrueTime(now, MAX_TRANSMIT_SPAN);
      PutKeepsMemory(server, h, x, e, now);
      HistoryGrows(server, h, x, now);
    }
  }

  lemma AnswerKeepsMemory(server: seq<Entry>, h: seq<Happening>, data: seq<byte>, id: int, now: nat, o: Oracle, w: World)
    requires Memory(server, h, now) && GoodHistory(h) && !IsRequest(data) && |data| >= 4
    ensures var s := StoreSend(server, data, id, ToTick(now), o, w);
            var more := if id >= 0 && o.room(w.allocations) then [Answered(NarrowId(id), now, data)] else [];
            Memory(s.entries, h + more, now) && GoodHistory(h + more)
  {
    assert h + [] == h;
    if id >= 0 && o.room(w.allocations) {
      var x, e := Answered(NarrowId(id), now, data), Remembered(NarrowId(id), ToTick(now), data);
      AddTickOfTrueTime(now, MAX_TRANSMIT_SPAN);
      PutKeepsMemory(server, h, x, e, now);
      HistoryGrows(server, h, x, now);
    }
  }

  /** The time-outs at the end of a receive. */
  lemma HousekeepKeepsMemory(l: Link, h: seq<Happening>, now: nat, o: Oracle)
    requires Monotone(o) && Memory(l.server, h, now) && now <= o.clock(l.world.readings)
    ensures var l' := Housekeep(l, o);
            Memory(l'.server, h, o.clock(l'.world.readings)) && l.world.readings <= l'.world.readings
  {
    hide Process, Memory;
    var r := l.world.readings;
    var w1 := l.world.(readings := r + 1);
    ProcessLog(l.client, ToTick(o.clock(r)), o, w1);
    var c := Process(l.client, ToTick(o.clock(r)), o, w1);
    var w2 := c.world.(readings := c.world.readings + 1);
    var t := o.clock(c.world.readings);
    ProcessLog(l.server, ToTick(t), o, w2);
    assert o.clock(r) <= o.clock(r + 1) <= o.clock(r + 2);
    LaterMemory(l.server, h, now, t);
    PassKeepsMemory(l.server, h, t, o, w2, o.clock(r + 2));
  }

  lemma RecvKeepsMemory(l: Link, h: seq<Happening>, o: Oracle, id: int, requests: bool)
    requires Monotone(o) && Memory(l.server, h, o.clock(l.world.readings)) && GoodHistory(h)
    ensures var l' := LinkReceive(l, o, id, requests).link;
            var h' := h + Happenings(l, o, Recv(id, requests));
            Memory(l'.server, h', o.clock(l'.world.readings)) && GoodHistory(h')
  {
    hide Memory, GoodHistory, StoreReceive, Housekeep;
    var now := o.clock(l.world.readings);
    var a := o.arrival(l.world.taken);
    var l1 := l.(world := ReceivedFrom(o, l.world));
    var h' := h + Happenings(l, o, Recv(id, requests));
    assert h + [] == h;
    if a.error == NoError && a.data != [] {
      var d := Deliver(l1, o, a.data, id, requests);
      DeliverReadsOnce(l1, o, a.data, id, requests);
      assert Memory(d.link.server, h', now) && GoodHistory(h') by {
        var w := l1.world.(readings := l1.world.readings + 1);
        if IsRequest(a.data) && requests {
          RequestKeepsMemory(l.server, h, a.data, id, now, o, w);
        } else if !IsRequest(a.data) {
          ResponsesStay(l1.client, a.data, id, ToTick(now), o, w);
        }
      }
      HousekeepKeepsMemory(d.link, h', now, o);
    } else {
      HousekeepKeepsMemory(l1, h, now, o);
    }
  }

  /** A response that is passed on is still a response. */
  lemma ResponsesStay(es: seq<Entry>, data: seq<byte>, id: int, now: Tick, o: Oracle, w: World)
    requires data != [] && !IsRequest(data)
    ensures TypeOf(StoreReceive(es, data, id, now, o, w).data) != CON
  {
  }

  lemma SndKeepsMemory(l: Link, h: seq<Happening>, o: Oracle, data: seq<byte>, id: int)
    requires Monotone(o) && Memory(l.server, h, o.clock(l.world.readings)) && GoodHistory(h)
    ensures var l' := LinkSend(l, o, data, id).link;
            var h' := h + Happenings(l, o, Snd(data, id));
            Memory(l'.server, h', o.clock(l'.world.readings)) && GoodHistory(h')
  {
    hide Memory, GoodHistory, StoreSend;
    var now := o.clock(l.world.readings);
    var w := l.world.(readings := l.world.readings + 1);
    var l' := LinkSend(l, o, data, id).link;
    var h' := h + Happenings(l, o, Snd(data, id));
    assert h + [] == h;
    SendReadsOnce(l, o, data, id);
    assert Memory(l'.server, h', now) && GoodHistory(h') by {
      if |data| >= 4 && !IsRequest(data) {
        AnswerKeepsMemory(l.server, h, data, id, now, o, w);
      }
    }
    LaterMemory(l'.server, h', now, o.clock(l'.world.readings));
  }

  lemma SendReadsOnce(l: Link, o: Oracle, data: seq<byte>, id: int)
    ensures l.world.readings <= LinkSend(l, o, data, id).link.world.readings
  {
  }

  // ---- Every run -----------------------------------------------------------------------------

  lemma RunShortens(start: Link, run: seq<Event>, o: Oracle)
    requires IsRun(start, run, o) && run != []
    ensures IsRun(start, run[..|run| - 1], o)
    ensures CanFollow(Last(start, run[..|run| - 1]), run[|run| - 1], o)
  {
    var earlier := run[..|run| - 1];
    forall i | 0 <= i < |earlier| ensures CanFollow(Last(start, earlier[..i]), earlier[i], o) {
      assert earlier[..i] == run[..i];
    }
  }

  /** After any calls in any order each store holds only its own kind of message, under distinct
      ids, and every live message is stored. */
  lemma {:induction false} RunKeepsStores(start: Link, run: seq<Event>, o: Oracle)
    requires LinkOk(start) && IsRun(start, run, o)
    ensures LinkOk(Last(start, run))
  {
    if run == [] {
    } else {
      hide LinkReceive, LinkSend, LinkOk, SynchronousStep, Due;
      RunShortens(start, run, o);
      var l, ev := Last(start, run[..|run| - 1]), run[|run| - 1];
      RunKeepsStores(start, run[..|run| - 1], o);
      match ev.op
      case Establish => ForgettingKeeps(l);
      case Recv(id, requests) => ReceiveKeeps(l, o, id, requests);
      case Snd(data, id) => SendKeeps(l, o, data, id);
      case SndSync(_, data, _, _) => SynchronousKeeps(l, ev, o);
    }
  }

  lemma SynchronousKeeps(l: Link, ev: Event, o: Oracle)
    requires LinkOk(l) && ev.op.SndSync? && CanFollow(l, ev, o)
    ensures LinkOk(ev.after)
  {
    hide ClientOk, ServerOk, Outcome, SyncStart, Quiet;
  }

  /** The 16-bit live-message counter is the number of messages stored, modulo 2^16. */
  lemma MessageCountIsExact(start: Link, run: seq<Event>, o: Oracle)
    requires LinkOk(start) && IsRun(start, run, o)
    ensures var l := Last(start, run);
            l.world.MessageCount() == (|l.client| + |l.server|) % 0x1_0000
  {
    hide ClientOk, ServerOk, CanFollow, IsRun, Last;
    RunKeepsStores(start, run, o);
  }

  /** The server store remembers the recent past, after any calls in any order. */
  lemma {:induction false} RunKeepsMemory(start: Link, run: seq<Event>, o: Oracle)
    requires Monotone(o) && start.server == [] && IsRun(start, run, o)
    ensures var l, h := Last(start, run), History(start, run, o);
            Memory(l.server, h, o.clock(l.world.readings)) && GoodHistory(h)
  {
    hide Memory, GoodHistory, LinkReceive, LinkSend, SynchronousStep;
    if run == [] {
      NothingToRemember(o.clock(start.world.readings));
    } else {
      var earlier, ev := run[..|run| - 1], run[|run| - 1];
      RunShortens(start, run, o);
      RunKeepsMemory(start, earlier, o);
      var l, h := Last(start, earlier), History(start, earlier, o);
      match ev.op
      case Establish => NothingToRemember(o.clock(ev.after.world.readings));
      case Recv(id, requests) => RecvKeepsMemory(l, h, o, id, requests);
      case Snd(data, id) => SndKeepsMemory(l, h, o, data, id);
      case SndSync(_, _, _, _) =>
        assert h + [] == h;
        SyncKeepsMemory(l, h, o, ev);
    }
  }

  lemma NothingToRemember(now: nat)
    ensures Memory([], [], now) && GoodHistory([])
  {
  }

  lemma SyncKeepsMemory(l: Link, h: seq<Happening>, o: Oracle, ev: Event)
    requires Monotone(o) && Memory(l.server, h, o.clock(l.world.readings)) && ev.op.SndSync? && CanFollow(l, ev, o)
    ensures Memory(ev.after.server, h, o.clock(ev.after.world.readings))
  {
    hide Memory, SyncStart, Outcome, Quiet, ClientOk;
    LaterMemory(l.server, h, o.clock(l.world.readings), o.clock(ev.after.world.readings));
  }

  /** RFC 7252 section 4.5: over every run, across every wrap of the 32-bit clock, two requests with
      the same id are passed up without the channel being established in between only if at least
      45 s of true time lie between. */
  lemma AtMostOnce(start: Link, run: seq<Event>, o: Oracle)
    requires Monotone(o) && start.server == [] && IsRun(start, run, o)
    ensures var h := History(start, run, o);
            forall i, j :: 0 <= i < j < |h| && h[i].PassedUp? && h[j].PassedUp? && h[i].id == h[j].id ==>
              h[i].at + 45000 <= h[j].at
  {
    RunKeepsMemory(start, run, o);
  }

  /** What the channel would yield next is a request whose id was last heard of less than
      `MAX_TRANSMIT_SPAN` ago. */
  ghost predicate RepeatsInTime(l: Link, h: seq<Happening>, o: Oracle, id: int) {
    var a := o.arrival(l.world.taken);
    && a.error == NoError && TypeOf(a.data) == CON
    && Latest(h, DecodedId(a.data, id)).Some?
    && o.clock(l.world.readings) < Latest(h, DecodedId(a.data, id)).value.at + MAX_TRANSMIT_SPAN
  }

  /** A request that arrives again in time is consumed; if it was answered, the same answer is sent
      again, byte for byte and at once. */
  lemma RepeatIsAnswered(start: Link, run: seq<Event>, o: Oracle, id: int)
    requires Monotone(o) && start.server == [] && IsRun(start, run, o)
    ensures var l, h := Last(start, run), History(start, run, o);
            RepeatsInTime(l, h, o, id) ==>
              var data := o.arrival(l.world.taken).data;
              var x := Latest(h, DecodedId(data, id)).value;
              var r := LinkReceive(l, o, id, true);
              && r.data == []
              && (x.Answered? ==> l.world.log + [Arrived(data), Transmit(x.answer)] <= r.link.world.log)
              && (x.PassedUp? ==> r.error == NoError && l.world.log + [Arrived(data)] <= r.link.world.log)
  {
    var l, h := Last(start, run), History(start, run, o);
    if RepeatsInTime(l, h, o, id) {
      RunKeepsMemory(start, run, o);
      RepeatFound(l, h, o, id);
    }
  }

  lemma RepeatFound(l: Link, h: seq<Happening>, o: Oracle, id: int)
    requires Memory(l.server, h, o.clock(l.world.readings)) && RepeatsInTime(l, h, o, id)
    ensures var data := o.arrival(l.world.taken).data;
            var x := Latest(h, DecodedId(data, id)).value;
            var r := LinkReceive(l, o, id, true);
            && r.data == []
            && (x.Answered? ==> l.world.log + [Arrived(data), Transmit(x.answer)] <= r.link.world.log)
            && (x.PassedUp? ==> r.error == NoError && l.world.log + [Arrived(data)] <= r.link.world.log)
  {
    var data := o.arrival(l.world.taken).data;
    var mid := DecodedId(data, id);
    HasIffFound(l.server, mid);
    assert Has(l.server, mid);
    var d := Deliver(l.(world := ReceivedFrom(o, l.world)), o, data, id, true);
    assert Latest(h, mid).value.Answered? ==>
             d.link.world.log == l.world.log + [Arrived(data), Transmit(Latest(h, mid).value.answer)];
    assert Latest(h, mid).value.PassedUp? ==> d.link.world.log == l.world.log + [Arrived(data)] && d.error == NoError;
    HousekeepOnlyAppends(d.link, o);
  }

  lemma HousekeepOnlyAppends(l: Link, o: Oracle)
    ensures l.world.log <= Housekeep(l, o).world.log
  {
    hide Process;
    var r := l.world.readings;
    var w1 := l.world.(readings := r + 1);
    ProcessLog(l.client, ToTick(o.clock(r)), o, w1);
    var c := Process(l.client, ToTick(o.clock(r)), o, w1);
    ProcessLog(l.server, ToTick(o.clock(c.world.readings)), o, c.world.(readings := c.world.readings + 1));
  }
}
