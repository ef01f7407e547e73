/** The message stores as values: a sequence of entries, most recent first, and what each store
    operation makes of it. The linked-list methods of CoapStore are proved equal to these. */
module CoapModel {
  import opened Basics
  import opened Ticks
  import opened CoapTypes

  const ACK_TIMEOUT: nat := 4000
  const MAX_RETRANSMIT: nat := 3
  const MAX_TRANSMIT_SPAN: nat := 45 * 1000

  /** One stored message: `timeout` is a clock reading, `count` the transmissions so far,
      `handler` identifies the delivery callback. */
  datatype Entry = Entry(id: MessageId, timeout: Tick, count: nat, handler: Option<nat>, data: seq<byte>)

  // ---- Lookup, removal, insertion ------------------------------------------------------------

  predicate Has(es: seq<Entry>, id: MessageId) {
    exists i :: 0 <= i < |es| && es[i].id == id
  }

  ghost predicate DistinctIds(es: seq<Entry>) {
    forall i, j :: 0 <= i < j < |es| ==> es[i].id != es[j].id
  }

  function Find(es: seq<Entry>, id: MessageId): Option<Entry> {
    if es == [] then None
    else if es[0].id == id then Some(es[0])
    else Find(es[1..], id)
  }

  /** The entries without the first one carrying `id`. */
  function Without(es: seq<Entry>, id: MessageId): seq<Entry> {
    if es == [] then []
    else if es[0].id == id then es[1..]
    else [es[0]] + Without(es[1..], id)
  }

  /** `add`: drop any entry with the same id, then prepend. */
  function Put(es: seq<Entry>, e: Entry): seq<Entry> {
    [e] + Without(es, e.id)
  }

  // ---- Time-outs -----------------------------------------------------------------------------

  /** `transmit_timeout`, in 32-bit arithmetic: base 4000 << count, plus base * draw >> 9. */
  function TransmitTimeout(count: nat, draw: byte): Tick {
    var base := ACK_TIMEOUT * Pow2(count) % TICK_MODULUS;
    AddTick(base, (base * draw % TICK_MODULUS) / 512)
  }

  /** `message_timeout`: tell the handler, and close the channel if a request was lost. */
  function Expired(e: Entry, w: World): World {
    var w' := w.Notifying(e.handler, NotDelivered);
    (if IsRequest(e.data) then w'.Issuing(Close) else w').Deleted()
  }

  datatype Step = Step(entries: seq<Entry>, world: World)

  /** What `process` does at one node: nothing before its time-out; a confirmable message that was
      sent at most 3 times is sent again and re-armed; anything else is given up. */
  function ProcessOne(e: Entry, now: Tick, o: Oracle, w: World): Step {
    if !TimeHasPassed(now, e.timeout) then
      Step([e], w)
    else if TypeOf(e.data) != CON then
      Step([], Expired(e, w))
    else if e.count + 1 <= MAX_RETRANSMIT + 1 then
      var timeout := AddTick(now, TransmitTimeout(e.count, o.draw(w.drawn)));
      Step([e.(timeout := timeout, count := e.count + 1)], w.Draw().Sending(e.data))
    else
      Step([], Expired(e, w.Draw()))
  }

  function Process(es: seq<Entry>, now: Tick, o: Oracle, w: World): Step {
    if es == [] then Step([], w)
    else
      var first := ProcessOne(es[0], now, o, w);
      var rest := Process(es[1..], now, o, first.world);
      Step(first.entries + rest.entries, rest.world)
  }

  // ---- Sending and receiving -----------------------------------------------------------------

  /** A message that is kept but never sent again, forgotten after `MAX_TRANSMIT_SPAN`. */
  function Remembered(id: MessageId, now: Tick, data: seq<byte>): Entry {
    Entry(id, AddTick(now, MAX_TRANSMIT_SPAN), MAX_RETRANSMIT + 2, None, data)
  }

  function Stored(es: seq<Entry>, e: Entry, w: World): Step {
    var w' := w.Created();
    Step(Put(es, e), if Has(es, e.id) then w'.Deleted() else w')
  }

  datatype Sent = Sent(entries: seq<Entry>, world: World, error: ProtocolError)

  /** `CoAPMessageStore::send`. */
  function StoreSend(es: seq<Entry>, data: seq<byte>, id: int, now: Tick, o: Oracle, w: World): Sent {
    if id < 0 then
      Sent(es, w, MissingMessageId)
    else if TypeOf(data) != CON && !IsAckOrReset(data) then
      Sent(es, w, NoError)
    else
      var w1 := w.(allocations := w.allocations + 1);
      if !o.room(w.allocations) then
        Sent(es, w1, InsufficientStorage)
      else if TypeOf(data) == CON then
        var timeout := AddTick(now, TransmitTimeout(0, o.draw(w1.drawn)));
        var s := Stored(es, Entry(NarrowId(id), timeout, 1, None, data), w1.Draw());
        Sent(s.entries, s.world, NoError)
      else
        var s := Stored(es, Remembered(NarrowId(id), now, data), w1);
        Sent(s.entries, s.world, NoError)
  }

  /** What `receive` leaves: the store, the message as the caller sees it (empty when consumed). */
  datatype Received = Received(entries: seq<Entry>, world: World, error: ProtocolError, data: seq<byte>)

  function Prefix(data: seq<byte>, n: nat): seq<byte> {
    if |data| <= n then data else data[..n]
  }

  /** `CoAPMessageStore::receive`. */
  function StoreReceive(es: seq<Entry>, data: seq<byte>, id: int, now: Tick, o: Oracle, w: World): Received {
    var mid := DecodedId(data, id);
    match TypeOf(data)
    case ACK =>
      AckReceived(es, data, mid, w)
    case RESET =>
      var found := Find(es, mid);
      var w1 := if found.Some? then w.Notifying(found.value.handler, DeliveredNack) else w;
      AckReceived(es, data, mid, w1.Issuing(DiscardSession))
    case CON =>
      var found := Find(es, mid);
      if found.Some? then
        if IsAckOrReset(found.value.data) then
          Received(es, w.Sending(found.value.data), o.sendError(w.sent), [])
        else
          Received(es, w, NoError, [])
      else
        var w1 := w.(allocations := w.allocations + 1);
        if !o.room(w.allocations) then
          Received(es, w1, InsufficientStorage, data)
        else
          var s := Stored(es, Remembered(mid, now, Prefix(data, 5)), w1);
          Received(s.entries, s.world, NoError, data)
    case _ =>
      Received(es, w, NoError, data)
  }

  /** Taking the next message from the channel; a failed attempt yields nothing. */
  function ReceivedFrom(o: Oracle, w: World): World {
    var a := o.arrival(w.taken);
    w.(taken := w.taken + 1, log := if a.error == NoError then w.log + [Arrived(a.data)] else w.log)
  }

  /** An acknowledgement removes its message; one that matches nothing is consumed. */
  function AckReceived(es: seq<Entry>, data: seq<byte>, mid: MessageId, w: World): Received {
    if Has(es, mid) then
      Received(Without(es, mid), w.Deleted(), NoError, data)
    else
      Received(es, w, NoError, [])
  }
}
