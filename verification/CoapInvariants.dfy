/** What every operation keeps of the two stores of a reliable channel, and of the live-message count. */
module CoapInvariants {
  import opened Basics
  import opened Ticks
  import opened CoapTypes
  import opened CoapModel
  import opened CoapFacts

  /** The client store holds unacknowledged confirmable messages, each sent one to four times. */
  ghost predicate ClientOk(es: seq<Entry>) {
    && DistinctIds(es)
    && forall e :: e in es ==> TypeOf(e.data) == CON && 1 <= e.count <= MAX_RETRANSMIT + 1
  }

  /** The server store holds answers, or placeholders for requests not answered yet; none of them
      is ever sent by a time-out, and none reports to a handler. */
  ghost predicate ServerOk(es: seq<Entry>) {
    && DistinctIds(es)
    && forall e :: e in es ==>
         (TypeOf(e.data) == CON || IsAckOrReset(e.data)) && e.count == MAX_RETRANSMIT + 2 && e.handler == None
  }

  /** Live messages that are not in the store. */
  function Balance(es: seq<Entry>, w: World): int {
    w.live - |es|
  }

  lemma SurvivorOf(es: seq<Entry>, now: Tick, o: Oracle, w: World, r: Entry) returns (e: Entry)
    requires r in Process(es, now, o, w).entries
    ensures e in es && (r == e || (Resends(e, now) && Rearmed(e, r, now)))
  {
    var rs := Process(es, now, o, w).entries;
    var at := ProcessPass(es, now, o, w);
    var k :| 0 <= k < |rs| && rs[k] == r;
    e := es[at[k]];
  }

  lemma ProcessKeeps(es: seq<Entry>, now: Tick, o: Oracle, w: World)
    ensures var s := Process(es, now, o, w);
            && (ClientOk(es) ==> ClientOk(s.entries))
            && (ServerOk(es) ==> ServerOk(s.entries))
            && Balance(s.entries, s.world) == Balance(es, w)
  {
    var s := Process(es, now, o, w);
    ProcessSettles(es, now, o, w);
    forall r | r in s.entries
      ensures ClientOk(es) ==> TypeOf(r.data) == CON && 1 <= r.count <= MAX_RETRANSMIT + 1
      ensures ServerOk(es) ==>
                (TypeOf(r.data) == CON || IsAckOrReset(r.data)) && r.count == MAX_RETRANSMIT + 2 && r.handler == None
    {
      var e := SurvivorOf(es, now, o, w, r);
    }
    ProcessLive(es, now, o, w);
  }

  lemma StoredKeeps(es: seq<Entry>, e: Entry, w: World)
    requires DistinctIds(es)
    ensures var s := Stored(es, e, w);
            && (ClientOk(es) && TypeOf(e.data) == CON && 1 <= e.count <= MAX_RETRANSMIT + 1 ==> ClientOk(s.entries))
            && (ServerOk(es) && ServerOk([e]) ==> ServerOk(s.entries))
            && Balance(s.entries, s.world) == Balance(es, w)
  {
    PutKeeps(es, e);
    assert ServerOk([e]) ==> e in [e];
  }

  lemma StoreSendKeeps(es: seq<Entry>, data: seq<byte>, id: int, now: Tick, o: Oracle, w: World)
    requires DistinctIds(es)
    ensures var s := StoreSend(es, data, id, now, o, w);
            && DistinctIds(s.entries)
            && (ClientOk(es) && IsRequest(data) ==> ClientOk(s.entries))
            && (ServerOk(es) && !IsRequest(data) ==> ServerOk(s.entries))
            && Balance(s.entries, s.world) == Balance(es, w)
  {
    if id >= 0 && o.room(w.allocations) {
      var mid := NarrowId(id);
      var w1 := w.(allocations := w.allocations + 1);
      if TypeOf(data) == CON {
        var e := Entry(mid, AddTick(now, TransmitTimeout(0, o.draw(w1.drawn))), 1, None, data);
        PutKeeps(es, e);
        StoredKeeps(es, e, w1.Draw());
      } else if IsAckOrReset(data) {
        var e := Remembered(mid, now, data);
        PutKeeps(es, e);
        StoredKeeps(es, e, w1);
      }
    }
  }

  lemma WithoutBalances(es: seq<Entry>, id: MessageId, w: World)
    requires DistinctIds(es)
    ensures Balance(Without(es, id), if Has(es, id) then w.Deleted() else w) == Balance(es, w)
    ensures ClientOk(es) ==> ClientOk(Without(es, id))
    ensures ServerOk(es) ==> ServerOk(Without(es, id))
  {
    WithoutKeeps(es, id);
  }

  lemma StoreReceiveKeeps(es: seq<Entry>, data: seq<byte>, id: int, now: Tick, o: Oracle, w: World)
    requires DistinctIds(es)
    ensures var r := StoreReceive(es, data, id, now, o, w);
            && DistinctIds(r.entries)
            && (ClientOk(es) && IsAckOrReset(data) ==> ClientOk(r.entries))
            && (ServerOk(es) && !IsAckOrReset(data) ==> ServerOk(r.entries))
            && Balance(r.entries, r.world) == Balance(es, w)
  {
    var mid := DecodedId(data, id);
    HasIffFound(es, mid);
    if IsAckOrReset(data) {
      WithoutKeeps(es, mid);
      WithoutBalances(es, mid, w);
    } else if TypeOf(data) == CON && !Has(es, mid) && o.room(w.allocations) {
      var e := Remembered(mid, now, Prefix(data, 5));
      PutKeeps(es, e);
      StoredKeeps(es, e, w.(allocations := w.allocations + 1));
    }
  }
}
