/** What the store operations keep: ids stay distinct, order is preserved, and a time-out pass
    touches exactly the entries that are due. */
module CoapFacts {
  import opened Basics
  import opened Ticks
  import opened CoapTypes
  import opened CoapModel

  // ---- Lookup and removal --------------------------------------------------------------------

  lemma {:induction false} HasIffFound(es: seq<Entry>, id: MessageId)
    ensures Has(es, id) <==> Find(es, id).Some?
    ensures Find(es, id).Some? ==> Find(es, id).value in es && Find(es, id).value.id == id
  {
    if es == [] || es[0].id == id {
    } else {
      HasIffFound(es[1..], id);
      assert Has(es, id) <==> Has(es[1..], id) by {
        assert forall i :: 0 <= i < |es[1..]| ==> es[1..][i] == es[i + 1];
      }
    }
  }

  lemma {:induction false} FindUnique(es: seq<Entry>, e: Entry)
    requires DistinctIds(es) && e in es
    ensures Find(es, e.id) == Some(e)
  {
    if es[0] == e {
    } else {
      assert e in es[1..];
      FindUnique(es[1..], e);
    }
  }

  /** Removal takes out one entry, keeps the others, and forgets the id. */
  lemma {:induction false} WithoutKeeps(es: seq<Entry>, id: MessageId)
    requires DistinctIds(es)
    ensures var r := Without(es, id);
            && DistinctIds(r) && !Has(r, id)
            && |r| == |es| - (if Has(es, id) then 1 else 0)
            && (forall e :: e in r <==> e in es && e.id != id)
  {
    if es == [] {
    } else {
      var r := Without(es, id);
      if es[0].id == id {
        assert es[0] in es && Has(es, id);
      } else {
        WithoutKeeps(es[1..], id);
        assert Has(es, id) <==> Has(es[1..], id) by {
          assert forall i :: 0 <= i < |es[1..]| ==> es[1..][i] == es[i + 1];
        }
        var t := Without(es[1..], id);
        assert forall e :: e in t ==> e in es[1..];
        assert forall i :: 0 <= i < |r| ==> r[i] == if i == 0 then es[0] else t[i - 1];
        forall i, j | 0 <= i < j < |r| ensures r[i].id != r[j].id {
          assert t[j - 1] in es[1..];
        }
      }
    }
  }

  /** Insertion makes its id unique again: the store grows by one unless the id was there. */
  lemma PutKeeps(es: seq<Entry>, e: Entry)
    requires DistinctIds(es)
    ensures DistinctIds(Put(es, e)) && Find(Put(es, e), e.id) == Some(e)
    ensures |Put(es, e)| == |es| + (if Has(es, e.id) then 0 else 1)
    ensures forall x :: x in Put(es, e) <==> x == e || (x in es && x.id != e.id)
  {
    WithoutKeeps(es, e.id);
    var t := Without(es, e.id);
    assert forall i :: 0 <= i < |t| ==> t[i] in t;
  }

  lemma FindAfterPut(es: seq<Entry>, e: Entry, id: MessageId)
    requires DistinctIds(es) && id != e.id
    ensures Find(Put(es, e), id) == Find(es, id)
  {
    WithoutKeeps(es, e.id);
    FindElsewhere(es, e.id, id);
    assert Put(es, e)[1..] == Without(es, e.id);
  }

  lemma {:induction false} FindElsewhere(es: seq<Entry>, gone: MessageId, id: MessageId)
    requires id != gone
    ensures Find(Without(es, gone), id) == Find(es, id)
  {
    if es == [] || es[0].id == gone {
    } else {
      FindElsewhere(es[1..], gone, id);
      assert Without(es, gone)[1..] == Without(es[1..], gone);
    }
  }

  // ---- Back-off arithmetic -------------------------------------------------------------------

  /** RFC 7252 section 4.2: the k-th wait lies in [4000 * 2^k, 6000 * 2^k) for every random draw;
      nothing overflows 32 bits. */
  lemma WaitInRange(count: nat, draw: byte)
    requires count <= MAX_RETRANSMIT
    ensures 4000 * Pow2(count) <= TransmitTimeout(count, draw) < 6000 * Pow2(count)
    ensures Pow2(count) <= 8
  {
    Pow2Values();
    var base := 4000 * Pow2(count);
    assert base in {4000, 8000, 16000, 32000};
    MulBound(base, draw, 255);
    JitterInRange(base, base * draw);
    SmallMod(base);
    assert TransmitTimeout(count, draw) == AddTick(base, (base * draw % TICK_MODULUS) / 512);
  }

  lemma JitterInRange(base: nat, product: nat)
    requires 0 < base <= 32000 && product <= base * 255
    ensures base <= AddTick(base, (product % TICK_MODULUS) / 512)
    ensures 2 * AddTick(base, (product % TICK_MODULUS) / 512) < 3 * base
  {
    assert product % TICK_MODULUS == product;
    var jitter := product / 512;
    assert 512 * jitter <= product <= 255 * base;
    assert (base + jitter) % TICK_MODULUS == base + jitter;
  }

  lemma SmallMod(n: nat)
    requires n < TICK_MODULUS
    ensures n % TICK_MODULUS == n
  {
  }

  lemma Pow2Values()
    ensures Pow2(0) == 1 && Pow2(1) == 2 && Pow2(2) == 4 && Pow2(3) == 8
  {
  }

  lemma MulBound(a: nat, x: nat, y: nat)
    requires x <= y
    ensures 0 <= a * x <= a * y
  {
  }

  // ---- One time-out pass ---------------------------------------------------------------------

  predicate Due(e: Entry, now: Tick) {
    TimeHasPassed(now, e.timeout)
  }

  /** A due entry that may be sent once more. */
  predicate Resends(e: Entry, now: Tick) {
    Due(e, now) && TypeOf(e.data) == CON && e.count <= MAX_RETRANSMIT
  }

  /** A due entry that is given up. */
  predicate Expires(e: Entry, now: Tick) {
    Due(e, now) && !Resends(e, now)
  }

  function ActionsOf(e: Entry, now: Tick): seq<Action> {
    if !Due(e, now) then []
    else if Resends(e, now) then [Transmit(e.data)]
    else
      var notices := if e.handler.Some? then [Notify(e.handler.value, NotDelivered)] else [];
      notices + (if IsRequest(e.data) then [Issue(Close)] else [])
  }

  function AllActions(es: seq<Entry>, now: Tick): seq<Action> {
    if es == [] then [] else ActionsOf(es[0], now) + AllActions(es[1..], now)
  }

  /** `r` is `e` re-armed by a retransmission at `now`, with some wait of the right length. */
  ghost predicate Rearmed(e: Entry, r: Entry, now: Tick) {
    exists draw: byte ::
      r == e.(timeout := AddTick(now, TransmitTimeout(e.count, draw)), count := e.count + 1)
  }

  lemma RearmedIsNotDue(e: Entry, r: Entry, now: Tick)
    requires Rearmed(e, r, now) && e.count <= MAX_RETRANSMIT
    ensures !Due(r, now)
  {
    var draw: byte :| r == e.(timeout := AddTick(now, TransmitTimeout(e.count, draw)), count := e.count + 1);
    WaitInRange(e.count, draw);
    FutureIsNotPast(now, TransmitTimeout(e.count, draw));
  }

  lemma FutureIsNotPast(now: Tick, d: nat)
    requires 0 < d < HALF_RANGE
    ensures !TimeHasPassed(now, AddTick(now, d))
  {
    AddTickOfTrueTime(now, d);
    SmallMod(now);
    TimeHasPassedIsTrueOrder(now, now + d);
  }

  ghost predicate Increasing(at: seq<nat>) {
    forall i, j :: 0 <= i < j < |at| ==> at[i] < at[j]
  }

  /** Entry `k` of `r` is entry `at[k]` of `es`, untouched because it is not due or re-armed because
      it resends. */
  ghost predicate Follows(es: seq<Entry>, now: Tick, r: seq<Entry>, at: seq<nat>) {
    && |at| == |r|
    && forall k :: 0 <= k < |r| ==>
         at[k] < |es| && FollowsOne(es[at[k]], now, r[k])
  }

  ghost predicate FollowsOne(e: Entry, now: Tick, r: Entry) {
    if Due(e, now) then Resends(e, now) && Rearmed(e, r, now) else r == e
  }

  /** `at` lists exactly the indices of the entries that do not expire. */
  ghost predicate Covers(es: seq<Entry>, now: Tick, at: seq<nat>) {
    forall i :: 0 <= i < |es| ==> (i in at <==> !Expires(es[i], now))
  }

  /** `r` comes from `es` in one pass at `now`, in order and with nothing else left out. */
  ghost predicate PassResult(es: seq<Entry>, now: Tick, r: seq<Entry>, at: seq<nat>) {
    Increasing(at) && Follows(es, now, r, at) && Covers(es, now, at)
  }

  /** A pass re-arms, drops and leaves alone exactly the right entries, in order. */
  lemma {:induction false} ProcessPass(es: seq<Entry>, now: Tick, o: Oracle, w: World) returns (at: seq<nat>)
    ensures PassResult(es, now, Process(es, now, o, w).entries, at)
  {
    if es == [] {
      return [];
    }
    var one := ProcessOne(es[0], now, o, w);
    ProcessOneFacts(es[0], now, o, w);
    var t := ProcessPass(es[1..], now, o, one.world);
    at := Shift(t, one.entries != []);
    ShiftIncreasing(t, one.entries != []);
    ShiftFollows(es, now, one.entries, Process(es[1..], now, o, one.world).entries, t);
    ShiftCovers(es, now, t);
  }

  /** A pass does exactly the actions of the entries that are due, one after the other. */
  lemma {:induction false} ProcessLog(es: seq<Entry>, now: Tick, o: Oracle, w: World)
    ensures Process(es, now, o, w).world.log == w.log + AllActions(es, now)
    ensures Process(es, now, o, w).world.readings == w.readings
    ensures Process(es, now, o, w).world.taken == w.taken
  {
    hide ProcessOne, ActionsOf;
    if es == [] {
      assert w.log + [] == w.log;
    } else {
      ProcessOneFacts(es[0], now, o, w);
      ProcessLog(es[1..], now, o, ProcessOne(es[0], now, o, w).world);
      assert w.log + (ActionsOf(es[0], now) + AllActions(es[1..], now))
          == w.log + ActionsOf(es[0], now) + AllActions(es[1..], now);
    }
  }

  /** The live-message counter goes down by one for every entry given up. */
  lemma {:induction false} ProcessLive(es: seq<Entry>, now: Tick, o: Oracle, w: World)
    ensures var s := Process(es, now, o, w);
            |s.entries| <= |es| && s.world.live - |s.entries| == w.live - |es|
  {
    if es == [] {
    } else {
      ProcessOneFacts(es[0], now, o, w);
      ProcessLive(es[1..], now, o, ProcessOne(es[0], now, o, w).world);
    }
  }

  lemma ProcessOneFacts(e: Entry, now: Tick, o: Oracle, w: World)
    ensures var one := ProcessOne(e, now, o, w);
            && one.world.log == w.log + ActionsOf(e, now)
            && one.world.readings == w.readings && one.world.taken == w.taken
            && one.world.live == w.live - (if Expires(e, now) then 1 else 0)
            && (Expires(e, now) ==> one.entries == [])
            && (!Due(e, now) ==> one.entries == [e])
            && (Resends(e, now) ==> |one.entries| == 1 && Rearmed(e, one.entries[0], now))
  {
    if Expires(e, now) && e.handler.Some? && IsRequest(e.data) {
      assert w.log + [Notify(e.handler.value, NotDelivered)] + [Issue(Close)] == w.log + ActionsOf(e, now);
    }
  }

  /** Indices into a tail, as indices into the whole; `lead` puts the head's index in front. */
  function Shift(t: seq<nat>, lead: bool): (at: seq<nat>)
    ensures |at| == |t| + (if lead then 1 else 0)
    ensures lead ==> at[0] == 0 && forall k :: 1 <= k < |at| ==> at[k] == t[k - 1] + 1
    ensures !lead ==> forall k :: 0 <= k < |at| ==> at[k] == t[k] + 1
  {
    (if lead then [0] else []) + seq(|t|, i requires 0 <= i < |t| => t[i] + 1)
  }

  lemma ShiftMembers(t: seq<nat>, lead: bool, i: nat)
    ensures i in Shift(t, lead) <==> if i == 0 then lead else i - 1 in t
  {
    var at := Shift(t, lead);
    var d := |at| - |t|;
    if i in at {
      var k :| 0 <= k < |at| && at[k] == i;
      if k >= d { assert t[k - d] + 1 == i; }
    }
    if i > 0 && i - 1 in t {
      var k :| 0 <= k < |t| && t[k] == i - 1;
      assert at[k + d] == i;
    }
  }

  lemma ShiftIncreasing(t: seq<nat>, lead: bool)
    requires Increasing(t)
    ensures Increasing(Shift(t, lead))
  {
  }

  lemma ShiftAt(es: seq<Entry>, head: seq<Entry>, rest: seq<Entry>, t: seq<nat>, k: nat)
    requires es != [] && |head| <= 1 && |t| == |rest| && |head| <= k < |head| + |t|
    requires t[k - |head|] < |es| - 1
    ensures var at := Shift(t, head != []);
            && at[k] < |es| && es[at[k]] == es[1..][t[k - |head|]]
            && (head + rest)[k] == rest[k - |head|]
  {
    assert Shift(t, head != [])[k] == t[k - |head|] + 1;
  }

  lemma ShiftFollows(es: seq<Entry>, now: Tick, head: seq<Entry>, rest: seq<Entry>, t: seq<nat>)
    requires es != [] && Follows(es[1..], now, rest, t)
    requires head == [] || (|head| == 1 && FollowsOne(es[0], now, head[0]))
    ensures Follows(es, now, head + rest, Shift(t, head != []))
  {
    forall k | 0 <= k < |head + rest|
      ensures Shift(t, head != [])[k] < |es|
      ensures FollowsOne(es[Shift(t, head != [])[k]], now, (head + rest)[k])
    {
      if k >= |head| {
        assert FollowsOne(es[1..][t[k - |head|]], now, rest[k - |head|]);
        ShiftAt(es, head, rest, t, k);
      }
    }
  }

  lemma ShiftCovers(es: seq<Entry>, now: Tick, t: seq<nat>)
    requires es != [] && Covers(es[1..], now, t)
    ensures Covers(es, now, Shift(t, !Expires(es[0], now)))
  {
    forall i | 0 <= i < |es| ensures i in Shift(t, !Expires(es[0], now)) <==> !Expires(es[i], now) {
      ShiftMembers(t, !Expires(es[0], now), i);
      if i > 0 { assert es[i] == es[1..][i - 1]; }
    }
  }

  /** After a pass nothing is due, and ids are still distinct. */
  lemma ProcessSettles(es: seq<Entry>, now: Tick, o: Oracle, w: World)
    ensures forall e :: e in Process(es, now, o, w).entries ==> !Due(e, now)
    ensures DistinctIds(es) ==> DistinctIds(Process(es, now, o, w).entries)
  {
    var r := Process(es, now, o, w).entries;
    var at := ProcessPass(es, now, o, w);
    forall e | e in r ensures !Due(e, now) {
      var k :| 0 <= k < |r| && r[k] == e;
      if Due(es[at[k]], now) {
        RearmedIsNotDue(es[at[k]], e, now);
      }
    }
    assert forall k :: 0 <= k < |r| ==> r[k].id == es[at[k]].id;
  }

  /** What a pass leaves under an id depends only on the entry with that id. */
  lemma ProcessFind(es: seq<Entry>, now: Tick, o: Oracle, w: World, id: MessageId)
    requires DistinctIds(es)
    ensures var before, after := Find(es, id), Find(Process(es, now, o, w).entries, id);
            if before.None? || Expires(before.value, now) then after == None
            else if Due(before.value, now) then
              Resends(before.value, now) && after.Some? && Rearmed(before.value, after.value, now)
            else after == before
  {
    var r := Process(es, now, o, w).entries;
    var at := ProcessPass(es, now, o, w);
    ProcessSettles(es, now, o, w);
    HasIffFound(es, id);
    HasIffFound(r, id);
    if Find(r, id).Some? {
      var k :| 0 <= k < |r| && r[k] == Find(r, id).value;
      assert es[at[k]].id == id && at[k] in at;
      FindUnique(es, es[at[k]]);
      FindUnique(r, r[k]);
    }
    if Find(es, id).Some? && !Expires(Find(es, id).value, now) {
      var i :| 0 <= i < |es| && es[i] == Find(es, id).value;
      assert i in at;
      var k :| 0 <= k < |at| && at[k] == i;
      assert r[k].id == id;
    }
  }

  /** A handler hears of a failed delivery exactly when an entry carrying it expires, and a pass
      tells no handler anything else. */
  lemma {:induction false} NotifiedIffExpired(es: seq<Entry>, now: Tick, h: nat, d: Delivery)
    ensures Notify(h, d) in AllActions(es, now) <==>
            d == NotDelivered && exists i :: 0 <= i < |es| && es[i].handler == Some(h) && Expires(es[i], now)
  {
    if es == [] {
    } else {
      NotifiedIffExpired(es[1..], now, h, d);
      var t := es[1..];
      assert forall i :: 0 <= i < |t| ==> t[i] == es[i + 1];
      if i :| 0 <= i < |es| && es[i].handler == Some(h) && Expires(es[i], now) {
        if i > 0 {
          assert t[i - 1].handler == Some(h) && Expires(t[i - 1], now);
        }
      }
    }
  }

  /** Giving a message up tells its handler once and, for a request, closes the channel once. */
  lemma ExpiryReportsOnce(e: Entry, now: Tick)
    requires TypeOf(e.data) == CON && Expires(e, now)
    ensures ActionsOf(e, now) ==
            if e.handler.Some? then [Notify(e.handler.value, NotDelivered), Issue(Close)] else [Issue(Close)]
  {
  }
}
