/** The whole wait of `send_synchronous`: the rounds of its loop, and what MESSAGE_TIMEOUT means. */
module CoapWait {
  import opened Basics
  import opened Ticks
  import opened CoapTypes
  import opened CoapModel
  import opened CoapFacts
  import CoapLifetime
  import opened CoapSync

  // ---- The rounds ----------------------------------------------------------------------------

  function Rounds(r: Round, o: Oracle, h: nat, k: nat): Round {
    if k == 0 then r
    else
      var before := Rounds(r, o, h, k - 1);
      SyncRound(before.entries, o, before.world, h)
  }

  /** The guard of the loop. */
  predicate GoesOn(r: Round, id: MessageId) {
    Has(r.entries, id) && r.error == NoError
  }

  /** The loop makes `k` rounds. */
  ghost predicate EndsAfter(r: Round, o: Oracle, id: MessageId, h: nat, k: nat) {
    !GoesOn(Rounds(r, o, h, k), id) && forall i: nat :: i < k ==> GoesOn(Rounds(r, o, h, i), id)
  }

  /** After `k` rounds of a loop that has not ended before. */
  ghost predicate SoFar(r0: Round, r: Round, o: Oracle, id: MessageId, h: nat, k: nat) {
    r == Rounds(r0, o, h, k) && forall i: nat :: i < k ==> GoesOn(Rounds(r0, o, h, i), id)
  }

  lemma NoRoundYet(r0: Round, o: Oracle, id: MessageId, h: nat)
    ensures SoFar(r0, r0, o, id, h, 0)
  {
  }

  lemma OneMoreRound(r0: Round, r: Round, o: Oracle, id: MessageId, h: nat, k: nat)
    requires SoFar(r0, r, o, id, h, k) && GoesOn(r, id)
    ensures SoFar(r0, SyncRound(r.entries, o, r.world, h), o, id, h, k + 1)
  {
    hide SyncRound;
  }

  lemma NoMoreRounds(r0: Round, r: Round, o: Oracle, id: MessageId, h: nat, k: nat)
    requires SoFar(r0, r, o, id, h, k) && !GoesOn(r, id)
    ensures EndsAfter(r0, o, id, h, k) && r == Rounds(r0, o, h, k)
  {
  }

  lemma NothingTold(w: World)
    ensures Told(w, w) == []
  {
  }

  function Cleared(r: Round, id: MessageId): Round {
    Round(Without(r.entries, id), if Has(r.entries, id) then r.world.Deleted() else r.world, r.error)
  }

  /** Whether there is anything to wait for. */
  predicate Awaits(start: Sent, data: seq<byte>) {
    start.error == NoError && TypeOf(data) == CON
  }

  function Watched(start: Sent, id: MessageId, h: nat): Round {
    Round(WithHandler(start.entries, id, h), start.world, NoError)
  }

  /** All of `send_synchronous`, if the loop makes `k` rounds. */
  ghost predicate SentSynchronously(es: seq<Entry>, w: World, o: Oracle, data: seq<byte>, id: int, h: nat, k: nat, end: Round) {
    var start, mid := SyncStart(es, data, id, o, w), NarrowId(id);
    if Awaits(start, data) then
      && EndsAfter(Watched(start, mid, h), o, mid, h, k)
      && end == Cleared(Rounds(Watched(start, mid, h), o, h, k), mid)
    else
      end == Cleared(Round(start.entries, start.world, start.error), mid)
  }

  // ---- Transmissions of the message waited for -----------------------------------------------

  function Transmissions(log: seq<Action>, data: seq<byte>): nat {
    multiset(log)[Transmit(data)]
  }

  /** The waits for that many transmissions, at their shortest. */
  function ShortestWaits(count: nat): nat {
    ACK_TIMEOUT * (Pow2(count) - 1)
  }

  /** Since the message was first sent at true time `began`: while it is stored, it was sent again as
      often as it counts, and its deadline lies as many waits behind the beginning; if it was given up,
      it had been sent three times more, over a minute. */
  ghost predicate Tries(es: seq<Entry>, told: seq<Action>, id: MessageId, h: nat, data: seq<byte>,
                        began: nat, deadline: nat, now: nat) {
    match Find(es, id)
    case Some(e) =>
      e.data == data && e.count <= Transmissions(told, data) + 1 && began + ShortestWaits(e.count) <= deadline
    case None =>
      GaveUp(told, h) ==> Exhausted(told, data, began, now)
  }

  /** Every transmission and every wait was used up. */
  predicate Exhausted(told: seq<Action>, data: seq<byte>, began: nat, now: nat) {
    Transmissions(told, data) >= MAX_RETRANSMIT && began + ShortestWaits(MAX_RETRANSMIT + 1) <= now
  }

  /** If the message was given up between the two, every transmission and every wait was used up. */
  ghost predicate GivenUpExhausted(start: World, end: World, o: Oracle, h: nat, data: seq<byte>, began: nat) {
    GaveUp(Told(start, end), h) ==>
      end.readings > 0 && Exhausted(Told(start, end), data, began, o.clock(end.readings - 1))
  }

  lemma ShortestWaitsValues()
    ensures ShortestWaits(1) == 4000 && ShortestWaits(MAX_RETRANSMIT + 1) == 60000
    ensures forall k: nat :: ShortestWaits(k + 1) == ShortestWaits(k) + ACK_TIMEOUT * Pow2(k)
  {
    Pow2Values();
    assert Pow2(4) == 2 * Pow2(3);
    forall k: nat ensures ShortestWaits(k + 1) == ShortestWaits(k) + ACK_TIMEOUT * Pow2(k) {
      assert Pow2(k + 1) == 2 * Pow2(k);
    }
  }

  lemma TransmissionsAdd(a: seq<Action>, b: seq<Action>, data: seq<byte>)
    ensures Transmissions(a + b, data) == Transmissions(a, data) + Transmissions(b, data)
  {
  }

  lemma {:induction false} ResendIsLogged(es: seq<Entry>, e: Entry, now: Tick)
    requires e in es && Resends(e, now)
    ensures Transmissions(AllActions(es, now), e.data) >= 1
  {
    TransmissionsAdd(ActionsOf(es[0], now), AllActions(es[1..], now), e.data);
    if e == es[0] {
      assert ActionsOf(e, now) == [Transmit(e.data)];
    } else {
      ResendIsLogged(es[1..], e, now);
    }
  }

  // ---- What a round keeps --------------------------------------------------------------------

  lemma SameDeadline(a: nat, b: nat, now: nat)
    requires ToTick(a) == ToTick(b) && now < a <= now + 48000 && now < b <= now + 48000
    ensures a == b
  {
  }

  /** A message sent once more: its next deadline lies another wait behind the last. */
  lemma RearmedTries(e: Entry, e': Entry, now: nat, began: nat, deadline: nat, next: nat)
    requires 1 <= e.count <= MAX_RETRANSMIT && Rearmed(e, e', ToTick(now)) && deadline <= now
    requires began + ShortestWaits(e.count) <= deadline
    requires e'.timeout == ToTick(next) && now < next <= now + 48000
    ensures began + ShortestWaits(e'.count) <= next
  {
    hide TransmitTimeout, ShortestWaits;
    var draw: byte :| e' == e.(timeout := AddTick(ToTick(now), TransmitTimeout(e.count, draw)), count := e.count + 1);
    var own := NextDeadline(now, e.count, draw);
    SameDeadline(own, next, now);
    WaitInRange(e.count, draw);
    AddTickOfTrueTime(now, TransmitTimeout(e.count, draw));
    SameDeadline(now + TransmitTimeout(e.count, draw), next, now);
    ShortestWaitsValues();
  }

  /** The pass at the end of a round, for the message while it is stored. */
  lemma PendingTries(r: Round, o: Oracle, start: World, id: MessageId, h: nat, data: seq<byte>,
                     began: nat, deadline: nat, last: nat, next: nat)
    requires Phase(r, start, id, h, deadline, last) && Has(r.entries, id)
    requires Tries(r.entries, Told(start, r.world), id, h, data, began, deadline, last)
    requires last < o.clock(r.world.readings) < last + HALF_RANGE
    requires Phase(RunTimeouts(r, o, h), start, id, h, next, o.clock(r.world.readings))
    ensures var r' := RunTimeouts(r, o, h);
            Tries(r'.entries, Told(start, r'.world), id, h, data, began, next, o.clock(r.world.readings))
  {
    hide Flagged, Undecided, Decided, Process, AllActions, ShortestWaits, Transmissions, Rearmed, RunTimeouts, Told, Quiet;
    var now := o.clock(r.world.readings);
    var more := AllActions(r.entries, ToTick(now));
    TimeoutsUnfold(r, o, start, h);
    HasIffFound(r.entries, id);
    ProcessFind(r.entries, ToTick(now), o, r.world.(readings := r.world.readings + 1), id);
    TransmissionsAdd(Told(start, r.world), more, data);
    TimeHasPassedIsTrueOrder(now, deadline);
    var e := Find(r.entries, id).value;
    var r' := RunTimeouts(r, o, h);
    HasIffFound(r'.entries, id);
    if Resends(e, ToTick(now)) {
      ResendIsLogged(r.entries, e, ToTick(now));
      RearmedTries(e, Find(r'.entries, id).value, now, began, deadline, next);
      RearmedMeans(e, Find(r'.entries, id).value, ToTick(now));
    } else if !Due(e, ToTick(now)) {
      SameDeadline(deadline, next, now);
    }
  }

  lemma RearmedMeans(e: Entry, e': Entry, now: Tick)
    requires Rearmed(e, e', now)
    ensures e'.data == e.data && e'.count == e.count + 1
  {
  }

  lemma PassTries(r: Round, o: Oracle, start: World, id: MessageId, h: nat, data: seq<byte>,
                  began: nat, deadline: nat, last: nat, next: nat)
    requires Phase(r, start, id, h, deadline, last)
    requires Tries(r.entries, Told(start, r.world), id, h, data, began, deadline, last)
    requires last < o.clock(r.world.readings) < last + HALF_RANGE
    requires Phase(RunTimeouts(r, o, h), start, id, h, next, o.clock(r.world.readings))
    ensures var r' := RunTimeouts(r, o, h);
            Tries(r'.entries, Told(start, r'.world), id, h, data, began, next, o.clock(r.world.readings))
  {
    hide Flagged, Undecided, Decided, Process, AllActions, ShortestWaits, Transmissions, RunTimeouts, Told;
    if Has(r.entries, id) {
      PendingTries(r, o, start, id, h, data, began, deadline, last, next);
    } else {
      var now := o.clock(r.world.readings);
      TimeoutsUnfold(r, o, start, h);
      QuietPass(r.entries, ToTick(now), o, r.world.(readings := r.world.readings + 1), id, h);
      HasIffFound(r.entries, id);
      HasIffFound(RunTimeouts(r, o, h).entries, id);
      TransmissionsAdd(Told(start, r.world), AllActions(r.entries, ToTick(now)), data);
    }
  }

  lemma TriesStay(es: seq<Entry>, es': seq<Entry>, told: seq<Action>, more: seq<Action>, id: MessageId, h: nat,
                  data: seq<byte>, began: nat, deadline: nat, now: nat)
    requires Tries(es, told, id, h, data, began, deadline, now) && !GaveUp(told, h) && Notify(h, NotDelivered) !in more
    requires Find(es', id) == Find(es, id) || Find(es', id).None?
    ensures Tries(es', told + more, id, h, data, began, deadline, now)
  {
    hide Transmissions, ShortestWaits, Find;
    TransmissionsAdd(told, more, data);
  }

  /** An arrival leaves the message as it is, or takes it away without giving it up. */
  lemma TakeTries(es: seq<Entry>, o: Oracle, start: World, w: World, id: MessageId, h: nat, data: seq<byte>,
                  began: nat, deadline: nat, last: nat)
    requires Pending(es, id, h, deadline, last) && start.log <= w.log && !GaveUp(Told(start, w), h)
    requires Tries(es, Told(start, w), id, h, data, began, deadline, last)
    ensures var r := TakeAnswer(es, o, w, h);
            Tries(r.entries, Told(start, r.world), id, h, data, began, deadline, last)
  {
    hide StoreReceive, Flagged, Tries, GaveUp;
    var a := o.arrival(w.taken);
    var w1 := ReceivedFrom(o, w);
    if a.error == NoError {
      if |a.data| >= 4 && IsAckOrReset(a.data) {
        AnswerTries(es, a.data, o, start, w, w1.(readings := w.readings + 1), id, h, data, began, deadline, last);
      } else {
        assert Told(start, w1) == Told(start, w) + [Arrived(a.data)];
        TriesStay(es, es, Told(start, w), [Arrived(a.data)], id, h, data, began, deadline, last);
      }
    } else {
      assert Told(start, w1) == Told(start, w);
    }
  }

  lemma AnswerTries(es: seq<Entry>, answer: seq<byte>, o: Oracle, start: World, w: World, w2: World, id: MessageId,
                    h: nat, data: seq<byte>, began: nat, deadline: nat, last: nat)
    requires DistinctIds(es) && |answer| >= 4 && IsAckOrReset(answer)
    requires start.log <= w.log && !GaveUp(Told(start, w), h) && w2.log == w.log + [Arrived(answer)]
    requires Tries(es, Told(start, w), id, h, data, began, deadline, last)
    ensures var r := StoreReceive(es, answer, HeaderId(answer), ToTick(o.clock(w.readings)), o, w2);
            Tries(r.entries, Told(start, r.world), id, h, data, began, deadline, last)
  {
    hide StoreReceive, Tries, GaveUp, Find, Without, Has, Told, DistinctIds;
    var mid := HeaderId(answer);
    var r := StoreReceive(es, answer, mid, ToTick(o.clock(w.readings)), o, w2);
    AnswerReceived(es, answer, ToTick(o.clock(w.readings)), o, w2);
    AnswerLog(answer, start, w, w2, r.world);
    var more := [Arrived(answer)] + Told(w2, r.world);
    assert Told(start, r.world) == Told(start, w) + more;
    if mid != id {
      FindElsewhere(es, mid, id);
    } else {
      HasIffFound(es, id);
      WithoutKeeps(es, id);
      HasIffFound(r.entries, id);
    }
    TriesStay(es, r.entries, Told(start, w), more, id, h, data, began, deadline, last);
  }

  lemma StillPending(r: Round, start: World, id: MessageId, h: nat, deadline: nat, last: nat)
    requires Phase(r, start, id, h, deadline, last) && Has(r.entries, id)
    ensures Pending(r.entries, id, h, deadline, last) && start.log <= r.world.log
    ensures Undecided(Told(start, r.world), id, h) && !GaveUp(Told(start, r.world), h)
  {
    hide Pending;
  }

  lemma LogOf(r: Round, start: World, id: MessageId, h: nat, deadline: nat, last: nat)
    requires Phase(r, start, id, h, deadline, last)
    ensures start.log <= r.world.log
  {
    hide Pending, Quiet, Decided, Undecided;
  }

  /** Every round of the loop keeps count of the tries. */
  lemma RoundTries(r: Round, start: World, o: Oracle, id: MessageId, h: nat, deadline: nat, next: nat,
                   data: seq<byte>, began: nat)
    requires Advancing(o) && Waits(r, start, o, id, h, deadline) && GoesOn(r, id)
    requires Tries(r.entries, Told(start, r.world), id, h, data, began, deadline, o.clock(r.world.readings - 1))
    requires Waits(SyncRound(r.entries, o, r.world, h), start, o, id, h, next)
    ensures var r' := SyncRound(r.entries, o, r.world, h);
            Tries(r'.entries, Told(start, r'.world), id, h, data, began, next, o.clock(r'.world.readings - 1))
  {
    hide TakeAnswer, RunTimeouts, Tries, Pending, Told, Phase, Undecided, GaveUp, Awaited, Has;
    var last := o.clock(r.world.readings - 1);
    StillPending(r, start, id, h, deadline, last);
    var taken := TakeAnswer(r.entries, o, r.world, h);
    TakeKeepsPhase(r.entries, o, start, r.world, id, h, deadline, last);
    TakeTries(r.entries, o, start, r.world, id, h, data, began, deadline, last);
    ClockAdvances(o, r.world.readings - 1, taken.world.readings - r.world.readings + 1);
    LogOf(taken, start, id, h, deadline, last);
    TimeoutsUnfold(taken, o, start, h);
    PassTries(taken, o, start, id, h, data, began, deadline, last, next);
  }

  /** A wait that has ended: if it was by giving up, every try was made. */
  lemma WaitEnds(r: Round, start: World, o: Oracle, id: MessageId, h: nat, deadline: nat, data: seq<byte>, began: nat)
    requires Waits(r, start, o, id, h, deadline)
    requires Tries(r.entries, Told(start, r.world), id, h, data, began, deadline, o.clock(r.world.readings - 1))
    ensures GivenUpExhausted(start, r.world, o, h, data, began)
  {
    hide Exhausted, Told, AnsweredBy, Quiet, Awaited;
    HasIffFound(r.entries, id);
  }

  /** Clearing the message at the end changes none of it. */
  lemma ClearingExhausted(start: World, end: World, o: Oracle, h: nat, data: seq<byte>, began: nat)
    requires GivenUpExhausted(start, end, o, h, data, began)
    ensures GivenUpExhausted(start, end.Deleted(), o, h, data, began)
  {
    assert Told(start, end.Deleted()) == Told(start, end);
  }

  /** The first try. */
  lemma FirstTry(es: seq<Entry>, data: seq<byte>, id: int, o: Oracle, w: World, h: nat, deadline: nat)
    requires DistinctIds(es) && Awaits(SyncStart(es, data, id, o, w), data)
    requires Pending(Watched(SyncStart(es, data, id, o, w), NarrowId(id), h).entries, NarrowId(id), h, deadline, o.clock(w.readings))
    ensures Tries(Watched(SyncStart(es, data, id, o, w), NarrowId(id), h).entries, [], NarrowId(id), h, data,
                  o.clock(w.readings), deadline, o.clock(w.readings))
  {
    hide TransmitTimeout;
    var mid, now := NarrowId(id), o.clock(w.readings);
    var start := SyncStart(es, data, id, o, w);
    var wait := TransmitTimeout(0, o.draw(w.drawn));
    var e := Entry(mid, AddTick(ToTick(now), wait), 1, None, data);
    assert start.entries == Put(es, e) && start.entries[0] == e;
    var watched := WithHandler(start.entries, mid, h);
    assert watched[0] == e.(handler := Some(h)) && Find(watched, mid) == Some(watched[0]);
    WaitInRange(0, o.draw(w.drawn));
    Pow2Values();
    AddTickOfTrueTime(now, wait);
    ShortestWaitsValues();
    SameDeadline(now + wait, deadline, now);
  }

  // ---- What goes out -------------------------------------------------------------------------

  /** The message has an id, and room if it is one that is stored. */
  predicate Sendable(data: seq<byte>, id: int, o: Oracle, w: World) {
    id >= 0 && (TypeOf(data) == CON || IsAckOrReset(data) ==> o.room(w.allocations))
  }

  /** No message with another id has the same bytes. */
  ghost predicate OnlyUnder(es: seq<Entry>, id: MessageId, data: seq<byte>) {
    forall e <- es :: e.data == data ==> e.id == id
  }

  /** What a synchronous send puts on the channel. A message that cannot be sent leaves no trace. Any other
      goes out at once, and an error of the channel then is the result. A CON goes out at most four times
      in all, if no other stored message looks the same, and four times if it is given up. */
  ghost predicate GoesOut(es: seq<Entry>, w: World, o: Oracle, data: seq<byte>, id: int, end: World, error: ProtocolError) {
    if !Sendable(data, id, o, w) then
      end.log == w.log && error == if id < 0 then MissingMessageId else InsufficientStorage
    else
      && w.log + [Transmit(data)] <= end.log
      && (o.sendError(w.sent) != NoError || TypeOf(data) != CON ==>
            end.log == w.log + [Transmit(data)] && error == o.sendError(w.sent))
      && (TypeOf(data) == CON && OnlyUnder(es, NarrowId(id), data) ==> Transmissions(Told(w, end), data) <= 4)
      && (TypeOf(data) == CON && o.sendError(w.sent) == NoError && error == MessageTimeout ==>
            || Transmissions(Told(w, end), data) >= 4
            || exists k :: w.taken <= k < end.taken && o.arrival(k).error == MessageTimeout)
  }

  lemma StartGoesOut(es: seq<Entry>, data: seq<byte>, id: int, o: Oracle, w: World)
    ensures var s := SyncStart(es, data, id, o, w);
            && s.world.taken == w.taken
            && if Sendable(data, id, o, w) then s.world.log == w.log + [Transmit(data)] && s.error == o.sendError(w.sent)
               else s.world.log == w.log && s.error == (if id < 0 then MissingMessageId else InsufficientStorage)
  {
    hide TransmitTimeout, Put, Has;
  }

  /** While only message `id` has these bytes, they are transmitted as often as its entry counts. */
  ghost predicate Counted(es: seq<Entry>, told: seq<Action>, id: MessageId, data: seq<byte>) {
    && DistinctIds(es) && OnlyUnder(es, id, data)
    && match Find(es, id)
       case Some(e) => e.data == data && 1 <= e.count <= MAX_RETRANSMIT + 1 && Transmissions(told, data) + 1 <= e.count
       case None => Transmissions(told, data) <= MAX_RETRANSMIT
  }

  lemma {:induction false} OthersSendOther(es: seq<Entry>, now: Tick, data: seq<byte>)
    requires forall e <- es :: e.data != data
    ensures Transmissions(AllActions(es, now), data) == 0
  {
    hide ActionsOf, Transmissions;
    if es == [] {
      NoneInNothing(data);
    } else {
      assert es[0] in es && forall e <- es[1..] :: e in es;
      OthersSendOther(es[1..], now, data);
      OwnSends(es[0], now, data);
      TransmissionsAdd(ActionsOf(es[0], now), AllActions(es[1..], now), data);
    }
  }

  /** A pass transmits these bytes once if the message is sent again, and not otherwise. */
  lemma PassSends(es: seq<Entry>, now: Tick, id: MessageId, data: seq<byte>)
    requires DistinctIds(es) && OnlyUnder(es, id, data)
    ensures var e := Find(es, id);
            Transmissions(AllActions(es, now), data) <= if e.Some? && Resends(e.value, now) then 1 else 0
  {
    hide Resends, Due, AllActions;
    var before, after := CoapLifetime.ActionsAround(es, now, id);
    WithoutKeeps(es, id);
    OthersSendOther(Without(es, id), now, data);
    var own := if Find(es, id).Some? then ActionsOf(Find(es, id).value, now) else [];
    TransmissionsAdd(before, after, data);
    TransmissionsAdd(before, own, data);
    TransmissionsAdd(before + own, after, data);
    if Find(es, id).Some? {
      OwnSends(Find(es, id).value, now, data);
    }
  }

  lemma OwnSends(e: Entry, now: Tick, data: seq<byte>)
    ensures Transmissions(ActionsOf(e, now), data) <= if Resends(e, now) then 1 else 0
    ensures e.data != data ==> Transmissions(ActionsOf(e, now), data) == 0
  {
  }

  lemma NoneInNothing(data: seq<byte>)
    ensures Transmissions([], data) == 0
  {
  }

  lemma PassCounted(es: seq<Entry>, now: Tick, o: Oracle, w: World, told: seq<Action>, id: MessageId, data: seq<byte>)
    requires Counted(es, told, id, data)
    ensures Counted(Process(es, now, o, w).entries, told + AllActions(es, now), id, data)
  {
    hide Process, AllActions, Transmissions, Rearmed, Due;
    PassSends(es, now, id, data);
    TransmissionsAdd(told, AllActions(es, now), data);
    ProcessFind(es, now, o, w, id);
    ProcessSettles(es, now, o, w);
    HandlersSurvive(es, now, o, w);
    var e, e' := Find(es, id), Find(Process(es, now, o, w).entries, id);
    if e.Some? && Resends(e.value, now) {
      RearmedMeans(e.value, e'.value, now);
    }
  }

  lemma TakeCounted(es: seq<Entry>, o: Oracle, start: World, w: World, id: MessageId, h: nat, data: seq<byte>)
    requires Counted(es, Told(start, w), id, data) && start.log <= w.log
    ensures var r := TakeAnswer(es, o, w, h);
            start.log <= r.world.log && Counted(r.entries, Told(start, r.world), id, data)
  {
    hide StoreReceive, Flagged, Counted, DistinctIds;
    CountedIds(es, Told(start, w), id, data);
    var a := o.arrival(w.taken);
    var w1 := ReceivedFrom(o, w);
    if a.error == NoError {
      if |a.data| >= 4 && IsAckOrReset(a.data) {
        AnswerCounted(es, a.data, o, start, w, w1.(readings := w.readings + 1), id, data);
      } else {
        assert Told(start, w1) == Told(start, w) + [Arrived(a.data)];
        StillCounted(es, es, Told(start, w), [Arrived(a.data)], id, data);
      }
    } else {
      assert Told(start, w1) == Told(start, w);
    }
  }

  lemma StillCounted(es: seq<Entry>, es': seq<Entry>, told: seq<Action>, more: seq<Action>, id: MessageId, data: seq<byte>)
    requires Counted(es, told, id, data) && Transmit(data) !in more
    requires DistinctIds(es') && (forall e <- es' :: e in es) && (Find(es', id) == Find(es, id) || Find(es', id).None?)
    ensures Counted(es', told + more, id, data)
  {
    hide Find, DistinctIds;
    TransmissionsAdd(told, more, data);
  }

  lemma AnswerCounted(es: seq<Entry>, answer: seq<byte>, o: Oracle, start: World, w: World, w2: World, id: MessageId, data: seq<byte>)
    requires Counted(es, Told(start, w), id, data) && |answer| >= 4 && IsAckOrReset(answer)
    requires start.log <= w.log && w2.log == w.log + [Arrived(answer)]
    ensures var r := StoreReceive(es, answer, HeaderId(answer), ToTick(o.clock(w.readings)), o, w2);
            start.log <= r.world.log && Counted(r.entries, Told(start, r.world), id, data)
  {
    hide StoreReceive, Counted, Find, Without, Has, Told, DistinctIds;
    var mid := HeaderId(answer);
    var r := StoreReceive(es, answer, mid, ToTick(o.clock(w.readings)), o, w2);
    AnswerReceived(es, answer, ToTick(o.clock(w.readings)), o, w2);
    AnswerLog(answer, start, w, w2, r.world);
    CountedIds(es, Told(start, w), id, data);
    WithoutKeeps(es, mid);
    var more := [Arrived(answer)] + Told(w2, r.world);
    assert Told(start, r.world) == Told(start, w) + more;
    if mid != id {
      FindElsewhere(es, mid, id);
    } else {
      HasIffFound(es, id);
      HasIffFound(r.entries, id);
    }
    StillCounted(es, r.entries, Told(start, w), more, id, data);
  }

  lemma CountedIds(es: seq<Entry>, told: seq<Action>, id: MessageId, data: seq<byte>)
    requires Counted(es, told, id, data)
    ensures DistinctIds(es)
  {
  }

  lemma {:induction false} RoundsCounted(r: Round, o: Oracle, id: MessageId, h: nat, data: seq<byte>, k: nat)
    requires Counted(r.entries, [], id, data)
    ensures var r' := Rounds(r, o, h, k);
            r.world.log <= r'.world.log && Counted(r'.entries, Told(r.world, r'.world), id, data)
  {
    hide Counted, TakeAnswer, Process;
    if k == 0 {
      NothingTold(r.world);
    } else {
      RoundsCounted(r, o, id, h, data, k - 1);
      var before := Rounds(r, o, h, k - 1);
      TakeCounted(before.entries, o, r.world, before.world, id, h, data);
      var t := TakeAnswer(before.entries, o, before.world, h);
      TimeoutsUnfold(t, o, r.world, h);
      PassCounted(t.entries, ToTick(o.clock(t.world.readings)), o, t.world.(readings := t.world.readings + 1),
                  Told(r.world, t.world), id, data);
    }
  }

  lemma WatchedCounted(es: seq<Entry>, data: seq<byte>, id: int, o: Oracle, w: World, h: nat)
    requires DistinctIds(es) && Awaits(SyncStart(es, data, id, o, w), data) && OnlyUnder(es, NarrowId(id), data)
    ensures Counted(Watched(SyncStart(es, data, id, o, w), NarrowId(id), h).entries, [], NarrowId(id), data)
  {
    hide TransmitTimeout, DistinctIds, Has, Without, WithHandler, OnlyUnder;
    var mid, start := NarrowId(id), SyncStart(es, data, id, o, w);
    var e := Entry(mid, AddTick(ToTick(o.clock(w.readings)), TransmitTimeout(0, o.draw(w.drawn))), 1, None, data);
    assert start.entries == Put(es, e) && start.entries[0] == e;
    PutKeeps(es, e);
    OnlyUnderStays(es, e, h, data);
    FirstIsCounted(start.entries, mid, h, data);
  }

  lemma FirstIsCounted(es: seq<Entry>, id: MessageId, h: nat, data: seq<byte>)
    requires DistinctIds(es) && es != [] && es[0].id == id && es[0].data == data && es[0].count == 1
    requires OnlyUnder(WithHandler(es, id, h), id, data)
    ensures Counted(WithHandler(es, id, h), [], id, data)
  {
    WithHandlerAt(es, id, h);
    var watched := WithHandler(es, id, h);
    assert watched[0] == es[0].(handler := Some(h)) && Find(watched, id) == Some(watched[0]);
  }

  lemma OnlyUnderStays(es: seq<Entry>, e: Entry, h: nat, data: seq<byte>)
    requires DistinctIds(es) && DistinctIds(Put(es, e)) && OnlyUnder(es, e.id, data)
    ensures OnlyUnder(WithHandler(Put(es, e), e.id, h), e.id, data)
  {
    var stored := Put(es, e);
    WithHandlerAt(stored, e.id, h);
    WithoutKeeps(es, e.id);
    var watched := WithHandler(stored, e.id, h);
    assert forall y :: y in stored <==> y == e || y in Without(es, e.id);
    forall x | x in watched && x.data == data ensures x.id == e.id {
      var i :| 0 <= i < |watched| && watched[i] == x;
    }
  }

  /** The log of the whole send. */
  lemma SendGoesOut(es: seq<Entry>, w: World, o: Oracle, data: seq<byte>, id: int, h: nat, k: nat, end: Round)
    requires DistinctIds(es) && SentSynchronously(es, w, o, data, id, h, k, end)
    requires var start := SyncStart(es, data, id, o, w);
             && start.world.log <= end.world.log
             && (Awaits(start, data) ==>
                   && Outcome(start.world, end.world, o, NarrowId(id), h, end.error)
                   && GivenUpExhausted(start.world, end.world, o, h, data, o.clock(w.readings)))
    ensures GoesOut(es, w, o, data, id, end.world, end.error)
  {
    hide SyncStart, EndsAfter, Rounds, Counted, Watched, Cleared, OnlyUnder, Transmissions, AnsweredBy;
    var start, mid := SyncStart(es, data, id, o, w), NarrowId(id);
    StartGoesOut(es, data, id, o, w);
    ClearedLog(Round(start.entries, start.world, start.error), mid);
    if Awaits(start, data) {
      ToldSince(w, start.world, end.world, data);
      if OnlyUnder(es, mid, data) {
        WatchedCounted(es, data, id, o, w, h);
        WatchedWorld(start, mid, h);
        RoundsCounted(Watched(start, mid, h), o, mid, h, data, k);
        var r := Rounds(Watched(start, mid, h), o, h, k);
        AtMostThree(r.entries, Told(start.world, r.world), mid, data);
        ClearedLog(r, mid);
        assert Told(start.world, end.world) == Told(start.world, r.world);
      }
    } else if Sendable(data, id, o, w) {
      ToldSince(w, start.world, end.world, data);
      NoneTransmitted(start.world, end.world, data);
    }
  }

  lemma NoneTransmitted(w: World, w': World, data: seq<byte>)
    requires w'.log == w.log
    ensures Transmissions(Told(w, w'), data) == 0
  {
  }

  lemma ClearedLog(r: Round, id: MessageId)
    ensures Cleared(r, id).world.log == r.world.log && Cleared(r, id).error == r.error
  {
    hide Without, Has;
  }

  lemma WatchedWorld(start: Sent, id: MessageId, h: nat)
    ensures Watched(start, id, h).world == start.world
  {
  }

  lemma AtMostThree(es: seq<Entry>, told: seq<Action>, id: MessageId, data: seq<byte>)
    requires Counted(es, told, id, data)
    ensures Transmissions(told, data) <= 3
  {
  }

  lemma ToldSince(w: World, start: World, end: World, data: seq<byte>)
    requires start.log == w.log + [Transmit(data)] && start.log <= end.log
    ensures Told(w, end) == [Transmit(data)] + Told(start, end)
    ensures Transmissions(Told(w, end), data) == 1 + Transmissions(Told(start, end), data)
  {
    TransmissionsAdd([Transmit(data)], Told(start, end), data);
    assert Transmissions([Transmit(data)], data) == 1;
  }
}
