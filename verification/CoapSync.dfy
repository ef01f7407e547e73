/** One round of the loop of `send_synchronous`, and what it can do to the message waited for. */
module CoapSync {
  import opened Basics
  import opened Ticks
  import opened CoapTypes
  import opened CoapModel
  import opened CoapFacts
  import opened CoapInvariants

  /** The local callback: it overwrites the error with the outcome it is told. */
  function Flagged(error: ProtocolError, told: seq<Action>, h: nat): ProtocolError {
    if told == [] then error
    else
      var sofar := Flagged(error, told[..|told| - 1], h);
      match told[|told| - 1]
      case Notify(h', NotDelivered) => if h' == h then MessageTimeout else sofar
      case Notify(h', DeliveredNack) => if h' == h then MessageReset else sofar
      case _ => sofar
  }

  /** What was logged between two moments. */
  function Told(before: World, after: World): seq<Action> {
    if |before.log| <= |after.log| then after.log[|before.log|..] else []
  }

  datatype Round = Round(entries: seq<Entry>, world: World, error: ProtocolError)

  /** Handing an acknowledgement or reset to the store, with the callback watching. */
  function Hear(es: seq<Entry>, data: seq<byte>, o: Oracle, w: World, h: nat): Round
    requires |data| >= 4
  {
    var w2 := w.(readings := w.readings + 1);
    var r := StoreReceive(es, data, HeaderId(data), ToTick(o.clock(w.readings)), o, w2);
    var error := Flagged(NoError, Told(w2, r.world), h);
    Round(r.entries, r.world, if error == NoError then r.error else error)
  }

  /** Take a message; hand it to the store if it is an acknowledgement or a reset, drop it if not. */
  function TakeAnswer(es: seq<Entry>, o: Oracle, w: World, h: nat): Round {
    var a := o.arrival(w.taken);
    var w1 := ReceivedFrom(o, w);
    if a.error == NoError && |a.data| >= 4 && IsAckOrReset(a.data) then Hear(es, a.data, o, w1, h)
    else Round(es, w1, a.error)
  }

  /** Run the time-outs, with the callback watching. */
  function RunTimeouts(r: Round, o: Oracle, h: nat): Round {
    var w := r.world.(readings := r.world.readings + 1);
    var s := Process(r.entries, ToTick(o.clock(r.world.readings)), o, w);
    Round(s.entries, s.world, Flagged(r.error, Told(w, s.world), h))
  }

  function SyncRound(es: seq<Entry>, o: Oracle, w: World, h: nat): Round {
    RunTimeouts(TakeAnswer(es, o, w, h), o, h)
  }

  // ---- The message waited for ----------------------------------------------------------------

  /** An arrival of type `t` that answers message `id`. */
  predicate IsAnswer(a: Action, t: CoapType, id: MessageId) {
    a.Arrived? && |a.taken| >= 4 && TypeOf(a.taken) == t && HeaderId(a.taken) == id
  }

  predicate AnsweredBy(log: seq<Action>, t: CoapType, id: MessageId) {
    exists i :: 0 <= i < |log| && IsAnswer(log[i], t, id)
  }

  predicate GaveUp(log: seq<Action>, h: nat) {
    Notify(h, NotDelivered) in log
  }

  /** Message `id` is stored, waits until true time `deadline`, and is the only one reporting to `h`. */
  ghost predicate Pending(es: seq<Entry>, id: MessageId, h: nat, deadline: nat, now: nat) {
    && DistinctIds(es)
    && Find(es, id).Some?
    && (var e := Find(es, id).value;
        && TypeOf(e.data) == CON && 1 <= e.count <= MAX_RETRANSMIT + 1
        && e.handler == Some(h)
        && e.timeout == ToTick(deadline) && now < deadline <= now + 48000)
    && forall x :: x in es && x.handler == Some(h) ==> x.id == id
  }

  /** No message has this id and none reports to `h`. */
  ghost predicate Quiet(es: seq<Entry>, id: MessageId, h: nat) {
    DistinctIds(es) && !Has(es, id) && forall x :: x in es ==> x.handler != Some(h)
  }

  function TransmissionsLeft(es: seq<Entry>, id: MessageId): nat {
    match Find(es, id)
    case Some(e) => if e.count <= MAX_RETRANSMIT + 1 then MAX_RETRANSMIT + 1 - e.count else 0
    case None => 0
  }

  lemma {:induction false} FlaggedUntouched(error: ProtocolError, told: seq<Action>, h: nat)
    requires forall d :: Notify(h, d) !in told
    ensures Flagged(error, told, h) == error
  {
    if told == [] {
    } else {
      var n := |told| - 1;
      assert told[n] in told && forall a :: a in told[..n] ==> a in told;
      FlaggedUntouched(error, told[..n], h);
    }
  }

  lemma {:induction false} FlaggedTimeout(error: ProtocolError, told: seq<Action>, h: nat)
    requires Notify(h, NotDelivered) in told && Notify(h, DeliveredNack) !in told
    ensures Flagged(error, told, h) == MessageTimeout
  {
    var n := |told| - 1;
    assert told[n] in told && forall a :: a in told[..n] ==> a in told;
    assert forall a :: a in told ==> a in told[..n] || a == told[n];
    if told[n] == Notify(h, NotDelivered) {
    } else {
      FlaggedTimeout(error, told[..n], h);
    }
  }

  lemma {:induction false} PassTakesNothing(es: seq<Entry>, now: Tick)
    ensures forall a :: a in AllActions(es, now) ==> !a.Arrived?
  {
    if es == [] {
    } else {
      PassTakesNothing(es[1..], now);
    }
  }

  /** A time-out pass over a pending message: it waits on, or is re-armed with one transmission
      fewer left, or is given up and its sender told so. */
  lemma PendingPass(es: seq<Entry>, o: Oracle, w: World, id: MessageId, h: nat, deadline: nat, last: nat, now: nat)
    returns (next: nat)
    requires Pending(es, id, h, deadline, last) && last < now < last + HALF_RANGE
    ensures var s := Process(es, ToTick(now), o, w);
            Has(s.entries, id) ==>
              && Pending(s.entries, id, h, next, now)
              && (forall d :: Notify(h, d) !in AllActions(es, ToTick(now)))
              && (TransmissionsLeft(s.entries, id) < TransmissionsLeft(es, id)
                  || (TransmissionsLeft(s.entries, id) == TransmissionsLeft(es, id) && next == deadline))
    ensures var s := Process(es, ToTick(now), o, w);
            !Has(s.entries, id) ==>
              && Quiet(s.entries, id, h)
              && Notify(h, NotDelivered) in AllActions(es, ToTick(now))
              && Notify(h, DeliveredNack) !in AllActions(es, ToTick(now))
  {
    var tick := ToTick(now);
    var e := Find(es, id).value;
    var s := Process(es, tick, o, w);
    HasIffFound(es, id);
    HasIffFound(s.entries, id);
    ProcessFind(es, tick, o, w, id);
    ProcessSettles(es, tick, o, w);
    ReportersSurvive(es, tick, o, w, h, id);
    ReporterTold(es, e, tick, h, id);
    TimeHasPassedIsTrueOrder(now, deadline);
    if Resends(e, tick) {
      var r := Find(s.entries, id).value;
      var draw: byte :| r == e.(timeout := AddTick(tick, TransmitTimeout(e.count, draw)), count := e.count + 1);
      next := NextDeadline(now, e.count, draw);
    } else {
      next := deadline;
    }
  }

  lemma NextDeadline(now: nat, count: nat, draw: byte) returns (next: nat)
    requires count <= MAX_RETRANSMIT
    ensures AddTick(ToTick(now), TransmitTimeout(count, draw)) == ToTick(next) && now < next <= now + 48000
  {
    WaitInRange(count, draw);
    AddTickOfTrueTime(now, TransmitTimeout(count, draw));
    next := now + TransmitTimeout(count, draw);
  }

  /** The callback hears of a pass exactly when the one message reporting to it expires. */
  lemma ReporterTold(es: seq<Entry>, e: Entry, tick: Tick, h: nat, id: MessageId)
    requires DistinctIds(es) && e in es && e.handler == Some(h) && e.id == id
    requires forall x :: x in es && x.handler == Some(h) ==> x.id == id
    ensures forall d :: Notify(h, d) in AllActions(es, tick) <==> d == NotDelivered && Expires(e, tick)
  {
    OnlyReporter(es, e, h, id);
    forall d ensures Notify(h, d) in AllActions(es, tick) <==> d == NotDelivered && Expires(e, tick) {
      NotifiedIffExpired(es, tick, h, d);
    }
  }

  lemma ReportersSurvive(es: seq<Entry>, now: Tick, o: Oracle, w: World, h: nat, id: MessageId)
    requires forall x :: x in es && x.handler == Some(h) ==> x.id == id
    ensures forall x :: x in Process(es, now, o, w).entries && x.handler == Some(h) ==> x.id == id
  {
    HandlersSurvive(es, now, o, w);
  }

  lemma OnlyReporter(es: seq<Entry>, e: Entry, h: nat, id: MessageId)
    requires DistinctIds(es) && e in es && e.handler == Some(h) && e.id == id
    requires forall x :: x in es && x.handler == Some(h) ==> x.id == id
    ensures forall i :: 0 <= i < |es| && es[i].handler == Some(h) ==> es[i] == e
  {
    forall i | 0 <= i < |es| && es[i].handler == Some(h) ensures es[i] == e {
      assert es[i] in es;
      FindUnique(es, es[i]);
      FindUnique(es, e);
    }
  }

  /** Every survivor of a pass keeps its id, data and handler. */
  lemma HandlersSurvive(es: seq<Entry>, now: Tick, o: Oracle, w: World)
    ensures forall r :: r in Process(es, now, o, w).entries ==>
              exists e :: e in es && e.id == r.id && e.handler == r.handler && e.data == r.data
  {
    var rs := Process(es, now, o, w).entries;
    var at := ProcessPass(es, now, o, w);
    forall r | r in rs ensures exists e :: e in es && e.id == r.id && e.handler == r.handler && e.data == r.data {
      var k :| 0 <= k < |rs| && rs[k] == r;
      assert es[at[k]] in es;
    }
  }

  /** An answer for the pending message removes it, and a reset tells its sender; any other answer
      leaves it pending and its sender undisturbed. */
  lemma PendingAnswer(es: seq<Entry>, data: seq<byte>, now: Tick, o: Oracle, w: World,
                      id: MessageId, h: nat, deadline: nat, last: nat)
    requires Pending(es, id, h, deadline, last) && |data| >= 4 && IsAckOrReset(data)
    ensures var r := StoreReceive(es, data, HeaderId(data), now, o, w);
            && r.error == NoError && w.log <= r.world.log
            && r.world.readings == w.readings && r.world.taken == w.taken
            && var told := r.world.log[|w.log|..];
               && (forall a :: a in told ==> !a.Arrived?)
               && if HeaderId(data) == id then
                    && Quiet(r.entries, id, h)
                    && told == if TypeOf(data) == RESET then [Notify(h, DeliveredNack), Issue(DiscardSession)] else []
                  else
                    && Pending(r.entries, id, h, deadline, last)
                    && TransmissionsLeft(r.entries, id) == TransmissionsLeft(es, id)
                    && forall d :: Notify(h, d) !in told
  {
    var mid := HeaderId(data);
    AnswerReceived(es, data, now, o, w);
    HasIffFound(es, mid);
    HasIffFound(es, id);
    WithoutKeeps(es, mid);
    FindMeansMember(es, mid);
    if mid != id {
      FindElsewhere(es, mid, id);
    }
  }

  lemma FindMeansMember(es: seq<Entry>, mid: MessageId)
    ensures Find(es, mid).Some? ==> Find(es, mid).value in es && Find(es, mid).value.id == mid
  {
    HasIffFound(es, mid);
  }

  /** What `receive` does with an acknowledgement or a reset. */
  lemma AnswerReceived(es: seq<Entry>, data: seq<byte>, now: Tick, o: Oracle, w: World)
    requires |data| >= 4 && IsAckOrReset(data)
    ensures var r := StoreReceive(es, data, HeaderId(data), now, o, w);
            var f := Find(es, HeaderId(data));
            && r.error == NoError && r.world.readings == w.readings && r.world.taken == w.taken
            && (Has(es, HeaderId(data)) ==> r.entries == Without(es, HeaderId(data)))
            && (!Has(es, HeaderId(data)) ==> r.entries == es)
            && w.log <= r.world.log
            && Told(w, r.world) ==
               if TypeOf(data) != RESET then []
               else if f.Some? && f.value.handler.Some?
               then [Notify(f.value.handler.value, DeliveredNack), Issue(DiscardSession)]
               else [Issue(DiscardSession)]
  {
  }

  // ---- A whole round -------------------------------------------------------------------------

  /** Nothing in `log` has decided the fate of message `id`. */
  predicate Undecided(log: seq<Action>, id: MessageId, h: nat) {
    !AnsweredBy(log, ACK, id) && !AnsweredBy(log, RESET, id) && !GaveUp(log, h)
  }

  /** The fate of message `id` has been decided once, and `error` says how. */
  predicate Decided(log: seq<Action>, id: MessageId, h: nat, error: ProtocolError) {
    || (AnsweredBy(log, ACK, id) && !AnsweredBy(log, RESET, id) && !GaveUp(log, h) && error == NoError)
    || (AnsweredBy(log, RESET, id) && !AnsweredBy(log, ACK, id) && !GaveUp(log, h) && error == MessageReset)
    || (GaveUp(log, h) && !AnsweredBy(log, ACK, id) && !AnsweredBy(log, RESET, id) && error == MessageTimeout)
  }

  /** Either the message is still pending and nothing has happened to it, or it is gone, its
      callback with it, and the error tells its fate. */
  ghost predicate Phase(r: Round, start: World, id: MessageId, h: nat, deadline: nat, last: nat) {
    && start.log <= r.world.log
    && if Has(r.entries, id) then
         Pending(r.entries, id, h, deadline, last) && Undecided(Told(start, r.world), id, h)
       else
         Quiet(r.entries, id, h) && Decided(Told(start, r.world), id, h, r.error)
  }

  lemma AnsweredInEither(a: seq<Action>, b: seq<Action>, t: CoapType, id: MessageId)
    ensures AnsweredBy(a + b, t, id) <==> AnsweredBy(a, t, id) || AnsweredBy(b, t, id)
  {
    if i :| 0 <= i < |a| && IsAnswer(a[i], t, id) {
      assert IsAnswer((a + b)[i], t, id);
    }
    if i :| 0 <= i < |b| && IsAnswer(b[i], t, id) {
      assert IsAnswer((a + b)[|a| + i], t, id);
    }
  }

  lemma NoAnswerAmong(log: seq<Action>, t: CoapType, id: MessageId)
    requires forall a :: a in log ==> !a.Arrived?
    ensures !AnsweredBy(log, t, id)
  {
    assert forall i :: 0 <= i < |log| ==> log[i] in log;
  }

  lemma ToldInSteps(w0: World, w1: World, w2: World)
    requires w0.log <= w1.log <= w2.log
    ensures Told(w0, w2) == Told(w0, w1) + Told(w1, w2)
  {
  }

  /** Log entries that are no arrivals and do not concern the callback decide nothing. */
  lemma Uneventful(before: seq<Action>, more: seq<Action>, id: MessageId, h: nat, error: ProtocolError)
    requires forall a :: a in more ==> !a.Arrived?
    requires Notify(h, NotDelivered) !in more
    ensures Undecided(before + more, id, h) == Undecided(before, id, h)
    ensures Decided(before + more, id, h, error) == Decided(before, id, h, error)
  {
    AnsweredInEither(before, more, ACK, id);
    AnsweredInEither(before, more, RESET, id);
    NoAnswerAmong(more, ACK, id);
    NoAnswerAmong(more, RESET, id);
  }

  lemma TimeoutsKeepPhase(r: Round, o: Oracle, start: World, id: MessageId, h: nat, deadline: nat, last: nat)
    returns (next: nat)
    requires Phase(r, start, id, h, deadline, last)
    requires last < o.clock(r.world.readings) < last + HALF_RANGE
    ensures var r' := RunTimeouts(r, o, h);
            && Phase(r', start, id, h, next, o.clock(r.world.readings))
            && (Has(r'.entries, id) ==>
                  && Has(r.entries, id) && r'.error == r.error
                  && (TransmissionsLeft(r'.entries, id) < TransmissionsLeft(r.entries, id)
                      || (TransmissionsLeft(r'.entries, id) == TransmissionsLeft(r.entries, id) && next == deadline)))
    ensures var w' := RunTimeouts(r, o, h).world;
            w'.readings == r.world.readings + 1 && w'.taken == r.world.taken
  {
    if Has(r.entries, id) {
      next := PendingTimeouts(r, o, start, id, h, deadline, last);
    } else {
      next := deadline;
      QuietTimeouts(r, o, start, id, h, deadline, last);
    }
  }

  /** What a pass adds to the log, and how the callback turns it into the error. */
  lemma TimeoutsUnfold(r: Round, o: Oracle, start: World, h: nat)
    requires start.log <= r.world.log
    ensures var now := ToTick(o.clock(r.world.readings));
            var s := Process(r.entries, now, o, r.world.(readings := r.world.readings + 1));
            && RunTimeouts(r, o, h) == Round(s.entries, s.world, Flagged(r.error, AllActions(r.entries, now), h))
            && start.log <= s.world.log
            && Told(start, s.world) == Told(start, r.world) + AllActions(r.entries, now)
            && s.world.readings == r.world.readings + 1 && s.world.taken == r.world.taken
  {
    var now := ToTick(o.clock(r.world.readings));
    var w := r.world.(readings := r.world.readings + 1);
    ProcessLog(r.entries, now, o, w);
    ToldOfAppended(start, w, Process(r.entries, now, o, w).world, AllActions(r.entries, now));
  }

  lemma ToldOfAppended(start: World, w: World, w': World, more: seq<Action>)
    requires start.log <= w.log && w'.log == w.log + more
    ensures start.log <= w'.log && Told(w, w') == more && Told(start, w') == Told(start, w) + more
  {
  }

  lemma PendingTimeouts(r: Round, o: Oracle, start: World, id: MessageId, h: nat, deadline: nat, last: nat)
    returns (next: nat)
    requires Phase(r, start, id, h, deadline, last) && Has(r.entries, id)
    requires last < o.clock(r.world.readings) < last + HALF_RANGE
    ensures var r' := RunTimeouts(r, o, h);
            && Phase(r', start, id, h, next, o.clock(r.world.readings))
            && r'.world.readings == r.world.readings + 1 && r'.world.taken == r.world.taken
            && (Has(r'.entries, id) ==>
                  && r'.error == r.error
                  && (TransmissionsLeft(r'.entries, id) < TransmissionsLeft(r.entries, id)
                      || (TransmissionsLeft(r'.entries, id) == TransmissionsLeft(r.entries, id) && next == deadline)))
  {
    var now := o.clock(r.world.readings);
    var w := r.world.(readings := r.world.readings + 1);
    TimeoutsUnfold(r, o, start, h);
    PassTakesNothing(r.entries, ToTick(now));
    next := PendingPass(r.entries, o, w, id, h, deadline, last, now);
    PassDecides(Told(start, r.world), AllActions(r.entries, ToTick(now)), id, h, r.error,
                Has(Process(r.entries, ToTick(now), o, w).entries, id));
  }

  lemma QuietTimeouts(r: Round, o: Oracle, start: World, id: MessageId, h: nat, deadline: nat, last: nat)
    requires Phase(r, start, id, h, deadline, last) && !Has(r.entries, id)
    ensures var r' := RunTimeouts(r, o, h);
            && Phase(r', start, id, h, deadline, last) && !Has(r'.entries, id)
            && r'.world.readings == r.world.readings + 1 && r'.world.taken == r.world.taken
  {
    var now := ToTick(o.clock(r.world.readings));
    var more := AllActions(r.entries, now);
    TimeoutsUnfold(r, o, start, h);
    PassTakesNothing(r.entries, now);
    QuietPass(r.entries, now, o, r.world.(readings := r.world.readings + 1), id, h);
    FlaggedUntouched(r.error, more, h);
    Uneventful(Told(start, r.world), more, id, h, r.error);
  }

  lemma PassDecides(before: seq<Action>, more: seq<Action>, id: MessageId, h: nat, error: ProtocolError, still: bool)
    requires Undecided(before, id, h) && forall a :: a in more ==> !a.Arrived?
    requires if still then forall d :: Notify(h, d) !in more
             else Notify(h, NotDelivered) in more && Notify(h, DeliveredNack) !in more
    ensures if still then Flagged(error, more, h) == error && Undecided(before + more, id, h)
            else Decided(before + more, id, h, Flagged(error, more, h))
  {
    if still {
      FlaggedUntouched(error, more, h);
      Uneventful(before, more, id, h, error);
    } else {
      FlaggedTimeout(error, more, h);
      TimeoutDecides(before, more, id, h);
    }
  }

  lemma TimeoutDecides(before: seq<Action>, more: seq<Action>, id: MessageId, h: nat)
    requires Undecided(before, id, h) && Notify(h, NotDelivered) in more
    requires forall a :: a in more ==> !a.Arrived?
    ensures Decided(before + more, id, h, MessageTimeout)
  {
    AnsweredInEither(before, more, ACK, id);
    AnsweredInEither(before, more, RESET, id);
    NoAnswerAmong(more, ACK, id);
    NoAnswerAmong(more, RESET, id);
  }

  lemma QuietPass(es: seq<Entry>, now: Tick, o: Oracle, w: World, id: MessageId, h: nat)
    requires Quiet(es, id, h)
    ensures Quiet(Process(es, now, o, w).entries, id, h)
    ensures forall d :: Notify(h, d) !in AllActions(es, now)
  {
    HasIffFound(es, id);
    HasIffFound(Process(es, now, o, w).entries, id);
    ProcessFind(es, now, o, w, id);
    ProcessSettles(es, now, o, w);
    HandlersSurvive(es, now, o, w);
    forall d ensures Notify(h, d) !in AllActions(es, now) {
      NotifiedIffExpired(es, now, h, d);
    }
  }

  /** What the arrival alone adds to the log. */
  lemma ArrivalDecides(before: seq<Action>, data: seq<byte>, told: seq<Action>, id: MessageId, h: nat)
    requires Undecided(before, id, h) && |data| >= 4 && IsAckOrReset(data)
    requires (forall a :: a in told ==> !a.Arrived?) && Notify(h, NotDelivered) !in told
    ensures var log := before + [Arrived(data)] + told;
            if HeaderId(data) == id
            then Decided(log, id, h, if TypeOf(data) == RESET then MessageReset else NoError)
            else Undecided(log, id, h)
  {
    var arrival := [Arrived(data)];
    AnsweredInEither(before, arrival, ACK, id);
    AnsweredInEither(before, arrival, RESET, id);
    assert AnsweredBy(arrival, ACK, id) <==> IsAnswer(arrival[0], ACK, id);
    assert AnsweredBy(arrival, RESET, id) <==> IsAnswer(arrival[0], RESET, id);
    Uneventful(before + arrival, told, id, h, NoError);
    Uneventful(before + arrival, told, id, h, MessageReset);
  }

  lemma TakeKeepsPhase(es: seq<Entry>, o: Oracle, start: World, w: World, id: MessageId, h: nat, deadline: nat, last: nat)
    requires Pending(es, id, h, deadline, last)
    requires start.log <= w.log && Undecided(Told(start, w), id, h)
    ensures var r := TakeAnswer(es, o, w, h);
            && Phase(r, start, id, h, deadline, last)
            && (Has(r.entries, id) ==>
                  && TransmissionsLeft(r.entries, id) == TransmissionsLeft(es, id)
                  && r.error == o.arrival(w.taken).error)
            && w.readings <= r.world.readings <= w.readings + 1 && r.world.taken == w.taken + 1
  {
    var a := o.arrival(w.taken);
    var w1 := ReceivedFrom(o, w);
    HasIffFound(es, id);
    if a.error == NoError {
      var sofar := Told(start, w);
      assert Told(start, w1) == sofar + [Arrived(a.data)];
      if |a.data| >= 4 && IsAckOrReset(a.data) {
        AnswerKeepsPhase(es, a.data, o, start, w, id, h, deadline, last);
      } else {
        AnsweredInEither(sofar, [Arrived(a.data)], ACK, id);
        AnsweredInEither(sofar, [Arrived(a.data)], RESET, id);
        assert !IsAnswer(Arrived(a.data), ACK, id) && !IsAnswer(Arrived(a.data), RESET, id);
      }
    }
  }

  lemma AnswerKeepsPhase(es: seq<Entry>, data: seq<byte>, o: Oracle, start: World, w: World,
                         id: MessageId, h: nat, deadline: nat, last: nat)
    requires Pending(es, id, h, deadline, last) && |data| >= 4 && IsAckOrReset(data)
    requires start.log <= w.log && Undecided(Told(start, w), id, h)
    requires o.arrival(w.taken) == Arrival(NoError, data)
    ensures var r := TakeAnswer(es, o, w, h);
            && Phase(r, start, id, h, deadline, last)
            && (Has(r.entries, id) ==>
                  TransmissionsLeft(r.entries, id) == TransmissionsLeft(es, id) && r.error == NoError)
            && r.world.readings == w.readings + 1 && r.world.taken == w.taken + 1
  {
    hide StoreReceive, Phase, Undecided, Flagged, Quiet;
    var w2 := ReceivedFrom(o, w).(readings := w.readings + 1);
    var now := ToTick(o.clock(w.readings));
    var r := StoreReceive(es, data, HeaderId(data), now, o, w2);
    PendingAnswer(es, data, now, o, w2, id, h, deadline, last);
    AnswerFlag(data, Told(w2, r.world), id, h);
    HasIffFound(r.entries, id);
    HeardKeepsPhase(r.entries, data, start, w, w2, r.world, id, h, deadline, last);
  }

  lemma HeardKeepsPhase(rest: seq<Entry>, data: seq<byte>, start: World, w: World, w2: World, w3: World,
                        id: MessageId, h: nat, deadline: nat, last: nat)
    requires |data| >= 4 && IsAckOrReset(data)
    requires start.log <= w.log && Undecided(Told(start, w), id, h)
    requires w2.log == w.log + [Arrived(data)] && w2.log <= w3.log
    requires (forall a :: a in Told(w2, w3) ==> !a.Arrived?) && Notify(h, NotDelivered) !in Told(w2, w3)
    requires if HeaderId(data) == id then Quiet(rest, id, h) else Pending(rest, id, h, deadline, last) && Has(rest, id)
    ensures var error := if HeaderId(data) == id && TypeOf(data) == RESET then MessageReset else NoError;
            Phase(Round(rest, w3, error), start, id, h, deadline, last)
  {
    AnswerLog(data, start, w, w2, w3);
    ArrivalDecides(Told(start, w), data, Told(w2, w3), id, h);
  }

  lemma AnswerLog(data: seq<byte>, start: World, w: World, w2: World, w3: World)
    requires start.log <= w.log && w2.log == w.log + [Arrived(data)] && w2.log <= w3.log
    ensures start.log <= w3.log && Told(start, w3) == Told(start, w) + [Arrived(data)] + Told(w2, w3)
  {
    ToldInSteps(start, w, w2);
    ToldInSteps(start, w2, w3);
    assert Told(w, w2) == [Arrived(data)];
  }

  lemma AnswerFlag(data: seq<byte>, told: seq<Action>, id: MessageId, h: nat)
    requires |data| >= 4
    requires HeaderId(data) == id ==>
               told == if TypeOf(data) == RESET then [Notify(h, DeliveredNack), Issue(DiscardSession)] else []
    requires HeaderId(data) != id ==> forall d :: Notify(h, d) !in told
    ensures Flagged(NoError, told, h)
            == if HeaderId(data) == id && TypeOf(data) == RESET then MessageReset else NoError
  {
    if HeaderId(data) != id {
      FlaggedUntouched(NoError, told, h);
    } else if TypeOf(data) == RESET {
      assert told[..1] == [Notify(h, DeliveredNack)] && told[..1][..0] == [];
    }
  }

  // ---- Before and after the loop -------------------------------------------------------------

  /** Storing the message and sending it for the first time. */
  function SyncStart(es: seq<Entry>, data: seq<byte>, id: int, o: Oracle, w: World): Sent {
    var s := StoreSend(es, data, id, ToTick(o.clock(w.readings)), o, w.(readings := w.readings + 1));
    if s.error != NoError then s
    else Sent(s.entries, s.world.Sending(data), o.sendError(s.world.sent))
  }

  /** The store with a callback set on message `id`. */
  function WithHandler(es: seq<Entry>, id: MessageId, h: nat): seq<Entry> {
    if es == [] then []
    else if es[0].id == id then [es[0].(handler := Some(h))] + es[1..]
    else [es[0]] + WithHandler(es[1..], id, h)
  }

  lemma {:induction false} WithHandlerAt(es: seq<Entry>, id: MessageId, h: nat)
    requires DistinctIds(es)
    ensures var r := WithHandler(es, id, h);
            && |r| == |es|
            && forall i :: 0 <= i < |es| ==> r[i] == if es[i].id == id then es[i].(handler := Some(h)) else es[i]
  {
    if es == [] || es[0].id == id {
    } else {
      WithHandlerAt(es[1..], id, h);
      assert forall i :: 0 < i < |es| ==> es[i] == es[1..][i - 1];
    }
  }

  lemma WithHandlerFound(es: seq<Entry>, id: MessageId, h: nat, at: nat)
    requires DistinctIds(es) && at < |es| && es[at].id == id
    ensures WithHandler(es, id, h) == es[at := es[at].(handler := Some(h))]
  {
    WithHandlerAt(es, id, h);
  }

  lemma WithHandlerMissing(es: seq<Entry>, id: MessageId, h: nat)
    requires DistinctIds(es) && !Has(es, id)
    ensures WithHandler(es, id, h) == es
  {
    WithHandlerAt(es, id, h);
    assert forall i :: 0 <= i < |es| ==> es[i].id != id;
  }

  /** A confirmable message just stored and given the callback is pending. */
  lemma StartedIsPending(es: seq<Entry>, data: seq<byte>, id: int, o: Oracle, w: World, h: nat)
    returns (deadline: nat)
    requires DistinctIds(es) && forall x :: x in es ==> x.handler != Some(h)
    requires TypeOf(data) == CON && SyncStart(es, data, id, o, w).error == NoError
    ensures id >= 0 && Has(SyncStart(es, data, id, o, w).entries, NarrowId(id))
    ensures var watched := WithHandler(SyncStart(es, data, id, o, w).entries, NarrowId(id), h);
            Pending(watched, NarrowId(id), h, deadline, o.clock(w.readings))
  {
    var mid, now := NarrowId(id), o.clock(w.readings);
    var wait := TransmitTimeout(0, o.draw(w.drawn));
    var e := Entry(mid, AddTick(ToTick(now), wait), 1, None, data);
    var stored := SyncStart(es, data, id, o, w).entries;
    assert stored == Put(es, e);
    PutKeeps(es, e);
    HasIffFound(stored, mid);
    WaitInRange(0, o.draw(w.drawn));
    AddTickOfTrueTime(now, wait);
    deadline := now + wait;
    WatchedIsPending(stored, mid, h, deadline, now);
  }

  lemma WatchedIsPending(stored: seq<Entry>, id: MessageId, h: nat, deadline: nat, now: nat)
    requires DistinctIds(stored) && stored != [] && stored[0].id == id
    requires TypeOf(stored[0].data) == CON && stored[0].count == 1
    requires stored[0].timeout == ToTick(deadline) && now < deadline <= now + 48000
    requires forall x :: x in stored ==> x.handler != Some(h)
    ensures Pending(WithHandler(stored, id, h), id, h, deadline, now)
  {
    WithHandlerAt(stored, id, h);
    var watched := WithHandler(stored, id, h);
    forall x | x in watched && x.handler == Some(h) ensures x.id == id {
      var i :| 0 <= i < |watched| && watched[i] == x;
      assert stored[i] in stored;
    }
  }

  lemma NoneStoredReports(es: seq<Entry>, data: seq<byte>, id: int, o: Oracle, w: World, h: nat)
    requires DistinctIds(es) && forall x :: x in es ==> x.handler != Some(h)
    ensures var s := SyncStart(es, data, id, o, w);
            && DistinctIds(s.entries)
            && (forall x :: x in s.entries ==> x.handler != Some(h))
            && w.log <= s.world.log && s.world.readings == w.readings + 1
            && (ClientOk(es) && IsRequest(data) ==> ClientOk(s.entries))
            && Balance(s.entries, s.world) == Balance(es, w)
  {
    var w1 := w.(readings := w.readings + 1);
    StoreSendKeeps(es, data, id, ToTick(o.clock(w.readings)), o, w1);
    if id >= 0 && (TypeOf(data) == CON || IsAckOrReset(data)) && o.room(w1.allocations) {
      var s := SyncStart(es, data, id, o, w);
      var e := s.entries[0];
      PutKeeps(es, e);
    }
  }

  lemma RoundKeeps(es: seq<Entry>, o: Oracle, w: World, h: nat)
    requires DistinctIds(es)
    ensures var r := SyncRound(es, o, w, h);
            && (ClientOk(es) ==> ClientOk(r.entries))
            && Balance(r.entries, r.world) == Balance(es, w)
  {
    hide TakeAnswer, Process, ClientOk;
    var t := TakeAnswer(es, o, w, h);
    TakeKeeps(es, o, w, h);
    ProcessKeeps(t.entries, ToTick(o.clock(t.world.readings)), o, t.world.(readings := t.world.readings + 1));
  }

  lemma TakeKeeps(es: seq<Entry>, o: Oracle, w: World, h: nat)
    requires DistinctIds(es)
    ensures var r := TakeAnswer(es, o, w, h);
            && (ClientOk(es) ==> ClientOk(r.entries))
            && Balance(r.entries, r.world) == Balance(es, w)
  {
    var a := o.arrival(w.taken);
    if a.error == NoError && |a.data| >= 4 && IsAckOrReset(a.data) {
      var w1 := ReceivedFrom(o, w);
      StoreReceiveKeeps(es, a.data, HeaderId(a.data), ToTick(o.clock(w1.readings)), o, w1.(readings := w1.readings + 1));
    }
  }

  /** A round either settles the fate of the message or leaves it pending, closer to its end. */
  lemma RoundKeepsPhase(es: seq<Entry>, o: Oracle, start: World, w: World, id: MessageId, h: nat, deadline: nat)
    returns (next: nat)
    requires Advancing(o) && w.readings > 0
    requires Pending(es, id, h, deadline, o.clock(w.readings - 1))
    requires start.log <= w.log && Undecided(Told(start, w), id, h)
    ensures var r := SyncRound(es, o, w, h);
            && w.readings < r.world.readings && r.world.taken == w.taken + 1
            && Phase(r, start, id, h, next, o.clock(r.world.readings - 1))
            && (Has(r.entries, id) ==>
                  && r.error == o.arrival(w.taken).error
                  && (TransmissionsLeft(r.entries, id) < TransmissionsLeft(es, id)
                      || (TransmissionsLeft(r.entries, id) == TransmissionsLeft(es, id)
                          && next == deadline && o.clock(w.readings - 1) < o.clock(r.world.readings - 1))))
  {
    var last := o.clock(w.readings - 1);
    var taken := TakeAnswer(es, o, w, h);
    TakeKeepsPhase(es, o, start, w, id, h, deadline, last);
    ClockAdvances(o, w.readings - 1, taken.world.readings - w.readings + 1);
    next := TimeoutsKeepPhase(taken, o, start, id, h, deadline, last);
  }

  /** How waiting for message `id` ended: its fate is decided, or the channel failed first. */
  ghost predicate Outcome(start: World, end: World, o: Oracle, id: MessageId, h: nat, error: ProtocolError) {
    || Decided(Told(start, end), id, h, error)
    || (Undecided(Told(start, end), id, h) && error != NoError
        && exists k :: start.taken <= k < end.taken && o.arrival(k).error == error)
  }

  /** The state in which the loop is left. */
  ghost predicate Awaited(r: Round, start: World, o: Oracle, id: MessageId, h: nat) {
    && DistinctIds(r.entries) && start.log <= r.world.log && start.readings < r.world.readings
    && (forall x :: x in r.entries && x.handler == Some(h) ==> x.id == id)
    && Outcome(start, r.world, o, id, h, r.error)
  }

  /** What the loop keeps, round after round. */
  ghost predicate Waits(r: Round, start: World, o: Oracle, id: MessageId, h: nat, deadline: nat) {
    && r.world.readings > 0 && start.readings <= r.world.readings && start.taken <= r.world.taken
    && Phase(r, start, id, h, deadline, o.clock(r.world.readings - 1))
    && ((Has(r.entries, id) && r.error == NoError) || Awaited(r, start, o, id, h))
  }

  /** The loop's measure: transmissions left, then time to the deadline. */
  ghost function Left(r: Round, id: MessageId): nat {
    if Has(r.entries, id) then TransmissionsLeft(r.entries, id) + 1 else 0
  }

  ghost function TimeLeft(r: Round, o: Oracle, id: MessageId, deadline: nat): nat {
    if Has(r.entries, id) && r.world.readings > 0 && o.clock(r.world.readings - 1) <= deadline
    then deadline - o.clock(r.world.readings - 1) else 0
  }

  lemma BeginsWaiting(es: seq<Entry>, start: World, o: Oracle, id: MessageId, h: nat, deadline: nat)
    requires start.readings > 0 && Pending(es, id, h, deadline, o.clock(start.readings - 1))
    ensures Waits(Round(es, start, NoError), start, o, id, h, deadline)
  {
    HasIffFound(es, id);
    assert Told(start, start) == [];
  }

  lemma RoundKeepsWaiting(r: Round, start: World, o: Oracle, id: MessageId, h: nat, deadline: nat) returns (next: nat)
    requires Advancing(o) && Waits(r, start, o, id, h, deadline) && Has(r.entries, id) && r.error == NoError
    ensures var r' := SyncRound(r.entries, o, r.world, h);
            && Waits(r', start, o, id, h, next)
            && (Left(r', id) < Left(r, id)
                || (Left(r', id) == Left(r, id) && TimeLeft(r', o, id, next) < TimeLeft(r, o, id, deadline)))
            && (ClientOk(r.entries) ==> ClientOk(r'.entries))
            && Balance(r'.entries, r'.world) == Balance(r.entries, r.world)
  {
    hide SyncRound, Undecided, Decided, ClientOk, Balance;
    next := RoundKeepsPhase(r.entries, o, start, r.world, id, h, deadline);
    RoundKeeps(r.entries, o, r.world, h);
    var r' := SyncRound(r.entries, o, r.world, h);
    if Has(r'.entries, id) && r'.error != NoError {
      assert o.arrival(r.world.taken).error == r'.error;
    }
  }

  lemma HandlerKeeps(es: seq<Entry>, id: MessageId, h: nat, w: World)
    requires DistinctIds(es)
    ensures ClientOk(es) ==> ClientOk(WithHandler(es, id, h))
    ensures Balance(WithHandler(es, id, h), w) == Balance(es, w)
  {
    WithHandlerAt(es, id, h);
    var r := WithHandler(es, id, h);
    forall e | e in r && ClientOk(es) ensures TypeOf(e.data) == CON && 1 <= e.count <= MAX_RETRANSMIT + 1 {
      var i :| 0 <= i < |r| && r[i] == e;
      assert es[i] in es;
    }
  }

  /** The state after the message was stored and first sent, with the callback set. */
  lemma SyncBegins(es: seq<Entry>, data: seq<byte>, id: int, o: Oracle, w: World, h: nat) returns (deadline: nat)
    requires DistinctIds(es) && forall x :: x in es ==> x.handler != Some(h)
    ensures var s := SyncStart(es, data, id, o, w);
            && DistinctIds(s.entries) && (forall x :: x in s.entries ==> x.handler != Some(h))
            && w.log <= s.world.log && s.world.readings == w.readings + 1
            && (ClientOk(es) && IsRequest(data) ==> ClientOk(s.entries))
            && Balance(s.entries, s.world) == Balance(es, w)
    ensures var s := SyncStart(es, data, id, o, w);
            var watched := WithHandler(s.entries, NarrowId(id), h);
            TypeOf(data) == CON && s.error == NoError ==>
              && Pending(watched, NarrowId(id), h, deadline, o.clock(w.readings))
              && (ClientOk(es) ==> ClientOk(watched))
              && Balance(watched, s.world) == Balance(es, w)
  {
    NoneStoredReports(es, data, id, o, w, h);
    var s := SyncStart(es, data, id, o, w);
    if TypeOf(data) == CON && s.error == NoError {
      deadline := StartedIsPending(es, data, id, o, w, h);
      HandlerKeeps(s.entries, NarrowId(id), h, s.world);
    } else {
      deadline := 0;
    }
  }

  lemma ClearingKeeps(es: seq<Entry>, id: MessageId, h: nat, w: World)
    requires DistinctIds(es) && forall x :: x in es && x.handler == Some(h) ==> x.id == id
    ensures var r := Without(es, id);
            && Quiet(r, id, h)
            && (ClientOk(es) ==> ClientOk(r))
            && Balance(r, if Has(es, id) then w.Deleted() else w) == Balance(es, w)
  {
    WithoutKeeps(es, id);
    WithoutBalances(es, id, w);
  }

  /** Clearing the message leaves its fate and the error as they are. */
  lemma ClearingDecides(r: Round, start: World, o: Oracle, id: MessageId, h: nat)
    requires Awaited(r, start, o, id, h)
    ensures Quiet(Without(r.entries, id), id, h)
    ensures Outcome(start, r.world.Deleted(), o, id, h, r.error)
  {
    WithoutKeeps(r.entries, id);
    assert Told(start, r.world.Deleted()) == Told(start, r.world);
  }

  /** The next `n` clock readings are later, by less than 2^30 each. */
  lemma ClockAdvances(o: Oracle, i: nat, n: nat)
    requires Advancing(o) && 1 <= n <= 2
    ensures o.clock(i) < o.clock(i + n) < o.clock(i) + HALF_RANGE
  {
    var a, b := o.clock(i), o.clock(i + 1);
    if n == 2 { var c := o.clock(i + 1 + 1); }
  }
}
