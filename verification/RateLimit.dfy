/** `Publisher::is_rate_limited`: the ring of five ticks for user events and the counter per period for
    system events, over a clock that wraps at 2^32 milliseconds. */
module RateLimit {
  import opened Ticks

  const RING: nat := 5
  const SECOND: nat := 1000
  const PERIOD: nat := 0x1_0000
  const MAX_SYSTEM_EVENTS: nat := 255

  /** The static variables. */
  datatype Limiter = Limiter(ticks: seq<Tick>, index: nat, lastMinute: nat, eventsThisMinute: nat)

  predicate Ok(l: Limiter) {
    |l.ticks| == RING && l.index < RING && l.lastMinute < 0x1_0000 && l.eventsThisMinute <= MAX_SYSTEM_EVENTS
  }

  const LONG_AGO: Tick := TICK_MODULUS - SECOND

  const START: Limiter := Limiter([LONG_AGO, LONG_AGO, LONG_AGO, LONG_AGO, LONG_AGO], 0, 0, 0)

  /** The variables after a call, and whether it was limited. */
  function UserCall(l: Limiter, millis: Tick): (r: (Limiter, bool))
    requires Ok(l)
    ensures Ok(r.0)
  {
    var ticks, index := l.ticks[l.index := millis], (l.index + 1) % RING;
    (l.(ticks := ticks, index := index), SubTick(millis, ticks[index]) < SECOND)
  }

  function SystemCall(l: Limiter, millis: Tick): (r: (Limiter, bool))
    requires Ok(l)
    ensures Ok(r.0)
  {
    var minute := millis / PERIOD;
    if minute != l.lastMinute then (l.(lastMinute := minute, eventsThisMinute := 1), false)
    else if l.eventsThisMinute == MAX_SYSTEM_EVENTS then (l, true)
    else (l.(eventsThisMinute := l.eventsThisMinute + 1), false)
  }

  class Publisher {
    var recentEventTicks: array<Tick>
    var evtTickIdx: nat
    var lastMinute: nat
    var eventsThisMinute: nat

    ghost function View(): Limiter
      reads this, recentEventTicks
    {
      Limiter(recentEventTicks[..], evtTickIdx, lastMinute, eventsThisMinute)
    }

    constructor ()
      ensures View() == START && fresh(recentEventTicks)
    {
      recentEventTicks := new Tick[RING](_ => LONG_AGO);
      evtTickIdx, lastMinute, eventsThisMinute := 0, 0, 0;
    }

    /** `is_rate_limited`. */
    method IsRateLimited(isSystemEvent: bool, millis: Tick) returns (limited: bool)
      requires Ok(View())
      modifies this, recentEventTicks
      ensures recentEventTicks == old(recentEventTicks)
      ensures (View(), limited) == if isSystemEvent then SystemCall(old(View()), millis) else UserCall(old(View()), millis)
    {
      if isSystemEvent {
        var currentMinute := millis / PERIOD;
        if currentMinute == lastMinute {
          if eventsThisMinute == MAX_SYSTEM_EVENTS {
            return true;
          }
        } else {
          lastMinute := currentMinute;
          eventsThisMinute := 0;
        }
        eventsThisMinute := eventsThisMinute + 1;
      } else {
        recentEventTicks[evtTickIdx] := millis;
        evtTickIdx := evtTickIdx + 1;
        evtTickIdx := evtTickIdx % RING;
        if SubTick(millis, recentEventTicks[evtTickIdx]) < SECOND {
          return true;
        }
      }
      return false;
    }
  }

  // ---- Runs ----------------------------------------------------------------------------------

  /** A call at a true time, of which the clock shows the lowest 32 bits. */
  datatype Call = Call(system: bool, time: nat)

  function Step(l: Limiter, c: Call): (r: (Limiter, bool))
    requires Ok(l)
    ensures Ok(r.0)
  {
    if c.system then SystemCall(l, ToTick(c.time)) else UserCall(l, ToTick(c.time))
  }

  function After(calls: seq<Call>): (l: Limiter)
    ensures Ok(l)
  {
    if calls == [] then START else Step(After(calls[..|calls| - 1]), calls[|calls| - 1]).0
  }

  predicate Accepted(calls: seq<Call>, i: nat)
    requires i < |calls|
  {
    !Step(After(calls[..i]), calls[i]).1
  }

  predicate Ordered(calls: seq<Call>) {
    forall i, j :: 0 <= i <= j < |calls| ==> calls[i].time <= calls[j].time
  }

  /** The times of the user events, accepted or not. */
  function Users(calls: seq<Call>): (r: seq<nat>)
    ensures |r| <= |calls|
  {
    if calls == [] then []
    else
      var rest := Users(calls[..|calls| - 1]);
      if calls[|calls| - 1].system then rest else rest + [calls[|calls| - 1].time]
  }

  // ---- User events ---------------------------------------------------------------------------

  /** The ring holds the last five user events, and long-past ticks until there were five. */
  predicate RingHolds(l: Limiter, us: seq<nat>)
    requires Ok(l)
  {
    && l.index == |us| % RING
    && (forall k :: 0 <= k < |us| && k + RING >= |us| ==> l.ticks[k % RING] == ToTick(us[k]))
    && (forall j :: |us| <= j < RING ==> l.ticks[j] == LONG_AGO)
  }

  lemma RingStep(l: Limiter, us: seq<nat>, time: nat)
    requires Ok(l) && RingHolds(l, us)
    ensures RingHolds(UserCall(l, ToTick(time)).0, us + [time])
  {
    var n, l2 := |us|, UserCall(l, ToTick(time)).0;
    var us2 := us + [time];
    forall k | 0 <= k < n + 1 && k + RING >= n + 1
      ensures l2.ticks[k % RING] == ToTick(us2[k])
    {
      if k < n {
        assert us2[k] == us[k];
        DifferentSlots(k, n);
      }
    }
  }

  lemma DifferentSlots(k: nat, n: nat)
    requires k < n < k + RING
    ensures k % RING != n % RING
  {
  }

  lemma {:induction false} RingAfter(calls: seq<Call>)
    ensures RingHolds(After(calls), Users(calls))
  {
    hide RingHolds, UserCall, SystemCall;
    if calls == [] {
      RingStarts();
    } else {
      var before, c := calls[..|calls| - 1], calls[|calls| - 1];
      RingAfter(before);
      if c.system {
        RingKept(After(before), Users(before), c);
      } else {
        RingStep(After(before), Users(before), c.time);
      }
    }
  }

  lemma RingStarts()
    ensures RingHolds(START, [])
  {
  }

  lemma RingKept(l: Limiter, us: seq<nat>, c: Call)
    requires Ok(l) && RingHolds(l, us) && c.system
    ensures RingHolds(Step(l, c).0, us)
  {
  }

  /** A user event is accepted exactly if, on the wrapped clock, the fourth last user event before it,
      accepted or not, is at least a second ago; the first four are measured against the tick the ring
      starts with. */
  lemma UserAcceptedIff(calls: seq<Call>, i: nat)
    requires i < |calls| && !calls[i].system
    ensures var us := Users(calls[..i]);
            Accepted(calls, i) <==>
            SubTick(ToTick(calls[i].time), if |us| >= 4 then ToTick(us[|us| - 4]) else 0x1_0000_0000 - 1000) >= 1000
  {
    hide After, Users;
    RingAfter(calls[..i]);
    AcceptedFromRing(After(calls[..i]), Users(calls[..i]), ToTick(calls[i].time));
  }

  lemma AcceptedFromRing(l: Limiter, us: seq<nat>, now: Tick)
    requires Ok(l) && RingHolds(l, us)
    ensures UserCall(l, now).1 <==> SubTick(now, if |us| >= 4 then ToTick(us[|us| - 4]) else LONG_AGO) < SECOND
  {
    var n := |us|;
    assert (n % RING + 1) % RING == (n + 1) % RING != n % RING;
    if n >= 4 {
      assert (n - 4) % RING == (n + 1) % RING;
    }
  }

  /** A user event at index `i` is the next one after those before it. */
  lemma {:induction false} UsersOf(calls: seq<Call>, i: nat, j: nat)
    requires i < j <= |calls| && !calls[i].system
    ensures var a, b := Users(calls[..i]), Users(calls[..j]); |a| < |b| && b[|a|] == calls[i].time
    decreases j
  {
    assert calls[..j][..j - 1] == calls[..j - 1];
    if i + 1 >= j {
    } else {
      UsersOf(calls, i, j - 1);
    }
  }

  lemma {:induction false} UsersBounded(calls: seq<Call>, j: nat, l: nat)
    requires j <= l < |calls| && Ordered(calls)
    ensures forall k :: 0 <= k < |Users(calls[..j])| ==> Users(calls[..j])[k] <= calls[l].time
  {
    if j == 0 {
    } else {
      assert calls[..j][..j - 1] == calls[..j - 1];
      UsersBounded(calls, j - 1, l);
    }
  }

  lemma {:induction false} UsersOrdered(calls: seq<Call>, j: nat)
    requires j <= |calls| && Ordered(calls)
    ensures forall k, l :: 0 <= k <= l < |Users(calls[..j])| ==> Users(calls[..j])[k] <= Users(calls[..j])[l]
  {
    if j == 0 {
    } else {
      assert calls[..j][..j - 1] == calls[..j - 1];
      UsersOrdered(calls, j - 1);
      UsersBounded(calls, j - 1, j - 1);
    }
  }

  /** Five accepted user events never lie within one second, however the clock wraps: any window
      shorter than that holds at most four. */
  lemma FiveAcceptedTakeASecond(calls: seq<Call>, a: nat, b: nat, c: nat, d: nat, e: nat)
    requires Ordered(calls) && a < b < c < d < e < |calls|
    requires !calls[a].system && !calls[b].system && !calls[c].system && !calls[d].system && !calls[e].system
    requires Accepted(calls, e)
    ensures calls[e].time - calls[a].time >= 1000
  {
    hide Accepted, Users, Ordered;
    UsersOf(calls, a, b);
    UsersOf(calls, b, c);
    UsersOf(calls, c, d);
    UsersOf(calls, d, e);
    UsersOf(calls, a, e);
    UsersOrdered(calls, e);
    UsersBounded(calls, e, e);
    UserAcceptedIff(calls, e);
    var us := Users(calls[..e]);
    var fourth := us[|us| - 4];
    if calls[e].time - calls[a].time < SECOND {
      assert calls[a].time <= fourth <= calls[e].time;
      TrueDistance(fourth, calls[e].time);
    }
  }

  // ---- System events -------------------------------------------------------------------------

  /** The accepted system events among the first `n` calls in period `p`. */
  function AcceptedIn(calls: seq<Call>, n: nat, p: nat): (r: nat)
    requires n <= |calls|
    ensures r <= n
  {
    if n == 0 then 0
    else
      AcceptedIn(calls, n - 1, p) +
      if calls[n - 1].system && Accepted(calls, n - 1) && calls[n - 1].time / PERIOD == p then 1 else 0
  }

  /** The counter covers the accepted events of the latest period. */
  lemma {:induction false} CounterCovers(calls: seq<Call>, n: nat, p: nat)
    requires n <= |calls| && forall i :: 0 <= i < n ==> calls[i].time / PERIOD <= p
    requires Ordered(calls)
    ensures var l := After(calls[..n]);
            AcceptedIn(calls, n, p) <= if l.lastMinute == p % 0x1_0000 then l.eventsThisMinute else 0
  {
    hide Ordered;
    if n == 0 {
    } else {
      CounterCovers(calls, n - 1, p);
      assert calls[..n][..n - 1] == calls[..n - 1];
      var c := calls[n - 1];
      MinuteOf(c.time);
      if c.system && c.time / PERIOD < p {
        NoneYet(calls, n, p);
      }
    }
  }

  lemma MinuteOf(t: nat)
    ensures ToTick(t) / PERIOD == (t / PERIOD) % 0x1_0000
  {
  }

  lemma {:induction false} NoneYet(calls: seq<Call>, n: nat, p: nat)
    requires 0 < n <= |calls| && Ordered(calls) && calls[n - 1].time / PERIOD < p
    ensures AcceptedIn(calls, n, p) == 0
  {
    hide Accepted;
    if n <= 1 {
    } else {
      assert calls[n - 2].time <= calls[n - 1].time;
      NoneYet(calls, n - 1, p);
    }
  }

  /** In any period of 65536 milliseconds, counted from the start of the clock, at most 255 system
      events are accepted. */
  lemma {:induction false} AtMost255PerPeriod(calls: seq<Call>, n: nat, p: nat)
    requires n <= |calls| && Ordered(calls)
    ensures AcceptedIn(calls, n, p) <= 255
  {
    if n == 0 {
    } else {
      AtMost255PerPeriod(calls, n - 1, p);
      var c := calls[n - 1];
      if c.time / PERIOD == p {
        assert forall i :: 0 <= i < n ==> calls[i].time <= c.time;
        CounterCovers(calls, n, p);
      }
    }
  }

  /** `n` system events at one time. */
  function Burst(time: nat, n: nat): (r: seq<Call>)
    ensures |r| == n && forall i :: 0 <= i < n ==> r[i] == Call(true, time)
  {
    seq(n, i requires 0 <= i < n => Call(true, time))
  }

  /** One more call: what it does, and that it changes nothing of the earlier ones. */
  lemma OneMoreCall(calls: seq<Call>, c: Call)
    ensures After(calls + [c]) == Step(After(calls), c).0
    ensures Accepted(calls + [c], |calls|) == !Step(After(calls), c).1
  {
    hide Step;
    assert (calls + [c])[..|calls|] == calls;
  }

  lemma {:induction false} BurstAccepted(calls: seq<Call>, time: nat, n: nat)
    requires n <= MAX_SYSTEM_EVENTS
    requires After(calls).lastMinute != ToTick(time) / PERIOD || After(calls).eventsThisMinute == 0
    ensures var all := calls + Burst(time, n);
            && (n > 0 ==> After(all).lastMinute == ToTick(time) / PERIOD && After(all).eventsThisMinute == n)
            && forall i :: |calls| <= i < |all| ==> Accepted(all, i)
  {
    hide After, Accepted, ToTick;
    var all := calls + Burst(time, n);
    if n == 0 {
    } else {
      BurstAccepted(calls, time, n - 1);
      var before, c := calls + Burst(time, n - 1), Call(true, time);
      assert all == before + [c];
      OneMoreCall(before, c);
      if n == 1 {
        assert before == calls;
      }
      forall i | |calls| <= i < |all|
        ensures Accepted(all, i)
      {
        if i < |before| {
          AcceptedEarlier(before, [c], i);
        }
      }
    }
  }

  /** 255 system events on either side of the border at `p * PERIOD`. */
  function AcrossBorder(p: nat): seq<Call>
    requires p > 0
  {
    Burst(p * PERIOD - 1, MAX_SYSTEM_EVENTS) + Burst(p * PERIOD, MAX_SYSTEM_EVENTS)
  }

  /** At every border, a window of two milliseconds lets 510 system events pass. */
  lemma TwiceAtEveryBorder(p: nat)
    requires p > 0
    ensures var calls := AcrossBorder(p);
            && |calls| == 510 && Ordered(calls)
            && forall i :: 0 <= i < |calls| ==>
                 calls[i].system && p * 65536 - 1 <= calls[i].time <= p * 65536 && Accepted(calls, i)
  {
    hide After, Accepted;
    var first, second := Burst(p * PERIOD - 1, MAX_SYSTEM_EVENTS), Burst(p * PERIOD, MAX_SYSTEM_EVENTS);
    NothingYet();
    BorderMinutes(p);
    BurstAccepted([], p * PERIOD - 1, MAX_SYSTEM_EVENTS);
    assert [] + first == first;
    BurstAccepted(first, p * PERIOD, MAX_SYSTEM_EVENTS);
    var calls := first + second;
    forall i | 0 <= i < |calls|
      ensures Accepted(calls, i)
    {
      if i < |first| {
        AcceptedEarlier(first, second, i);
      }
    }
  }

  lemma BorderMinutes(p: nat)
    requires p > 0
    ensures ToTick(p * PERIOD - 1) / PERIOD != ToTick(p * PERIOD) / PERIOD
  {
    MinuteOf(p * PERIOD - 1);
    MinuteOf(p * PERIOD);
    assert (p * PERIOD - 1) / PERIOD == p - 1;
  }

  // ---- Windows -------------------------------------------------------------------------------

  /** The accepted system events among the first `n` calls at times from `first` to `last`. */
  function AcceptedWithin(calls: seq<Call>, n: nat, first: nat, last: nat): (r: nat)
    requires n <= |calls|
    ensures r <= n
  {
    if n == 0 then 0
    else
      AcceptedWithin(calls, n - 1, first, last) +
      if calls[n - 1].system && Accepted(calls, n - 1) && first <= calls[n - 1].time <= last then 1 else 0
  }

  lemma {:induction false} WithinOnePeriod(calls: seq<Call>, n: nat, first: nat, last: nat)
    requires n <= |calls| && first / PERIOD == last / PERIOD
    ensures AcceptedWithin(calls, n, first, last) <= AcceptedIn(calls, n, first / PERIOD)
  {
    hide Accepted;
    if n == 0 {
    } else {
      WithinOnePeriod(calls, n - 1, first, last);
    }
  }

  lemma {:induction false} AllWithin(calls: seq<Call>, n: nat, first: nat, last: nat)
    requires n <= |calls|
    requires forall i :: 0 <= i < |calls| ==> calls[i].system && first <= calls[i].time <= last && Accepted(calls, i)
    ensures AcceptedWithin(calls, n, first, last) == n
  {
    hide Accepted;
    if n == 0 {
    } else {
      AllWithin(calls, n - 1, first, last);
    }
  }

  /** For every window of time: every run has at most 255 system events accepted in it exactly if the
      window lies inside one period. */
  lemma WindowIsLimitedIff(first: nat, last: nat)
    requires first <= last
    ensures (forall calls: seq<Call> :: Ordered(calls) ==>
               AcceptedWithin(calls, |calls|, first, last) <= 255)
            <==> first / 65536 == last / 65536
  {
    hide Accepted, Ordered, AcceptedIn, AcceptedWithin;
    if first / PERIOD == last / PERIOD {
      forall calls: seq<Call> | Ordered(calls)
        ensures AcceptedWithin(calls, |calls|, first, last) <= MAX_SYSTEM_EVENTS
      {
        WithinOnePeriod(calls, |calls|, first, last);
        AtMost255PerPeriod(calls, |calls|, first / PERIOD);
      }
    } else {
      var p := last / PERIOD;
      var calls := AcrossBorder(p);
      BorderInside(first, last);
      TwiceAtEveryBorder(p);
      AllWithin(calls, |calls|, first, last);
    }
  }

  lemma BorderInside(first: nat, last: nat)
    requires first <= last && first / PERIOD != last / PERIOD
    ensures last / PERIOD > 0 && first <= last / PERIOD * PERIOD - 1 && last / PERIOD * PERIOD <= last
  {
  }

  lemma NothingYet()
    ensures After([]) == START
  {
  }

  lemma AcceptedEarlier(calls: seq<Call>, more: seq<Call>, i: nat)
    requires i < |calls|
    ensures Accepted(calls + more, i) == Accepted(calls, i)
  {
    assert (calls + more)[..i] == calls[..i];
  }
}
