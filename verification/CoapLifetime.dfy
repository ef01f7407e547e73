/** The life of a confirmable message in its store: RFC 7252 sections 4.2 and 4.8.2 over any sequence of
    time-out passes, with whatever else happens to the store in between. */
module CoapLifetime {
  import opened Basics
  import opened Ticks
  import opened CoapTypes
  import opened CoapModel
  import opened CoapFacts
  import opened CoapSchedule
  import opened CoapSync

  // ---- Passes over a store -------------------------------------------------------------------

  /** One call of `process`: the store and the world it finds, and the true time. */
  datatype Turn = Turn(es: seq<Entry>, w: World, at: nat)

  function Passed(t: Turn, o: Oracle): Step {
    Process(t.es, ToTick(t.at), o, t.w)
  }

  /** What the first turns found and left under an id, from the entry they started with. */
  function LeftBy(turns: seq<Turn>, o: Oracle, first: Entry): Option<Entry> {
    if turns == [] then Some(first) else Find(Passed(turns[|turns| - 1], o).entries, first.id)
  }

  function Before(turns: seq<Turn>, start: nat): nat {
    if turns == [] then start else turns[|turns| - 1].at
  }

  /** Passes one after the other from time `start` on. Between two of them anything may happen to the
      store that keeps its ids distinct and leaves the message under this id as it is. */
  ghost predicate Undisturbed(turns: seq<Turn>, o: Oracle, first: Entry, start: nat) {
    turns == [] ||
    var earlier, t := turns[..|turns| - 1], turns[|turns| - 1];
    && Undisturbed(earlier, o, first, start)
    && DistinctIds(t.es) && Before(earlier, start) <= t.at
    && Find(t.es, first.id) == LeftBy(earlier, o, first)
  }

  // ---- What the passes do for one message ----------------------------------------------------

  /** The actions of one pass that are about the message with this id. */
  function Own(t: Turn, id: MessageId): seq<Action> {
    var e := Find(t.es, id);
    if e.Some? then ActionsOf(e.value, ToTick(t.at)) else []
  }

  function AllOwn(turns: seq<Turn>, id: MessageId): seq<Action> {
    if turns == [] then [] else AllOwn(turns[..|turns| - 1], id) + Own(turns[|turns| - 1], id)
  }

  /** The times at which the message was sent again. */
  function ResentAt(turns: seq<Turn>, id: MessageId): seq<nat> {
    if turns == [] then []
    else
      var t, earlier := turns[|turns| - 1], ResentAt(turns[..|turns| - 1], id);
      var e := Find(t.es, id);
      if e.Some? && Resends(e.value, ToTick(t.at)) then earlier + [t.at] else earlier
  }

  lemma FindStep(es: seq<Entry>, id: MessageId)
    ensures es == [] ==> Find(es, id) == None
    ensures es != [] ==> Find(es, id) == if es[0].id == id then Some(es[0]) else Find(es[1..], id)
  {
  }

  lemma Regrouped(a: seq<Action>, b: seq<Action>, c: seq<Action>, d: seq<Action>)
    ensures a + b + c + d == a + (b + c + d) && a + b + d == a + (b + d)
  {
  }

  lemma {:induction false} ActionsAround(es: seq<Entry>, now: Tick, id: MessageId)
    returns (before: seq<Action>, after: seq<Action>)
    ensures AllActions(Without(es, id), now) == before + after
    ensures var e := Find(es, id);
            AllActions(es, now) == before + (if e.Some? then ActionsOf(e.value, now) else []) + after
  {
    hide ActionsOf, Find;
    FindStep(es, id);
    if es == [] {
      return [], [];
    }
    if es[0].id == id {
      before, after := [], AllActions(es[1..], now);
      assert [] + after == after && [] + ActionsOf(es[0], now) + after == ActionsOf(es[0], now) + after;
    } else {
      var b;
      b, after := ActionsAround(es[1..], now, id);
      before := ActionsOf(es[0], now) + b;
      var w := Without(es, id);
      assert w[0] == es[0] && w[1..] == Without(es[1..], id);
      var own := if Find(es, id).Some? then ActionsOf(Find(es, id).value, now) else [];
      Regrouped(ActionsOf(es[0], now), b, own, after);
    }
  }

  /** The log of a pass is what the pass would do without the message, with the message's own actions at
      one place in it. */
  lemma PassAddsOwn(t: Turn, o: Oracle, id: MessageId) returns (before: seq<Action>, after: seq<Action>)
    ensures Passed(t, o).world.log == t.w.log + before + Own(t, id) + after
    ensures Process(Without(t.es, id), ToTick(t.at), o, t.w).world.log == t.w.log + before + after
  {
    hide Process, ActionsOf;
    before, after := ActionsAround(t.es, ToTick(t.at), id);
    ProcessLog(t.es, ToTick(t.at), o, t.w);
    ProcessLog(Without(t.es, id), ToTick(t.at), o, t.w);
    assert t.w.log + (before + Own(t, id) + after) == t.w.log + before + Own(t, id) + after;
    assert t.w.log + (before + after) == t.w.log + before + after;
  }

  // ---- The passes follow the schedule --------------------------------------------------------

  function Times(data: seq<byte>, n: nat): (r: seq<Action>)
    ensures |r| == n && forall i :: 0 <= i < n ==> r[i] == Transmit(data)
  {
    seq(n, _ => Transmit(data))
  }

  /** What is said when a request is given up: its handler is told once, the channel closed once. */
  function Failure(handler: Option<nat>): seq<Action> {
    (if handler.Some? then [Notify(handler.value, NotDelivered)] else []) + [Issue(Close)]
  }

  /** The store holds what the life says, and the passes have done for the message what it says. */
  ghost predicate Agrees(turns: seq<Turn>, o: Oracle, first: Entry, l: Life) {
    && LeftBy(turns, o, first) == (if l.Waiting? then Some(l.entry) else None)
    && (l.Waiting? ==> l.entry.id == first.id && l.entry.data == first.data && l.entry.handler == first.handler)
    && l.sentAt != [] && l.sentAt == [l.sentAt[0]] + ResentAt(turns, first.id)
    && AllOwn(turns, first.id)
       == Times(first.data, |l.sentAt| - 1) + (if l.GivenUp? then Failure(first.handler) else [])
  }

  predicate SentFirst(l: Life, start: nat) {
    l.sentAt != [] && l.sentAt[0] == start
  }

  /** What one more pass adds. */
  lemma OneMoreTurn(turns: seq<Turn>, t: Turn, o: Oracle, first: Entry)
    ensures var all, e := turns + [t], Find(t.es, first.id);
            && LeftBy(all, o, first) == Find(Passed(t, o).entries, first.id)
            && AllOwn(all, first.id) == AllOwn(turns, first.id) + Own(t, first.id)
            && ResentAt(all, first.id)
               == ResentAt(turns, first.id) + if e.Some? && Resends(e.value, ToTick(t.at)) then [t.at] else []
  {
    hide Find, ActionsOf;
    var all := turns + [t];
    assert all[..|all| - 1] == turns && all[|all| - 1] == t;
    assert ResentAt(turns, first.id) + [] == ResentAt(turns, first.id);
  }

  /** One more pass: the life takes the same step, with the draw the pass took. */
  lemma PassIsPoll(turns: seq<Turn>, t: Turn, o: Oracle, first: Entry, l: Life) returns (p: Poll)
    requires TypeOf(first.data) == CON && Agrees(turns, o, first, l)
    requires DistinctIds(t.es) && Find(t.es, first.id) == LeftBy(turns, o, first)
    ensures p.at == t.at && Agrees(turns + [t], o, first, Polled(l, p))
    ensures SentFirst(Polled(l, p), l.sentAt[0])
  {
    hide Process, TransmitTimeout, AllOwn, ResentAt, LeftBy, Find, Times, DistinctIds;
    var all, now := turns + [t], ToTick(t.at);
    OneMoreTurn(turns, t, o, first);
    ProcessFind(t.es, now, o, t.w, first.id);
    var own, resent := AllOwn(turns, first.id), ResentAt(turns, first.id);
    p := Poll(t.at, 0);
    if l.Waiting? && Resends(l.entry, now) {
      var r := LeftBy(all, o, first).value;
      var draw: byte :| r == l.entry.(timeout := AddTick(now, TransmitTimeout(l.entry.count, draw)), count := l.entry.count + 1);
      p := Poll(t.at, draw);
      OneMoreTime(first.data, |l.sentAt|);
      assert [l.sentAt[0]] + (resent + [t.at]) == [l.sentAt[0]] + resent + [t.at];
    } else if l.Waiting? && Due(l.entry, now) {
      assert ActionsOf(l.entry, now) == Failure(first.handler);
      NothingMore(Times(first.data, |l.sentAt| - 1));
      NothingMore(resent);
    } else {
      NothingMore(own);
      NothingMore(resent);
    }
  }

  lemma OneMoreTime(data: seq<byte>, n: nat)
    requires n > 0
    ensures Times(data, n - 1) + [] + [Transmit(data)] == Times(data, n) + []
  {
  }

  lemma NothingMore<T>(s: seq<T>)
    ensures s + [] == s
  {
  }

  /** For the draws the passes took, the store follows the life of the message. */
  lemma {:induction false} TurnsFollowLife(turns: seq<Turn>, o: Oracle, l: Life, start: nat) returns (polls: seq<Poll>)
    requires l.Waiting? && l.sentAt == [start] && TypeOf(l.entry.data) == CON && Undisturbed(turns, o, l.entry, start)
    ensures |polls| == |turns| && forall k :: 0 <= k < |turns| ==> polls[k].at == turns[k].at
    ensures forall n :: 0 <= n <= |turns| ==> Agrees(turns[..n], o, l.entry, After(l, polls[..n])) && SentFirst(After(l, polls[..n]), start)
  {
    hide Agrees, Polled, Find, DistinctIds, After, Undisturbed, LeftBy, SentFirst;
    if turns == [] {
      polls := [];
      AgreesAtFirst(o, l, start);
      assert turns[..0] == [] && polls[..0] == [];
    } else {
      var n := |turns| - 1;
      LastTurn(turns, o, l.entry, start);
      var earlier := TurnsFollowLife(turns[..n], o, l, start);
      assert turns[..n][..n] == turns[..n] && earlier[..n] == earlier;
      SentFirstMeans(After(l, earlier), start);
      var p := PassIsPoll(turns[..n], turns[n], o, l.entry, After(l, earlier));
      polls := earlier + [p];
      LastPoll(l, earlier, p);
      forall k | 0 <= k <= n + 1
        ensures Agrees(turns[..k], o, l.entry, After(l, polls[..k])) && SentFirst(After(l, polls[..k]), start)
      {
        if k <= n {
          assert turns[..n][..k] == turns[..k] && earlier[..k] == polls[..k];
        } else {
          assert turns[..k] == turns[..n] + [turns[n]] && polls[..k] == polls;
        }
      }
    }
  }

  lemma LastTurn(turns: seq<Turn>, o: Oracle, first: Entry, start: nat)
    requires turns != [] && Undisturbed(turns, o, first, start)
    ensures var n := |turns| - 1;
            && Undisturbed(turns[..n], o, first, start)
            && DistinctIds(turns[n].es) && Find(turns[n].es, first.id) == LeftBy(turns[..n], o, first)
  {
    hide Find, DistinctIds, LeftBy;
  }

  lemma LastPoll(l: Life, earlier: seq<Poll>, p: Poll)
    ensures After(l, earlier + [p]) == Polled(After(l, earlier), p)
  {
    hide Polled;
    assert (earlier + [p])[..|earlier|] == earlier;
  }

  lemma SentFirstMeans(l: Life, start: nat)
    requires SentFirst(l, start)
    ensures l.sentAt != [] && l.sentAt[0] == start
  {
  }

  lemma AgreesAtFirst(o: Oracle, l: Life, start: nat)
    requires l.Waiting? && l.sentAt == [start]
    ensures Agrees([], o, l.entry, l) && After(l, []) == l && SentFirst(l, start)
  {
    assert Times(l.entry.data, 0) + [] == [];
  }

  // ---- Punctual passes -----------------------------------------------------------------------

  /** The true time of a time-out that lies ahead at time `t`. */
  function Deadline(e: Entry, t: nat): nat {
    t + SubTick(e.timeout, ToTick(t))
  }

  /** No pass finds the deadline of the message more than `late` behind it. */
  ghost predicate OnTime(turns: seq<Turn>, o: Oracle, first: Entry, start: nat, late: nat) {
    forall k :: 0 <= k < |turns| ==>
      var e := LeftBy(turns[..k], o, first);
      e.Some? ==> turns[k].at <= Deadline(e.value, Before(turns[..k], start)) + late
  }

  lemma DeadlineIsTrue(l: Life, start: nat, now: nat, late: nat)
    requires l.Waiting? && OnSchedule(l, start, now, late) && now <= l.deadline
    ensures Deadline(l.entry, now) == l.deadline
  {
    Pow2Values();
    TrueDistance(now, l.deadline);
  }

  /** The passes are punctual polls of the life, so the life is on schedule after each. */
  lemma {:induction false} TurnsArePunctual(turns: seq<Turn>, polls: seq<Poll>, o: Oracle, l: Life, start: nat, late: nat, n: nat)
    requires n <= |turns| == |polls| && forall k :: 0 <= k < |turns| ==> polls[k].at == turns[k].at
    requires l.Waiting? && forall k :: 0 <= k <= |turns| ==> Agrees(turns[..k], o, l.entry, After(l, polls[..k]))
    requires OnSchedule(l, start, start, late) && late < 0x4000_0000 && start <= l.deadline
    requires Undisturbed(turns[..n], o, l.entry, start) && OnTime(turns, o, l.entry, start, late)
    ensures Punctual(l, start, polls[..n], late)
    ensures LastTime(start, polls[..n]) == Before(turns[..n], start)
    ensures var l' := After(l, polls[..n]); l'.Waiting? ==> Before(turns[..n], start) <= l'.deadline
    decreases n
  {
    hide Agrees, OnSchedule, Polled, Find, LeftBy, Deadline, DistinctIds;
    if n == 0 {
    } else {
      var k := n - 1;
      assert turns[..n][..k] == turns[..k] && polls[..n][..k] == polls[..k];
      TurnsArePunctual(turns, polls, o, l, start, late, k);
      RunsOnSchedule(l, start, polls[..k], late);
      var before, now := After(l, polls[..k]), Before(turns[..k], start);
      if before.Waiting? {
        AgreesOnEntry(turns[..k], o, l.entry, before);
        DeadlineIsTrue(before, start, now, late);
        assert turns[k].at <= Deadline(before.entry, now) + late;
      }
      PollSettles(before, start, now, late, polls[k]);
    }
  }

  lemma AgreesOnEntry(turns: seq<Turn>, o: Oracle, first: Entry, l: Life)
    requires Agrees(turns, o, first, l)
    ensures LeftBy(turns, o, first) == (if l.Waiting? then Some(l.entry) else None)
  {
  }

  // ---- The theorem ---------------------------------------------------------------------------

  /** The turns given by the first of them after which the message is gone. */
  ghost predicate GoneAt(turns: seq<Turn>, o: Oracle, first: Entry, k: nat) {
    k < |turns| && LeftBy(turns[..k], o, first).Some? && LeftBy(turns[..k + 1], o, first).None?
  }

  /** RFC 7252 sections 4.2 and 4.8.2 for a CON in a store. Over any passes that find its deadline at
      most `late` behind them: it is transmitted at most four times, with doubling waits, the first and
      the last less than 42 s (+ 3 late) apart, for `late` up to a second within `MAX_TRANSMIT_SPAN`. The
      passes log for it exactly these retransmissions, and, exactly if it is gone at the end, exactly one
      NOT_DELIVERED if a handler is set and one CLOSE, from 60 s to 90 s (+ 4 late) after it was first
      sent. */
  lemma StoredConIsOnSchedule(turns: seq<Turn>, o: Oracle, id: MessageId, data: seq<byte>, handler: Option<nat>,
                              start: nat, draw: byte, late: nat)
    requires TypeOf(data) == CON && late < 0x4000_0000
    requires var first := FirstSent(id, data, handler, start, draw).entry;
             Undisturbed(turns, o, first, start) && OnTime(turns, o, first, start, late)
    ensures var first := FirstSent(id, data, handler, start, draw).entry;
            var sentAt := [start] + ResentAt(turns, id);
            && |sentAt| <= 4 && Spaced(sentAt, late)
            && sentAt[|sentAt| - 1] - start < 42000 + 3 * late
            && (late <= 1000 ==> sentAt[|sentAt| - 1] - start <= MAX_TRANSMIT_SPAN)
            && AllOwn(turns, id)
               == Times(data, |sentAt| - 1) + (if LeftBy(turns, o, first).None? then Failure(handler) else [])
            && (LeftBy(turns, o, first).None? ==> |sentAt| == 4)
            && forall k: nat :: GoneAt(turns, o, first, k) ==> 60000 <= turns[k].at - start < 90000 + 4 * late
  {
    hide Undisturbed, OnTime, OnSchedule, Polled, Spaced, AllOwn, ResentAt, Times, LeftBy, Punctual, After, Find;
    var l := FirstSent(id, data, handler, start, draw);
    var polls := TurnsFollowLife(turns, o, l, start);
    SentOnSchedule(id, data, handler, start, draw, late);
    WaitInRange(0, draw);
    assert turns[..|turns|] == turns && polls[..|polls|] == polls;
    TurnsArePunctual(turns, polls, o, l, start, late, |turns|);
    RetransmissionSchedule(id, data, handler, start, draw, polls, late);
    var end := After(l, polls);
    assert end.sentAt == [start] + ResentAt(turns, id);
    forall k: nat | GoneAt(turns, o, l.entry, k)
      ensures 60000 <= turns[k].at - start < 90000 + 4 * late
    {
      GoneOnSchedule(turns, polls, o, id, data, handler, start, draw, late, k);
    }
  }

  lemma GoneOnSchedule(turns: seq<Turn>, polls: seq<Poll>, o: Oracle, id: MessageId, data: seq<byte>, handler: Option<nat>,
                       start: nat, draw: byte, late: nat, k: nat)
    requires TypeOf(data) == CON && late < 0x4000_0000 && |turns| == |polls|
    requires forall k :: 0 <= k < |turns| ==> polls[k].at == turns[k].at
    requires var l := FirstSent(id, data, handler, start, draw);
             && Punctual(l, start, polls, late) && GoneAt(turns, o, l.entry, k)
             && forall n :: 0 <= n <= |turns| ==> Agrees(turns[..n], o, l.entry, After(l, polls[..n]))
    ensures 60000 <= turns[k].at - start < 90000 + 4 * late
  {
    hide Agrees, OnSchedule;
    var l := FirstSent(id, data, handler, start, draw);
    AgreesOnEntry(turns[..k], o, l.entry, After(l, polls[..k]));
    AgreesOnEntry(turns[..k + 1], o, l.entry, After(l, polls[..k + 1]));
    PunctualPrefix(l, start, polls, late, k + 1);
    assert polls[..k + 1][..k] == polls[..k];
    RetransmissionSchedule(id, data, handler, start, draw, polls[..k + 1], late);
  }

  lemma {:induction false} PunctualPrefix(l: Life, start: nat, polls: seq<Poll>, late: nat, n: nat)
    requires n <= |polls| && Punctual(l, start, polls, late)
    ensures Punctual(l, start, polls[..n], late)
    decreases |polls|
  {
    if n < |polls| {
      assert polls[..|polls| - 1][..n] == polls[..n];
      PunctualPrefix(l, start, polls[..|polls| - 1], late, n);
    } else {
      assert polls[..n] == polls;
    }
  }

  /** `send` puts a CON into the store as the theorem has it at the start. */
  lemma SendStartsLife(es: seq<Entry>, data: seq<byte>, id: int, at: nat, o: Oracle, w: World)
    requires DistinctIds(es) && TypeOf(data) == CON && id >= 0 && o.room(w.allocations)
    ensures var s := StoreSend(es, data, id, ToTick(at), o, w);
            && s.error == NoError && DistinctIds(s.entries)
            && Find(s.entries, NarrowId(id)) == Some(FirstSent(NarrowId(id), data, None, at, o.draw(w.drawn)).entry)
  {
    hide TransmitTimeout;
    var timeout := AddTick(ToTick(at), TransmitTimeout(0, o.draw(w.drawn)));
    PutKeeps(es, Entry(NarrowId(id), timeout, 1, None, data));
  }

  /** A synchronous send sets its handler on it, and the theorem starts with that. */
  lemma HandlerStartsLife(es: seq<Entry>, id: MessageId, data: seq<byte>, at: nat, draw: byte, h: nat)
    requires DistinctIds(es) && Find(es, id) == Some(FirstSent(id, data, None, at, draw).entry)
    ensures var r := WithHandler(es, id, h);
            DistinctIds(r) && Find(r, id) == Some(FirstSent(id, data, Some(h), at, draw).entry)
  {
    hide TransmitTimeout;
    var e := Find(es, id).value;
    HasIffFound(es, id);
    var i :| 0 <= i < |es| && es[i] == e;
    WithHandlerFound(es, id, h, i);
    var r := WithHandler(es, id, h);
    assert r[i] in r && forall j :: 0 <= j < |es| ==> r[j].id == es[j].id;
    FindUnique(r, r[i]);
  }
}
