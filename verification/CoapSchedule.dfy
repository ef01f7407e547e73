/** The life of one confirmable message under repeated polling: RFC 7252 sections 4.2 and 4.8.2. */
module CoapSchedule {
  import opened Basics
  import opened Ticks
  import opened CoapTypes
  import opened CoapModel
  import opened CoapFacts

  /** One call of `process`: the true time it runs at, and the random draw it would use. */
  datatype Poll = Poll(at: nat, draw: byte)

  /** A message with the true times it was transmitted at and its true deadline, or given up. */
  datatype Life =
    | Waiting(entry: Entry, sentAt: seq<nat>, deadline: nat)
    | GivenUp(sentAt: seq<nat>, at: nat)

  /** The message as `send` stores it at true time `at`, with the handler set on it. */
  function FirstSent(id: MessageId, data: seq<byte>, handler: Option<nat>, at: nat, draw: byte): Life {
    var wait := TransmitTimeout(0, draw);
    Waiting(Entry(id, AddTick(ToTick(at), wait), 1, handler, data), [at], at + wait)
  }

  function Polled(l: Life, p: Poll): Life {
    if l.GivenUp? || !Due(l.entry, ToTick(p.at)) then l
    else if Resends(l.entry, ToTick(p.at)) then
      var wait := TransmitTimeout(l.entry.count, p.draw);
      Waiting(l.entry.(timeout := AddTick(ToTick(p.at), wait), count := l.entry.count + 1),
              l.sentAt + [p.at], p.at + wait)
    else GivenUp(l.sentAt, p.at)
  }

  function After(l: Life, polls: seq<Poll>): Life {
    if polls == [] then l else Polled(After(l, polls[..|polls| - 1]), polls[|polls| - 1])
  }

  /** A poll of a life is what `process` does at the stored message. */
  lemma PolledIsProcess(l: Life, p: Poll, o: Oracle, w: World)
    requires l.Waiting? && o.draw(w.drawn) == p.draw
    ensures var s := ProcessOne(l.entry, ToTick(p.at), o, w);
            s.entries == if Polled(l, p).Waiting? then [Polled(l, p).entry] else []
    ensures Resends(l.entry, ToTick(p.at)) <==> |Polled(l, p).sentAt| == |l.sentAt| + 1
  {
  }

  /** Polls run forward from the first transmission, and none finds the deadline more than `late`
      behind it. */
  ghost predicate Punctual(l: Life, start: nat, polls: seq<Poll>, late: nat) {
    polls == [] ||
    var p, earlier := polls[|polls| - 1], polls[..|polls| - 1];
    && Punctual(l, start, earlier, late)
    && LastTime(start, earlier) <= p.at
    && (After(l, earlier).Waiting? ==> p.at <= After(l, earlier).deadline + late)
  }

  function LastTime(start: nat, polls: seq<Poll>): nat {
    if polls == [] then start else polls[|polls| - 1].at
  }

  /** Transmission `k + 1` follows transmission `k` by the k-th wait, at most `late` overdue. */
  ghost predicate Spaced(sentAt: seq<nat>, late: nat) {
    forall k :: 0 <= k < |sentAt| - 1 ==>
      4000 * Pow2(k) <= sentAt[k + 1] - sentAt[k] < 6000 * Pow2(k) + late
  }

  ghost predicate OnSchedule(l: Life, start: nat, now: nat, late: nat) {
    && 1 <= |l.sentAt| <= MAX_RETRANSMIT + 1 && l.sentAt[0] == start
    && Spaced(l.sentAt, late)
    && var last := l.sentAt[|l.sentAt| - 1];
       match l
       case Waiting(e, _, deadline) =>
         && TypeOf(e.data) == CON && e.count == |l.sentAt|
         && e.timeout == ToTick(deadline) && last <= now
         && 4000 * Pow2(e.count - 1) <= deadline - last < 6000 * Pow2(e.count - 1)
       case GivenUp(_, at) =>
         |l.sentAt| == MAX_RETRANSMIT + 1 && 32000 <= at - last < 48000 + late
  }

  lemma SentOnSchedule(id: MessageId, data: seq<byte>, handler: Option<nat>, at: nat, draw: byte, late: nat)
    requires TypeOf(data) == CON
    ensures OnSchedule(FirstSent(id, data, handler, at, draw), at, at, late)
  {
    WaitInRange(0, draw);
    AddTickOfTrueTime(at, TransmitTimeout(0, draw));
  }

  lemma SpacedExtends(sentAt: seq<nat>, at: nat, late: nat)
    requires Spaced(sentAt, late) && sentAt != []
    requires var k := |sentAt| - 1; 4000 * Pow2(k) <= at - sentAt[k] < 6000 * Pow2(k) + late
    ensures Spaced(sentAt + [at], late)
  {
    var next := sentAt + [at];
    forall k | 0 <= k < |next| - 1
      ensures 4000 * Pow2(k) <= next[k + 1] - next[k] < 6000 * Pow2(k) + late
    {
      if k < |sentAt| - 1 {
        assert next[k + 1] == sentAt[k + 1];
      }
    }
  }

  lemma ResendKeepsSchedule(l: Life, start: nat, now: nat, late: nat, p: Poll)
    requires OnSchedule(l, start, now, late)
    requires l.Waiting? && Resends(l.entry, ToTick(p.at)) && now <= p.at && l.deadline <= p.at <= l.deadline + late
    ensures OnSchedule(Polled(l, p), start, p.at, late)
  {
    hide TransmitTimeout, AddTick, ToTick, Spaced, TimeHasPassed;
    var wait := TransmitTimeout(l.entry.count, p.draw);
    WaitInRange(l.entry.count, p.draw);
    AddTickOfTrueTime(p.at, wait);
    SpacedExtends(l.sentAt, p.at, late);
    var next := Polled(l, p);
    assert next.sentAt == l.sentAt + [p.at] && next.deadline == p.at + wait && next.entry.count == l.entry.count + 1;
    assert next.entry.timeout == ToTick(next.deadline);
  }

  lemma PollKeepsSchedule(l: Life, start: nat, now: nat, late: nat, p: Poll)
    requires OnSchedule(l, start, now, late) && late < 0x4000_0000
    requires now <= p.at && (l.Waiting? ==> p.at <= l.deadline + late)
    ensures OnSchedule(Polled(l, p), start, p.at, late)
  {
    Pow2Values();
    if l.Waiting? {
      assert l.deadline - p.at < 48000;
      TimeHasPassedIsTrueOrder(p.at, l.deadline);
      if Resends(l.entry, ToTick(p.at)) {
        ResendKeepsSchedule(l, start, now, late, p);
      }
    }
  }

  lemma {:induction false} RunsOnSchedule(l: Life, start: nat, polls: seq<Poll>, late: nat)
    requires OnSchedule(l, start, start, late) && late < 0x4000_0000
    requires Punctual(l, start, polls, late)
    ensures OnSchedule(After(l, polls), start, LastTime(start, polls), late)
  {
    if polls == [] {
    } else {
      var p, earlier := polls[|polls| - 1], polls[..|polls| - 1];
      RunsOnSchedule(l, start, earlier, late);
      PollKeepsSchedule(After(l, earlier), start, LastTime(start, earlier), late, p);
    }
  }

  /** For every run of polls that is never more than `late` behind a deadline: at most four
      transmissions, doubling waits, first to last transmission in less than 42 s (+ 3 late), and
      failure between 60 s and 90 s (+ 4 late) after the first transmission. Polling within a
      second of each deadline keeps every transmission within `MAX_TRANSMIT_SPAN`. */
  lemma RetransmissionSchedule(id: MessageId, data: seq<byte>, handler: Option<nat>, start: nat, draw: byte,
                               polls: seq<Poll>, late: nat)
    requires TypeOf(data) == CON && late < 0x4000_0000
    requires Punctual(FirstSent(id, data, handler, start, draw), start, polls, late)
    ensures var l := After(FirstSent(id, data, handler, start, draw), polls);
            && 1 <= |l.sentAt| <= 4 && l.sentAt[0] == start && Spaced(l.sentAt, late)
            && l.sentAt[|l.sentAt| - 1] - start < 42000 + 3 * late
            && (late <= 1000 ==> l.sentAt[|l.sentAt| - 1] - start <= MAX_TRANSMIT_SPAN)
            && (l.GivenUp? ==> |l.sentAt| == 4 && 60000 <= l.at - start < 90000 + 4 * late)
  {
    SentOnSchedule(id, data, handler, start, draw, late);
    RunsOnSchedule(FirstSent(id, data, handler, start, draw), start, polls, late);
    Pow2Values();
    var s := After(FirstSent(id, data, handler, start, draw), polls).sentAt;
    assert |s| > 1 ==> 4000 <= s[1] - s[0] < 6000 + late;
    assert |s| > 2 ==> 8000 <= s[2] - s[1] < 12000 + late;
    assert |s| > 3 ==> 16000 <= s[3] - s[2] < 24000 + late;
  }

  /** However irregular the polling, a message is never transmitted more than four times. */
  lemma {:induction false} AtMostFourTransmissions(id: MessageId, data: seq<byte>, handler: Option<nat>, start: nat,
                                                   draw: byte, polls: seq<Poll>)
    ensures var l := After(FirstSent(id, data, handler, start, draw), polls);
            |l.sentAt| <= 4 && (l.Waiting? ==> l.entry.count == |l.sentAt|)
  {
    if polls == [] {
    } else {
      AtMostFourTransmissions(id, data, handler, start, draw, polls[..|polls| - 1]);
    }
  }

  /** Polling at least every `late` ms is punctual. */
  lemma {:induction false} RegularIsPunctual(id: MessageId, data: seq<byte>, handler: Option<nat>, start: nat, draw: byte,
                                             polls: seq<Poll>, late: nat)
    requires TypeOf(data) == CON && late < 0x4000_0000
    requires forall i :: 0 <= i < |polls| ==> LastTime(start, polls[..i]) <= polls[i].at <= LastTime(start, polls[..i]) + late
    ensures Punctual(FirstSent(id, data, handler, start, draw), start, polls, late)
    ensures var l := After(FirstSent(id, data, handler, start, draw), polls);
            l.Waiting? ==> LastTime(start, polls) <= l.deadline
  {
    var l := FirstSent(id, data, handler, start, draw);
    if polls == [] {
      WaitInRange(0, draw);
    } else {
      var n := |polls| - 1;
      var earlier, p := polls[..n], polls[n];
      forall i | 0 <= i < n
        ensures LastTime(start, earlier[..i]) <= earlier[i].at <= LastTime(start, earlier[..i]) + late
      {
        assert earlier[..i] == polls[..i] && earlier[i] == polls[i];
      }
      RegularIsPunctual(id, data, handler, start, draw, earlier, late);
      SentOnSchedule(id, data, handler, start, draw, late);
      RunsOnSchedule(l, start, earlier, late);
      var before := After(l, earlier);
      PollSettles(before, start, LastTime(start, earlier), late, p);
    }
  }

  /** After a poll the deadline lies ahead. */
  lemma PollSettles(l: Life, start: nat, now: nat, late: nat, p: Poll)
    requires OnSchedule(l, start, now, late) && late < 0x4000_0000
    requires now <= p.at && (l.Waiting? ==> p.at <= l.deadline + late)
    ensures Polled(l, p).Waiting? ==> p.at <= Polled(l, p).deadline
  {
    if l.Waiting? {
      Pow2Values();
      TimeHasPassedIsTrueOrder(p.at, l.deadline);
    }
  }
}
