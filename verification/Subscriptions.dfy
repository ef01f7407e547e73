/** `Subscriptions`: the table of five event handlers, and the dispatch of an event to them. */
module Subscriptions {
  import opened Basics
  import CoapHeader
  import EventCodec
  import EventModel

  const SLOTS: nat := 5
  const FILTER_SIZE: nat := 64
  const DEVICE_ID_SIZE: nat := 13

  datatype Scope = MyDevices | Firehose

  /** `FilteringEventHandler`. Texts are what precedes their zero byte; 0 stands for a null pointer. */
  datatype Handler = Handler(filter: seq<byte>, handler: nat, data: nat, scope: Scope, device: seq<byte>)

  /** A slot after `memset`. */
  const EMPTY: Handler := Handler([], 0, 0, MyDevices, [])

  /** What `add_event_handler` is called with. */
  datatype Request = Request(name: seq<byte>, handler: nat, data: nat, scope: Scope, id: Option<seq<byte>>)

  // ---- The table as a list -------------------------------------------------------------------

  function IdOf(r: Request): seq<byte> {
    if r.id.None? then []
    else if |r.id.value| < DEVICE_ID_SIZE then r.id.value
    else r.id.value[..DEVICE_ID_SIZE - 1]
  }

  /** The slot a request fills. */
  function SlotOf(r: Request): Handler
    requires |r.name| < FILTER_SIZE
  {
    Handler(r.name, r.handler, r.data, r.scope, IdOf(r))
  }

  /** The slot `event_handler_exists` decides on: the first with the handler, data and scope of the
      request whose filter begins with the requested name. */
  predicate Decides(h: Handler, r: Request) {
    h.handler == r.handler && h.data == r.data && h.scope == r.scope && r.name <= h.filter
  }

  predicate SameDevice(h: Handler, r: Request) {
    if IdOf(r) != [] then IdOf(r) <= h.device else h.device == []
  }

  /** `event_handler_exists`. */
  function Exists(used: seq<Handler>, r: Request): bool {
    if used == [] then false
    else if Decides(used[0], r) then SameDevice(used[0], r)
    else Exists(used[1..], r)
  }

  /** The handlers that stay when those of a name are removed; all go if there is no name. */
  function Kept(used: seq<Handler>, name: Option<seq<byte>>): seq<Handler> {
    if used == [] || name.None? then []
    else
      var rest := Kept(used[..|used| - 1], name);
      if used[|used| - 1].filter == name.value then rest else rest + [used[|used| - 1]]
  }

  datatype Op = Add(request: Request) | Remove(name: Option<seq<byte>>)

  /** What the callers promise: a handler, and a filter shorter than its field. */
  predicate Proper(r: Request) {
    r.handler != 0 && |r.name| < FILTER_SIZE
  }

  predicate ProperOp(op: Op) {
    op.Add? ==> Proper(op.request)
  }

  /** The list of used slots after one operation. */
  function Apply(used: seq<Handler>, op: Op): seq<Handler>
    requires ProperOp(op)
  {
    match op
    case Add(r) => if Exists(used, r) || |used| >= SLOTS then used else used + [SlotOf(r)]
    case Remove(name) => Kept(used, name)
  }

  function Run(ops: seq<Op>): seq<Handler>
    requires forall op <- ops :: ProperOp(op)
  {
    if ops == [] then [] else Apply(Run(ops[..|ops| - 1]), ops[|ops| - 1])
  }

  /** A table that holds the list in its first slots and nothing behind. */
  ghost predicate Holds(table: seq<Handler>, used: seq<Handler>) {
    && |table| == SLOTS && |used| <= SLOTS
    && (forall i :: 0 <= i < |used| ==> table[i] == used[i] && used[i].handler != 0)
    && (forall i :: |used| <= i < SLOTS ==> table[i] == EMPTY)
  }

  // ---- The table -----------------------------------------------------------------------------

  /** What others see of `handle_event`: the empty acknowledgement of message `id`, and the calls of
      handlers with name and data of the event. */
  datatype Effect = Acknowledged(id: nat) | Called(handler: Handler, event: EventModel.Event)

  /** The channel an event came by, and the handlers behind the table. `fits` says whether the buffer has
      room for a response, each time it is asked. */
  class Channel {
    const unreliable: bool
    const fits: nat -> bool
    const sendError: nat -> ProtocolError
    var asked: nat
    var sent: nat
    var log: seq<Effect>

    constructor (unreliable: bool, fits: nat -> bool, sendError: nat -> ProtocolError)
      ensures this.unreliable == unreliable && this.fits == fits && this.sendError == sendError
      ensures asked == 0 && sent == 0 && log == []
    {
      this.unreliable, this.fits, this.sendError := unreliable, fits, sendError;
      asked, sent, log := 0, 0, [];
    }

    method Response() returns (ok: bool)
      modifies this`asked
      ensures ok == fits(old(asked)) && asked == old(asked) + 1
    {
      ok := fits(asked);
      asked := asked + 1;
    }

    method Send(e: Effect) returns (error: ProtocolError)
      modifies this`sent, this`log
      ensures error == sendError(old(sent)) && sent == old(sent) + 1 && log == old(log) + [e]
    {
      error := sendError(sent);
      sent := sent + 1;
      log := log + [e];
    }

    method Log(e: Effect)
      modifies this`log
      ensures log == old(log) + [e]
    {
      log := log + [e];
    }
  }

  class Table {
    const handlers: array<Handler>
    ghost var used: seq<Handler>

    ghost predicate Valid()
      reads this, handlers
    {
      Holds(handlers[..], used)
    }

    constructor ()
      ensures Valid() && used == [] && fresh(handlers)
    {
      handlers := new Handler[SLOTS](_ => EMPTY);
      used := [];
    }

    /** `event_handler_exists`. */
    method HandlerExists(r: Request) returns (known: bool)
      requires Valid() && Proper(r)
      ensures known == Exists(used, r)
    {
      var i: nat := 0;
      while i < SLOTS
        invariant i <= SLOTS
        invariant i <= |used| ==> Exists(used, r) == Exists(used[i..], r)
        invariant i > |used| ==> !Exists(used, r)
      {
        if Decides(handlers[i], r) {
          return SameDevice(handlers[i], r);
        }
        i := i + 1;
      }
      return false;
    }

    /** `add_event_handler`. */
    method AddEventHandler(r: Request) returns (error: ProtocolError)
      requires Valid() && Proper(r)
      modifies this, handlers
      ensures Valid() && used == Apply(old(used), Add(r))
      ensures error == if Exists(old(used), r) || |old(used)| < SLOTS then NoError else InsufficientStorage
    {
      var known := HandlerExists(r);
      if known {
        return NoError;
      }
      var i: nat := 0;
      while i < SLOTS
        invariant i <= |used|
      {
        if handlers[i].handler == 0 {
          handlers[i] := SlotOf(r);
          used := used + [SlotOf(r)];
          return NoError;
        }
        i := i + 1;
      }
      return InsufficientStorage;
    }

    /** `remove_event_handlers`: moves the handlers that stay to the front. */
    method RemoveEventHandlers(name: Option<seq<byte>>)
      requires Valid()
      modifies this, handlers
      ensures Valid() && used == Apply(old(used), Remove(name))
    {
      hide Kept;
      ghost var b := handlers[..];
      if name.None? {
        forall i | 0 <= i < SLOTS {
          handlers[i] := EMPTY;
        }
        NoneKept(used);
        used := [];
        return;
      }
      var dest: nat := 0;
      var i: nat := 0;
      KeptOfNone(b, name);
      while i < SLOTS
        invariant dest <= i <= SLOTS && used == old(used)
        invariant handlers[..dest] == Kept(b[..i], name)
        invariant forall k :: dest <= k < i ==> handlers[k] == EMPTY
        invariant forall k :: i <= k < SLOTS ==> handlers[k] == b[k]
      {
        KeptOneMore(b, i, name);
        ghost var front := handlers[..dest];
        if name.value == handlers[i].filter {
          handlers[i] := EMPTY;
          assert handlers[..dest] == front;
        } else {
          if dest != i {
            handlers[dest] := handlers[i];
            handlers[i] := EMPTY;
          }
          assert handlers[..dest + 1] == front + [b[i]];
          dest := dest + 1;
        }
        i := i + 1;
      }
      assert b[..i] == b;
      KeptHolds(b, used, name, handlers[..], dest);
      used := Kept(used, name);
    }

    /** The loop of `handle_event` over the table. `calls` are the slots called, in the order of the
        calls. */
    method Dispatch(event: EventModel.Event, channel: Channel) returns (ghost calls: seq<nat>)
      requires Valid()
      modifies channel`log
      ensures Calls(used, event.name, calls)
      ensures channel.log == old(channel.log) + CallsLogged(used, event, calls)
    {
      calls := [];
      var i: nat := 0;
      while i < SLOTS
        invariant i <= |used| && i <= SLOTS
        invariant Calls(used[..i], event.name, calls) && forall k :: 0 <= k < |calls| ==> calls[k] < |used|
        invariant channel.log == old(channel.log) + CallsLogged(used, event, calls)
      {
        var h := handlers[i];
        if h.handler == 0 {
          break;
        }
        if |h.filter| <= |event.name| && h.filter == event.name[..|h.filter|] {
          channel.Log(Called(h, event));
          OneMoreCall(used, event, calls, i, old(channel.log));
          calls := calls + [i];
        }
        i := i + 1;
      }
      assert used[..i] == used;
    }

    /** `handle_event`: acknowledges a confirmable event on an unreliable channel first, if the response
        fits, and stops if that fails; then takes the event from the message and calls the handlers. */
    method HandleEvent(queue: array<byte>, end: nat, id: nat, channel: Channel)
      returns (error: ProtocolError, ghost calls: seq<nat>)
      requires Valid() && EventModel.EventFits(queue[..], end)
      modifies queue, channel
      ensures var before, event := old(channel.log), EventModel.EventOf(old(queue[..]), end);
              var answers := IsCon(old(queue[0])) && channel.unreliable;
              var acknowledges := answers && channel.fits(old(channel.asked));
              var sendError := if acknowledges then channel.sendError(old(channel.sent)) else NoError;
              var log := if acknowledges then before + [Acknowledged(id)] else before;
              && channel.asked == old(channel.asked) + (if answers then 1 else 0)
              && channel.sent == old(channel.sent) + (if acknowledges then 1 else 0)
              && (sendError != NoError ==> error == sendError && channel.log == log && queue[..] == old(queue[..]))
              && (sendError == NoError && event.None? ==> error == MalformedMessage && channel.log == log)
              && (sendError == NoError && event.Some? ==>
                    && error == NoError && Calls(used, event.value.name, calls)
                    && channel.log == log + CallsLogged(used, event.value, calls))
    {
      hide Holds, EventModel.EventOf, Calls, CallsLogged;
      calls := [];
      if IsCon(queue[0]) && channel.unreliable {
        var fits := channel.Response();
        if fits {
          error := channel.Send(Acknowledged(id));
          if error != NoError {
            return;
          }
        }
      }
      ghost var nameAt, dataAt;
      var event;
      event, nameAt, dataAt := EventCodec.ParseEvent(queue, end);
      if event.None? {
        return MalformedMessage, [];
      }
      calls := Dispatch(event.value, channel);
      return NoError, calls;
    }
  }

  /** The type field of the first header byte. */
  predicate IsCon(first: byte) {
    first / 16 % 4 == 0
  }

  /** An event is acknowledged if its header, read by RFC 7252, says confirmable. */
  lemma IsConReadsTheHeader(b: seq<byte>)
    requires |b| >= 4
    ensures IsCon(b[0]) <==> CoapHeader.ReadHeader(b).kind == CoapHeader.Confirmable
  {
  }

  /** Exactly the handlers whose filter the name begins with, once each, in slot order. */
  ghost predicate Calls(used: seq<Handler>, name: seq<byte>, calls: seq<nat>) {
    && (forall k :: 0 <= k < |calls| ==> calls[k] < |used| && used[calls[k]].filter <= name)
    && (forall k, l :: 0 <= k < l < |calls| ==> calls[k] < calls[l])
    && (forall i :: 0 <= i < |used| && used[i].filter <= name ==> i in calls)
  }

  /** The calls of those slots as effects. */
  ghost function CallsLogged(used: seq<Handler>, event: EventModel.Event, calls: seq<nat>): (r: seq<Effect>)
    requires forall k :: 0 <= k < |calls| ==> calls[k] < |used|
    ensures |r| == |calls| && forall k :: 0 <= k < |r| ==> r[k] == Called(used[calls[k]], event)
  {
    seq(|calls|, k requires 0 <= k < |calls| => Called(used[calls[k]], event))
  }

  lemma OneMoreCall(used: seq<Handler>, event: EventModel.Event, calls: seq<nat>, i: nat, before: seq<Effect>)
    requires i < |used| && forall k :: 0 <= k < |calls| ==> calls[k] < |used|
    ensures before + CallsLogged(used, event, calls) + [Called(used[i], event)]
            == before + CallsLogged(used, event, calls + [i])
  {
  }

  // ---- Removal is a stable filter ------------------------------------------------------------

  lemma NoneKept(used: seq<Handler>)
    ensures Kept(used, None) == []
  {
  }

  lemma KeptOfNone(b: seq<Handler>, name: Option<seq<byte>>)
    ensures Kept(b[..0], name) == []
  {
  }

  lemma KeptOneMore(b: seq<Handler>, i: nat, name: Option<seq<byte>>)
    requires i < |b| && name.Some?
    ensures Kept(b[..i + 1], name) == if b[i].filter == name.value then Kept(b[..i], name) else Kept(b[..i], name) + [b[i]]
  {
    assert b[..i + 1][..i] == b[..i];
  }

  /** The table behind the used slots is empty, and so it stays. */
  lemma {:induction false} KeptOfTable(b: seq<Handler>, used: seq<Handler>, name: Option<seq<byte>>, n: nat)
    requires Holds(b, used) && |used| <= n <= SLOTS && name.Some?
    ensures var k, ks := Kept(used, name), Kept(b[..n], name);
            && |k| <= |ks| <= n && ks[..|k|] == k && forall i :: |k| <= i < |ks| ==> ks[i] == EMPTY
    ensures forall i :: 0 <= i < |Kept(used, name)| ==> Kept(used, name)[i].handler != 0
    decreases n
  {
    hide Kept;
    if n == |used| {
      assert b[..n] == used;
      KeptUsed(used, name);
    } else {
      KeptOfTable(b, used, name, n - 1);
      KeptOneMore(b, n - 1, name);
    }
  }

  lemma {:induction false} KeptUsed(used: seq<Handler>, name: Option<seq<byte>>)
    requires forall i :: 0 <= i < |used| ==> used[i].handler != 0
    ensures |Kept(used, name)| <= |used|
    ensures forall i :: 0 <= i < |Kept(used, name)| ==> Kept(used, name)[i].handler != 0
  {
    if used == [] {
    } else {
      KeptUsed(used[..|used| - 1], name);
    }
  }

  lemma KeptHolds(b: seq<Handler>, used: seq<Handler>, name: Option<seq<byte>>, after: seq<Handler>, dest: nat)
    requires Holds(b, used) && name.Some? && |after| == SLOTS && dest <= SLOTS
    requires after[..dest] == Kept(b, name)
    requires forall k :: dest <= k < SLOTS ==> after[k] == EMPTY
    ensures Holds(after, Kept(used, name))
  {
    hide Kept;
    KeptOfTable(b, used, name, SLOTS);
    assert b[..SLOTS] == b;
    var k := Kept(used, name);
    assert forall i :: 0 <= i < dest ==> after[i] == after[..dest][i];
    assert forall i :: 0 <= i < |k| ==> k[i] == after[..dest][..|k|][i];
  }

  /** The handlers that stay keep their order. */
  lemma {:induction false} KeptInOrder(used: seq<Handler>, name: seq<byte>) returns (from: seq<nat>)
    ensures var k := Kept(used, Some(name));
            && |from| == |k|
            && (forall i :: 0 <= i < |from| ==> from[i] < |used| && k[i] == used[from[i]])
            && (forall i, j :: 0 <= i < j < |from| ==> from[i] < from[j])
    ensures forall i :: 0 <= i < |used| ==> (i in from <==> used[i].filter != name)
  {
    if used == [] {
      return [];
    }
    var n := |used| - 1;
    from := KeptInOrder(used[..n], name);
    assert forall i :: 0 <= i < n ==> used[..n][i] == used[i];
    if used[n].filter != name {
      from := from + [n];
    }
  }

  // ---- Runs ----------------------------------------------------------------------------------

  /** Whether an operation takes a handler out. */
  predicate Removes(op: Op, h: Handler) {
    op.Remove? && (op.name.None? || op.name.value == h.filter)
  }

  /** Whether an operation puts a handler in. */
  predicate Inserts(used: seq<Handler>, op: Op, h: Handler)
    requires ProperOp(op)
  {
    op.Add? && !Exists(used, op.request) && |used| < SLOTS && h == SlotOf(op.request)
  }

  /** Removal takes out exactly the handlers of the name. */
  lemma {:induction false} KeptIff(used: seq<Handler>, name: Option<seq<byte>>, h: Handler)
    ensures h in Kept(used, name) <==> h in used && !Removes(Remove(name), h)
  {
    if used == [] || name.None? {
    } else {
      var n := |used| - 1;
      KeptIff(used[..n], name, h);
      assert used == used[..n] + [used[n]];
    }
  }

  lemma ApplyIff(used: seq<Handler>, op: Op, h: Handler)
    requires ProperOp(op)
    ensures h in Apply(used, op) <==> (h in used && !Removes(op, h)) || Inserts(used, op, h)
  {
    hide Kept;
    if op.Remove? {
      KeptIff(used, op.name, h);
    }
  }

  /** What was inserted at step `k` is there after step `n`. */
  ghost predicate LiveSince(ops: seq<Op>, n: nat, k: nat, h: Handler)
    requires k < n <= |ops| && forall op <- ops :: ProperOp(op)
  {
    && Inserts(Run(ops[..k]), ops[k], h)
    && forall j :: k < j < n ==> !Removes(ops[j], h)
  }

  /** After any run, the table holds exactly the handlers that some step inserted and no later step
      removed. */
  lemma {:induction false} RunHolds(ops: seq<Op>, n: nat, h: Handler)
    requires n <= |ops| && forall op <- ops :: ProperOp(op)
    ensures h in Run(ops[..n]) <==> exists k: nat :: k < n && LiveSince(ops, n, k, h)
    decreases n
  {
    hide Apply, Inserts, Removes;
    if n == 0 {
    } else {
      RunHolds(ops, n - 1, h);
      assert ops[..n][..n - 1] == ops[..n - 1];
      ApplyIff(Run(ops[..n - 1]), ops[n - 1], h);
      if k: nat :| k < n && LiveSince(ops, n, k, h) {
        if k < n - 1 {
          assert LiveSince(ops, n - 1, k, h);
        }
      }
      if h in Run(ops[..n]) {
        if Inserts(Run(ops[..n - 1]), ops[n - 1], h) {
          assert LiveSince(ops, n, n - 1, h);
        } else {
          var k: nat :| k < n - 1 && LiveSince(ops, n - 1, k, h);
          assert LiveSince(ops, n, k, h);
        }
      }
    }
  }

  /** After any run of additions and removals, an event calls a handler exactly if some step inserted
      it, no later step removed it, and the event's name begins with its filter. */
  lemma DispatchAfterRun(ops: seq<Op>, name: seq<byte>, calls: seq<nat>, h: Handler)
    requires forall op <- ops :: ProperOp(op)
    requires Calls(Run(ops), name, calls)
    ensures (exists i :: i in calls && i < |Run(ops)| && Run(ops)[i] == h) <==>
            h.filter <= name && exists k: nat :: k < |ops| && LiveSince(ops, |ops|, k, h)
  {
    hide Run, LiveSince;
    var used := Run(ops);
    assert ops[..|ops|] == ops;
    RunHolds(ops, |ops|, h);
    if h.filter <= name && h in used {
      var i :| 0 <= i < |used| && used[i] == h;
      assert i in calls;
    }
    if i :| i in calls && i < |used| && used[i] == h {
      var k :| 0 <= k < |calls| && calls[k] == i;
    }
  }

  // ---- What counts as known ------------------------------------------------------------------

  /** A handler is added behind the others whenever there is a free slot and no slot with the same handler,
      data and scope has a filter that begins with its name. It keeps at most the first twelve bytes of the
      device id. */
  lemma {:induction false} AnotherIsAdded(used: seq<Handler>, r: Request)
    requires Proper(r) && |used| < 5
    requires forall h <- used :: h.handler != r.handler || h.data != r.data || h.scope != r.scope || !(r.name <= h.filter)
    ensures var id := if r.id.Some? then r.id.value else [];
            Apply(used, Add(r)) == used + [Handler(r.name, r.handler, r.data, r.scope, if |id| > 12 then id[..12] else id)]
  {
    NoneDecides(used, r);
  }

  lemma {:induction false} NoneDecides(used: seq<Handler>, r: Request)
    requires forall h <- used :: !Decides(h, r)
    ensures !Exists(used, r)
  {
    if used == [] {
    } else {
      assert used[0] in used && forall h <- used[1..] :: h in used;
      NoneDecides(used[1..], r);
    }
  }

  /** The first slot with the same handler, data and scope and a filter that begins with the name decides:
      the handler is known exactly if the slot is for all devices and the request too, or its device begins
      with the one requested; a known one changes nothing. */
  lemma {:induction false} FirstDecides(used: seq<Handler>, r: Request, k: nat)
    requires Proper(r) && k < |used| <= 5
    requires var h := used[k]; h.handler == r.handler && h.data == r.data && h.scope == r.scope && r.name <= h.filter
    requires forall h <- used[..k] :: h.handler != r.handler || h.data != r.data || h.scope != r.scope || !(r.name <= h.filter)
    ensures var known := if IdOf(r) == [] then used[k].device == [] else IdOf(r) <= used[k].device;
            Apply(used, Add(r)) == if known || |used| == 5 then used else used + [SlotOf(r)]
  {
    FirstFound(used, r, k);
  }

  lemma {:induction false} FirstFound(used: seq<Handler>, r: Request, k: nat)
    requires k < |used| && Decides(used[k], r) && forall h <- used[..k] :: !Decides(h, r)
    ensures Exists(used, r) == SameDevice(used[k], r)
    decreases k
  {
    if k == 0 {
    } else {
      assert used[0] == used[..k][0] && used[0] in used[..k];
      assert used[1..][..k - 1] == used[..k][1..];
      FirstFound(used[1..], r, k - 1);
    }
  }

  // ---- Adding twice --------------------------------------------------------------------------

  /** A slot behind all others decides only if none before it does. */
  lemma {:induction false} ExistsAppended(used: seq<Handler>, h: Handler, r: Request)
    ensures Exists(used + [h], r) == if exists x <- used :: Decides(x, r) then Exists(used, r) else Decides(h, r) && SameDevice(h, r)
  {
    hide Decides, SameDevice;
    if used != [] {
      ExistsAppended(used[1..], h, r);
      assert (used + [h])[1..] == used[1..] + [h];
      assert forall x :: x in used <==> x == used[0] || x in used[1..];
    } else {
      assert (used + [h])[1..] == [];
    }
  }

  lemma OwnSlotDecides(r: Request)
    requires Proper(r)
    ensures Decides(SlotOf(r), r) && SameDevice(SlotOf(r), r)
  {
  }

  /** Adding the same handler again changes nothing exactly if it was known already, or the table is full
      by then, or no slot with the same handler, data and scope has a filter that begins with the name.
      Otherwise such a slot decides alone, for another device, and the handler fills a second slot. */
  lemma AddingTwiceIsOnceIff(used: seq<Handler>, r: Request)
    requires Proper(r) && |used| <= SLOTS
    ensures Apply(Apply(used, Add(r)), Add(r)) == Apply(used, Add(r)) <==>
            Exists(used, r) || |used| + 1 >= SLOTS || forall h <- used :: !Decides(h, r)
  {
    hide Exists, Decides, SameDevice;
    ExistsAppended(used, SlotOf(r), r);
    OwnSlotDecides(r);
    var once := used + [SlotOf(r)];
    assert |once + [SlotOf(r)]| != |once|;
  }

  /** The case does occur: a handler for "ab" and one device, then one for "a" and another device, added
      twice, in a table that began empty. */
  lemma AddingTwiceCanDuplicate()
    ensures exists ops: seq<Op>, r ::
              && (forall op <- ops :: ProperOp(op)) && Proper(r)
              && Apply(Apply(Run(ops), Add(r)), Add(r)) == Run(ops) + [SlotOf(r), SlotOf(r)]
  {
    var first := Request([97, 98], 1, 0, MyDevices, Some([1]));
    var r := Request([97], 1, 0, MyDevices, Some([2]));
    var ops := [Add(first)];
    var h := SlotOf(first);
    assert ops[..0] == [] && Run([]) == [];
    assert Run(ops) == [h];
    assert IdOf(r) == [2] && IdOf(r)[0] != h.device[0];
    assert r.name[0] == h.filter[0] && Decides(h, r) && !SameDevice(h, r);
    assert Apply([h], Add(r)) == [h, SlotOf(r)];
    assert Apply([h, SlotOf(r)], Add(r)) == [h] + [SlotOf(r), SlotOf(r)];
  }
}
