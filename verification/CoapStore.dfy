/** `CoAPMessageStore`: a singly linked list of heap nodes, updated in place. Every method is tied
    to the value-level operation of CoapModel through `View()`. */
module CoapStore {
  import opened Basics
  import opened Ticks
  import opened CoapTypes
  import opened CoapModel
  import opened CoapInvariants
  import opened CoapSync
  import opened CoapWait

  // ---- The channel under the store -----------------------------------------------------------

  /** The transport below the store, with the clock, the random source and the allocator. */
  class Channel {
    const oracle: Oracle
    var world: World

    constructor (oracle: Oracle, world: World)
      ensures this.oracle == oracle && this.world == world
    {
      this.oracle, this.world := oracle, world;
    }

    method Send(frame: seq<byte>) returns (error: ProtocolError)
      modifies this
      ensures world == old(world).Sending(frame)
      ensures error == oracle.sendError(old(world).sent)
    {
      error := oracle.sendError(world.sent);
      world := world.Sending(frame);
    }

    method Receive(msg: Message) returns (error: ProtocolError)
      requires msg as object != this
      modifies this, msg
      ensures world == ReceivedFrom(oracle, old(world))
      ensures error == oracle.arrival(old(world).taken).error
      ensures msg.data == oracle.arrival(old(world).taken).data
      ensures msg.id == old(msg.id) && msg.confirm == old(msg.confirm)
    {
      var arrival := oracle.arrival(world.taken);
      error := arrival.error;
      msg.data := arrival.data;
      world := ReceivedFrom(oracle, world);
    }

    method Millis() returns (now: Tick)
      modifies this
      ensures now == ToTick(oracle.clock(old(world).readings))
      ensures world == old(world).(readings := old(world).readings + 1)
    {
      now := ToTick(oracle.clock(world.readings));
      world := world.(readings := world.readings + 1);
    }

    method Random() returns (r: byte)
      modifies this
      ensures r == oracle.draw(old(world).drawn) && world == old(world).Draw()
    {
      r := oracle.draw(world.drawn);
      world := world.Draw();
    }

    method Allocate() returns (ok: bool)
      modifies this
      ensures ok == oracle.room(old(world).allocations)
      ensures world == old(world).(allocations := old(world).allocations + 1)
    {
      ok := oracle.room(world.allocations);
      world := world.(allocations := world.allocations + 1);
    }
  }

  /** The caller's message: its bytes, its id (-1 when unset), and whether it is sent synchronously. */
  class Message {
    var data: seq<byte>
    var id: int
    var confirm: bool

    constructor (data: seq<byte>, id: int, confirm: bool)
      ensures this.data == data && this.id == id && this.confirm == confirm
    {
      this.data, this.id, this.confirm := data, id, confirm;
    }

    method DecodeId() returns (decoded: bool)
      modifies this`id
      ensures decoded == (|data| >= 4)
      ensures id == if decoded then HeaderId(data) else old(id)
    {
      decoded := |data| >= 4;
      if decoded {
        id := HeaderId(data);
      }
    }
  }

  // ---- One node ------------------------------------------------------------------------------

  class CoAPMessage {
    var next: CoAPMessage?
    var timeout: Tick
    const id: MessageId
    var transmitCount: nat
    var delivered: Option<nat>
    const data: seq<byte>

    constructor (id: MessageId, data: seq<byte>)
      ensures next == null && View() == Entry(id, 0, 0, None, data)
    {
      next, timeout, transmitCount, delivered := null, 0, 0, None;
      this.id, this.data := id, data;
    }

    /** `create`: null when the allocator has no room; counts the new message as live. */
    static method Create(id: MessageId, data: seq<byte>, channel: Channel) returns (m: CoAPMessage?)
      modifies channel
      ensures (m != null) == channel.oracle.room(old(channel.world).allocations)
      ensures var w := old(channel.world).(allocations := old(channel.world).allocations + 1);
              channel.world == if m != null then w.Created() else w
      ensures m != null ==> fresh(m) && m.next == null && m.View() == Entry(id, 0, 0, None, data)
    {
      var room := channel.Allocate();
      if !room {
        return null;
      }
      m := new CoAPMessage(id, data);
      channel.world := channel.world.Created();
    }

    function View(): Entry
      reads this`timeout, this`transmitCount, this`delivered
    {
      Entry(id, timeout, transmitCount, delivered, data)
    }

    method PrepareRetransmit(now: Tick, channel: Channel) returns (again: bool)
      modifies this`timeout, this`transmitCount, channel
      ensures TypeOf(data) != CON ==>
                !again && channel.world == old(channel.world) && View() == old(View())
      ensures TypeOf(data) == CON ==>
                && again == (old(transmitCount) + 1 <= MAX_RETRANSMIT + 1)
                && channel.world == old(channel.world).Draw()
                && timeout == AddTick(now, TransmitTimeout(old(transmitCount), channel.oracle.draw(old(channel.world).drawn)))
                && transmitCount == old(transmitCount) + 1
    {
      if TypeOf(data) == CON {
        var draw := channel.Random();
        timeout := AddTick(now, TransmitTimeout(transmitCount, draw));
        transmitCount := transmitCount + 1;
        return transmitCount <= MAX_RETRANSMIT + 1;
      }
      return false;
    }

    method SetExpiration(time: Tick)
      modifies this`timeout, this`transmitCount
      ensures timeout == time && transmitCount == MAX_RETRANSMIT + 2
    {
      timeout, transmitCount := time, MAX_RETRANSMIT + 2;
    }
  }

  /** The node at index `i`, null past the end. */
  function NodeAt(nodes: seq<CoAPMessage>, i: nat): CoAPMessage? {
    if i < |nodes| then nodes[i] else null
  }

  /** The node before index `i`, null at the front. */
  function NodeBefore(nodes: seq<CoAPMessage>, i: nat): CoAPMessage? {
    if 0 < i <= |nodes| then nodes[i - 1] else null
  }

  /** What the nodes show, in order; it does not depend on how they are linked. */
  function Views(nodes: seq<CoAPMessage>): (es: seq<Entry>)
    reads nodes
    ensures |es| == |nodes| && forall i {:trigger es[i]} :: 0 <= i < |nodes| ==> es[i] == nodes[i].View()
  {
    seq(|nodes|, i requires 0 <= i < |nodes| reads nodes => nodes[i].View())
  }

  /** A sequence without its element at one index. */
  function Cut<T>(s: seq<T>, at: nat): (r: seq<T>)
    requires at < |s|
    ensures |r| == |s| - 1
    ensures forall i :: 0 <= i < |r| ==> r[i] == if i < at then s[i] else s[i + 1]
  {
    seq(|s| - 1, i requires 0 <= i < |s| - 1 => if i < at then s[i] else s[i + 1])
  }

  lemma CutAt<T>(s: seq<T>, at: nat, i: nat)
    requires at < |s| && i < |s| - 1
    ensures Cut(s, at)[i] == if i < at then s[i] else s[i + 1]
  {
  }

  lemma NeighboursOf(nodes: seq<CoAPMessage>, at: nat)
    requires at < |nodes|
    ensures NodeAt(nodes, at) == nodes[at] && (at > 0 ==> NodeAt(nodes, at - 1) == nodes[at - 1])
  {
  }

  lemma CutKeepsIds(nodes: seq<CoAPMessage>, at: nat, repr: set<CoAPMessage>)
    requires at < |nodes| && forall i :: 0 <= i < |nodes| ==> nodes[i] in repr
    requires forall i, j {:trigger nodes[i].id, nodes[j].id} :: 0 <= i < j < |nodes| ==> nodes[i].id != nodes[j].id
    ensures var r := Cut(nodes, at);
            && (forall i :: 0 <= i < |r| ==> r[i] in repr)
            && (forall i, j {:trigger r[i].id, r[j].id} :: 0 <= i < j < |r| ==> r[i].id != r[j].id)
  {
  }

  lemma NodeAtCut(nodes: seq<CoAPMessage>, at: nat, k: nat)
    requires at < |nodes|
    ensures NodeAt(Cut(nodes, at), k) == NodeAt(nodes, if k < at then k else k + 1)
  {
  }

  lemma ViewsOfCut(nodes: seq<CoAPMessage>, at: nat)
    requires at < |nodes|
    ensures Views(Cut(nodes, at)) == Cut(Views(nodes), at)
  {
    var a, b := Views(Cut(nodes, at)), Cut(Views(nodes), at);
    forall i | 0 <= i < |a| ensures a[i] == b[i] {
    }
  }

  /** `process` stopped half-way: the entries dealt with, and the rest still to be walked. */
  ghost function Resumed(done: seq<Entry>, rest: seq<Entry>, now: Tick, o: Oracle, w: World): Step {
    var s := CoapModel.Process(rest, now, o, w);
    Step(done + s.entries, s.world)
  }

  lemma ResumedStep(es: seq<Entry>, at: nat, now: Tick, o: Oracle, w: World)
    requires at < |es|
    ensures var one := ProcessOne(es[at], now, o, w);
            Resumed(es[..at], es[at..], now, o, w) == Resumed(es[..at] + one.entries, es[at + 1..], now, o, one.world)
  {
    var one := ProcessOne(es[at], now, o, w);
    var rest := CoapModel.Process(es[at + 1..], now, o, one.world);
    assert es[at..][0] == es[at] && es[at..][1..] == es[at + 1..];
    assert es[..at] + (one.entries + rest.entries) == es[..at] + one.entries + rest.entries;
  }

  lemma CutSlices<T>(s: seq<T>, at: nat)
    requires at < |s|
    ensures Cut(s, at)[..at] == s[..at] && Cut(s, at)[at..] == s[at + 1..]
    ensures forall x :: x in Cut(s, at) ==> x in s
  {
  }

  lemma CutUpdated<T>(s: seq<T>, at: nat, x: T)
    requires at < |s|
    ensures Cut(s[at := x], at) == Cut(s, at)
  {
  }

  lemma ViewsOfCons(first: CoAPMessage, nodes: seq<CoAPMessage>)
    ensures Views([first] + nodes) == [first.View()] + Views(nodes)
  {
    var a, b := Views([first] + nodes), [first.View()] + Views(nodes);
    forall i | 0 <= i < |a| ensures a[i] == b[i] {
    }
  }

  // ---- Lookup facts at an index --------------------------------------------------------------

  lemma {:induction false} LookupAt(es: seq<Entry>, i: nat)
    requires i < |es| && forall j :: 0 <= j < i ==> es[j].id != es[i].id
    ensures Has(es, es[i].id)
    ensures Find(es, es[i].id) == Some(es[i])
    ensures Without(es, es[i].id) == Cut(es, i)
  {
    if i > 0 {
      var t := es[1..];
      assert t[i - 1] == es[i] && forall j :: 0 <= j < i - 1 ==> t[j] == es[j + 1];
      LookupAt(t, i - 1);
      CutTail(es, i);
    } else {
      CutTail(es, 0);
    }
  }

  lemma CutTail<T>(s: seq<T>, i: nat)
    requires i < |s|
    ensures Cut(s, i) == if i == 0 then s[1..] else [s[0]] + Cut(s[1..], i - 1)
  {
  }

  lemma {:induction false} LookupMiss(es: seq<Entry>, id: MessageId)
    requires !Has(es, id)
    ensures Find(es, id) == None && Without(es, id) == es
  {
    if es == [] {
    } else {
      assert es[0].id != id;
      forall i | 0 <= i < |es[1..]| ensures es[1..][i].id != id {
        assert es[1..][i] == es[i + 1];
      }
      LookupMiss(es[1..], id);
    }
  }

  // ---- The store -----------------------------------------------------------------------------

  class CoAPMessageStore {
    var head: CoAPMessage?
    ghost var nodes: seq<CoAPMessage>
    ghost var repr: set<CoAPMessage>

    /** The chain from `head` runs through exactly `nodes` and ends, with no id used twice;
        `repr` holds every node the store may touch. */
    ghost predicate Valid()
      reads this, repr`next
    {
      && (forall i :: 0 <= i < |nodes| ==> nodes[i] in repr)
      && head == NodeAt(nodes, 0)
      && (forall i {:trigger nodes[i].next} :: 0 <= i < |nodes| ==> nodes[i].next == NodeAt(nodes, i + 1))
      && (forall i, j {:trigger nodes[i].id, nodes[j].id} :: 0 <= i < j < |nodes| ==> nodes[i].id != nodes[j].id)
    }

    ghost function View(): (es: seq<Entry>)
      reads this, nodes
    {
      Views(nodes)
    }

    constructor ()
      ensures Valid() && nodes == [] && View() == [] && repr == {}
    {
      head, nodes, repr := null, [], {};
    }

    /** `for_id`: walks the chain; also yields the node before the one found. */
    method ForId(id: MessageId) returns (msg: CoAPMessage?, prev: CoAPMessage?, ghost at: nat)
      requires Valid()
      ensures msg == null <==> !Has(View(), id)
      ensures msg == null ==> Find(View(), id) == None && Without(View(), id) == View()
      ensures msg != null ==> at < |nodes| && msg == nodes[at] && msg.id == id
      ensures msg != null ==> prev == NodeBefore(nodes, at)
      ensures msg != null ==> Find(View(), id) == Some(msg.View())
      ensures msg != null ==> Without(View(), id) == Cut(View(), at)
    {
      prev, msg, at := null, head, 0;
      while msg != null
        invariant at <= |nodes|
        invariant msg == NodeAt(nodes, at)
        invariant prev == NodeBefore(nodes, at)
        invariant forall i :: 0 <= i < at ==> nodes[i].id != id
        decreases |nodes| - at
      {
        if msg.id == id {
          assert View()[at].id == id;
          LookupAt(View(), at);
          return;
        }
        prev, msg, at := msg, msg.next, at + 1;
      }
      LookupMiss(View(), id);
    }

    /** `from_id`. */
    method FromId(id: MessageId) returns (msg: CoAPMessage?)
      requires Valid()
      ensures msg != null <==> Has(View(), id)
      ensures msg != null ==> msg in nodes && msg.id == id && Find(View(), id) == Some(msg.View())
      ensures msg == null ==> Find(View(), id) == None && Without(View(), id) == View()
    {
      var prev;
      ghost var at;
      msg, prev, at := ForId(id);
    }

    /** The pointer part of the private `remove`. */
    method Relink(message: CoAPMessage, previous: CoAPMessage?, ghost at: nat)
      requires Valid()
      requires at < |nodes| && message == nodes[at] && previous == NodeBefore(nodes, at)
      modifies this, message`next, if previous == null then {} else {previous}`next
      ensures Valid() && message.next == null && repr == old(repr) && nodes == Cut(old(nodes), at)
    {
      hide Views, Cut, NodeAt;
      ghost var was := nodes;
      OthersApart(at);
      NeighboursOf(was, at);
      if previous != null {
        previous.next := message.next;
      } else {
        head := message.next;
      }
      message.next := null;
      assert forall j {:trigger was[j].next} :: 0 <= j < |was| && j != at && j + 1 != at ==> was[j].next == old(was[j].next);
      CutKeepsIds(was, at, repr);
      NodeAtCut(was, at, 0);
      nodes := Cut(nodes, at);
      forall i | 0 <= i < |nodes| ensures nodes[i].next == NodeAt(nodes, i + 1) {
        NodeAtCut(was, at, i + 1);
        CutAt(was, at, i);
      }
    }

    /** Only one node is at `at`, and only one before it. */
    lemma OthersApart(at: nat)
      requires Valid() && at < |nodes|
      ensures forall j {:trigger nodes[j].next} :: 0 <= j < |nodes| && j != at ==> nodes[j] != nodes[at]
      ensures at > 0 ==> forall j {:trigger nodes[j].next} :: 0 <= j < |nodes| && j + 1 != at ==> nodes[j] != nodes[at - 1]
    {
      forall j | 0 <= j < |nodes| && j != at ensures nodes[j] != nodes[at] {
        assert nodes[j].id != nodes[at].id;
      }
      if at > 0 {
        forall j | 0 <= j < |nodes| && j + 1 != at ensures nodes[j] != nodes[at - 1] {
          assert nodes[j].id != nodes[at - 1].id;
        }
      }
    }

    /** The private `remove`: unlinks one node given the node before it. */
    method Unlink(message: CoAPMessage, previous: CoAPMessage?, ghost at: nat)
      requires Valid()
      requires at < |nodes| && message == nodes[at] && previous == NodeBefore(nodes, at)
      modifies this, message`next, if previous == null then {} else {previous}`next
      ensures Valid() && message.next == null && repr == old(repr)
      ensures nodes == Cut(old(nodes), at)
      ensures View() == Cut(old(View()), at)
    {
      hide Valid;
      ghost var was := nodes;
      Relink(message, previous, at);
      assert Views(was) == old(View());
      ViewsOfCut(was, at);
    }

    method Remove(id: MessageId) returns (msg: CoAPMessage?)
      requires Valid()
      modifies this, repr
      ensures Valid() && View() == Without(old(View()), id)
      ensures msg != null <==> Has(old(View()), id)
      ensures msg != null ==> msg in old(nodes) && msg.id == id && msg.next == null && msg !in repr
      ensures repr <= old(repr)
      ensures !Has(View(), id)
    {
      hide Cut, Find, Without, Has;
      ghost var before := View();
      var prev;
      ghost var at;
      msg, prev, at := ForId(id);
      if msg != null {
        CutIsApart(at);
        Unlink(msg, prev, at);
        assert msg !in nodes;
        IdIsGone(before, at);
        repr := repr - {msg};
      }
    }

    lemma IdsAreDistinct()
      requires Valid()
      ensures DistinctIds(View())
    {
    }

    lemma NodesAreHeld()
      requires Valid()
      ensures forall i :: 0 <= i < |nodes| ==> nodes[i] in repr
    {
    }

    lemma CutIsApart(at: nat)
      requires Valid() && at < |nodes|
      ensures nodes[at] !in Cut(nodes, at)
    {
      var r := Cut(nodes, at);
      forall i | 0 <= i < |r| ensures r[i] != nodes[at] {
        ghost var j := if i < at then i else i + 1;
        assert r[i] == nodes[j] && nodes[j].id != nodes[at].id;
      }
    }

    lemma IdIsGone(es: seq<Entry>, at: nat)
      requires at < |es| && DistinctIds(es)
      ensures !Has(Cut(es, at), es[at].id)
    {
    }

    method ClearMessage(id: MessageId, channel: Channel) returns (found: bool)
      requires Valid()
      modifies this, repr, channel
      ensures Valid() && View() == Without(old(View()), id)
      ensures found == Has(old(View()), id)
      ensures channel.world == if found then old(channel.world).Deleted() else old(channel.world)
      ensures repr <= old(repr)
      ensures !Has(View(), id)
    {
      var msg := Remove(id);
      found := msg != null;
      if found {
        channel.world := channel.world.Deleted();
      }
    }

    /** `clear`: removes and deletes the head until the list is empty. */
    method Clear(channel: Channel)
      requires Valid()
      modifies this, repr, channel
      ensures Valid() && nodes == [] && repr <= old(repr)
      ensures channel.world == old(channel.world).(live := old(channel.world).live - |old(nodes)|)
    {
      while head != null
        invariant Valid() && repr <= old(repr)
        invariant channel.world == old(channel.world).(live := old(channel.world).live - (|old(nodes)| - |nodes|))
        decreases |nodes|
      {
        ghost var before := View();
        LookupAt(before, 0);
        var found := ClearMessage(head.id, channel);
        assert |View()| == |before| - 1;
      }
    }

    /** The last three statements of `add`: link a detached node in as the new head. */
    method PushFront(message: CoAPMessage)
      requires Valid() && message !in repr
      requires forall i :: 0 <= i < |nodes| ==> nodes[i].id != message.id
      modifies this, message`next
      ensures Valid() && nodes == [message] + old(nodes) && repr == old(repr) + {message}
    {
      ghost var was := nodes;
      message.next := head;
      head := message;
      nodes := [message] + nodes;
      repr := repr + {message};
      forall i | 0 <= i < |nodes| ensures nodes[i].next == NodeAt(nodes, i + 1) {
        if i > 0 {
          assert nodes[i] == was[i - 1] && was[i - 1].next == old(was[i - 1].next) == NodeAt(was, i);
        }
      }
      forall i, j | 0 <= i < j < |nodes| ensures nodes[i].id != nodes[j].id {
        assert nodes[j] == was[j - 1] && (i > 0 ==> nodes[i] == was[i - 1]);
      }
    }

    /** `add`: a message that is already in the list is left alone; otherwise it displaces any
        message with the same id and becomes the head. */
    method Add(message: CoAPMessage, channel: Channel) returns (error: ProtocolError)
      requires Valid()
      requires message !in nodes ==> message.next == null && message !in repr
      modifies this, repr, message`next, channel
      ensures Valid() && error == NoError
      ensures message in old(nodes) ==> nodes == old(nodes) && View() == old(View()) && channel.world == old(channel.world)
      ensures message !in old(nodes) ==>
                && View() == Put(old(View()), old(message.View()))
                && message in nodes
                && channel.world == if Has(old(View()), message.id) then old(channel.world).Deleted() else old(channel.world)
      ensures repr <= old(repr) + {message}
    {
      var same := FromId(message.id);
      assert message in nodes ==> message == same by {
        if message in nodes {
          ghost var i :| 0 <= i < |nodes| && nodes[i] == message;
          assert View()[i].id == message.id;
          ghost var at :| 0 <= at < |nodes| && nodes[at] == same;
          assert nodes[at].id == nodes[i].id;
        }
      }
      if same == message {
        return NoError;
      }
      var found := ClearMessage(message.id, channel);
      if message.next != null {
        return InvalidState;
      }
      ghost var rest := nodes;
      assert forall i :: 0 <= i < |nodes| ==> View()[i].id == nodes[i].id != message.id;
      PushFront(message);
      ViewsOfCons(message, rest);
      return NoError;
    }

    // ---- Time-outs ---------------------------------------------------------------------------

    method MessageTimeout(msg: CoAPMessage, channel: Channel)
      modifies channel
      ensures channel.world.Deleted() == Expired(msg.View(), old(channel.world))
    {
      channel.world := channel.world.Notifying(msg.delivered, NotDelivered);
      if IsRequest(msg.data) {
        channel.world := channel.world.Issuing(Close);
      }
    }

    method Retransmit(msg: CoAPMessage, channel: Channel, now: Tick) returns (kept: bool)
      modifies msg`timeout, msg`transmitCount, channel
      ensures var e := old(msg.View());
              var w := old(channel.world);
              TimeHasPassed(now, e.timeout) ==>
                && (kept ==> ProcessOne(e, now, channel.oracle, w) == Step([msg.View()], channel.world))
                && (!kept ==> ProcessOne(e, now, channel.oracle, w) == Step([], Expired(msg.View(), channel.world)))
    {
      kept := msg.PrepareRetransmit(now, channel);
      if kept {
        var ignored := channel.Send(msg.data);
      }
    }

    /** The condition in the loop of `process`: is the node at `at` kept, after re-sending it if due? */
    method KeepNode(msg: CoAPMessage, ghost at: nat, time: Tick, channel: Channel) returns (kept: bool)
      requires Valid() && at < |nodes| && msg == nodes[at]
      modifies msg`timeout, msg`transmitCount, channel
      ensures Valid() && View() == old(View())[at := msg.View()]
      ensures var one := ProcessOne(old(View())[at], time, channel.oracle, old(channel.world));
              one == if kept then Step([msg.View()], channel.world) else Step([], Expired(msg.View(), channel.world))
    {
      ghost var before := View();
      kept := true;
      if TimeHasPassed(time, msg.timeout) {
        kept := Retransmit(msg, channel, time);
      }
      assert forall i :: 0 <= i < |nodes| && i != at ==> nodes[i].id != msg.id && View()[i] == before[i];
    }

    /** The removal in the loop of `process`: unlink, report the time-out, delete. */
    method DropNode(msg: CoAPMessage, prev: CoAPMessage?, ghost at: nat, channel: Channel)
      requires Valid() && at < |nodes| && msg == nodes[at] && prev == NodeBefore(nodes, at)
      modifies this, msg`next, if prev == null then {} else {prev}`next, channel
      ensures Valid() && repr <= old(repr) && nodes == Cut(old(nodes), at) && View() == Cut(old(View()), at)
      ensures channel.world == Expired(old(msg.View()), old(channel.world))
    {
      MessageTimeout(msg, channel);
      channel.world := channel.world.Deleted();
      Unlink(msg, prev, at);
    }

    /** One step of `process`, given what the walk will come to. */
    method ProcessNode(msg: CoAPMessage, prev: CoAPMessage?, ghost at: nat, time: Tick, channel: Channel, ghost goal: Step)
      returns (kept: bool)
      requires Valid() && at < |nodes| && msg == nodes[at] && prev == NodeBefore(nodes, at)
      requires Resumed(View()[..at], View()[at..], time, channel.oracle, channel.world) == goal
      modifies this, repr, channel
      ensures Valid() && repr <= old(repr)
      ensures nodes == if kept then old(nodes) else Cut(old(nodes), at)
      ensures var at' := if kept then at + 1 else at;
              Resumed(View()[..at'], View()[at'..], time, channel.oracle, channel.world) == goal
    {
      ghost var before := View();
      ResumedStep(before, at, time, channel.oracle, channel.world);
      kept := KeepNode(msg, at, time, channel);
      if !kept {
        CutUpdated(before, at, msg.View());
        CutSlices(before, at);
        DropNode(msg, prev, at, channel);
        assert before[..at] + [] == before[..at];
      } else {
        assert View()[..at + 1] == before[..at] + [msg.View()];
        assert View()[at + 1..] == before[at + 1..];
      }
    }

    /** `process`: one walk over the list with a trailing pointer, unlinking as it goes. */
    method Process(time: Tick, channel: Channel)
      requires Valid()
      modifies this, repr, channel
      ensures Valid() && repr <= old(repr)
      ensures CoapModel.Process(old(View()), time, channel.oracle, old(channel.world)) == Step(View(), channel.world)
    {
      ghost var goal := CoapModel.Process(View(), time, channel.oracle, channel.world);
      var msg := head;
      var prev: CoAPMessage? := null;
      ghost var at := 0;
      assert View()[at..] == View();
      while msg != null
        invariant Valid() && repr <= old(repr)
        invariant at <= |nodes| && msg == NodeAt(nodes, at) && prev == NodeBefore(nodes, at)
        invariant Resumed(View()[..at], View()[at..], time, channel.oracle, channel.world) == goal
        decreases |nodes| - at
      {
        var kept := ProcessNode(msg, prev, at, time, channel, goal);
        if !kept {
          msg := if prev == null then head else prev.next;
        } else {
          prev, msg, at := msg, msg.next, at + 1;
        }
      }
    }

    // ---- Sending and receiving ---------------------------------------------------------------

    method Send(msg: Message, time: Tick, channel: Channel) returns (error: ProtocolError)
      requires Valid()
      modifies this, repr, channel
      ensures Valid()
      ensures StoreSend(old(View()), msg.data, msg.id, time, channel.oracle, old(channel.world))
              == Sent(View(), channel.world, error)
      ensures fresh(repr - old(repr))
    {
      if msg.id < 0 {
        return MissingMessageId;
      }
      if TypeOf(msg.data) == CON || IsAckOrReset(msg.data) {
        var coapmsg := CoAPMessage.Create(NarrowId(msg.id), msg.data, channel);
        if coapmsg == null {
          return InsufficientStorage;
        }
        if TypeOf(msg.data) == CON {
          var again := coapmsg.PrepareRetransmit(time, channel);
        } else {
          coapmsg.SetExpiration(AddTick(time, MAX_TRANSMIT_SPAN));
        }
        var added := Add(coapmsg, channel);
      }
      return NoError;
    }

    /** The branch of `receive` for acknowledgements and resets. */
    method ReceiveAnswer(id: MessageId, msg: Message, channel: Channel)
      requires Valid() && IsAckOrReset(msg.data) && id == DecodedId(msg.data, msg.id)
      modifies this, repr, channel, msg`data
      ensures Valid()
      ensures StoreReceive(old(View()), old(msg.data), msg.id, 0, channel.oracle, old(channel.world))
              == Received(View(), channel.world, NoError, msg.data)
      ensures repr <= old(repr)
    {
      hide Without, Has, Find;
      ghost var es := View();
      if TypeOf(msg.data) == RESET {
        var target := FromId(id);
        if target != null {
          channel.world := channel.world.Notifying(target.delivered, DeliveredNack);
        }
        channel.world := channel.world.Issuing(DiscardSession);
      }
      ghost var w1 := channel.world;
      assert View() == es;
      assert StoreReceive(es, msg.data, msg.id, 0, channel.oracle, old(channel.world)) == AckReceived(es, msg.data, id, w1);
      var found := ClearMessage(id, channel);
      if !found {
        LookupMiss(es, id);
        msg.data := [];
      }
    }

    /** The branch of `receive` for confirmable requests. */
    method ReceiveRequest(id: MessageId, msg: Message, channel: Channel, time: Tick) returns (error: ProtocolError)
      requires Valid() && TypeOf(msg.data) == CON && id == DecodedId(msg.data, msg.id)
      modifies this, repr, channel, msg`data
      ensures Valid()
      ensures StoreReceive(old(View()), old(msg.data), msg.id, time, channel.oracle, old(channel.world))
              == Received(View(), channel.world, error, msg.data)
      ensures fresh(repr - old(repr))
    {
      hide Put, Has, Find, TypeOf, Without;
      var response := FromId(id);
      if response != null {
        msg.data := [];
        if IsAckOrReset(response.data) {
          error := channel.Send(response.data);
          return;
        }
      } else {
        var coapmsg := CoAPMessage.Create(id, Prefix(msg.data, 5), channel);
        if coapmsg == null {
          return InsufficientStorage;
        }
        coapmsg.SetExpiration(AddTick(time, MAX_TRANSMIT_SPAN));
        var added := Add(coapmsg, channel);
      }
      return NoError;
    }

    method Receive(msg: Message, channel: Channel, time: Tick) returns (error: ProtocolError)
      requires Valid()
      modifies this, repr, channel, msg
      ensures Valid()
      ensures StoreReceive(old(View()), old(msg.data), old(msg.id), time, channel.oracle, old(channel.world))
              == Received(View(), channel.world, error, msg.data)
      ensures msg.id == if |old(msg.data)| >= 4 then HeaderId(old(msg.data)) else old(msg.id)
      ensures msg.confirm == old(msg.confirm)
      ensures fresh(repr - old(repr))
    {
      var decoded := msg.DecodeId();
      var id := NarrowId(msg.id);
      if IsAckOrReset(msg.data) {
        ReceiveAnswer(id, msg, channel);
      } else if TypeOf(msg.data) == CON {
        error := ReceiveRequest(id, msg, channel, time);
        return;
      }
      return NoError;
    }

    /** The lookup and `set_delivered_handler` of `send_synchronous`. */
    method SetHandler(id: MessageId, handler: nat)
      requires Valid()
      modifies repr`delivered
      ensures Valid()
      ensures View() == WithHandler(old(View()), id, handler)
    {
      hide WithHandler, Find, Without;
      ghost var es := View();
      var coapmsg, prev, at := ForId(id);
      if coapmsg != null {
        coapmsg.delivered := Some(handler);
        assert forall i :: 0 <= i < |nodes| && i != at ==> nodes[i].id != id && View()[i] == es[i];
        assert View() == es[at := coapmsg.View()];
        WithHandlerFound(es, id, handler, at);
      } else {
        WithHandlerMissing(es, id, handler);
      }
    }

    /** Handing an acknowledgement or reset to the store while the callback watches. */
    method HearAnswer(msg: Message, channel: Channel, handler: nat) returns (error: ProtocolError)
      requires Valid() && |msg.data| >= 4 && msg.id == HeaderId(msg.data)
      modifies this, repr, channel, msg
      ensures Valid() && fresh(repr - old(repr))
      ensures Hear(old(View()), old(msg.data), channel.oracle, old(channel.world), handler)
              == Round(View(), channel.world, error)
    {
      hide StoreReceive, Flagged, Told;
      var now := channel.Millis();
      var before := channel.world;
      var receiveError := Receive(msg, channel, now);
      error := Flagged(NoError, Told(before, channel.world), handler);
      if error == NoError {
        error := receiveError;
      }
    }

    /** The first half of a round of `send_synchronous`: `handler` names its local callback. */
    method AwaitAnswer(msg: Message, channel: Channel, handler: nat) returns (error: ProtocolError)
      requires Valid()
      modifies this, repr, channel, msg
      ensures Valid()
      ensures TakeAnswer(old(View()), channel.oracle, old(channel.world), handler)
              == Round(View(), channel.world, error)
      ensures fresh(repr - old(repr))
    {
      msg.id := -1;
      msg.data := [];
      error := channel.Receive(msg);
      if error == NoError {
        var decoded := msg.DecodeId();
        if decoded && IsAckOrReset(msg.data) {
          error := HearAnswer(msg, channel, handler);
        }
      }
    }

    /** One round of the loop of `send_synchronous`. Requests that arrive are dropped. */
    method WaitRound(msg: Message, channel: Channel, handler: nat) returns (error: ProtocolError)
      requires Valid()
      modifies this, repr, channel, msg
      ensures Valid()
      ensures SyncRound(old(View()), channel.oracle, old(channel.world), handler)
              == Round(View(), channel.world, error)
      ensures fresh(repr - old(repr))
    {
      error := AwaitAnswer(msg, channel, handler);
      var now := channel.Millis();
      var before := channel.world;
      Process(now, channel);
      error := Flagged(error, Told(before, channel.world), handler);
    }

    /** The loop of `send_synchronous`. It ends because every round either uses up one of the
        transmissions left or brings the clock nearer to the deadline. `data` was sent at true time
        `began`. */
    method WaitLoop(id: MessageId, msg: Message, channel: Channel, handler: nat,
                    ghost first: nat, ghost data: seq<byte>, ghost began: nat)
      returns (error: ProtocolError, ghost rounds: nat)
      requires Valid() && Advancing(channel.oracle) && channel.world.readings > 0
      requires Pending(View(), id, handler, first, channel.oracle.clock(channel.world.readings - 1))
      requires Tries(View(), [], id, handler, data, began, first, channel.oracle.clock(channel.world.readings - 1))
      modifies this, repr, channel, msg
      ensures Valid() && fresh(repr - old(repr))
      ensures ClientOk(old(View())) ==> ClientOk(View())
      ensures Balance(View(), channel.world) == Balance(old(View()), old(channel.world))
      ensures Awaited(Round(View(), channel.world, error), old(channel.world), channel.oracle, id, handler)
      ensures EndsAfter(Round(old(View()), old(channel.world), NoError), channel.oracle, id, handler, rounds)
      ensures Round(View(), channel.world, error)
              == Rounds(Round(old(View()), old(channel.world), NoError), channel.oracle, handler, rounds)
      ensures GivenUpExhausted(old(channel.world), channel.world, channel.oracle, handler, data, began)
    {
      hide Phase, Left, TimeLeft, ClientOk, Balance, Pending, Awaited, SyncRound, Tries, GivenUpExhausted,
           SoFar, EndsAfter, Rounds, Outcome, Told;
      ghost var start, o := channel.world, channel.oracle;
      ghost var deadline: nat := first;
      error := NoError;
      ghost var r := Round(View(), start, error);
      ghost var r0 := r;
      rounds := 0;
      BeginsWaiting(View(), start, o, id, handler, deadline);
      NothingTold(start);
      NoRoundYet(r0, o, id, handler);
      var pending := FromId(id);
      while pending != null && error == NoError
        invariant Valid() && fresh(repr - old(repr))
        invariant r == Round(View(), channel.world, error) && (pending != null) == Has(r.entries, id)
        invariant Waits(r, start, o, id, handler, deadline)
        invariant Tries(r.entries, Told(start, r.world), id, handler, data, began, deadline, o.clock(r.world.readings - 1))
        invariant SoFar(r0, r, o, id, handler, rounds)
        invariant ClientOk(old(View())) ==> ClientOk(r.entries)
        invariant Balance(r.entries, r.world) == Balance(old(View()), start)
        decreases Left(r, id), TimeLeft(r, o, id, deadline)
      {
        OneMoreRound(r0, r, o, id, handler, rounds);
        error, r, deadline := WaitOnce(msg, channel, handler, r, start, id, deadline, data, began);
        rounds := rounds + 1;
        pending := FromId(id);
      }
      NoMoreRounds(r0, r, o, id, handler, rounds);
      WaitEnds(r, start, o, id, handler, deadline, data, began);
    }

    /** A round, with what it keeps of the wait for message `id`. */
    method WaitOnce(msg: Message, channel: Channel, handler: nat,
                    ghost r: Round, ghost start: World, ghost id: MessageId, ghost deadline: nat,
                    ghost data: seq<byte>, ghost began: nat)
      returns (error: ProtocolError, ghost r': Round, ghost next: nat)
      requires Valid() && Advancing(channel.oracle)
      requires r == Round(View(), channel.world, NoError) && Has(r.entries, id)
      requires Waits(r, start, channel.oracle, id, handler, deadline)
      requires Tries(r.entries, Told(start, r.world), id, handler, data, began, deadline,
                     channel.oracle.clock(r.world.readings - 1))
      modifies this, repr, channel, msg
      ensures Valid() && fresh(repr - old(repr))
      ensures r' == Round(View(), channel.world, error) == SyncRound(r.entries, channel.oracle, r.world, handler)
      ensures Waits(r', start, channel.oracle, id, handler, next)
      ensures Tries(r'.entries, Told(start, r'.world), id, handler, data, began, next,
                    channel.oracle.clock(r'.world.readings - 1))
      ensures Left(r', id) < Left(r, id)
              || (Left(r', id) == Left(r, id)
                  && TimeLeft(r', channel.oracle, id, next) < TimeLeft(r, channel.oracle, id, deadline))
      ensures ClientOk(r.entries) ==> ClientOk(r'.entries)
      ensures Balance(r'.entries, r'.world) == Balance(r.entries, r.world)
    {
      hide SyncRound, Phase, Awaited, Left, TimeLeft, Tries, Told, Balance, ClientOk;
      next := RoundKeepsWaiting(r, start, channel.oracle, id, handler, deadline);
      RoundTries(r, start, channel.oracle, id, handler, deadline, next, data, began);
      r' := SyncRound(r.entries, channel.oracle, r.world, handler);
      error := WaitRound(msg, channel, handler);
    }

    /** The first half of `send_synchronous`: store the message, then send it. */
    method BeginSynchronous(msg: Message, channel: Channel) returns (error: ProtocolError)
      requires Valid()
      modifies this, repr, channel
      ensures Valid() && fresh(repr - old(repr))
      ensures SyncStart(old(View()), msg.data, msg.id, channel.oracle, old(channel.world))
              == Sent(View(), channel.world, error)
    {
      hide StoreSend, Valid;
      var now := channel.Millis();
      error := Send(msg, now, channel);
      if error == NoError {
        error := channel.Send(msg.data);
      }
    }

    /** `send_synchronous`. */
    method SendSynchronous(msg: Message, channel: Channel, handler: nat) returns (error: ProtocolError, ghost rounds: nat)
      requires Valid() && Advancing(channel.oracle)
      requires forall e :: e in View() ==> e.handler != Some(handler)
      modifies this, repr, channel, msg
      // However it ends, the id is free again and nothing points at the local callback.
      ensures Valid() && Quiet(View(), NarrowId(old(msg.id)), handler)
      ensures fresh(repr - old(repr))
      ensures old(channel.world).log <= channel.world.log && old(channel.world).readings < channel.world.readings
      ensures ClientOk(old(View())) && IsRequest(old(msg.data)) ==> ClientOk(View())
      ensures Balance(View(), channel.world) == Balance(old(View()), old(channel.world))
      // It goes out at once, and a CON four times if it is given up.
      ensures GoesOut(old(View()), old(channel.world), channel.oracle, old(msg.data), old(msg.id), channel.world, error)
      // It begins with what storing and sending the message did.
      ensures SyncStart(old(View()), old(msg.data), old(msg.id), channel.oracle, old(channel.world)).world.log
              <= channel.world.log
      // A message that could not be stored or sent, or needs no acknowledgement, is not waited for.
      ensures var start := SyncStart(old(View()), old(msg.data), old(msg.id), channel.oracle, old(channel.world));
              start.error != NoError || TypeOf(old(msg.data)) != CON ==> error == start.error
      // Otherwise the error tells which of three things happened, or is one the channel returned.
      ensures var start := SyncStart(old(View()), old(msg.data), old(msg.id), channel.oracle, old(channel.world));
              start.error == NoError && TypeOf(old(msg.data)) == CON ==>
                Outcome(start.world, channel.world, channel.oracle, NarrowId(old(msg.id)), handler, error)
      // It is given up only after all its transmissions, more than a minute after the first.
      ensures var start := SyncStart(old(View()), old(msg.data), old(msg.id), channel.oracle, old(channel.world));
              Awaits(start, old(msg.data)) ==>
                GivenUpExhausted(start.world, channel.world, channel.oracle, handler, old(msg.data),
                                 channel.oracle.clock(old(channel.world).readings))
      // Nothing else happens in between: it is the rounds of the loop, one after the other.
      ensures SentSynchronously(old(View()), old(channel.world), channel.oracle, old(msg.data), old(msg.id), handler,
                                rounds, Round(View(), channel.world, error))
    {
      hide SyncStart, Outcome, Quiet, ClientOk, Pending, WithHandler, Find, DistinctIds, EndsAfter, Rounds, Tries,
           GivenUpExhausted, GoesOut, Balance;
      var id := NarrowId(msg.id);
      var confirmable := TypeOf(msg.data) == CON;
      IdsAreDistinct();
      ghost var deadline := SyncBegins(View(), msg.data, msg.id, channel.oracle, channel.world, handler);
      ghost var es, w, data := View(), channel.world, msg.data;
      rounds := 0;
      error := BeginSynchronous(msg, channel);
      if error == NoError && confirmable {
        ghost var start := channel.world;
        FirstTry(es, data, msg.id, channel.oracle, w, handler, deadline);
        SetHandler(id, handler);
        error, rounds := WaitLoop(id, msg, channel, handler, deadline, data, channel.oracle.clock(w.readings));
        ClearingDecides(Round(View(), channel.world, error), start, channel.oracle, id, handler);
        ClearingExhausted(start, channel.world, channel.oracle, handler, data, channel.oracle.clock(w.readings));
      }
      ClearingKeeps(View(), id, handler, channel.world);
      var cleared := ClearMessage(id, channel);
      SendGoesOut(es, w, channel.oracle, data, old(msg.id), handler, rounds, Round(View(), channel.world, error));
    }

    method HasUnacknowledgedRequests() returns (found: bool)
      requires Valid()
      ensures found <==> exists i :: 0 <= i < |nodes| && TypeOf(nodes[i].data) == CON
    {
      var msg := head;
      ghost var at := 0;
      while msg != null
        invariant at <= |nodes|
        invariant msg == NodeAt(nodes, at)
        invariant forall i :: 0 <= i < at ==> TypeOf(nodes[i].data) != CON
        decreases |nodes| - at
      {
        if TypeOf(msg.data) == CON {
          return true;
        }
        msg, at := msg.next, at + 1;
      }
      return false;
    }
  }
}
