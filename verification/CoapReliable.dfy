/** `CoAPReliableChannel`: the client and server stores around one channel, and `CoAPChannel`, which
    numbers the messages that go through it. */
module CoapReliable {
  import opened Basics
  import opened Ticks
  import opened CoapTypes
  import opened CoapModel
  import opened CoapFacts
  import opened CoapInvariants
  import opened CoapSync
  import opened CoapWait
  import opened CoapStore

  /** Both stores and the world around them. */
  datatype Link = Link(client: seq<Entry>, server: seq<Entry>, world: World)

  datatype Reply = Reply(link: Link, error: ProtocolError, data: seq<byte>)

  /** The end of every receive: time-outs of the client, then of the server, each at its own time. */
  function Housekeep(l: Link, o: Oracle): Link {
    var w1 := l.world.(readings := l.world.readings + 1);
    var c := Process(l.client, ToTick(o.clock(l.world.readings)), o, w1);
    var w2 := c.world.(readings := c.world.readings + 1);
    var s := Process(l.server, ToTick(o.clock(c.world.readings)), o, w2);
    Link(c.entries, s.entries, s.world)
  }

  /** Handing an arrival to the store it belongs to; without `requests`, requests are left alone. */
  function Deliver(l: Link, o: Oracle, data: seq<byte>, id: int, requests: bool): Reply {
    if IsRequest(data) && !requests then
      Reply(l, NoError, data)
    else
      var now := ToTick(o.clock(l.world.readings));
      var w := l.world.(readings := l.world.readings + 1);
      if IsRequest(data) then
        var r := StoreReceive(l.server, data, id, now, o, w);
        Reply(Link(l.client, r.entries, r.world), r.error, r.data)
      else
        var r := StoreReceive(l.client, data, id, now, o, w);
        Reply(Link(r.entries, l.server, r.world), r.error, r.data)
  }

  /** `receive(msg, requests)`. */
  function LinkReceive(l: Link, o: Oracle, id: int, requests: bool): Reply {
    var a := o.arrival(l.world.taken);
    var l1 := l.(world := ReceivedFrom(o, l.world));
    var r := if a.error == NoError && a.data != [] then Deliver(l1, o, a.data, id, requests)
             else Reply(l1, a.error, a.data);
    Reply(Housekeep(r.link, o), r.error, r.data)
  }

  /** `send(msg)` for messages that are not sent synchronously. */
  function LinkSend(l: Link, o: Oracle, data: seq<byte>, id: int): Reply {
    if |data| < 4 then
      Reply(l.(world := l.world.Sending(data)), o.sendError(l.world.sent), data)
    else
      var now := ToTick(o.clock(l.world.readings));
      var w := l.world.(readings := l.world.readings + 1);
      var s := StoreSend(if IsRequest(data) then l.client else l.server, data, id, now, o, w);
      var l1 := if IsRequest(data) then Link(s.entries, l.server, s.world) else Link(l.client, s.entries, s.world);
      if s.error != NoError then Reply(l1, s.error, data)
      else Reply(l1.(world := s.world.Sending(data)), o.sendError(s.world.sent), data)
  }

  /** The part of `establish` before the handshake: both stores are emptied. */
  function Forgotten(l: Link): Link {
    Link([], [], l.world.(live := l.world.live - |l.client| - |l.server|))
  }

  /** What holds of every reachable link: each store holds its own kind of message, and the live
      messages are exactly the stored ones. */
  ghost predicate LinkOk(l: Link) {
    ClientOk(l.client) && ServerOk(l.server) && l.world.live == |l.client| + |l.server|
  }

  /** With nothing stored, nothing is live. */
  lemma ForgettingKeeps(l: Link)
    requires LinkOk(l)
    ensures LinkOk(Forgotten(l))
  {
  }

  lemma HousekeepKeeps(l: Link, o: Oracle)
    requires LinkOk(l)
    ensures LinkOk(Housekeep(l, o))
  {
    hide Process, ClientOk, ServerOk;
    var w1 := l.world.(readings := l.world.readings + 1);
    ProcessKeeps(l.client, ToTick(o.clock(l.world.readings)), o, w1);
    var c := Process(l.client, ToTick(o.clock(l.world.readings)), o, w1);
    var w2 := c.world.(readings := c.world.readings + 1);
    ProcessKeeps(l.server, ToTick(o.clock(c.world.readings)), o, w2);
  }

  lemma DeliverKeeps(l: Link, o: Oracle, data: seq<byte>, id: int, requests: bool)
    requires LinkOk(l) && data != []
    ensures LinkOk(Deliver(l, o, data, id, requests).link)
  {
    hide StoreReceive;
    var now := ToTick(o.clock(l.world.readings));
    var w := l.world.(readings := l.world.readings + 1);
    StoreReceiveKeeps(l.server, data, id, now, o, w);
    StoreReceiveKeeps(l.client, data, id, now, o, w);
  }

  /** After every receive, whatever arrived: the stores are well-formed and nothing in either of
      them was due at the time its own time-out pass ran. */
  lemma ReceiveKeeps(l: Link, o: Oracle, id: int, requests: bool)
    requires LinkOk(l)
    ensures var l' := LinkReceive(l, o, id, requests).link;
            && LinkOk(l')
            && l'.world.readings >= l.world.readings + 2
            && (forall e :: e in l'.client ==> !Due(e, ToTick(o.clock(l'.world.readings - 2))))
            && (forall e :: e in l'.server ==> !Due(e, ToTick(o.clock(l'.world.readings - 1))))
  {
    hide Deliver, LinkOk, Process, Due, Housekeep;
    var a := o.arrival(l.world.taken);
    var l1 := l.(world := ReceivedFrom(o, l.world));
    assert LinkOk(l1) by { WorldDoesNotMatter(l, l1.world); }
    if a.error == NoError && a.data != [] {
      DeliverKeeps(l1, o, a.data, id, requests);
      DeliverReadsOnce(l1, o, a.data, id, requests);
      HousekeepSettles(Deliver(l1, o, a.data, id, requests).link, o);
      HousekeepKeeps(Deliver(l1, o, a.data, id, requests).link, o);
    } else {
      HousekeepSettles(l1, o);
      HousekeepKeeps(l1, o);
    }
  }

  lemma WorldDoesNotMatter(l: Link, w: World)
    requires LinkOk(l) && w.live == l.world.live
    ensures LinkOk(l.(world := w))
  {
  }

  lemma DeliverReadsOnce(l: Link, o: Oracle, data: seq<byte>, id: int, requests: bool)
    ensures l.world.readings <= Deliver(l, o, data, id, requests).link.world.readings <= l.world.readings + 1
  {
  }

  lemma HousekeepSettles(l: Link, o: Oracle)
    ensures var l' := Housekeep(l, o);
            && l'.world.readings == l.world.readings + 2
            && (forall e :: e in l'.client ==> !Due(e, ToTick(o.clock(l'.world.readings - 2))))
            && (forall e :: e in l'.server ==> !Due(e, ToTick(o.clock(l'.world.readings - 1))))
  {
    hide Process, Due;
    var w1 := l.world.(readings := l.world.readings + 1);
    var t1 := ToTick(o.clock(l.world.readings));
    ProcessLog(l.client, t1, o, w1);
    ProcessSettles(l.client, t1, o, w1);
    var c := Process(l.client, t1, o, w1);
    var w2 := c.world.(readings := c.world.readings + 1);
    ProcessLog(l.server, ToTick(o.clock(c.world.readings)), o, w2);
    ProcessSettles(l.server, ToTick(o.clock(c.world.readings)), o, w2);
  }

  lemma SendKeeps(l: Link, o: Oracle, data: seq<byte>, id: int)
    requires LinkOk(l)
    ensures LinkOk(LinkSend(l, o, data, id).link)
  {
    hide StoreSend;
    var now := ToTick(o.clock(l.world.readings));
    var w := l.world.(readings := l.world.readings + 1);
    StoreSendKeeps(l.client, data, id, now, o, w);
    StoreSendKeeps(l.server, data, id, now, o, w);
  }

  // ---- The channel object --------------------------------------------------------------------

  class CoAPReliableChannel {
    const channel: Channel
    const server: CoAPMessageStore
    const client: CoAPMessageStore

    ghost predicate Valid()
      reads this, client, client.repr, server, server.repr
    {
      && client != server && client.repr !! server.repr
      && client.Valid() && server.Valid()
    }

    ghost function View(): Link
      reads this, channel, client, client.nodes, server, server.nodes
    {
      Link(client.View(), server.View(), channel.world)
    }

    constructor (channel: Channel)
      ensures Valid() && this.channel == channel && fresh(client) && fresh(server)
      ensures View() == Link([], [], channel.world)
    {
      this.channel := channel;
      server := new CoAPMessageStore();
      client := new CoAPMessageStore();
    }

    /** The part of `establish` before the handshake: forget everything. */
    method Forget()
      requires Valid()
      modifies channel, client, client.repr, server, server.repr
      ensures Valid() && View() == Forgotten(old(View()))
    {
      assert |View().client| == |client.nodes| && |View().server| == |server.nodes|;
      server.Clear(channel);
      client.Clear(channel);
      assert |View().client| == |client.nodes| && |View().server| == |server.nodes|;
    }

    /** `receive(msg, requests)`. */
    method Receive(msg: Message, requests: bool) returns (error: ProtocolError)
      requires Valid()
      modifies channel, msg, client, client.repr, server, server.repr
      ensures Valid() && fresh(client.repr - old(client.repr)) && fresh(server.repr - old(server.repr))
      ensures LinkReceive(old(View()), channel.oracle, old(msg.id), requests) == Reply(View(), error, msg.data)
    {
      hide StoreReceive, CoapModel.Process;
      error := channel.Receive(msg);
      if error == NoError && |msg.data| > 0 {
        error := DeliverMessage(msg, requests);
      }
      TimeOut();
    }

    /** The pairing step of `receive`. */
    method DeliverMessage(msg: Message, requests: bool) returns (error: ProtocolError)
      requires Valid()
      modifies channel, msg, client, client.repr, server, server.repr
      ensures Valid() && fresh(client.repr - old(client.repr)) && fresh(server.repr - old(server.repr))
      ensures Deliver(old(View()), channel.oracle, old(msg.data), old(msg.id), requests) == Reply(View(), error, msg.data)
    {
      hide StoreReceive;
      error := NoError;
      var request := IsRequest(msg.data);
      if !request || requests {
        var now := channel.Millis();
        if request {
          error := server.Receive(msg, channel, now);
        } else {
          error := client.Receive(msg, channel, now);
        }
      }
    }

    /** The last two statements of `receive`. */
    method TimeOut()
      requires Valid()
      modifies channel, client, client.repr, server, server.repr
      ensures Valid() && client.repr <= old(client.repr) && server.repr <= old(server.repr)
      ensures View() == Housekeep(old(View()), channel.oracle)
    {
      hide CoapModel.Process, CoAPMessageStore.Valid;
      var now := channel.Millis();
      client.NodesAreHeld();
      server.NodesAreHeld();
      client.Process(now, channel);
      client.NodesAreHeld();
      now := channel.Millis();
      server.Process(now, channel);
    }

    /** `send(msg)`; `handler` names the callback a synchronous send would use. */
    method Send(msg: Message, handler: nat) returns (error: ProtocolError)
      requires Valid() && Advancing(channel.oracle)
      requires forall e :: e in View().client ==> e.handler != Some(handler)
      modifies channel, msg, client, client.repr, server, server.repr
      ensures Valid() && fresh(client.repr - old(client.repr)) && fresh(server.repr - old(server.repr))
      ensures !Synchronous(old(msg.data), old(msg.confirm)) ==>
                var r := LinkSend(old(View()), channel.oracle, old(msg.data), old(msg.id));
                View() == r.link && error == r.error
      ensures Synchronous(old(msg.data), old(msg.confirm)) ==>
                SynchronousStep(old(View()), View(), channel.oracle, old(msg.data), old(msg.id), handler, error)
    {
      hide StoreSend, SyncStart, ClientOk, Quiet;
      if |msg.data| < 4 {
        error := channel.Send(msg.data);
        return;
      }
      var request := IsRequest(msg.data);
      if request && msg.confirm {
        ghost var rounds;
        error, rounds := client.SendSynchronous(msg, channel, handler);
        return;
      }
      error := SendAndStore(msg);
    }

    /** Storing a request: the server store stays as it is. */
    method StoreInClient(msg: Message, now: Tick) returns (error: ProtocolError)
      requires Valid()
      modifies channel, client, client.repr
      ensures Valid() && fresh(client.repr - old(client.repr)) && server.repr == old(server.repr)
      ensures var s := StoreSend(old(View()).client, msg.data, msg.id, now, channel.oracle, old(channel.world));
              View() == Link(s.entries, old(View()).server, s.world) && error == s.error
    {
      hide StoreSend;
      error := client.Send(msg, now, channel);
    }

    /** Storing an answer: the client store stays as it is. */
    method StoreInServer(msg: Message, now: Tick) returns (error: ProtocolError)
      requires Valid()
      modifies channel, server, server.repr
      ensures Valid() && fresh(server.repr - old(server.repr)) && client.repr == old(client.repr)
      ensures var s := StoreSend(old(View()).server, msg.data, msg.id, now, channel.oracle, old(channel.world));
              View() == Link(old(View()).client, s.entries, s.world) && error == s.error
    {
      hide StoreSend;
      error := server.Send(msg, now, channel);
    }

    /** The part of `send` for a message that is not waited for. */
    method SendAndStore(msg: Message) returns (error: ProtocolError)
      requires Valid() && |msg.data| >= 4
      modifies channel, client, client.repr, server, server.repr
      ensures Valid() && fresh(client.repr - old(client.repr)) && fresh(server.repr - old(server.repr))
      ensures var r := LinkSend(old(View()), channel.oracle, old(msg.data), old(msg.id));
              View() == r.link && error == r.error
    {
      hide StoreSend, IsRequest, CoAPMessageStore.Valid;
      var now := channel.Millis();
      if IsRequest(msg.data) {
        error := StoreInClient(msg, now);
      } else {
        error := StoreInServer(msg, now);
      }
      if error == NoError {
        error := channel.Send(msg.data);
      }
    }

    /** `has_unacknowledged_requests`: anything outgoing, or a request not answered yet. */
    method HasUnacknowledgedRequests() returns (found: bool)
      requires Valid()
      ensures found <==> View().client != [] || exists e :: e in View().server && TypeOf(e.data) == CON
    {
      found := client.head != null;
      if !found {
        found := server.HasUnacknowledgedRequests();
        if found {
          ghost var i :| 0 <= i < |server.nodes| && TypeOf(server.nodes[i].data) == CON;
          assert View().server[i] in View().server;
        } else {
          assert forall i :: 0 <= i < |server.nodes| ==> View().server[i].data == server.nodes[i].data;
        }
      }
    }
  }

  predicate Synchronous(data: seq<byte>, confirm: bool) {
    |data| >= 4 && IsRequest(data) && confirm
  }

  /** What a synchronous send does to a link: the server store is not touched, the client store
      stays well-formed, the message goes out, and the result is its fate. */
  ghost predicate SynchronousStep(l: Link, l': Link, o: Oracle, data: seq<byte>, id: int, h: nat, error: ProtocolError) {
    && l'.server == l.server
    && l.world.log <= l'.world.log && l.world.readings < l'.world.readings
    && GoesOut(l.client, l.world, o, data, id, l'.world, error)
    && Quiet(l'.client, NarrowId(id), h)
    && (ClientOk(l.client) ==> ClientOk(l'.client))
    && l'.world.live - |l'.client| == l.world.live - |l.client|
    && (var start := SyncStart(l.client, data, id, o, l.world);
        start.world.log <= l'.world.log
        && if start.error != NoError || TypeOf(data) != CON then error == start.error
        else
          && Outcome(start.world, l'.world, o, NarrowId(id), h, error)
          && GivenUpExhausted(start.world, l'.world, o, h, data, o.clock(l.world.readings)))
    && exists rounds: nat :: SentSynchronously(l.client, l.world, o, data, id, h, rounds, Round(l'.client, l'.world, error))
  }

  // ---- Message ids ---------------------------------------------------------------------------

  /** `CoAPChannel`: writes the id of a message into its header, taking the next one if it has none. */
  class CoAPChannel {
    var messageId: MessageId

    constructor (seed: MessageId)
      ensures messageId == seed
    {
      messageId := seed;
    }

    /** The part of `send` before the base channel sends. */
    method Number(msg: Message)
      requires msg.id < 0x1_0000
      modifies this, msg
      ensures |old(msg.data)| < 4 ==> msg.data == old(msg.data) && msg.id == old(msg.id) && messageId == old(messageId)
      ensures |old(msg.data)| >= 4 ==>
                && messageId == (if old(msg.id) >= 0 then old(messageId) else (old(messageId) + 1) % 0x1_0000)
                && msg.id == (if old(msg.id) >= 0 then old(msg.id) else messageId)
                && |msg.data| == |old(msg.data)| && HeaderId(msg.data) == msg.id
                && forall i :: 0 <= i < |msg.data| && i != 2 && i != 3 ==> msg.data[i] == old(msg.data[i])
      ensures msg.confirm == old(msg.confirm)
    {
      if |msg.data| >= 4 {
        var id: MessageId;
        if msg.id >= 0 {
          id := NarrowId(msg.id);
        } else {
          messageId := (messageId + 1) % 0x1_0000;
          id := messageId;
        }
        msg.data := msg.data[2 := id / 256][3 := id % 256];
        var decoded := msg.DecodeId();
      }
    }
  }
}
