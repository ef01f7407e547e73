/** `LightSSLMessageChannel`: messages as length-prefixed, padded and encrypted frames on a byte stream.
    The first ciphertext block of every frame is the initialisation vector of the next. */
module LightSsl {
  import opened Basics
  import opened BufferFrames
  import opened Cbc
  import opened Ticks

  // ---- Frames --------------------------------------------------------------------------------

  function Body(c: Cipher, iv: seq<byte>, msg: seq<byte>): (r: seq<byte>)
    requires Invertible(c) && |iv| == BLOCK
    ensures |r| == Padded(|msg|) && Whole(r)
  {
    CbcEncrypt(c, iv, Pad(msg))
  }

  function Length(n: nat): (r: seq<byte>)
    ensures |r| == PREFIX
  {
    [n / 256 % 256, n % 256]
  }

  /** What `wrap` makes of a message. */
  function Frame(c: Cipher, iv: seq<byte>, msg: seq<byte>): (r: seq<byte>)
    requires Invertible(c) && |iv| == BLOCK
    ensures |r| == PREFIX + Padded(|msg|)
  {
    Length(Padded(|msg|)) + Body(c, iv, msg)
  }

  /** The vector after a frame: its first ciphertext block. */
  function NextIv(c: Cipher, iv: seq<byte>, msg: seq<byte>): (r: seq<byte>)
    requires Invertible(c) && |iv| == BLOCK
    ensures |r| == BLOCK
  {
    Body(c, iv, msg)[..BLOCK]
  }

  /** A frame on the wire: two length bytes, the high one first, and the padded message under CBC; its first
      ciphertext block is the next vector. */
  lemma FrameOnWire(c: Cipher, iv: seq<byte>, msg: seq<byte>)
    requires Invertible(c) && |iv| == 16 && |msg| + 16 < 0x1_0000
    ensures var frame := Frame(c, iv, msg);
            && frame[0] as nat * 256 + frame[1] as nat == |frame| - 2 == |Pad(msg)|
            && frame[2..] == CbcEncrypt(c, iv, Pad(msg)) && NextIv(c, iv, msg) == frame[2..18]
  {
    hide Invertible, CbcEncrypt;
    var frame := Frame(c, iv, msg);
    var n := Padded(|msg|);
    assert frame[0] == Length(n)[0] && frame[1] == Length(n)[1];
    assert frame[2..] == Body(c, iv, msg);
    assert frame[2..18] == frame[2..][..16];
  }

  /** The stream a sender produces for a sequence of messages, and its vector at the end. */
  function StreamOf(c: Cipher, iv: seq<byte>, msgs: seq<seq<byte>>): seq<byte>
    requires Invertible(c) && |iv| == BLOCK
    decreases |msgs|
  {
    if msgs == [] then [] else Frame(c, iv, msgs[0]) + StreamOf(c, NextIv(c, iv, msgs[0]), msgs[1..])
  }

  function IvAfter(c: Cipher, iv: seq<byte>, msgs: seq<seq<byte>>): (r: seq<byte>)
    requires Invertible(c) && |iv| == BLOCK
    ensures |r| == BLOCK
    decreases |msgs|
  {
    if msgs == [] then iv else IvAfter(c, NextIv(c, iv, msgs[0]), msgs[1..])
  }

  /** What a receiver with room for `room` bytes takes from the front of a stream: a message, its next
      vector, and the stream that is left. */
  datatype Taken = Taken(msg: seq<byte>, iv: seq<byte>, rest: seq<byte>)

  function SizeOf(stream: seq<byte>): nat
    requires |stream| >= PREFIX
  {
    BigEndian(stream[0], stream[1])
  }

  function Take(c: Cipher, iv: seq<byte>, stream: seq<byte>, room: nat): (r: Option<Taken>)
    requires Invertible(c) && |iv| == BLOCK
    ensures r.Some? ==> |r.value.iv| == BLOCK && |r.value.rest| < |stream|
  {
    if |stream| < PREFIX then None
    else
      var n := SizeOf(stream);
      if n > room || n == 0 || n % BLOCK != 0 || PREFIX + n > |stream| then None
      else
        var body := stream[PREFIX..PREFIX + n];
        Some(Taken(Unpad(CbcDecrypt(c, iv, body)), body[..BLOCK], stream[PREFIX + n..]))
  }

  /** `k` messages in a row. */
  function TakeAll(c: Cipher, iv: seq<byte>, stream: seq<byte>, room: nat, k: nat): (r: Option<(seq<seq<byte>>, Taken)>)
    requires Invertible(c) && |iv| == BLOCK
    decreases k
  {
    if k == 0 then Some(([], Taken([], iv, stream)))
    else
      var t := Take(c, iv, stream, room);
      if t.None? then None
      else
        var more := TakeAll(c, t.value.iv, t.value.rest, room, k - 1);
        if more.None? then None else Some(([t.value.msg] + more.value.0, more.value.1))
  }

  /** Taking, in terms of the body behind the header. */
  lemma TakeIs(c: Cipher, iv: seq<byte>, stream: seq<byte>, n: nat, room: nat)
    requires Invertible(c) && |iv| == BLOCK && |stream| >= PREFIX
    requires n == SizeOf(stream) && 0 < n <= room && n % BLOCK == 0
    ensures PREFIX + n <= |stream| ==>
              var body := stream[PREFIX..][..n];
              Take(c, iv, stream, room)
              == Some(Taken(Unpad(CbcDecrypt(c, iv, body)), body[..BLOCK], stream[PREFIX..][n..]))
  {
    hide CbcDecrypt, Invertible;
    if PREFIX + n <= |stream| {
      assert stream[PREFIX..][..n] == stream[PREFIX..PREFIX + n];
      assert stream[PREFIX..][n..] == stream[PREFIX + n..];
    }
  }

  // ---- Two peers in step ---------------------------------------------------------------------

  lemma LengthRoundTrip(n: nat, rest: seq<byte>)
    requires n < 0x1_0000
    ensures SizeOf(Length(n) + rest) == n
  {
    assert n / 256 % 256 == n / 256;
  }

  /** The receiver takes a frame exactly if its padded length is within the receiver's room. */
  lemma TakesFrameIff(c: Cipher, iv: seq<byte>, msg: seq<byte>, rest: seq<byte>, room: nat)
    requires Invertible(c) && |iv| == BLOCK && Padded(|msg|) < 0x1_0000
    ensures Take(c, iv, Frame(c, iv, msg) + rest, room)
         == if Padded(|msg|) <= room then Some(Taken(msg, NextIv(c, iv, msg), rest)) else None
  {
    hide Invertible, CbcEncrypt, CbcDecrypt, Length, SizeOf, Pad, Unpad;
    var n, body := Padded(|msg|), Body(c, iv, msg);
    var stream := Frame(c, iv, msg) + rest;
    assert stream == Length(n) + (body + rest);
    LengthRoundTrip(n, body + rest);
    assert stream[PREFIX..PREFIX + n] == body && stream[PREFIX + n..] == rest;
    CbcRoundTrip(c, iv, Pad(msg));
    UnpadPad(msg);
  }

  /** Whatever the messages: a receiver that starts with the sender's vector takes exactly the sender's
      messages from the sender's stream, and ends with the sender's vector. It holds of every sequence,
      so of every prefix of one: the vectors agree after every frame. */
  lemma {:induction false} Lockstep(c: Cipher, iv: seq<byte>, msgs: seq<seq<byte>>, rest: seq<byte>, room: nat)
    requires Invertible(c) && |iv| == BLOCK && room < 0x1_0000
    requires forall m <- msgs :: Padded(|m|) <= room
    ensures TakeAll(c, iv, StreamOf(c, iv, msgs) + rest, room, |msgs|)
         == Some((msgs, Taken([], IvAfter(c, iv, msgs), rest)))
    decreases |msgs|
  {
    hide Invertible, Take, Frame, NextIv, Padded;
    if msgs == [] {
      assert [] + rest == rest;
    } else {
      var tail := StreamOf(c, NextIv(c, iv, msgs[0]), msgs[1..]) + rest;
      StreamStarts(c, iv, msgs, rest);
      TakesFrameIff(c, iv, msgs[0], tail, room);
      Lockstep(c, NextIv(c, iv, msgs[0]), msgs[1..], rest, room);
      assert [msgs[0]] + msgs[1..] == msgs;
    }
  }

  /** One message more is one frame more, under the vector the sender has by then. */
  lemma {:induction false} StreamGrows(c: Cipher, iv: seq<byte>, msgs: seq<seq<byte>>, msg: seq<byte>)
    requires Invertible(c) && |iv| == BLOCK
    ensures StreamOf(c, iv, msgs + [msg]) == StreamOf(c, iv, msgs) + Frame(c, IvAfter(c, iv, msgs), msg)
    ensures IvAfter(c, iv, msgs + [msg]) == NextIv(c, IvAfter(c, iv, msgs), msg)
    decreases |msgs|
  {
    hide Invertible, Frame, NextIv;
    var all := msgs + [msg];
    if msgs == [] {
      var next := NextIv(c, iv, msg);
      assert all[0] == msg && all[1..] == [];
      assert StreamOf(c, iv, all) == Frame(c, iv, msg) + StreamOf(c, next, []);
      assert Frame(c, iv, msg) + [] == [] + Frame(c, iv, msg);
    } else {
      assert all[0] == msgs[0] && all[1..] == msgs[1..] + [msg];
      StreamGrows(c, NextIv(c, iv, msgs[0]), msgs[1..], msg);
    }
  }

  /** With buffers of the same size on both sides, 640 or 800 bytes or any other: every message that fits
      the sender's window can be framed in place, but a receiver takes it exactly if its padded length
      fits the window too, which leaves out up to fifteen bytes at the end. */
  lemma LongestMessage(max: nat, c: Cipher, iv: seq<byte>, msg: seq<byte>, rest: seq<byte>)
    requires Invertible(c) && |iv| == BLOCK && PREFIX + SUFFIX <= max < 0x1_0000 && |msg| <= max - PREFIX - SUFFIX
    ensures FrameEnd(PREFIX, |msg|) <= max
    ensures var room := max - PREFIX - SUFFIX;
            && (Take(c, iv, Frame(c, iv, msg) + rest, room).Some? <==> Padded(|msg|) <= room)
            && (Padded(|msg|) <= room <==> |msg| < room - room % BLOCK)
  {
    hide Invertible, Take, Frame;
    var room := max - PREFIX - SUFFIX;
    TakesFrameIff(c, iv, msg, rest, room);
    assert |msg| == BLOCK * (|msg| / BLOCK) + |msg| % BLOCK && room == BLOCK * (room / BLOCK) + room % BLOCK;
  }

  // ---- The byte stream -----------------------------------------------------------------------

  /** Each reading of the clock is later than the one before, by less than 2^30 milliseconds. */
  ghost predicate Running(clock: nat -> nat) {
    forall i: nat :: clock(i) < clock(i + 1) < clock(i) + 0x4000_0000
  }

  /** What a call moves of `most` bytes if the network grants `g`. */
  function Cut(g: int, most: nat): int {
    if g > most then most else g
  }

  lemma CutIsWithin(g: int, most: nat)
    ensures Cut(g, most) <= most && (Cut(g, most) < 0 <==> g < 0)
  {
  }

  /** The bytes the network grants in the calls from `from` up to `to`. */
  ghost function Granted(grant: nat -> int, from: nat, to: nat): nat
    requires from <= to
  {
    if from == to then 0 else Granted(grant, from, to - 1) + if grant(to - 1) > 0 then grant(to - 1) else 0
  }

  /** The callbacks of the channel: each call moves as many bytes as the network grants, which may be
      none, or fails with a negative result; reading the clock yields the lowest 32 bits of its time. */
  class Socket {
    const grant: nat -> int
    const clock: nat -> nat
    var calls: nat
    var readings: nat
    var outgoing: seq<byte>
    var incoming: seq<byte>

    constructor (grant: nat -> int, clock: nat -> nat, incoming: seq<byte>)
      ensures this.grant == grant && this.clock == clock && this.incoming == incoming
      ensures calls == 0 && readings == 0 && outgoing == []
    {
      this.grant, this.clock, this.incoming := grant, clock, incoming;
      calls, readings, outgoing := 0, 0, [];
    }

    method Send(data: seq<byte>) returns (r: int)
      modifies this`calls, this`outgoing
      ensures r == Cut(grant(old(calls)), |data|) && calls == old(calls) + 1
      ensures outgoing == old(outgoing) + if r > 0 then data[..r] else []
    {
      r := grant(calls);
      calls := calls + 1;
      if r > |data| {
        r := |data|;
      }
      if r > 0 {
        outgoing := outgoing + data[..r];
      }
    }

    method Receive(count: nat) returns (r: int, data: seq<byte>)
      modifies this`calls, this`incoming
      ensures r == Cut(Cut(grant(old(calls)), count), |old(incoming)|) && calls == old(calls) + 1
      ensures data == if r > 0 then old(incoming)[..r] else []
      ensures incoming == if r > 0 then old(incoming)[r..] else old(incoming)
    {
      r := grant(calls);
      calls := calls + 1;
      if r > count {
        r := count;
      }
      if r > |incoming| {
        r := |incoming|;
      }
      data := [];
      if r > 0 {
        data, incoming := incoming[..r], incoming[r..];
      }
    }

    method Millis() returns (now: Tick)
      modifies this`readings
      ensures now == ToTick(clock(old(readings))) && readings == old(readings) + 1
    {
      now := ToTick(clock(readings));
      readings := readings + 1;
    }
  }

  const TIMEOUT: nat := 20000

  /** Why a blocking transfer gave up: a failing call among its own, or more than 20 s without
      finishing. */
  ghost predicate GaveUp(s: Socket, calls: nat, readings: nat)
    reads s
  {
    || (exists k: nat :: calls <= k < s.calls && s.grant(k) < 0)
    || (s.readings > readings + 1 && s.clock(s.readings - 1) > s.clock(readings) + 20000)
  }

  /** A transfer that began at reading `start` has not timed out at the latest reading. */
  predicate InTime(clock: nat -> nat, start: nat, readings: nat) {
    start < readings && clock(start) <= clock(readings - 1) <= clock(start) + TIMEOUT
  }

  /** What is left of the timeout. */
  function TimeLeft(clock: nat -> nat, start: nat, readings: nat): nat
    requires InTime(clock, start, readings)
  {
    clock(start) + TIMEOUT - clock(readings - 1)
  }

  /** The wrapped difference is the true one; the transfer times out, or less time is left. */
  lemma OneMoreReading(clock: nat -> nat, start: nat, readings: nat)
    requires Running(clock) && InTime(clock, start, readings)
    ensures start < readings && SubTick(ToTick(clock(readings)), ToTick(clock(start))) == clock(readings) - clock(start)
    ensures if clock(readings) - clock(start) > TIMEOUT then true
            else InTime(clock, start, readings + 1) && TimeLeft(clock, start, readings + 1) < TimeLeft(clock, start, readings)
  {
    hide Running, SubTick, ToTick;
    NextReading(clock, readings);
    TrueDistance(clock(start), clock(readings));
  }

  lemma NextReading(clock: nat -> nat, readings: nat)
    requires Running(clock) && readings > 0
    ensures clock(readings - 1) < clock(readings) < clock(readings - 1) + 0x4000_0000
  {
    assert clock(readings - 1 + 1) == clock(readings);
  }

  lemma FirstReading(clock: nat -> nat, start: nat)
    ensures InTime(clock, start, start + 1)
  {
  }

  /** A transfer of at most `most` bytes that began at `calls` and `start` has ended: each reading but the
      first followed a call, and what it moved is what its calls were granted. */
  ghost predicate Ended(s: Socket, calls: nat, start: nat, most: nat, moved: nat)
    reads s
  {
    && calls <= s.calls && start < s.readings <= start + 1 + (s.calls - calls)
    && moved == Min(most, Granted(s.grant, calls, s.calls))
  }

  /** A blocking transfer of at most `most` bytes that began at `calls` and `start` and has come to `c` and
      `r`: no call failed, and what it moved is what the calls were granted. */
  ghost predicate Underway(s: Socket, c: nat, r: nat, calls: nat, start: nat, most: nat, moved: nat) {
    && calls <= c && start < r <= start + 1 + (c - calls)
    && moved == Min(most, Granted(s.grant, calls, c))
    && forall k: nat :: calls <= k < c ==> s.grant(k) >= 0
  }

  lemma TransferStarts(s: Socket, calls: nat, start: nat, most: nat)
    ensures Underway(s, calls, start + 1, calls, start, most, 0)
  {
  }

  lemma OneMoreCall(s: Socket, c: nat, r: nat, calls: nat, start: nat, most: nat, moved: nat)
    requires Underway(s, c, r, calls, start, most, moved) && s.grant(c) >= 0
    ensures moved <= most && Underway(s, c + 1, r, calls, start, most, moved + Cut(s.grant(c), most - moved))
    ensures r < start + 1 + (c + 1 - calls)
  {
  }

  lemma OneMoreMoment(s: Socket, c: nat, r: nat, calls: nat, start: nat, most: nat, moved: nat)
    requires Underway(s, c, r, calls, start, most, moved) && r < start + 1 + (c - calls)
    ensures Underway(s, c, r + 1, calls, start, most, moved)
  {
  }

  lemma CallFailed(s: Socket, calls: nat, start: nat, most: nat, moved: nat)
    requires s.calls > 0 && Underway(s, s.calls - 1, s.readings, calls, start, most, moved) && s.grant(s.calls - 1) < 0
    ensures Ended(s, calls, start, most, moved) && GaveUp(s, calls, start)
  {
  }

  lemma TimedOut(s: Socket, calls: nat, start: nat, most: nat, moved: nat)
    requires s.readings > 0 && Underway(s, s.calls, s.readings - 1, calls, start, most, moved)
    requires s.readings <= start + 1 + (s.calls - calls) && s.clock(s.readings - 1) - s.clock(start) > TIMEOUT
    ensures Ended(s, calls, start, most, moved) && GaveUp(s, calls, start)
  {
  }

  lemma Finished(s: Socket, calls: nat, start: nat, most: nat, moved: nat)
    requires Underway(s, s.calls, s.readings, calls, start, most, moved) && InTime(s.clock, start, s.readings)
    ensures Ended(s, calls, start, most, moved) && !GaveUp(s, calls, start)
  {
  }

  // ---- The channel ---------------------------------------------------------------------------

  const BLOCKING_SEND: ProtocolError := ChannelFault(0)
  const BLOCKING_RECEIVE: ProtocolError := ChannelFault(1)
  const RECEIVE: ProtocolError := ChannelFault(2)

  class LightSSLMessageChannel {
    const buffers: BufferMessageChannel
    const cipher: Cipher
    const socket: Socket
    var ivSend: seq<byte>
    var ivReceive: seq<byte>

    ghost predicate Valid()
      reads this
    {
      && Invertible(cipher) && |ivSend| == BLOCK && |ivReceive| == BLOCK && Running(socket.clock)
      && buffers.queue.Length >= PREFIX + SUFFIX
    }

    constructor (buffers: BufferMessageChannel, cipher: Cipher, socket: Socket, iv: seq<byte>)
      requires Invertible(cipher) && |iv| == BLOCK && Running(socket.clock) && buffers.queue.Length >= PREFIX + SUFFIX
      ensures Valid() && ivSend == iv && ivReceive == iv
      ensures this.buffers == buffers && this.cipher == cipher && this.socket == socket
    {
      this.buffers, this.cipher, this.socket := buffers, cipher, socket;
      ivSend, ivReceive := iv, iv;
    }

    /** `encrypt`. */
    method Encrypt(at: nat, length: nat)
      requires Valid() && at + length <= buffers.queue.Length && length % BLOCK == 0 && length > 0
      modifies this`ivSend, buffers.queue
      ensures Valid()
      ensures var x := CbcEncrypt(cipher, old(ivSend), old(buffers.queue[at..at + length]));
              buffers.queue[..] == Overwrite(old(buffers.queue[..]), at, x) && ivSend == x[..BLOCK]
    {
      hide Invertible;
      ghost var q := buffers.queue[..];
      var x := CbcEncrypt(cipher, ivSend, buffers.queue[at..at + length]);
      var next := Copy(buffers.queue, at, x);
      ivSend := buffers.queue[at..at + BLOCK];
      OverwriteHolds(q, at, x, BLOCK);
    }

    /** `wrap`: pads, encrypts and prepends the length, in place. */
    method Wrap(buf: nat, msgLength: nat) returns (toWrite: nat)
      requires Valid() && buf + PREFIX + Padded(msgLength) <= buffers.queue.Length
      modifies this`ivSend, buffers.queue
      ensures Valid()
      ensures var msg := old(buffers.queue[buf + PREFIX..buf + PREFIX + msgLength]);
              && toWrite == |Frame(cipher, old(ivSend), msg)|
              && buffers.queue[..] == Overwrite(old(buffers.queue[..]), buf, Frame(cipher, old(ivSend), msg))
              && ivSend == NextIv(cipher, old(ivSend), msg)
    {
      hide Invertible, CbcEncrypt, Overwrite, Length;
      ghost var q := buffers.queue[..];
      ghost var msg := buffers.queue[buf + PREFIX..buf + PREFIX + msgLength];
      var bufLength := Padded(msgLength);
      var next := Copy(buffers.queue, buf + PREFIX + msgLength, Padding(msgLength));
      PadInPlace(q, buf + PREFIX, msgLength);
      Encrypt(buf + PREFIX, bufLength);
      next := Copy(buffers.queue, buf, Length(bufLength));
      FrameInPlace(q, buf, Length(bufLength), Padding(msgLength), Body(cipher, old(ivSend), msg));
      return bufLength + PREFIX;
    }

    /** `blocking_send`: all bytes in order, however the calls split them, or those that its calls were
        granted before it gave up. */
    method BlockingSend(buf: nat, length: nat) returns (r: int, ghost sent: nat)
      requires Valid() && buf + length <= buffers.queue.Length
      modifies socket
      ensures sent <= length && socket.outgoing == old(socket.outgoing) + buffers.queue[buf..buf + sent]
      ensures r >= 0 <==> sent == length
      ensures r >= 0 ==> r == length
      ensures r < 0 <==> GaveUp(socket, old(socket.calls), old(socket.readings))
      ensures Ended(socket, old(socket.calls), old(socket.readings), length, sent)
      ensures socket.incoming == old(socket.incoming)
    {
      hide Invertible, Running, InTime, TimeLeft, GaveUp, Ended, Underway, SubTick, ToTick, Cut;
      var byteCount: nat := 0;
      ghost var calls, start := socket.calls, socket.readings;
      FirstReading(socket.clock, start);
      TransferStarts(socket, calls, start, length);
      var millis := socket.Millis();
      var data := buffers.queue[buf..buf + length];
      while length > byteCount
        invariant byteCount <= length && Underway(socket, socket.calls, socket.readings, calls, start, length, byteCount)
        invariant InTime(socket.clock, start, socket.readings)
        invariant socket.outgoing == old(socket.outgoing) + data[..byteCount]
        invariant socket.incoming == old(socket.incoming)
        decreases length - byteCount, TimeLeft(socket.clock, start, socket.readings)
      {
        CutIsWithin(socket.grant(socket.calls), length - byteCount);
        var bytesOrError := socket.Send(data[byteCount..]);
        if 0 > bytesOrError {
          CallFailed(socket, calls, start, length, byteCount);
          PartOf(buffers.queue[..], buf, data, byteCount);
          return bytesOrError, byteCount;
        } else if 0 < bytesOrError {
          OneMoreCall(socket, socket.calls - 1, socket.readings, calls, start, length, byteCount);
          Extends(data, byteCount, bytesOrError);
          Regroup(old(socket.outgoing), data[..byteCount], data[byteCount..][..bytesOrError]);
          byteCount := byteCount + bytesOrError;
        } else {
          OneMoreCall(socket, socket.calls - 1, socket.readings, calls, start, length, byteCount);
          OneMoreReading(socket.clock, start, socket.readings);
          var now := socket.Millis();
          if TIMEOUT < SubTick(now, millis) {
            TimedOut(socket, calls, start, length, byteCount);
            PartOf(buffers.queue[..], buf, data, byteCount);
            return -1, byteCount;
          }
          OneMoreMoment(socket, socket.calls, socket.readings - 1, calls, start, length, byteCount);
        }
      }
      PartOf(buffers.queue[..], buf, data, byteCount);
      Finished(socket, calls, start, length, byteCount);
      return byteCount, byteCount;
    }

    /** `blocking_receive`: exactly the next bytes of the stream, however the calls split them, or those
        that its calls were granted before it gave up. */
    method BlockingReceive(buf: nat, length: nat) returns (r: int, ghost received: nat)
      requires Valid() && buf + length <= buffers.queue.Length
      modifies socket, buffers.queue
      ensures received <= length && received <= |old(socket.incoming)|
      ensures socket.incoming == old(socket.incoming)[received..]
      ensures buffers.queue[..] == Overwrite(old(buffers.queue[..]), buf, old(socket.incoming)[..received])
      ensures r >= 0 <==> received == length
      ensures r >= 0 ==> r == length
      ensures r < 0 <==> GaveUp(socket, old(socket.calls), old(socket.readings))
      ensures Ended(socket, old(socket.calls), old(socket.readings), Min(length, |old(socket.incoming)|), received)
      ensures socket.outgoing == old(socket.outgoing)
    {
      hide Invertible, Running, InTime, TimeLeft, GaveUp, Ended, Underway, SubTick, ToTick, Overwrite;
      var byteCount: nat := 0;
      ghost var calls, start, stream, q := socket.calls, socket.readings, socket.incoming, buffers.queue[..];
      ghost var most := Min(length, |stream|);
      FirstReading(socket.clock, start);
      TransferStarts(socket, calls, start, most);
      var millis := socket.Millis();
      OverwriteNothing(q, buf);
      while length > byteCount
        invariant byteCount <= most && Underway(socket, socket.calls, socket.readings, calls, start, most, byteCount)
        invariant InTime(socket.clock, start, socket.readings)
        invariant socket.incoming == stream[byteCount..] && socket.outgoing == old(socket.outgoing)
        invariant buffers.queue[..] == Overwrite(q, buf, stream[..byteCount])
        decreases length - byteCount, TimeLeft(socket.clock, start, socket.readings)
      {
        var bytesOrError, data := socket.Receive(length - byteCount);
        if 0 > bytesOrError {
          CallFailed(socket, calls, start, most, byteCount);
          return bytesOrError, byteCount;
        } else if 0 < bytesOrError {
          OneMoreCall(socket, socket.calls - 1, socket.readings, calls, start, most, byteCount);
          var next := Copy(buffers.queue, buf + byteCount, data);
          PieceArrives(q, buf, stream, byteCount, bytesOrError);
          byteCount := byteCount + bytesOrError;
        } else {
          OneMoreCall(socket, socket.calls - 1, socket.readings, calls, start, most, byteCount);
          OneMoreReading(socket.clock, start, socket.readings);
          var now := socket.Millis();
          if TIMEOUT < SubTick(now, millis) {
            TimedOut(socket, calls, start, most, byteCount);
            return -1, byteCount;
          }
          OneMoreMoment(socket, socket.calls, socket.readings - 1, calls, start, most, byteCount);
        }
      }
      Finished(socket, calls, start, most, byteCount);
      return byteCount, byteCount;
    }

    /** `send`: an empty message is nothing; any other goes out as one frame, as far as the calls were
        granted bytes for it. It is complete exactly if there is no error, and an error is a transfer that
        gave up. */
    method Send(message: Window) returns (error: ProtocolError, ghost sent: nat)
      requires Valid() && message.length <= message.capacity
      requires message.length > 0 ==>
                 0 <= FrameStart(message.buf) && FrameEnd(message.buf, message.length) <= buffers.queue.Length
      modifies this`ivSend, buffers.queue, socket
      ensures Valid() && socket.incoming == old(socket.incoming)
      ensures message.length == 0 ==>
                error == NoError && sent == 0 && ivSend == old(ivSend) && buffers.queue[..] == old(buffers.queue[..])
                && socket.outgoing == old(socket.outgoing) && socket.calls == old(socket.calls)
      ensures message.length > 0 ==>
                var msg := old(buffers.queue[message.buf..message.buf + message.length]);
                var frame := Frame(cipher, old(ivSend), msg);
                && ivSend == NextIv(cipher, old(ivSend), msg)
                && buffers.queue[..] == Overwrite(old(buffers.queue[..]), message.buf - PREFIX, frame)
                && sent <= |frame| && socket.outgoing == old(socket.outgoing) + frame[..sent]
      ensures message.length > 0 ==>
                && Ended(socket, old(socket.calls), old(socket.readings), PREFIX + Padded(message.length), sent)
                && error == (if sent == PREFIX + Padded(message.length) then NoError else BLOCKING_SEND)
                && (error != NoError <==> GaveUp(socket, old(socket.calls), old(socket.readings)))
    {
      hide Invertible, Frame, NextIv, GaveUp, Ended, Overwrite;
      sent := 0;
      if message.length == 0 {
        return NoError, 0;
      }
      ghost var q := buffers.queue[..];
      var buf := message.buf - PREFIX;
      ghost var frame := Frame(cipher, ivSend, buffers.queue[message.buf..message.buf + message.length]);
      var toWrite := Wrap(buf, message.length);
      OverwriteHolds(q, buf, frame, 0);
      var r;
      r, sent := BlockingSend(buf, toWrite);
      PartOf(buffers.queue[..], buf, frame, sent);
      error := if r < 0 then BLOCKING_SEND else NoError;
    }

    /** A message of the given contents in the window of the channel. */
    method Fill(message: Window, msg: seq<byte>)
      requires Valid() && |msg| <= buffers.queue.Length - PREFIX - SUFFIX
      modifies message, buffers.queue
      ensures Created(message, buffers.queue.Length) && message.length == |msg|
      ensures buffers.queue[PREFIX..PREFIX + |msg|] == msg
    {
      hide Invertible, Overwrite;
      var error := buffers.Create(message, |msg|);
      OverwriteHolds(buffers.queue[..], PREFIX, msg, 0);
      var next := Copy(buffers.queue, PREFIX, msg);
      message.SetLength(|msg|);
    }

    /** Sends messages one after the other until a transfer gives up: then the stream grew by the messages
        before it and a beginning of its frame, and otherwise by all of the stream. `at` and `since` are
        the calls and readings when the last transfer began, and `whole` is how many went out before it. */
    method SendAll(message: Window, msgs: seq<seq<byte>>)
      returns (ok: bool, ghost sent: nat, ghost whole: nat, ghost at: nat, ghost since: nat)
      requires Valid() && forall m <- msgs :: 0 < |m| <= buffers.queue.Length - PREFIX - SUFFIX
      modifies this`ivSend, buffers.queue, socket, message
      ensures Valid() && socket.incoming == old(socket.incoming)
      ensures sent <= |StreamOf(cipher, old(ivSend), msgs)|
      ensures socket.outgoing == old(socket.outgoing) + StreamOf(cipher, old(ivSend), msgs)[..sent]
      ensures ok ==> sent == |StreamOf(cipher, old(ivSend), msgs)| && ivSend == IvAfter(cipher, old(ivSend), msgs)
      ensures old(socket.calls) <= at <= socket.calls && old(socket.readings) <= since <= socket.readings
      ensures !ok ==>
                && GaveUp(socket, at, since) && whole < |msgs|
                && var first := StreamOf(cipher, old(ivSend), msgs[..whole]);
                   var frame := Frame(cipher, IvAfter(cipher, old(ivSend), msgs[..whole]), msgs[whole]);
                   |first| <= sent < |first| + |frame| && Ended(socket, at, since, |frame|, sent - |first|)
    {
      hide Invertible, Frame, NextIv, StreamOf, IvAfter, Overwrite, Padded, GaveUp, Granted;
      ghost var iv, out := ivSend, socket.outgoing;
      whole, at, since := 0, socket.calls, socket.readings;
      var i: nat := 0;
      NoStream(cipher, iv);
      assert msgs[..0] == [];
      assert socket.outgoing == out + [];
      while i < |msgs|
        invariant i <= |msgs| && Valid() && socket.incoming == old(socket.incoming)
        invariant old(socket.calls) <= at <= socket.calls && old(socket.readings) <= since <= socket.readings
        invariant ivSend == IvAfter(cipher, iv, msgs[..i])
        invariant socket.outgoing == out + StreamOf(cipher, iv, msgs[..i])
      {
        ghost var before := StreamOf(cipher, iv, msgs[..i]);
        ghost var frame := Frame(cipher, ivSend, msgs[i]);
        Fill(message, msgs[i]);
        FitsInPlace(buffers.queue.Length, |msgs[i]|);
        assert buffers.queue[message.buf..message.buf + message.length] == msgs[i];
        whole, at, since := i, socket.calls, socket.readings;
        var error, count := Send(message);
        StreamGrows(cipher, iv, msgs[..i], msgs[i]);
        assert msgs[..i] + [msgs[i]] == msgs[..i + 1];
        if error != NoError {
          StreamPrefix(cipher, iv, msgs, i + 1);
          CutAt(out, before, frame, count, StreamOf(cipher, iv, msgs));
          return false, |before| + count, whole, at, since;
        }
        assert frame[..count] == frame;
        assert out + before + frame == out + (before + frame);
        i := i + 1;
      }
      assert msgs[..i] == msgs;
      ghost var stream := StreamOf(cipher, iv, msgs);
      assert stream[..|stream|] == stream;
      return true, |stream|, whole, at, since;
    }

    /** Receives `k` messages from a stream a peer in step sent: exactly the peer's messages, as the
        specification takes them, ending with the peer's vector. It stops early, behind a prefix of them,
        only if the last call was granted less than a header, or the body was given up that began at calls
        `at` and readings `since`. */
    method ReceiveAll(message: Window, k: nat, ghost sent: seq<seq<byte>>, ghost rest: seq<byte>)
      returns (ok: bool, msgs: seq<seq<byte>>, ghost at: nat, ghost since: nat)
      requires Valid() && message.length <= message.capacity && |sent| == k && buffers.queue.Length < 0x1_0000
      requires forall m <- sent :: 0 < |m| && Padded(|m|) <= buffers.queue.Length - PREFIX - SUFFIX
      requires socket.incoming == StreamOf(cipher, ivReceive, sent) + rest
      modifies this`ivReceive, buffers.queue, socket, message
      ensures Valid() && socket.outgoing == old(socket.outgoing)
      ensures msgs <= sent && old(socket.calls) <= at <= socket.calls && old(socket.readings) <= since <= socket.readings
      ensures !ok ==> |msgs| < k && (GaveUp(socket, at, since) || (at < socket.calls && socket.grant(socket.calls - 1) < PREFIX))
      ensures ok ==> msgs == sent && ivReceive == IvAfter(cipher, old(ivReceive), sent) && socket.incoming == rest
      ensures ok ==> TakeAll(cipher, old(ivReceive), old(socket.incoming), buffers.queue.Length - PREFIX - SUFFIX, k)
                     == Some((msgs, Taken([], ivReceive, socket.incoming)))
    {
      hide Invertible, Frame, NextIv, StreamOf, IvAfter, Take, TakeAll, Padded, SizeOf, GaveUp, Ended;
      at, since := socket.calls, socket.readings;
      ghost var iv, room := ivReceive, buffers.queue.Length - PREFIX - SUFFIX;
      Lockstep(cipher, iv, sent, rest, room);
      msgs := [];
      var i: nat := 0;
      NoStream(cipher, iv);
      assert sent[0..] == sent && sent[..0] == [];
      while i < k
        invariant i <= k && Valid() && message.length <= message.capacity && msgs == sent[..i]
        invariant ivReceive == IvAfter(cipher, iv, sent[..i])
        invariant socket.incoming == StreamOf(cipher, ivReceive, sent[i..]) + rest
        invariant old(socket.calls) <= at <= socket.calls && old(socket.readings) <= since <= socket.readings
        invariant socket.outgoing == old(socket.outgoing)
      {
        NextTaken(cipher, iv, sent, i, rest, room);
        at, since := socket.calls, socket.readings;
        var error, header, received := Receive(message);
        if error != NoError || message.length == 0 {
          at := if header < PREFIX then at else at + 1;
          return false, msgs, at, since;
        }
        msgs := msgs + [buffers.queue[PREFIX..PREFIX + message.length]];
        i := i + 1;
      }
      assert sent[..k] == sent && sent[k..] == [];
      NoStream(cipher, ivReceive);
      assert [] + rest == rest;
      return true, msgs, at, since;
    }

    /** `receive`. Its first call reads what it is granted of the header. With no byte there is no message;
        a lone byte is dropped. A length beyond the window is refused, with its two bytes gone from the
        stream. Otherwise the message is what the specification takes from the stream, and the vector moves
        on with the sender's; exactly if the transfer of the body gives up, it is an error, and the vector
        stays. */
    method Receive(message: Window) returns (error: ProtocolError, ghost header: int, ghost received: nat)
      requires Valid() && message.length <= message.capacity
      requires var s := socket.incoming;
               |s| >= PREFIX && SizeOf(s) <= buffers.queue.Length - PREFIX - SUFFIX ==> SizeOf(s) > 0 && SizeOf(s) % BLOCK == 0
      modifies this`ivReceive, buffers.queue, socket, message
      ensures Valid() && socket.outgoing == old(socket.outgoing) && message.length <= message.capacity
      ensures header == Cut(Cut(socket.grant(old(socket.calls)), PREFIX), |old(socket.incoming)|)
      ensures old(socket.calls) < socket.calls && old(socket.readings) <= socket.readings
      ensures header < PREFIX || error == InsufficientStorage ==>
                socket.calls == old(socket.calls) + 1 && socket.readings == old(socket.readings)
      ensures header < PREFIX ==>
                && error == (if header < 0 then RECEIVE else NoError) && message.length == 0
                && socket.incoming == old(socket.incoming)[if header < 0 then 0 else header..]
                && ivReceive == old(ivReceive)
      ensures header == PREFIX ==>
                var s, room := old(socket.incoming), buffers.queue.Length - PREFIX - SUFFIX;
                && |s| >= PREFIX
                && (error == InsufficientStorage <==> SizeOf(s) > room)
                && (error == InsufficientStorage ==> socket.incoming == s[PREFIX..] && ivReceive == old(ivReceive))
                && (SizeOf(s) <= room ==>
                      && (error == BLOCKING_RECEIVE <==> GaveUp(socket, old(socket.calls) + 1, old(socket.readings)))
                      && Ended(socket, old(socket.calls) + 1, old(socket.readings), Min(SizeOf(s), |s| - PREFIX), received))
                && (error == BLOCKING_RECEIVE ==>
                      received < SizeOf(s) && PREFIX + received <= |s| && socket.incoming == s[PREFIX + received..]
                      && ivReceive == old(ivReceive))
                && (error == NoError ==>
                      var t := Take(cipher, old(ivReceive), s, room);
                      && t.Some? && message.buf == PREFIX && message.length == |t.value.msg|
                      && buffers.queue[PREFIX..PREFIX + message.length] == t.value.msg
                      && ivReceive == t.value.iv && socket.incoming == t.value.rest)
                && (error == NoError || error == InsufficientStorage || error == BLOCKING_RECEIVE)
    {
      hide Invertible, Take, Overwrite, CbcDecrypt, GaveUp, Granted;
      ghost var s := socket.incoming;
      received := 0;
      var bytesReceived, data := socket.Receive(2);
      header := bytesReceived;
      if 0 < bytesReceived {
        var next := Copy(buffers.queue, 0, data);
        OverwriteHolds(old(buffers.queue[..]), 0, data, 0);
        assert buffers.queue[..bytesReceived] == data;
      }
      if 2 == bytesReceived {
        var packetSize := buffers.queue[0] as nat * 256 + buffers.queue[1] as nat;
        assert buffers.queue[0] == data[0] && buffers.queue[1] == data[1];
        assert packetSize == SizeOf(s);
        error := buffers.Create(message, packetSize);
        if error == NoError {
          error, received := ReceiveBody(message, packetSize);
          TakeIs(cipher, old(ivReceive), s, packetSize, buffers.queue.Length - PREFIX - SUFFIX);
        }
      } else {
        error := buffers.Create(message, 0);
        message.SetLength(0);
        if bytesReceived < 0 {
          error := RECEIVE;
        }
      }
    }

    /** The part of `receive` behind a header that was accepted. */
    method ReceiveBody(message: Window, packetSize: nat) returns (error: ProtocolError, ghost received: nat)
      requires Valid() && Created(message, buffers.queue.Length) && message.length == 0
      requires 0 < packetSize <= buffers.queue.Length - PREFIX - SUFFIX && packetSize % BLOCK == 0
      modifies this`ivReceive, buffers.queue, socket, message`length
      ensures Valid() && socket.outgoing == old(socket.outgoing) && message.length <= message.capacity
      ensures received <= packetSize && received <= |old(socket.incoming)|
      ensures socket.incoming == old(socket.incoming)[received..]
      ensures error == if received == packetSize then NoError else BLOCKING_RECEIVE
      ensures error != NoError <==> GaveUp(socket, old(socket.calls), old(socket.readings))
      ensures Ended(socket, old(socket.calls), old(socket.readings), Min(packetSize, |old(socket.incoming)|), received)
      ensures received < packetSize ==> ivReceive == old(ivReceive)
      ensures received == packetSize ==>
                var body := old(socket.incoming)[..packetSize];
                var plain := CbcDecrypt(cipher, old(ivReceive), body);
                && ivReceive == body[..BLOCK] && message.length == |Unpad(plain)|
                && buffers.queue[PREFIX..PREFIX + message.length] == Unpad(plain)
    {
      hide Invertible, GaveUp, Ended, Overwrite, CbcDecrypt;
      ghost var q, s := buffers.queue[..], socket.incoming;
      var r;
      r, received := BlockingReceive(PREFIX, packetSize);
      if r < 0 {
        return BLOCKING_RECEIVE, received;
      }
      ghost var body := s[..packetSize];
      OverwriteHolds(q, PREFIX, body, 0);
      Decrypt(packetSize, body);
      ghost var plain := buffers.queue[PREFIX..PREFIX + packetSize];
      var last := buffers.queue[PREFIX + packetSize - 1];
      assert plain[packetSize - 1] == last;
      message.SetLength(if last <= packetSize then packetSize - last else 0);
      PartOf(buffers.queue[..], PREFIX, plain, message.length);
      return NoError, received;
    }

    /** The decryption in `receive`: the vector is saved before the body is overwritten. */
    method Decrypt(size: nat, ghost body: seq<byte>)
      requires Valid() && 0 < size && size % BLOCK == 0 && PREFIX + size <= buffers.queue.Length
      requires buffers.queue[PREFIX..PREFIX + size] == body
      modifies this`ivReceive, buffers.queue
      ensures Valid() && ivReceive == body[..BLOCK]
      ensures buffers.queue[PREFIX..PREFIX + size] == CbcDecrypt(cipher, old(ivReceive), body)
    {
      hide Invertible, CbcDecrypt, Overwrite;
      ghost var q := buffers.queue[..];
      var nextIv := buffers.queue[PREFIX..PREFIX + BLOCK];
      assert nextIv == body[..BLOCK];
      var plain := CbcDecrypt(cipher, ivReceive, buffers.queue[PREFIX..PREFIX + size]);
      var next := Copy(buffers.queue, PREFIX, plain);
      OverwriteHolds(q, PREFIX, plain, 0);
      ivReceive := nextIv;
    }
  }

  // ---- Streams of several messages -----------------------------------------------------------

  lemma NoStream(c: Cipher, iv: seq<byte>)
    requires Invertible(c) && |iv| == BLOCK
    ensures StreamOf(c, iv, []) == [] && IvAfter(c, iv, []) == iv
  {
  }

  lemma StreamStarts(c: Cipher, iv: seq<byte>, msgs: seq<seq<byte>>, rest: seq<byte>)
    requires Invertible(c) && |iv| == BLOCK && msgs != []
    ensures StreamOf(c, iv, msgs) + rest
         == Frame(c, iv, msgs[0]) + (StreamOf(c, NextIv(c, iv, msgs[0]), msgs[1..]) + rest)
  {
    hide Invertible, Frame, NextIv;
  }

  lemma FrameHeader(c: Cipher, iv: seq<byte>, msg: seq<byte>, rest: seq<byte>)
    requires Invertible(c) && |iv| == BLOCK && Padded(|msg|) < 0x1_0000
    ensures SizeOf(Frame(c, iv, msg) + rest) == Padded(|msg|) && Padded(|msg|) > 0 && Padded(|msg|) % BLOCK == 0
  {
    hide Invertible, CbcEncrypt, Length, SizeOf, Pad;
    assert Frame(c, iv, msg) + rest == Length(Padded(|msg|)) + (Body(c, iv, msg) + rest);
    LengthRoundTrip(Padded(|msg|), Body(c, iv, msg) + rest);
  }

  /** A receiver that has taken `i` messages finds the next one at the front of the stream. */
  lemma NextTaken(c: Cipher, iv: seq<byte>, sent: seq<seq<byte>>, i: nat, rest: seq<byte>, room: nat)
    requires Invertible(c) && |iv| == BLOCK && i < |sent| && Padded(|sent[i]|) <= room < 0x1_0000
    ensures var at, next := IvAfter(c, iv, sent[..i]), IvAfter(c, iv, sent[..i + 1]);
            var s := StreamOf(c, at, sent[i..]) + rest;
            && |s| >= PREFIX && 0 < SizeOf(s) <= room && SizeOf(s) % BLOCK == 0
            && Take(c, at, s, room) == Some(Taken(sent[i], next, StreamOf(c, next, sent[i + 1..]) + rest))
  {
    hide Invertible, Frame, NextIv, StreamOf, IvAfter, Take, Padded, SizeOf;
    var at := IvAfter(c, iv, sent[..i]);
    var tail := StreamOf(c, NextIv(c, at, sent[i]), sent[i + 1..]) + rest;
    StreamStarts(c, at, sent[i..], rest);
    assert sent[i..][0] == sent[i] && sent[i..][1..] == sent[i + 1..];
    FrameHeader(c, at, sent[i], tail);
    TakesFrameIff(c, at, sent[i], tail, room);
    StreamGrows(c, iv, sent[..i], sent[i]);
    assert sent[..i] + [sent[i]] == sent[..i + 1];
  }

  /** The stream of the first messages is the beginning of the stream of all. */
  lemma {:induction false} StreamPrefix(c: Cipher, iv: seq<byte>, msgs: seq<seq<byte>>, k: nat)
    requires Invertible(c) && |iv| == BLOCK && k <= |msgs|
    ensures var a, b := StreamOf(c, iv, msgs[..k]), StreamOf(c, iv, msgs); |a| <= |b| && b[..|a|] == a
    decreases |msgs|
  {
    hide Invertible, Frame, NextIv;
    if k > 0 {
      var first := msgs[..k];
      assert first[0] == msgs[0] && first[1..] == msgs[1..][..k - 1];
      StreamPrefix(c, NextIv(c, iv, msgs[0]), msgs[1..], k - 1);
    } else {
      assert msgs[..0] == [];
    }
  }

  lemma CutAt(out: seq<byte>, before: seq<byte>, frame: seq<byte>, count: nat, all: seq<byte>)
    requires count <= |frame| && |before + frame| <= |all| && all[..|before + frame|] == before + frame
    ensures out + before + frame[..count] == out + all[..|before| + count]
  {
    assert all[..|before| + count] == all[..|before + frame|][..|before| + count];
  }

  lemma FitsInPlace(max: nat, n: nat)
    requires n <= max - PREFIX - SUFFIX
    ensures FrameEnd(PREFIX, n) <= max
  {
  }

  // ---- Buffers -------------------------------------------------------------------------------

  lemma PadInPlace(q: seq<byte>, at: nat, n: nat)
    requires at + Padded(n) <= |q|
    ensures Overwrite(q, at + n, Padding(n))[at..at + Padded(n)] == Pad(q[at..at + n])
  {
  }

  /** Padding, then the body over message and padding, then the length in front: one frame. */
  lemma FrameInPlace(q: seq<byte>, buf: nat, length: seq<byte>, padding: seq<byte>, body: seq<byte>)
    requires |length| == PREFIX && |padding| <= |body| && buf + PREFIX + |body| <= |q|
    ensures Overwrite(Overwrite(Overwrite(q, buf + PREFIX + |body| - |padding|, padding), buf + PREFIX, body), buf, length)
         == Overwrite(q, buf, length + body)
  {
    var i := buf + PREFIX;
    var q2 := Overwrite(Overwrite(q, i + |body| - |padding|, padding), i, body);
    assert q2[..buf] == q[..buf];
    assert q2[i..] == body + q[i + |body|..];
  }

  lemma PartOf(q: seq<byte>, at: nat, x: seq<byte>, k: nat)
    requires at + |x| <= |q| && q[at..at + |x|] == x && k <= |x|
    ensures q[at..at + k] == x[..k]
  {
    assert q[at..at + k] == q[at..at + |x|][..k];
  }

  /** The next `n` bytes of a stream, behind those that arrived before. */
  lemma PieceArrives(q: seq<byte>, buf: nat, stream: seq<byte>, count: nat, n: nat)
    requires count + n <= |stream| && buf + count + n <= |q|
    ensures Overwrite(Overwrite(q, buf, stream[..count]), buf + count, stream[count..][..n]) == Overwrite(q, buf, stream[..count + n])
    ensures stream[count..][n..] == stream[count + n..]
  {
    OverwriteTwice(q, buf, stream[..count], stream[count..][..n]);
    assert stream[..count] + stream[count..][..n] == stream[..count + n];
  }

  lemma Regroup(a: seq<byte>, b: seq<byte>, c: seq<byte>)
    ensures a + b + c == a + (b + c)
  {
  }

  lemma Extends(data: seq<byte>, count: nat, more: nat)
    requires count + more <= |data|
    ensures data[..count] + data[count..][..more] == data[..count + more]
  {
  }

  /** Wrapping a response inside the promised room changes nothing of the original nor of its frame, and
      wrapping the original changes nothing of the response's frame. */
  lemma WrappingKeepsTheOther(q: seq<byte>, original: nat, n: nat, response: nat, k: nat, frame: seq<byte>, other: seq<byte>)
    requires PREFIX <= original && PREFIX <= response && Apart(original, n, response, k, |q|)
    requires |frame| == PREFIX + Padded(k) && |other| == PREFIX + Padded(n)
    ensures Overwrite(q, response - PREFIX, frame)[..original + Padded(n)] == q[..original + Padded(n)]
    ensures Overwrite(q, original - PREFIX, other)[response - PREFIX..] == q[response - PREFIX..]
  {
  }
}
