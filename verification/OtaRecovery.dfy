/** Recovery of lost chunks: every round of UpdateDone, request and replies gets closer to the whole
    file, so the transfer ends. */
module OtaRecovery {
  import opened Basics
  import opened ChunkBitmap
  import CoapHeader
  import EventBuilder
  import EventModel
  import opened OtaModel
  import opened OtaSafety

  // ---- What a request asks for ---------------------------------------------------------------

  /** Never fewer than two, never more than forty; below forty always at least two more than the
      chunks of the last flight. */
  lemma ResendCountGrows(flightCount: nat)
    ensures var n := ResendCount(flightCount);
            2 <= n <= 40 && (n < 40 ==> n >= flightCount + 2)
  {
  }

  function IndexAt(message: seq<byte>, i: nat): nat
    requires 9 + 2 * i <= |message|
  {
    BigEndian(message[7 + 2 * i], message[8 + 2 * i])
  }

  lemma {:induction false} IndexBytesAt(idxs: seq<nat>, i: nat)
    requires i < |idxs| && forall k :: 0 <= k < |idxs| ==> idxs[k] < 0x1_0000
    ensures IndexBytes(idxs)[2 * i] == idxs[i] / 256 && IndexBytes(idxs)[2 * i + 1] == idxs[i] % 256
  {
    if i == |idxs| - 1 {
    } else {
      IndexBytesAt(idxs[..|idxs| - 1], i);
    }
  }

  /** Reading a request back, two bytes at a time, gives strictly increasing indexes: exactly the
      first `count` missing ones, all of them if there are fewer. */
  lemma RequestListsMissing(s: Ota, count: nat, id: nat)
    requires id < 0x1_0000
    ensures var m := Missing(s.received, Chunks(s), 0);
            var message := RequestMessage(id, Requested(s, count));
            && |message| == 7 + 2 * Min(count, |m|)
            && (forall i :: 0 <= i < Min(count, |m|) ==> IndexAt(message, i) == m[i])
            && (forall i, j :: 0 <= i < j < Min(count, |m|) ==> IndexAt(message, i) < IndexAt(message, j))
            && (forall i: nat :: i < Chunks(s) && i !in s.received <==> i in m)
  {
    hide ChunkCount, IndexBytes, Missing;
    MissingExactly(s.received, Chunks(s), 0);
    var m := Missing(s.received, Chunks(s), 0);
    var r := Requested(s, count);
    var message := RequestMessage(id, r);
    forall i | 0 <= i < |r| ensures IndexAt(message, i) == m[i] {
      IndexBytesAt(r, i);
      assert message[7 + 2 * i] == IndexBytes(r)[2 * i] && message[8 + 2 * i] == IndexBytes(r)[2 * i + 1];
    }
  }

  /** The request is a CoAP message: a confirmable GET of "c" without token, under the given id, and the
      indexes are its payload. */
  lemma RequestIsCoap(id: nat, idxs: seq<nat>)
    requires id < 0x1_0000 && forall i :: 0 <= i < |idxs| ==> idxs[i] < 0x1_0000
    ensures var message := RequestMessage(id, idxs);
            && CoapHeader.ReadHeader(message) == CoapHeader.Header(1, CoapHeader.Confirmable, 0, 0, CoapHeader.GET, id)
            && EventModel.ReadCoap(message, |message|)
               == Some(EventModel.Body([EventModel.Opt(EventModel.URI_PATH, ['c' as int])], Some(IndexBytes(idxs))))
  {
    hide IndexBytes;
    var message := RequestMessage(id, idxs);
    assert message[0] == 0x40 && message[1] == 1 && message[2] == id / 256 && message[3] == id % 256;
    assert message[4] == 0xb1 && message[5] == 'c' as int && message[6] == 0xff;
    assert message[5..6] == ['c' as int] && message[7..|message|] == IndexBytes(idxs);
    var rest := EventModel.ReadBody(message, 6, |message|, EventModel.URI_PATH);
    assert rest == Some(EventModel.Body([], Some(IndexBytes(idxs))));
    EventBuilder.OptionWritten(message, 4, |message|, 0, 11, ['c' as int], 1);
    var path := EventModel.Opt(EventModel.URI_PATH, ['c' as int]);
    assert [path] + [] == [path];
  }

  // ---- Chunk messages ------------------------------------------------------------------------

  function Bytes32(n: nat): seq<byte>
    requires n < 0x1_0000_0000
  {
    var hi, lo := n / 0x1_0000, n % 0x1_0000;
    [hi / 256, hi % 256, lo / 256, lo % 256]
  }

  /** A chunk message of a fast transfer: seven bytes up to the path, the checksum, the index. */
  function ChunkMessage(head: seq<byte>, crc: nat, idx: nat, chunk: seq<byte>): seq<byte>
    requires |head| == 7 && crc < 0x1_0000_0000 && idx < 0x1_0000
  {
    head + [0x44] + Bytes32(crc) + [0x02, idx / 256, idx % 256] + [0xFF] + chunk
  }

  lemma ChunkMessageParses(head: seq<byte>, crc: nat, idx: nat, chunk: seq<byte>)
    requires |head| == 7 && crc < 0x1_0000_0000 && idx < 0x1_0000
    ensures var q := ChunkMessage(head, crc, idx, chunk);
            Parsed(q) == Some(Options(crc, Some(idx), 15)) && q[16..] == chunk
  {
    var q := ChunkMessage(head, crc, idx, chunk);
    Decode32OfBytes(q, 8, crc);
    assert q[7] == 0x44 && q[12] == 0x02 && q[15] == 0xFF;
    assert Decode16(q, 13) == idx;
    assert ParseOptions(q, 15, 2, crc, Some(idx)) == Some(Options(crc, Some(idx), 15));
    assert ParseOptions(q, 12, 1, crc, None) == ParseOptions(q, 15, 2, crc, Some(idx));
    assert ParseOptions(q, 7, 0, 0, None) == ParseOptions(q, 12, 1, crc, None);
  }

  /** A chunk message of a regular transfer has the checksum only. */
  lemma RegularMessageParses(head: seq<byte>, crc: nat, chunk: seq<byte>)
    requires |head| == 7 && crc < 0x1_0000_0000
    ensures var q := head + [0x44] + Bytes32(crc) + [0xFF] + chunk;
            Parsed(q) == Some(Options(crc, None, 12)) && q[13..] == chunk
  {
    var q := head + [0x44] + Bytes32(crc) + [0xFF] + chunk;
    Decode32OfBytes(q, 8, crc);
    assert q[7] == 0x44 && q[12] == 0xFF;
    assert ParseOptions(q, 12, 1, crc, None) == Some(Options(crc, None, 12));
  }

  lemma Decode32OfBytes(q: seq<byte>, at: nat, n: nat)
    requires n < 0x1_0000_0000 && at + 4 <= |q|
    requires q[at] == Bytes32(n)[0] && q[at + 1] == Bytes32(n)[1] && q[at + 2] == Bytes32(n)[2] && q[at + 3] == Bytes32(n)[3]
    ensures Decode32(q, at) == n
  {
    assert Decode16(q, at) == n / 0x1_0000 && Decode16(q, at + 2) == n % 0x1_0000;
  }

  // ---- One round -----------------------------------------------------------------------------

  /** The environment of a working network. */
  ghost predicate Works(o: Oracle) {
    (forall i :: o.sendError(i) == NoError) && (forall b :: o.crc(b) < 0x1_0000_0000)
  }

  ghost predicate Updating(s: Ota, d: Device, image: seq<byte>) {
    ForFile(s, d, image) && s.updating != 0
  }

  /** The intact reply to a request for chunk `idx`. */
  function Reply(o: Oracle, head: seq<byte>, image: seq<byte>, c: nat, idx: nat): seq<byte>
    requires |head| == 7 && c > 0 && idx * c <= |image| && idx < 0x1_0000
    requires o.crc(Slice(image, c, idx)) < 0x1_0000_0000
  {
    ChunkMessage(head, o.crc(Slice(image, c, idx)), idx, Slice(image, c, idx))
  }

  /** What an intact reply does to the receiver. */
  lemma ReplyIsAccepted(s: Ota, d: Device, o: Oracle, head: seq<byte>, image: seq<byte>, idx: nat)
    requires Works(o) && Updating(s, d, image) && |head| == 7 && idx < Chunks(s)
    ensures idx * s.chunkSize <= |image|
    ensures var q := Reply(o, head, image, s.chunkSize, idx);
            Genuine(o, q, image, s.chunkSize)
            && var (s', d') := Apply(s, d, o, Chunk(q));
               && Updating(s', d', image) && Chunks(s') == Chunks(s)
               && s'.received == s.received + {idx}
               && s'.flightCount == (s.flightCount + 1) % 0x1_0000
               && s'.chunkSize == s.chunkSize && s'.updating == s.updating
  {
    hide ChunkCount, ParseOptions, Slice;
    ChunkInFile(|image|, s.chunkSize, idx);
    var chunk := Slice(image, s.chunkSize, idx);
    ChunkMessageParses(head, o.crc(chunk), idx, chunk);
  }

  ghost function AfterReply(s: Ota, d: Device, o: Oracle, head: seq<byte>, image: seq<byte>, idx: nat): (r: (Ota, Device))
    requires Works(o) && Updating(s, d, image) && |head| == 7 && idx < Chunks(s)
    ensures Updating(r.0, r.1, image) && Chunks(r.0) == Chunks(s) && r.0.received == s.received + {idx}
    ensures r.0.flightCount == (s.flightCount + 1) % 0x1_0000
  {
    ReplyIsAccepted(s, d, o, head, image, idx);
    Apply(s, d, o, Chunk(Reply(o, head, image, s.chunkSize, idx)))
  }

  /** All replies to one request, delivered. */
  ghost function Replies(s: Ota, d: Device, o: Oracle, head: seq<byte>, image: seq<byte>, idxs: seq<nat>): (Ota, Device)
    requires Works(o) && Updating(s, d, image) && |head| == 7
    requires forall i :: 0 <= i < |idxs| ==> idxs[i] < Chunks(s)
    decreases |idxs|
  {
    if idxs == [] then (s, d)
    else
      var (s', d') := AfterReply(s, d, o, head, image, idxs[0]);
      Replies(s', d', o, head, image, idxs[1..])
  }

  lemma {:induction false} RepliesFlagAll(s: Ota, d: Device, o: Oracle, head: seq<byte>, image: seq<byte>, idxs: seq<nat>)
    requires Works(o) && Updating(s, d, image) && |head| == 7
    requires forall i :: 0 <= i < |idxs| ==> idxs[i] < Chunks(s)
    ensures var (s', d') := Replies(s, d, o, head, image, idxs);
            && Updating(s', d', image) && Chunks(s') == Chunks(s)
            && s'.received == s.received + Elements(idxs)
            && (s.flightCount + |idxs| < 0x1_0000 ==> s'.flightCount == s.flightCount + |idxs|)
    decreases |idxs|
  {
    hide Chunks, Updating, Works, AfterReply;
    if idxs == [] {
      assert s.received + Elements([]) == s.received;
    } else {
      var (s', d') := AfterReply(s, d, o, head, image, idxs[0]);
      RepliesFlagAll(s', d', o, head, image, idxs[1..]);
      assert s.received + {idxs[0]} + Elements(idxs[1..]) == s.received + Elements(idxs);
    }
  }

  ghost function MissingOf(s: Ota): seq<nat> {
    Missing(s.received, Chunks(s), 0)
  }

  /** One UpdateDone, and intact replies to everything it asks for. */
  ghost function RecoveryRound(s: Ota, d: Device, o: Oracle, head: seq<byte>, image: seq<byte>): (Ota, Device)
    requires Works(o) && Updating(s, d, image) && |head| == 7
  {
    var (s', d', e) := HandleUpdateDone(s, d, o);
    if MissingOf(s) == [] then (s', d')
    else Replies(s', d', o, head, image, Requested(s, ResendCount(s.flightCount)))
  }

  /** A round fills in exactly the chunks it asks for. */
  lemma RoundShrinks(s: Ota, d: Device, o: Oracle, head: seq<byte>, image: seq<byte>)
    requires Works(o) && Updating(s, d, image) && |head| == 7 && MissingOf(s) != []
    ensures var (s', d') := RecoveryRound(s, d, o, head, image);
            var asked := Min(ResendCount(s.flightCount), |MissingOf(s)|);
            && Updating(s', d', image)
            && MissingOf(s') == MissingOf(s)[asked..]
            && s'.flightCount == asked
  {
    hide ChunkCount, IndexBytes, Missing;
    ResendCountGrows(s.flightCount);
    var r := Requested(s, ResendCount(s.flightCount));
    var (s1, d1, e) := HandleUpdateDone(s, d, o);
    RepliesFlagAll(s1, d1, o, head, image, r);
    var m := MissingOf(s);
    var asked := Min(ResendCount(s.flightCount), |m|);
    assert r == m[..asked];
    MissingAfterPrefix(s.received, Chunks(s), 0, asked);
  }

  ghost function Rounds(s: Ota, d: Device, o: Oracle, head: seq<byte>, image: seq<byte>, k: nat): (Ota, Device)
    requires Works(o) && Updating(s, d, image) && |head| == 7
    decreases k
  {
    if k == 0 || MissingOf(s) == [] then (s, d)
    else
      RoundShrinks(s, d, o, head, image);
      var (s', d') := RecoveryRound(s, d, o, head, image);
      Rounds(s', d', o, head, image, k - 1)
  }

  lemma {:induction false} RoundsShrink(s: Ota, d: Device, o: Oracle, head: seq<byte>, image: seq<byte>, k: nat)
    requires Works(o) && Updating(s, d, image) && |head| == 7
    ensures var (s', d') := Rounds(s, d, o, head, image, k);
            Updating(s', d', image) && |MissingOf(s')| <= if |MissingOf(s)| <= 2 * k then 0 else |MissingOf(s)| - 2 * k
    decreases k
  {
    hide MissingOf, Updating, RecoveryRound, Works, ResendCount;
    if k == 0 || MissingOf(s) == [] {
    } else {
      RoundShrinks(s, d, o, head, image);
      ResendCountGrows(s.flightCount);
      var (s', d') := RecoveryRound(s, d, o, head, image);
      RoundsShrink(s', d', o, head, image, k - 1);
    }
  }

  /** With a working network and `m` chunks missing, the transfer is finished after at most half of
      `m` rounds, rounded up: the next UpdateDone reports success. */
  lemma RecoveryFinishes(s: Ota, d: Device, o: Oracle, head: seq<byte>, image: seq<byte>)
    requires Works(o) && Updating(s, d, image) && |head| == 7
    ensures var (s', d') := Rounds(s, d, o, head, image, (|MissingOf(s)| + 1) / 2);
            && MissingOf(s') == []
            && var log := HandleUpdateDone(s', d', o).1.log;
               |log| > |d'.log| && log[|log| - 1] == Finish(SUCCESS)
  {
    hide ChunkCount;
    RoundsShrink(s, d, o, head, image, (|MissingOf(s)| + 1) / 2);
  }
}
