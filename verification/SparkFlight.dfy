/** The older chunked transfer of `SparkProtocol`, which asks for missing chunks in flights: while one
    flight is under way no other is started, except by the server's UpdateDone. */
module SparkFlight {
  import opened Basics
  import opened ChunkBitmap
  import opened OtaModel
  import opened OtaSafety
  import opened OtaTransfer

  /** The receiver, the indexes listed in its latest request, and the id of its latest message. */
  datatype Spark = Spark(ota: Ota, flight: seq<nat>, messageId: nat)

  datatype Result = Result(spark: Spark, device: Device, ok: bool)

  function NextId(s: Spark): (id: nat)
    ensures id < 0x1_0000
  {
    (s.messageId + 1) % 0x1_0000
  }

  /** A reply to a regular chunk is a message of its own, and takes an id. */
  function Replying(s: Spark, fast: bool): Spark {
    if fast then s else s.(messageId := NextId(s))
  }

  /** `send_missing_chunks`: a new flight, unless nothing is missing; the id is used up either way. */
  ghost function SendFlight(s: Spark, d: Device, o: Oracle): Result {
    var r := Requested(s.ota, MISSED_CHUNKS_TO_SEND);
    var (ota, d', e) := SendMissing(s.ota, d, o, MISSED_CHUNKS_TO_SEND, NextId(s));
    Result(Spark(ota, if r == [] then s.flight else r, NextId(s)), d', e == NoError)
  }

  /** `handle_chunk`, for a well-formed message. */
  ghost function SparkChunk(s: Spark, d: Device, o: Oracle, q: seq<byte>): Result
    requires Parsed(q).Some?
  {
    if s.ota.updating == 0 then Result(s, d, true)
    else
      var p := Parsed(q).value;
      var fast := p.index.Some?;
      var s1 := if fast then s.(ota := s.ota.(chunkIndex := p.index.value)) else s;
      if fast then SparkAccept(s1, d, o, p.crc, q[p.marker + 1..], true)
      else if o.sendError(d.sent) != NoError then Result(s1, d.Sending(ChunkAck), false)
      else SparkAccept(s1, d.Sending(ChunkAck), o, p.crc, q[p.marker + 1..], false)
  }

  /** The second half of `handle_chunk`. */
  ghost function SparkAccept(s: Spark, d: Device, o: Oracle, given: nat, chunk: seq<byte>, fast: bool): Result {
    var address := s.ota.file.fileAddress + s.ota.chunkIndex * s.ota.chunkSize;
    var s1 := s.(ota := s.ota.(file := s.ota.file.(chunkSize := |chunk| % 0x1_0000, chunkAddress := address)));
    if s.ota.chunkIndex >= MAX_CHUNKS then Result(s1, d, false)
    else if o.crc(chunk) != given then
      if fast then Result(s1, d, true)
      else Result(Replying(s1, fast), d.Sending(ChunkReply(false)), o.sendError(d.sent) == NoError)
    else
      var s2 := Replying(s1, fast).(ota := s1.ota.(received := s.ota.received + {s.ota.chunkIndex}));
      var d2 := d.(flash := Write(d.flash, address, chunk));
      if s.ota.updating == 2 then CountIn(s2, d2, o, fast)
      else
        var s3 := Advance(s2);
        if fast then Result(s3, d2, true)
        else Result(s3, d2.Sending(ChunkReply(true)), o.sendError(d2.sent) == NoError)
  }

  function Advance(s: Spark): Spark {
    s.(ota := s.ota.(chunkIndex := (s.ota.chunkIndex + 1) % 0x1_0000))
  }

  /** After a chunk was saved during recovery: finish, or start the next flight once the chunks of
      this one are in. */
  ghost function CountIn(s: Spark, d: Device, o: Oracle, fast: bool): Result {
    var m := Missing(s.ota.received, Chunks(s.ota), 0);
    if m == [] then
      var d1 := d.Finishing(SUCCESS + VALIDATE_ONLY).Finishing(SUCCESS);
      Result(Advance(s.(ota := s.ota.(updating := 0), messageId := NextId(s))), d1.Sending(UpdateDone(NextId(s))),
             o.sendError(d.sent) == NoError)
    else if !fast && o.sendError(d.sent) != NoError then
      Result(s, d.Sending(ChunkReply(true)), false)
    else
      var d1 := if fast then d else d.Sending(ChunkReply(true));
      if m[0] > s.ota.missedIndex then
        var r := SendFlight(s, d1, o);
        Result(Advance(r.spark), r.device, true)
      else Result(Advance(s), d1, true)
  }

  /** `handle_update_done`. It does not ask whether a transfer is under way. */
  ghost function SparkDone(s: Spark, d: Device, o: Oracle): Result {
    var missing := Missing(s.ota.received, Chunks(s.ota), 0) != [];
    var d1 := (if missing then d else d.Finishing(SUCCESS + VALIDATE_ONLY)).Sending(DoneAck(!missing));
    if o.sendError(d.sent) != NoError then Result(s, d1, false)
    else if !missing then Result(s.(ota := s.ota.(updating := 0)), d1.Finishing(SUCCESS), true)
    else
      var r := SendFlight(s.(ota := s.ota.(updating := 2)), d1, o);
      Result(r.spark, r.device, true)
  }

  /** `handle_update_begin`: what `ChunkedTransfer` does without an override, except that it counts no
      flights and that UpdateReady takes the next id. */
  ghost function SparkBegin(s: Spark, d: Device, o: Oracle, q: seq<byte>): Result {
    var (ota, d', e) := HandleUpdateBegin(s.ota, d, o, q, None);
    Result(Spark(ota.(flightCount := s.ota.flightCount), s.flight, if Starts(d, o, q) then NextId(s) else s.messageId),
           d', e == NoError)
  }

  /** Its second preparation, and the start of the transfer. */
  ghost function SparkStart(s: Spark, d: Device, o: Oracle, fast: bool): Result {
    var p := o.prepare(d.prepared, s.ota.file);
    var ota := s.ota.(file := p.file);
    if !p.ok then Result(s.(ota := ota), d.Preparing(), true)
    else
      Result(Spark(Begun(ota, fast), s.flight, NextId(s)), d.Preparing().Sending(UpdateReady(fast)), o.sendError(d.sent) == NoError)
  }

  lemma SparkBeginInSteps(s: Spark, d: Device, o: Oracle, q: seq<byte>)
    ensures var s1 := s.(ota := s.ota.(file := o.prepare(d.prepared, BeginFile(q)).file));
            var d1 := d.Preparing().Sending(BeginAck(Acceptable(d, o, q)));
            SparkBegin(s, d, o, q) ==
            if o.sendError(d.sent) != NoError || !Acceptable(d, o, q) then Result(s1, d1, o.sendError(d.sent) == NoError)
            else SparkStart(s1, d1, o, BeginFast(q, None))
  {
    hide BeginFile, BeginFast, ChunkCount, AllChunks;
  }

  // ---- The flight invariant ------------------------------------------------------------------

  /** While chunks are being recovered, the current flight ends with the last chunk asked for, and every
      missing chunk up to that one was asked for in it. */
  ghost predicate FlightOk(s: Spark) {
    (s.ota.updating == 2 ==>
          && s.flight != [] && s.ota.missedIndex == s.flight[|s.flight| - 1]
          && (forall i <- s.flight :: i <= s.ota.missedIndex && i < Chunks(s.ota))
          && forall i: nat :: i < Chunks(s.ota) && i !in s.ota.received && i <= s.ota.missedIndex ==> i in s.flight)
  }

  /** A flight lists the first missing chunks, so nothing missing up to its last one is left out. */
  lemma NewFlightIsOk(s: Spark, d: Device, o: Oracle)
    requires Missing(s.ota.received, Chunks(s.ota), 0) != []
    ensures var s' := SendFlight(s, d, o).spark;
            && FlightOk(s') && s'.ota.received == s.ota.received && s'.ota.updating == s.ota.updating
            && Chunks(s'.ota) == Chunks(s.ota)
  {
    hide ChunkCount, Missing;
    var m := Missing(s.ota.received, Chunks(s.ota), 0);
    MissingExactly(s.ota.received, Chunks(s.ota), 0);
    var r := Requested(s.ota, MISSED_CHUNKS_TO_SEND);
    var s' := SendFlight(s, d, o).spark;
    forall i: nat | i < Chunks(s.ota) && i !in s.ota.received && i <= s'.ota.missedIndex ensures i in r {
      UpToNth(m, |r|, i);
    }
  }

  lemma ReceivingKeepsFlight(s: Spark, idx: nat)
    requires FlightOk(s)
    ensures FlightOk(s.(ota := s.ota.(received := s.ota.received + {idx})))
  {
  }

  /** A request for missing chunks was sent. */
  predicate Asked(before: seq<Action>, after: seq<Action>) {
    exists i :: |before| <= i < |after| && after[i].Send? && after[i].frame.MissingRequest?
  }

  /** The flight is what the latest request lists: it stays unless one is sent. */
  ghost predicate FlightIsAsked(before: seq<Action>, s: Spark, r: Result) {
    if !Asked(before, r.device.log) then r.spark.flight == s.flight
    else
      var flight, log := r.spark.flight, r.device.log;
      && r.spark.messageId < 0x1_0000 && (forall i :: 0 <= i < |flight| ==> flight[i] < 0x1_0000)
      && log[|log| - 1] == Send(MissingRequest(RequestMessage(r.spark.messageId, flight)))
  }

  lemma AskedInSteps(a: seq<Action>, b: seq<Action>, c: seq<Action>)
    requires a <= b <= c && !Asked(a, b)
    ensures Asked(a, c) <==> Asked(b, c)
  {
    if i :| |a| <= i < |c| && c[i].Send? && c[i].frame.MissingRequest? {
      if i < |b| {
        assert b[i] == c[i];
      }
    }
  }

  /** A chunk message that saves a chunk while chunks are being recovered. */
  ghost predicate Recovers(s: Spark, d: Device, o: Oracle, q: seq<byte>)
    requires Parsed(q).Some?
  {
    var p := Parsed(q).value;
    && s.ota.updating == 2 && (p.index.Some? || o.sendError(d.sent) == NoError)
    && (if p.index.Some? then p.index.value else s.ota.chunkIndex) < MAX_CHUNKS
    && o.crc(q[p.marker + 1..]) == p.crc
  }

  /** The state in which such a message reaches the recovery branch. */
  lemma ReachesRecovery(s: Spark, d: Device, o: Oracle, q: seq<byte>) returns (s': Spark, d': Device)
    requires FlightOk(s) && Parsed(q).Some? && Recovers(s, d, o, q)
    ensures SparkChunk(s, d, o, q) == CountIn(s', d', o, Parsed(q).value.index.Some?)
    ensures FlightOk(s') && s'.ota.updating == 2 && s'.flight == s.flight && Chunks(s'.ota) == Chunks(s.ota)
    ensures d.log <= d'.log && !Asked(d.log, d'.log) && (Finish(SUCCESS) in d'.log ==> Finish(SUCCESS) in d.log)
    ensures var p := Parsed(q).value;
            && s'.ota.received == s.ota.received + {if p.index.Some? then p.index.value else s.ota.chunkIndex}
            && (p.index.Some? ==> d'.log == d.log && s'.messageId == s.messageId)
  {
    hide ParseOptions, ChunkCount, Write, CountIn;
    var p := Parsed(q).value;
    var fast := p.index.Some?;
    var idx := if fast then p.index.value else s.ota.chunkIndex;
    var address := s.ota.file.fileAddress + idx * s.ota.chunkSize;
    var chunk := q[p.marker + 1..];
    var file := s.ota.file.(chunkSize := |chunk| % 0x1_0000, chunkAddress := address);
    s' := Replying(s, fast).(ota := s.ota.(file := file, chunkIndex := idx, received := s.ota.received + {idx}));
    d' := (if fast then d else d.Sending(ChunkAck)).(flash := Write(d.flash, address, chunk));
    ReceivingKeepsFlight(s, idx);
  }

  /** Any other chunk message leaves the flight alone. */
  lemma LeavesFlight(s: Spark, d: Device, o: Oracle, q: seq<byte>)
    requires FlightOk(s) && Parsed(q).Some? && !Recovers(s, d, o, q)
    ensures var r := SparkChunk(s, d, o, q);
            && FlightOk(r.spark) && r.spark.flight == s.flight && !Asked(d.log, r.device.log)
            && (Finish(SUCCESS) in r.device.log ==> Finish(SUCCESS) in d.log)
  {
    hide ParseOptions, ChunkCount, Write, CountIn;
  }

  /** Every chunk message, genuine or not, keeps the flight invariant; it asks for another flight only
      when all chunks of the current one are in; and it reports success only when nothing is missing. */
  lemma ChunkKeepsFlight(s: Spark, d: Device, o: Oracle, q: seq<byte>)
    requires FlightOk(s) && Parsed(q).Some?
    ensures var r := SparkChunk(s, d, o, q);
            && FlightOk(r.spark) && FlightIsAsked(d.log, s, r)
            && (Asked(d.log, r.device.log) ==> forall i <- s.flight :: i in r.spark.ota.received)
            && (Finish(SUCCESS) in r.device.log && Finish(SUCCESS) !in d.log ==>
                  AllChunks(Chunks(s.ota)) <= r.spark.ota.received)
  {
    hide ParseOptions, ChunkCount, SparkChunk, CountIn, FlightIsAsked, FlightOk, Recovers, Asked;
    var r := SparkChunk(s, d, o, q);
    if Recovers(s, d, o, q) {
      var s', d' := ReachesRecovery(s, d, o, q);
      CountInKeepsFlight(s', d', o, Parsed(q).value.index.Some?);
      CountInAsks(s', d', o, Parsed(q).value.index.Some?);
      AskedInSteps(d.log, d'.log, r.device.log);
      SameFlight(d.log, d'.log, s, s', r);
    } else {
      LeavesFlight(s, d, o, q);
      NotAsked(d.log, s, r);
    }
  }

  lemma SameFlight(a: seq<Action>, b: seq<Action>, s: Spark, s': Spark, r: Result)
    requires FlightIsAsked(b, s', r) && s'.flight == s.flight && (Asked(a, r.device.log) <==> Asked(b, r.device.log))
    ensures FlightIsAsked(a, s, r)
  {
  }

  lemma NotAsked(a: seq<Action>, s: Spark, r: Result)
    requires !Asked(a, r.device.log) && r.spark.flight == s.flight
    ensures FlightIsAsked(a, s, r)
  {
  }

  /** The recovery branch asks for another flight only when the current one is in. */
  lemma CountInAsks(s: Spark, d: Device, o: Oracle, fast: bool)
    requires FlightOk(s) && s.ota.updating == 2
    ensures var r := CountIn(s, d, o, fast);
            && d.log <= r.device.log && FlightIsAsked(d.log, s, r)
            && (Asked(d.log, r.device.log) ==> forall i <- s.flight :: i in s.ota.received)
  {
    hide ChunkCount, Missing, SendFlight, FlightIsAsked, FlightOk;
    var m := Missing(s.ota.received, Chunks(s.ota), 0);
    var r := CountIn(s, d, o, fast);
    var d1 := if fast then d else d.Sending(ChunkReply(true));
    if m != [] && (fast || o.sendError(d.sent) == NoError) && m[0] > s.ota.missedIndex {
      FlightAsks(s, d1, o);
      var f := SendFlight(s, d1, o);
      AskedInSteps(d.log, d1.log, f.device.log);
      assert Asked(d.log, r.device.log);
      SameFlight(d.log, d1.log, s, s, f);
      SameAsked(d.log, s, f, r);
      FlightBehindIsIn(s);
    } else {
      NotAsked(d.log, s, r);
    }
  }

  lemma SameAsked(a: seq<Action>, s: Spark, r: Result, r': Result)
    requires FlightIsAsked(a, s, r) && r'.device == r.device
    requires r'.spark.flight == r.spark.flight && r'.spark.messageId == r.spark.messageId
    ensures FlightIsAsked(a, s, r')
  {
  }

  /** With the least missing chunk behind the flight, every chunk of the flight is in. */
  lemma FlightBehindIsIn(s: Spark)
    requires FlightOk(s) && s.ota.updating == 2
    requires var m := Missing(s.ota.received, Chunks(s.ota), 0); m != [] && m[0] > s.ota.missedIndex
    ensures forall i <- s.flight :: i in s.ota.received
  {
    hide ChunkCount, Missing;
    LeastMissing(s.ota.received, Chunks(s.ota));
  }

  /** A new flight is asked for by exactly one request, which lists it. */
  lemma FlightAsks(s: Spark, d: Device, o: Oracle)
    requires Missing(s.ota.received, Chunks(s.ota), 0) != []
    ensures var r := SendFlight(s, d, o);
            d.log <= r.device.log && Asked(d.log, r.device.log) && FlightIsAsked(d.log, s, r)
  {
    hide ChunkCount, Missing, RequestMessage;
    var r := SendFlight(s, d, o);
    assert r.device.log[|d.log|].frame.MissingRequest?;
  }

  lemma CountInKeepsFlight(s: Spark, d: Device, o: Oracle, fast: bool)
    requires FlightOk(s) && s.ota.updating == 2
    ensures var r := CountIn(s, d, o, fast);
            && FlightOk(r.spark) && r.spark.ota.received == s.ota.received
            && (Finish(SUCCESS) in r.device.log && Finish(SUCCESS) !in d.log ==> AllChunks(Chunks(s.ota)) <= s.ota.received)
  {
    hide ChunkCount, Missing, Requested, SendMissing, SendFlight;
    var m := Missing(s.ota.received, Chunks(s.ota), 0);
    NoneMissingIff(s.ota.received, Chunks(s.ota));
    if m != [] {
      var d1 := if fast then d else d.Sending(ChunkReply(true));
      NewFlightIsOk(s, d1, o);
      FlightOnlySends(s, d1, o);
    }
  }

  lemma FlightOnlySends(s: Spark, d: Device, o: Oracle)
    ensures Finish(SUCCESS) in SendFlight(s, d, o).device.log <==> Finish(SUCCESS) in d.log
  {
  }

  /** An UpdateDone starts a flight of its own and keeps the invariant; it reports success only when
      nothing is missing. */
  lemma DoneKeepsFlight(s: Spark, d: Device, o: Oracle)
    requires FlightOk(s)
    ensures var r := SparkDone(s, d, o);
            && FlightOk(r.spark) && FlightIsAsked(d.log, s, r) && r.spark.ota.received == s.ota.received
            && (Finish(SUCCESS) in r.device.log && Finish(SUCCESS) !in d.log ==> AllChunks(Chunks(s.ota)) <= s.ota.received)
  {
    hide ChunkCount, Missing, Requested, SendMissing, SendFlight;
    NoneMissingIff(s.ota.received, Chunks(s.ota));
    if Missing(s.ota.received, Chunks(s.ota), 0) != [] {
      var s1, d1 := s.(ota := s.ota.(updating := 2)), d.Sending(DoneAck(false));
      NewFlightIsOk(s1, d1, o);
      FlightOnlySends(s1, d1, o);
      FlightAsks(s1, d1, o);
      AskedInSteps(d.log, d1.log, SendFlight(s1, d1, o).device.log);
    }
  }

  // ---- Every run -----------------------------------------------------------------------------

  ghost function SparkStep(s: Spark, d: Device, o: Oracle, op: Op): Result
    requires op.Chunk? ==> Parsed(op.q).Some?
  {
    match op
    case Chunk(q) => SparkChunk(s, d, o, q)
    case Done => SparkDone(s, d, o)
  }

  /** The states of a run, one longer than its messages. */
  ghost predicate IsRun(states: seq<(Spark, Device)>, ops: seq<Op>, o: Oracle) {
    && |states| == |ops| + 1
    && forall k :: 0 <= k < |ops| ==>
         && (ops[k].Chunk? ==> Parsed(ops[k].q).Some?)
         && var r := SparkStep(states[k].0, states[k].1, o, ops[k]);
            states[k + 1] == (r.spark, r.device)
  }

  /** In every state of every run of a transfer just begun: the flight invariant holds, and if success
      was reported then nothing is missing. */
  lemma {:induction false} EveryFlightIsOk(states: seq<(Spark, Device)>, ops: seq<Op>, o: Oracle, k: nat)
    requires IsRun(states, ops, o) && k < |states|
    requires states[0].0.ota.updating == 1
    requires Finish(SUCCESS) !in states[0].1.log
    ensures FlightOk(states[k].0)
    ensures Finish(SUCCESS) in states[k].1.log ==> AllChunks(Chunks(states[k].0.ota)) <= states[k].0.ota.received
  {
    if k == 0 {
    } else {
      hide FlightOk, SparkChunk, SparkDone;
      EveryFlightIsOk(states, ops, o, k - 1);
      var s, d := states[k - 1].0, states[k - 1].1;
      match ops[k - 1]
      case Chunk(q) => ChunkKeepsFlight(s, d, o, q); StepGrows(s, d, o, ops[k - 1]);
      case Done => DoneKeepsFlight(s, d, o); StepGrows(s, d, o, ops[k - 1]);
    }
  }

  /** A step forgets no chunk and does not change their number. */
  lemma StepGrows(s: Spark, d: Device, o: Oracle, op: Op)
    requires op.Chunk? ==> Parsed(op.q).Some?
    ensures var r := SparkStep(s, d, o, op);
            s.ota.received <= r.spark.ota.received && Chunks(r.spark.ota) == Chunks(s.ota)
  {
    hide ChunkCount, Missing, ParseOptions;
  }

  // ---- End to end ----------------------------------------------------------------------------

  /** After an accepted UpdateBegin of a fast transfer nothing is flagged, and nothing reported. */
  lemma SparkBeginIsSound(s: Spark, d: Device, o: Oracle, q: seq<byte>, image: seq<byte>)
    requires Starts(d, o, q) && BeginFast(q, None) && Announces(BegunFile(d, o, q), image, d)
    ensures var r := SparkBegin(s, d, o, q);
            && Sound(r.spark.ota, r.device, image, |r.device.log|) && r.spark.ota.updating == 1
            && r.spark.ota.file == BegunFile(d, o, q) && r.spark.ota.chunkSize == r.spark.ota.file.chunkSize
  {
    hide ChunkCount, ChunkAt, HandleUpdateBegin, Starts, BeginFast, BegunFile;
    BeginIsSound(s.ota, d, o, q, None, image);
  }

  /** The log grew, and by reports only if every chunk is flagged. */
  ghost predicate ReportsIfAllIn(before: seq<Action>, after: seq<Action>, s: Ota) {
    && |before| <= |after| && after[..|before|] == before
    && forall i :: |before| <= i < |after| && after[i].Finish? ==> AllChunks(Chunks(s)) <= s.received
  }

  lemma ReportingKeepsSound(s: Ota, d: Device, s': Ota, d': Device, image: seq<byte>, from: nat)
    requires Sound(s, d, image, from) && ReportsIfAllIn(d.log, d'.log, s') && d'.flash == d.flash
    requires s'.file.fileLength == s.file.fileLength && s'.file.fileAddress == s.file.fileAddress
    requires s'.chunkSize == s.chunkSize && s'.received == s.received
    ensures Sound(s', d', image, from)
  {
    hide ChunkAt, ChunkCount;
    forall i | from <= i < |d'.log| && d'.log[i].Finish?
      ensures forall k: nat :: k < Chunks(s') ==> k in s'.received
    {
      assert i < |d.log| ==> d.log[i] == d'.log[..|d.log|][i];
    }
  }

  lemma FlightReportsNothing(s: Spark, d: Device, o: Oracle)
    ensures var r := SendFlight(s, d, o);
            && OnlySends(d.log, r.device.log) && r.device.flash == d.flash
            && r.spark.ota == s.ota.(missedIndex := r.spark.ota.missedIndex)
  {
    hide Requested, ChunkCount;
  }

  /** What the recovery branch adds to a chunk that was flagged. */
  lemma CountInEffect(s: Spark, d: Device, o: Oracle, fast: bool)
    ensures var r := CountIn(s, d, o, fast);
            && r.spark.ota.file == s.ota.file && r.spark.ota.chunkSize == s.ota.chunkSize
            && r.spark.ota.received == s.ota.received && r.device.flash == d.flash
            && ReportsIfAllIn(d.log, r.device.log, s.ota)
  {
    hide Missing, SendFlight, ChunkCount;
    NoneMissingIff(s.ota.received, Chunks(s.ota));
    var d1 := if fast then d else d.Sending(ChunkReply(true));
    FlightReportsNothing(s, d1, o);
  }

  /** What a chunk message does when no message without an index passes the check. */
  lemma SparkChunkEffect(s: Spark, d: Device, o: Oracle, q: seq<byte>)
    requires Parsed(q).Some? && (Accepted(o, q) ==> Parsed(q).value.index.Some?)
    ensures var r := SparkChunk(s, d, o, q);
            && r.spark.ota.file.fileLength == s.ota.file.fileLength && r.spark.ota.file.fileAddress == s.ota.file.fileAddress
            && r.spark.ota.chunkSize == s.ota.chunkSize
            && ReportsIfAllIn(d.log, r.device.log, r.spark.ota)
            && if s.ota.updating != 0 && Accepted(o, q) && Parsed(q).value.index.value < MAX_CHUNKS then
                 var idx := Parsed(q).value.index.value;
                 && r.spark.ota.received == s.ota.received + {idx}
                 && r.device.flash == Write(d.flash, s.ota.file.fileAddress + idx * s.ota.chunkSize, q[Parsed(q).value.marker + 1..])
               else
                 r.spark.ota.received == s.ota.received && r.device.flash == d.flash
  {
    hide ParseOptions, ChunkCount, Write, CountIn;
    if s.ota.updating != 0 && Accepted(o, q) && Parsed(q).value.index.value < MAX_CHUNKS {
      var idx, chunk := Parsed(q).value.index.value, q[Parsed(q).value.marker + 1..];
      var address := s.ota.file.fileAddress + idx * s.ota.chunkSize;
      var s2 := s.(ota := s.ota.(chunkIndex := idx, received := s.ota.received + {idx},
                                 file := s.ota.file.(chunkSize := |chunk| % 0x1_0000, chunkAddress := address)));
      CountInEffect(s2, d.(flash := Write(d.flash, address, chunk)), o, true);
    }
  }

  lemma SparkChunkKeepsSound(s: Spark, d: Device, o: Oracle, q: seq<byte>, image: seq<byte>, from: nat)
    requires Sound(s.ota, d, image, from) && Genuine(o, q, image, s.ota.chunkSize)
    ensures var r := SparkChunk(s, d, o, q);
            Sound(r.spark.ota, r.device, image, from) && r.spark.ota.chunkSize == s.ota.chunkSize
            && r.spark.ota.file.fileAddress == s.ota.file.fileAddress
  {
    hide ChunkAt, ChunkCount, Slice, ParseOptions, Write, SparkChunk, Sound, ReportsIfAllIn;
    SoundIsForFile(s.ota, d, image, from);
    SparkChunkEffect(s, d, o, q);
    var r := SparkChunk(s, d, o, q);
    if s.ota.updating != 0 && Accepted(o, q) {
      var idx := Parsed(q).value.index.value;
      var start := ChunkStart(image, s.ota.chunkSize, idx);
      WriteKeepsSound(s.ota, d, image, from, idx, start);
      var flagged := s.ota.(received := s.ota.received + {idx});
      ReportingKeepsSound(flagged, d.(flash := r.device.flash), r.spark.ota, r.device, image, from);
    } else {
      ReportingKeepsSound(s.ota, d, r.spark.ota, r.device, image, from);
    }
  }

  lemma SparkDoneKeepsSound(s: Spark, d: Device, o: Oracle, image: seq<byte>, from: nat)
    requires Sound(s.ota, d, image, from)
    ensures var r := SparkDone(s, d, o);
            Sound(r.spark.ota, r.device, image, from) && r.spark.ota.chunkSize == s.ota.chunkSize
            && r.spark.ota.file.fileAddress == s.ota.file.fileAddress
  {
    hide ChunkAt, ChunkCount, Missing, SendFlight, Sound;
    NoneMissingIff(s.ota.received, Chunks(s.ota));
    var d1 := d.Sending(DoneAck(false));
    FlightReportsNothing(s.(ota := s.ota.(updating := 2)), d1, o);
    var r := SparkDone(s, d, o);
    ReportingKeepsSound(s.ota, d, r.spark.ota, r.device, image, from);
  }

  /** Over every run from a sound state, with chunks lost, repeated, reordered or damaged, anything
      reported as finished means that the whole file is in memory from then on. */
  lemma {:induction false} SparkRunKeepsSound(states: seq<(Spark, Device)>, ops: seq<Op>, o: Oracle, k: nat,
                                                      image: seq<byte>, from: nat)
    requires IsRun(states, ops, o) && k < |states| && Sound(states[0].0.ota, states[0].1, image, from)
    requires AllGenuine(o, ops, image, states[0].0.ota.chunkSize)
    ensures var (s, d) := states[k];
            && Sound(s.ota, d, image, from) && s.ota.chunkSize == states[0].0.ota.chunkSize
            && s.ota.file.fileAddress == states[0].0.ota.file.fileAddress
            && ((exists i :: from <= i < |d.log| && d.log[i].Finish?) ==> Holds(d.flash, s.ota.file.fileAddress, image))
  {
    hide Sound, Genuine, SparkChunk, SparkDone;
    if k == 0 {
    } else {
      SparkRunKeepsSound(states, ops, o, k - 1, image, from);
      var s, d := states[k - 1].0, states[k - 1].1;
      match ops[k - 1]
      case Chunk(q) => SparkChunkKeepsSound(s, d, o, q, image, from);
      case Done => SparkDoneKeepsSound(s, d, o, image, from);
    }
    SparkReportIsTrue(states[k].0.ota, states[k].1, image, from);
  }

  lemma SparkReportIsTrue(s: Ota, d: Device, image: seq<byte>, from: nat)
    requires Sound(s, d, image, from)
    ensures (exists i :: from <= i < |d.log| && d.log[i].Finish?) ==> Holds(d.flash, s.file.fileAddress, image)
  {
    hide ChunkAt, ChunkCount;
    if exists i :: from <= i < |d.log| && d.log[i].Finish? {
      AllFlaggedIsWhole(s, d, image, from);
    }
  }

  /** End to end: after an accepted UpdateBegin of a fast transfer, and in every state of every run after
      it, anything reported as finished since means that the whole file is in memory. */
  lemma SparkSuccessMeansWholeFile(s0: Spark, d0: Device, o: Oracle, begin: seq<byte>,
                                   states: seq<(Spark, Device)>, ops: seq<Op>, k: nat, image: seq<byte>)
    requires Starts(d0, o, begin) && BeginFast(begin, None) && Announces(BegunFile(d0, o, begin), image, d0)
    requires IsRun(states, ops, o) && k < |states|
    requires var r := SparkBegin(s0, d0, o, begin); states[0] == (r.spark, r.device)
    requires AllGenuine(o, ops, image, BegunFile(d0, o, begin).chunkSize)
    ensures var from, d := |SparkBegin(s0, d0, o, begin).device.log|, states[k].1;
            (exists i :: from <= i < |d.log| && d.log[i].Finish?) ==>
              Holds(d.flash, BegunFile(d0, o, begin).fileAddress, image)
  {
    hide SparkBegin, Sound, IsRun, BegunFile, Starts, Announces, BeginFast, AllGenuine;
    SparkBeginIsSound(s0, d0, o, begin, image);
    SparkRunKeepsSound(states, ops, o, k, image, |states[0].1.log|);
  }

  // ---- Progress and answers ------------------------------------------------------------------

  /** What a regular chunk is answered: OK exactly if it passed its checksum, and exactly then the memory was
      written and the index went up. */
  lemma SparkReply(s: Spark, d: Device, o: Oracle, q: seq<byte>)
    requires Parsed(q).Some? && Parsed(q).value.index.None?
    requires s.ota.updating == 1 && o.sendError(d.sent) == NoError && s.ota.chunkIndex < MAX_CHUNKS
    ensures var r := SparkChunk(s, d, o, q);
            var chunk := q[Parsed(q).value.marker + 1..];
            var ok := o.crc(chunk) == Parsed(q).value.crc;
            && r.device.log == d.log + [Send(ChunkAck), Send(ChunkReply(ok))]
            && r.spark.ota.chunkIndex == (if ok then (s.ota.chunkIndex + 1) % 0x1_0000 else s.ota.chunkIndex)
            && r.device.flash == (if ok then Write(d.flash, s.ota.file.fileAddress + s.ota.chunkIndex * s.ota.chunkSize, chunk)
                                  else d.flash)
            && r.spark.messageId == (s.messageId + 1) % 0x1_0000
  {
    hide ParseOptions, Write;
  }

  /** The least missing chunk lies behind the flight exactly if the flight is in. */
  lemma FlightInIff(s: Spark)
    requires FlightOk(s) && s.ota.updating == 2 && Missing(s.ota.received, Chunks(s.ota), 0) != []
    ensures Missing(s.ota.received, Chunks(s.ota), 0)[0] > s.ota.missedIndex <==> forall i <- s.flight :: i in s.ota.received
  {
    hide ChunkCount, Missing;
    MissingExactly(s.ota.received, Chunks(s.ota), 0);
    var m := Missing(s.ota.received, Chunks(s.ota), 0);
    assert m[0] in m;
    if m[0] > s.ota.missedIndex {
      FlightBehindIsIn(s);
    }
  }

  /** Progress: a fast chunk that passes its checksum while chunks are recovered is the end of the update if
      nothing is missing any more; otherwise it asks for the next flight exactly if the current one is in. */
  lemma RecoveryProceeds(s: Spark, d: Device, o: Oracle, q: seq<byte>)
    requires FlightOk(s) && Parsed(q).Some? && Parsed(q).value.index.Some? && Accepted(o, q)
    requires s.ota.updating == 2 && Parsed(q).value.index.value < MAX_CHUNKS
    ensures var r := SparkChunk(s, d, o, q);
            var received := s.ota.received + {Parsed(q).value.index.value};
            && r.spark.ota.received == received
            && if forall i: nat :: i < Chunks(s.ota) ==> i in received then
                 && r.spark.ota.updating == 0
                 && r.device.log == d.log + [Finish(SUCCESS + VALIDATE_ONLY), Finish(SUCCESS), Send(UpdateDone((s.messageId + 1) % 0x1_0000))]
               else
                 r.spark.ota.updating == 2 && (Asked(d.log, r.device.log) <==> forall i <- s.flight :: i in received)
  {
    hide ParseOptions, ChunkCount, Write, CountIn, FlightOk, SparkChunk, Asked;
    var s', d' := ReachesRecovery(s, d, o, q);
    CountInProceeds(s', d', o);
  }

  lemma CountInProceeds(s: Spark, d: Device, o: Oracle)
    requires FlightOk(s) && s.ota.updating == 2
    ensures var r := CountIn(s, d, o, true);
            && r.spark.ota.received == s.ota.received
            && if forall i: nat :: i < Chunks(s.ota) ==> i in s.ota.received then
                 && r.spark.ota.updating == 0
                 && r.device.log == d.log + [Finish(SUCCESS + VALIDATE_ONLY), Finish(SUCCESS), Send(UpdateDone((s.messageId + 1) % 0x1_0000))]
               else
                 r.spark.ota.updating == 2 && (Asked(d.log, r.device.log) <==> forall i <- s.flight :: i in s.ota.received)
  {
    hide ChunkCount, Missing, SendFlight, FlightOk, FlightIsAsked;
    NoneMissingIff(s.ota.received, Chunks(s.ota));
    if Missing(s.ota.received, Chunks(s.ota), 0) != [] {
      FlightInIff(s);
      FlightAsks(s, d, o);
      FlightReportsNothing(s, d, o);
    }
  }

  /** An UpdateDone is answered OK and finishes exactly if nothing is missing; otherwise the first forty
      missing chunks are asked for. */
  lemma SparkDoneAnswers(s: Spark, d: Device, o: Oracle)
    ensures var complete := forall i: nat :: i < Chunks(s.ota) ==> i in s.ota.received;
            var sent := o.sendError(d.sent) == NoError;
            var r := SparkDone(s, d, o);
            && (complete ==>
                  && r.device.log == d.log + [Finish(SUCCESS + VALIDATE_ONLY), Send(DoneAck(true))]
                                     + (if sent then [Finish(SUCCESS)] else [])
                  && (sent ==> r.spark.ota.updating == 0))
            && (!complete && !sent ==> r.device.log == d.log + [Send(DoneAck(false))])
            && (!complete && sent ==>
                  && r.spark.ota.updating == 2 && r.spark.flight == Requested(s.ota, 40)
                  && r.device.log == d.log + [Send(DoneAck(false)),
                                              Send(MissingRequest(RequestMessage((s.messageId + 1) % 0x1_0000, Requested(s.ota, 40))))])
  {
    hide ChunkCount, Missing, RequestMessage;
    NoneMissingIff(s.ota.received, Chunks(s.ota));
  }

  // ---- The protocol object -------------------------------------------------------------------

  /** The transfer part of `SparkProtocol`. Its bitmap and its request loop are the same code as
      those of `ChunkedTransfer`, which this model shares. */
  class SparkTransfer {
    const core: ChunkedTransfer
    var messageId: nat
    ghost var flight: seq<nat>

    constructor (core: ChunkedTransfer, messageId: nat)
      ensures this.core == core && flight == [] && this.messageId == messageId
    {
      this.core, flight, this.messageId := core, [], messageId;
    }

    ghost function View(): Spark
      reads this, core, core.bitmap
    {
      Spark(core.View(), flight, messageId)
    }

    /** `next_message_id`, a 16-bit counter. */
    method NextMessageId() returns (id: nat)
      modifies this`messageId
      ensures id == messageId == NextId(old(View()))
    {
      messageId := (messageId + 1) % 0x1_0000;
      return messageId;
    }

    method HandleUpdateBegin(q: seq<byte>, host: Host) returns (ok: bool)
      modifies this, core, core.bitmap, host
      ensures SparkBegin(old(View()), old(host.device), host.oracle, q) == Result(View(), host.device, ok)
      ensures if Starts(old(host.device), host.oracle, q) then core.Valid() && fresh(core.bitmap)
              else core.bitmap == old(core.bitmap)
    {
      hide BeginFile, BeginFast, ChunkCount, Received, SparkBegin, SparkStart;
      SparkBeginInSteps(View(), host.device, host.oracle, q);
      core.file := BeginFile(q);
      var p := host.PrepareForFirmwareUpdate(core.file);
      core.file := p.file;
      var success := p.ok;
      if success {
        success := ChunkCount(core.file.fileLength, core.file.chunkSize) < MAX_CHUNKS;
      }
      var error := host.Send(BeginAck(success));
      if error != NoError {
        return false;
      }
      if success {
        ok := StartTransfer(BeginFast(q, None), host);
        return;
      }
      return true;
    }

    /** The last part of `handle_update_begin`. */
    method StartTransfer(fast: bool, host: Host) returns (ok: bool)
      modifies this, core, core.bitmap, host
      ensures SparkStart(old(View()), old(host.device), host.oracle, fast) == Result(View(), host.device, ok)
      ensures if host.oracle.prepare(old(host.device).prepared, old(core.file)).ok then core.Valid() && fresh(core.bitmap)
              else core.bitmap == old(core.bitmap)
    {
      hide Received, Begun;
      var p := host.PrepareForFirmwareUpdate(core.file);
      core.file := p.file;
      if p.ok {
        core.BeginTransfer(fast);
        var id := NextMessageId();
        var error := host.Send(UpdateReady(fast));
        return error == NoError;
      }
      return true;
    }

    method SendMissingChunks(host: Host) returns (ok: bool)
      requires core.Valid()
      modifies this, core, host
      ensures core.Valid() && core.bitmap == old(core.bitmap)
      ensures SendFlight(old(View()), old(host.device), host.oracle) == Result(View(), host.device, ok)
    {
      hide Missing, ChunkCount, RequestMessage;
      var id := NextMessageId();
      ghost var r := Requested(core.View(), MISSED_CHUNKS_TO_SEND);
      flight := if r == [] then flight else r;
      var error := core.SendMissingChunks(host, MISSED_CHUNKS_TO_SEND, id);
      ok := error == NoError;
    }

    method HandleChunk(q: seq<byte>, host: Host) returns (ok: bool)
      requires core.Valid() && Parsed(q).Some? && InBitmap(core.View(), 8 * core.bitmap.Length, host.oracle, q)
      modifies this, core, core.bitmap, host
      ensures core.Valid() && core.bitmap == old(core.bitmap)
      ensures SparkChunk(old(View()), old(host.device), host.oracle, q) == Result(View(), host.device, ok)
    {
      hide ParseOptions, SparkAccept;
      if core.updating == 0 {
        return true;
      }
      var crc, fast, marker := core.ReadOptions(q);
      if !fast {
        var error := host.Send(ChunkAck);
        if error != NoError {
          return false;
        }
      }
      ok := SaveChunk(q[marker + 1..], crc, fast, host);
    }

    /** The second half of `handle_chunk`. */
    method SaveChunk(chunk: seq<byte>, given: nat, fast: bool, host: Host) returns (ok: bool)
      requires core.Valid()
      requires core.chunkIndex < MAX_CHUNKS && host.oracle.crc(chunk) == given ==> core.chunkIndex < 8 * core.bitmap.Length
      modifies this, core, core.bitmap, host
      ensures core.Valid() && core.bitmap == old(core.bitmap)
      ensures SparkAccept(old(View()), old(host.device), host.oracle, given, chunk, fast) == Result(View(), host.device, ok)
    {
      hide Write, CountIn;
      core.file := core.file.(chunkSize := |chunk| % 0x1_0000,
                              chunkAddress := core.file.fileAddress + core.chunkIndex * core.chunkSize);
      if core.chunkIndex >= MAX_CHUNKS {
        return false;
      }
      if host.oracle.crc(chunk) == given {
        host.SaveFirmwareChunk(core.file, chunk);
        if !fast {
          var id := NextMessageId();
        }
        core.FlagChunkReceived(core.chunkIndex);
        if core.updating == 2 {
          ok := AfterFlagged(fast, host);
          return;
        }
        core.chunkIndex := (core.chunkIndex + 1) % 0x1_0000;
      } else if !fast {
        var id := NextMessageId();
      }
      if !fast {
        var error := host.Send(ChunkReply(host.oracle.crc(chunk) == given));
        return error == NoError;
      }
      return true;
    }

    /** The recovery branch of `handle_chunk`. */
    method AfterFlagged(fast: bool, host: Host) returns (ok: bool)
      requires core.Valid() && core.updating == 2
      modifies this, core, host
      ensures core.Valid() && core.bitmap == old(core.bitmap)
      ensures CountIn(old(View()), old(host.device), host.oracle, fast) == Result(View(), host.device, ok)
    {
      hide Missing, SendFlight;
      var nextMissed := core.NextChunkMissing(0);
      if nextMissed == NO_CHUNKS_MISSING {
        core.updating := 0;
        host.FinishFirmwareUpdate(SUCCESS + VALIDATE_ONLY);
        var id := NextMessageId();
        host.FinishFirmwareUpdate(SUCCESS);
        core.chunkIndex := (core.chunkIndex + 1) % 0x1_0000;
        var error := host.Send(UpdateDone(id));
        return error == NoError;
      }
      if !fast {
        var error := host.Send(ChunkReply(true));
        if error != NoError {
          return false;
        }
      }
      if nextMissed > core.missedChunkIndex {
        var sent := SendMissingChunks(host);
      }
      core.chunkIndex := (core.chunkIndex + 1) % 0x1_0000;
      return true;
    }

    method HandleUpdateDone(host: Host) returns (ok: bool)
      requires core.Valid()
      modifies this, core, host
      ensures core.Valid() && core.bitmap == old(core.bitmap)
      ensures SparkDone(old(View()), old(host.device), host.oracle) == Result(View(), host.device, ok)
    {
      hide Missing, SendFlight;
      var index := core.NextChunkMissing(0);
      var missing := index != NO_CHUNKS_MISSING;
      if !missing {
        host.FinishFirmwareUpdate(SUCCESS + VALIDATE_ONLY);
      }
      var error := host.Send(DoneAck(!missing));
      if error != NoError {
        return false;
      }
      if !missing {
        core.updating := 0;
        host.FinishFirmwareUpdate(SUCCESS);
      } else {
        core.updating := 2;
        var sent := SendMissingChunks(host);
      }
      return true;
    }
  }
}
