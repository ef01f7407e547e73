/** What a regular transfer answers, and what a sender may conclude from it: one that repeats each chunk
    until it is answered OK delivers the file. */
module OtaDialogue {
  import opened Basics
  import opened ChunkBitmap
  import opened OtaModel
  import opened OtaSafety
  import opened OtaRegular

  /** Every regular chunk message in an update whose acknowledgement gets out is answered, and the answer
      is OK exactly if the chunk passed its checksum; exactly then the index went up and the memory was
      written. */
  lemma RegularReply(s: Ota, d: Device, o: Oracle, q: seq<byte>)
    requires Parsed(q).Some? && Parsed(q).value.index.None?
    requires s.updating != 0 && o.sendError(d.sent) == NoError && s.chunkIndex < MAX_CHUNKS
    ensures var (s', d', e) := HandleChunk(s, d, o, q);
            var chunk := q[Parsed(q).value.marker + 1..];
            var ok := o.crc(chunk) == Parsed(q).value.crc;
            && d'.log == d.log + [Send(ChunkAck), Send(ChunkReply(ok))] && e == o.sendError(d.sent + 1)
            && s'.chunkIndex == (if ok then (s.chunkIndex + 1) % 0x1_0000 else s.chunkIndex)
            && d'.flash == (if ok then Write(d.flash, s.file.fileAddress + s.chunkIndex * s.chunkSize, chunk) else d.flash)
            && s'.updating == s.updating
  {
    hide ParseOptions, Write;
  }

  /** A fast chunk message is not answered at all. */
  lemma FastIsSilent(s: Ota, d: Device, o: Oracle, q: seq<byte>)
    requires Parsed(q).Some? && Parsed(q).value.index.Some?
    ensures var (s', d', e) := HandleChunk(s, d, o, q); d'.log == d.log && e == NoError
  {
    hide ParseOptions, Write;
  }

  // ---- A sender that repeats -----------------------------------------------------------------

  /** What the sender hears of one message. */
  predicate AnsweredOk(before: seq<Action>, after: seq<Action>) {
    |before| < |after| && after[|after| - 1] == Send(ChunkReply(true))
  }

  /** An attempt to send chunk `j`: whatever arrives, if it passes its checksum then it is that chunk. */
  ghost predicate Attempt(s: Ota, o: Oracle, q: seq<byte>, image: seq<byte>, j: nat) {
    && s.chunkSize > 0 && Parsed(q).Some? && Parsed(q).value.index.None?
    && (Accepted(o, q) ==>
          && j < ChunkCount(|image|, s.chunkSize) && j * s.chunkSize <= |image|
          && q[Parsed(q).value.marker + 1..] == Slice(image, s.chunkSize, j))
  }

  /** The receiver after the messages, and the number of answers OK: the chunk the sender is at. */
  ghost function Dialogue(s: Ota, d: Device, o: Oracle, qs: seq<seq<byte>>): (Ota, Device, nat)
    requires forall q <- qs :: Parsed(q).Some?
  {
    if qs == [] then (s, d, 0)
    else
      var n := |qs| - 1;
      var (s1, d1, j) := Dialogue(s, d, o, qs[..n]);
      var (s2, d2, e) := HandleChunk(s1, d1, o, qs[n]);
      (s2, d2, if AnsweredOk(d1.log, d2.log) then j + 1 else j)
  }

  /** Each message is an attempt at the chunk the sender is at, and what the receiver sends gets out. */
  ghost predicate Repeats(s: Ota, d: Device, o: Oracle, qs: seq<seq<byte>>, image: seq<byte>)
    requires forall q <- qs :: Parsed(q).Some?
  {
    qs == [] ||
    var n := |qs| - 1;
    var (s1, d1, j) := Dialogue(s, d, o, qs[..n]);
    && Repeats(s, d, o, qs[..n], image)
    && Attempt(s1, o, qs[n], image, j) && o.sendError(d1.sent) == NoError && HandleChunk(s1, d1, o, qs[n]).2 == NoError
  }

  /** What the sender concludes is true: the receiver expects the chunk the sender is at, and all before
      it are in memory. */
  ghost predicate InStep(s: Ota, d: Device, image: seq<byte>, was: seq<byte>, j: nat) {
    PrefixSaved(s, d, image, was) && s.updating != 0 && s.chunkIndex == j <= Chunks(s)
  }

  lemma AttemptKeepsStep(s: Ota, d: Device, o: Oracle, q: seq<byte>, image: seq<byte>, was: seq<byte>, j: nat)
    requires InStep(s, d, image, was, j) && Attempt(s, o, q, image, j) && o.sendError(d.sent) == NoError
    ensures var (s', d', e) := HandleChunk(s, d, o, q);
            && InStep(s', d', image, was, if AnsweredOk(d.log, d'.log) then j + 1 else j)
            && (AnsweredOk(d.log, d'.log) <==> Accepted(o, q))
            && s'.file.fileAddress == s.file.fileAddress && Chunks(s') == Chunks(s)
  {
    hide ParseOptions, ChunkCount, ChunkAt, PrefixSaved, Slice, HandleChunk;
    SavedIsForFile(s, d, image, was);
    CountIsSmall(s, d, image);
    RegularReply(s, d, o, q);
    RegularEffect(s, d, o, q);
    RegularChunkKeepsPrefix(s, d, o, q, image, was);
  }

  lemma CountIsSmall(s: Ota, d: Device, image: seq<byte>)
    requires ForFile(s, d, image)
    ensures Chunks(s) == ChunkCount(|image|, s.chunkSize) < MAX_CHUNKS
  {
  }

  lemma {:induction false} DialogueKeepsStep(s: Ota, d: Device, o: Oracle, qs: seq<seq<byte>>, image: seq<byte>, was: seq<byte>)
    requires InStep(s, d, image, was, 0) && (forall q <- qs :: Parsed(q).Some?) && Repeats(s, d, o, qs, image)
    ensures var (s', d', j) := Dialogue(s, d, o, qs);
            && InStep(s', d', image, was, j) && s'.file.fileAddress == s.file.fileAddress && Chunks(s') == Chunks(s)
  {
    if qs == [] {
    } else {
      hide InStep, HandleChunk, Attempt, AnsweredOk, Chunks, ParseOptions;
      var n := |qs| - 1;
      assert forall q <- qs[..n] :: q in qs;
      DialogueKeepsStep(s, d, o, qs[..n], image, was);
      var (s1, d1, j) := Dialogue(s, d, o, qs[..n]);
      AttemptKeepsStep(s1, d1, o, qs[n], image, was, j);
    }
  }

  /** End to end. After an accepted UpdateBegin of a regular transfer, let a sender repeat each chunk until
      it is answered OK, and let messages be damaged on the way. It is never further than the receiver: at
      chunk `j` the first `j` chunks are in memory. Once all chunks are answered OK the whole file is in
      memory, and an UpdateDone whose acknowledgement gets out reports success. */
  lemma RepeatingDelivers(s0: Ota, d0: Device, o: Oracle, begin: seq<byte>, override: Option<bool>,
                          qs: seq<seq<byte>>, image: seq<byte>)
    requires Starts(d0, o, begin) && !BeginFast(begin, override) && Announces(BegunFile(d0, o, begin), image, d0)
    requires forall q <- qs :: Parsed(q).Some?
    requires var (s, d, e) := HandleUpdateBegin(s0, d0, o, begin, override); Repeats(s, d, o, qs, image)
    ensures var (s, d, e) := HandleUpdateBegin(s0, d0, o, begin, override);
            var (s', d', j) := Dialogue(s, d, o, qs);
            && s'.chunkIndex == j <= Chunks(s)
            && (j == Chunks(s) ==>
                  && Holds(d'.flash, BegunFile(d0, o, begin).fileAddress, image)
                  && (o.sendError(d'.sent) == NoError ==>
                        var done := HandleUpdateDone(s', d', o).1;
                        done.log == d'.log + [Finish(SUCCESS + VALIDATE_ONLY), Send(DoneAck(true)), Finish(SUCCESS)]
                        && done.flash == d'.flash))
  {
    hide PrefixSaved, HandleUpdateDone, Dialogue, Repeats, Announces, Starts, BegunFile, BeginFast, Chunks, Holds;
    BeginSavesNothing(s0, d0, o, begin, override, image);
    var (s, d, e) := HandleUpdateBegin(s0, d0, o, begin, override);
    BegunIsUpdating(s0, d0, o, begin, override);
    hide HandleUpdateBegin;
    DialogueKeepsStep(s, d, o, qs, image, d0.flash);
    var (s', d', j) := Dialogue(s, d, o, qs);
    WholeIff(s', d', image, d0.flash);
    if j == Chunks(s) && o.sendError(d'.sent) == NoError {
      PrefixIsFull(s', d', image, d0.flash);
      RegularReportsSuccess(s', d', o);
    }
  }

  lemma BegunIsUpdating(s0: Ota, d0: Device, o: Oracle, begin: seq<byte>, override: Option<bool>)
    requires Starts(d0, o, begin)
    ensures HandleUpdateBegin(s0, d0, o, begin, override).0.updating != 0
  {
    hide ChunkCount, BeginFile, BeginFast, AllChunks;
  }
}
