/** Regular transfers: chunks carry no index, every bit of the bitmap is set from the start, and so an
    UpdateDone reports success whatever has arrived. When that report is true. */
module OtaRegular {
  import opened Basics
  import opened ChunkBitmap
  import opened OtaModel
  import opened OtaSafety

  // ---- The report ----------------------------------------------------------------------------

  /** With every chunk counted as received, an UpdateDone reports success. */
  lemma RegularReportsSuccess(s: Ota, d: Device, o: Oracle)
    requires s.updating != 0 && AllChunks(Chunks(s)) <= s.received && o.sendError(d.sent) == NoError
    ensures var (s', d', e) := HandleUpdateDone(s, d, o);
            && d'.log == d.log + [Finish(SUCCESS + VALIDATE_ONLY), Send(DoneAck(true)), Finish(SUCCESS)]
            && d'.flash == d.flash
  {
    hide ChunkCount;
    NoneMissingIff(s.received, Chunks(s));
  }

  // ---- One chunk -----------------------------------------------------------------------------

  /** The chunks of a regular transfer carry no index: the one that passes the check is the next. */
  ghost predicate InOrder(s: Ota, o: Oracle, q: seq<byte>, image: seq<byte>) {
    && s.chunkSize > 0 && Parsed(q).Some? && Parsed(q).value.index.None?
    && (Accepted(o, q) ==>
          && s.chunkIndex < ChunkCount(|image|, s.chunkSize) && s.chunkIndex * s.chunkSize <= |image|
          && q[Parsed(q).value.marker + 1..] == Slice(image, s.chunkSize, s.chunkIndex))
  }

  /** The chunks below the index counted so far are in memory; the rest is as it was. */
  ghost predicate PrefixSaved(s: Ota, d: Device, image: seq<byte>, was: seq<byte>) {
    && ForFile(s, d, image) && |was| == |d.flash| && AllChunks(Chunks(s)) <= s.received
    && forall p :: 0 <= p < |image| ==>
         d.flash[s.file.fileAddress + p]
         == if ChunkAt(p, s.chunkSize) < s.chunkIndex then image[p] else was[s.file.fileAddress + p]
  }

  lemma NextChunkSaved(s: Ota, d: Device, image: seq<byte>, was: seq<byte>, start: nat)
    requires PrefixSaved(s, d, image, was) && start <= |image|
    requires forall p: nat :: ChunkAt(p, s.chunkSize) == s.chunkIndex <==> start <= p < start + s.chunkSize
    ensures var chunk := image[start..Min(start + s.chunkSize, |image|)];
            var d' := d.(flash := Write(d.flash, s.file.fileAddress + start, chunk));
            PrefixSaved(s.(chunkIndex := s.chunkIndex + 1), d', image, was)
  {
    hide ChunkAt, ChunkCount, Write;
    var c, a := s.chunkSize, s.file.fileAddress;
    var flash := Write(d.flash, a + start, image[start..Min(start + c, |image|)]);
    forall p | 0 <= p < |image|
      ensures flash[a + p] == if ChunkAt(p, c) < s.chunkIndex + 1 then image[p] else was[a + p]
    {
      SliceWritten(d.flash, a, image, start, c, p);
    }
  }

  /** What a regular chunk message does, apart from replies. */
  lemma RegularEffect(s: Ota, d: Device, o: Oracle, q: seq<byte>)
    requires Parsed(q).Some? && Parsed(q).value.index.None?
    ensures var (s', d') := Apply(s, d, o, Chunk(q));
            && s'.file.fileLength == s.file.fileLength && s'.file.fileAddress == s.file.fileAddress
            && s'.chunkSize == s.chunkSize && s.received <= s'.received
            && if s.updating != 0 && o.sendError(d.sent) == NoError && Accepted(o, q) && s.chunkIndex < MAX_CHUNKS then
                 && s'.chunkIndex == (s.chunkIndex + 1) % 0x1_0000
                 && d'.flash == Write(d.flash, s.file.fileAddress + s.chunkIndex * s.chunkSize, q[Parsed(q).value.marker + 1..])
               else
                 s'.chunkIndex == s.chunkIndex && d'.flash == d.flash
  {
    hide ChunkCount, ParseOptions, Write;
  }

  lemma SavedStays(s: Ota, d: Device, s': Ota, d': Device, image: seq<byte>, was: seq<byte>)
    requires PrefixSaved(s, d, image, was) && d'.flash == d.flash && s'.chunkIndex == s.chunkIndex
    requires s'.file.fileLength == s.file.fileLength && s'.file.fileAddress == s.file.fileAddress
    requires s'.chunkSize == s.chunkSize && s.received <= s'.received
    ensures PrefixSaved(s', d', image, was)
  {
    hide ChunkAt, ChunkCount;
  }

  lemma SavedIsForFile(s: Ota, d: Device, image: seq<byte>, was: seq<byte>)
    requires PrefixSaved(s, d, image, was)
    ensures ForFile(s, d, image)
  {
  }

  lemma RegularChunkKeepsPrefix(s: Ota, d: Device, o: Oracle, q: seq<byte>, image: seq<byte>, was: seq<byte>)
    requires PrefixSaved(s, d, image, was) && InOrder(s, o, q, image)
    ensures var (s', d') := Apply(s, d, o, Chunk(q));
            PrefixSaved(s', d', image, was) && s'.file.fileAddress == s.file.fileAddress
  {
    hide ChunkAt, ChunkCount, ParseOptions, Write, Slice, Apply, PrefixSaved;
    SavedIsForFile(s, d, image, was);
    RegularEffect(s, d, o, q);
    var (s', d') := Apply(s, d, o, Chunk(q));
    if s.updating != 0 && o.sendError(d.sent) == NoError && Accepted(o, q) {
      var start := ChunkStart(image, s.chunkSize, s.chunkIndex);
      NextChunkSaved(s, d, image, was, start);
      SavedStays(s.(chunkIndex := s.chunkIndex + 1), d.(flash := d'.flash), s', d', image, was);
    } else {
      SavedStays(s, d, s', d', image, was);
    }
  }

  /** An UpdateDone changes neither memory nor index. */
  lemma RegularDoneKeepsPrefix(s: Ota, d: Device, o: Oracle, image: seq<byte>, was: seq<byte>)
    requires PrefixSaved(s, d, image, was)
    ensures var (s', d') := Apply(s, d, o, Done);
            PrefixSaved(s', d', image, was) && s'.file.fileAddress == s.file.fileAddress
  {
    hide ChunkAt, ChunkCount, SendMissing, PrefixSaved;
    SendMissingKeeps(s.(updating := 2, flightCount := 0), d.Sending(DoneAck(false)), o, ResendCount(s.flightCount));
    var (s', d') := Apply(s, d, o, Done);
    SavedStays(s, d, s', d', image, was);
  }

  // ---- Runs ----------------------------------------------------------------------------------

  /** Every chunk message is the next one at the time it arrives. */
  ghost predicate AllInOrder(s: Ota, d: Device, o: Oracle, ops: seq<Op>, image: seq<byte>)
    requires Readable(ops)
    decreases |ops|
  {
    ops == [] ||
    ((ops[0].Chunk? ==> InOrder(s, o, ops[0].q, image))
     && var (s', d') := Apply(s, d, o, ops[0]);
        AllInOrder(s', d', o, ops[1..], image))
  }

  lemma {:induction false} RunKeepsPrefix(s: Ota, d: Device, o: Oracle, ops: seq<Op>, image: seq<byte>, was: seq<byte>)
    requires Readable(ops) && PrefixSaved(s, d, image, was) && AllInOrder(s, d, o, ops, image)
    ensures var (s', d') := Run(s, d, o, ops);
            PrefixSaved(s', d', image, was) && s'.file.fileAddress == s.file.fileAddress
    decreases |ops|
  {
    hide PrefixSaved, Apply, InOrder;
    if ops == [] {
    } else {
      var (s', d') := Apply(s, d, o, ops[0]);
      if ops[0].Chunk? {
        RegularChunkKeepsPrefix(s, d, o, ops[0].q, image, was);
      } else {
        RegularDoneKeepsPrefix(s, d, o, image, was);
      }
      RunKeepsPrefix(s', d', o, ops[1..], image, was);
    }
  }

  /** A device that differs in its memory only. */
  ghost predicate SameButFlash(d: Device, d': Device) {
    d'.(flash := d.flash) == d && |d'.flash| == |d.flash|
  }

  /** What a message does to the receiver does not depend on the contents of the memory. */
  lemma ApplyIgnoresFlash(s: Ota, d: Device, d1: Device, o: Oracle, op: Op)
    requires SameButFlash(d, d1) && (op.Chunk? ==> Parsed(op.q).Some?)
    ensures var (s', d') := Apply(s, d, o, op);
            var (s1', d1') := Apply(s, d1, o, op);
            s1' == s' && SameButFlash(d', d1')
  {
    hide ParseOptions, Requested, ChunkCount, Missing;
  }

  lemma {:induction false} RunIgnoresFlash(s: Ota, d: Device, d1: Device, o: Oracle, ops: seq<Op>, image: seq<byte>)
    requires SameButFlash(d, d1) && Readable(ops)
    ensures var (s', d') := Run(s, d, o, ops);
            var (s1', d1') := Run(s, d1, o, ops);
            s1' == s' && SameButFlash(d', d1')
    ensures AllInOrder(s, d, o, ops, image) == AllInOrder(s, d1, o, ops, image)
    decreases |ops|
  {
    hide Apply, InOrder, SameButFlash;
    if ops == [] {
    } else {
      ApplyIgnoresFlash(s, d, d1, o, ops[0]);
      var (s', d') := Apply(s, d, o, ops[0]);
      var (s1', d1') := Apply(s, d1, o, ops[0]);
      RunIgnoresFlash(s', d', d1', o, ops[1..], image);
    }
  }

  // ---- End to end ----------------------------------------------------------------------------

  /** What the UpdateBegin and the messages after it make of a device whose memory held `was`. */
  ghost function Transferred(s0: Ota, d0: Device, was: seq<byte>, o: Oracle, begin: seq<byte>, override: Option<bool>,
                             ops: seq<Op>): (Ota, Device)
    requires Readable(ops)
  {
    var (s, d, e) := HandleUpdateBegin(s0, d0.(flash := was), o, begin, override);
    Run(s, d, o, ops)
  }

  lemma BeginSavesNothing(s0: Ota, d0: Device, o: Oracle, begin: seq<byte>, override: Option<bool>, image: seq<byte>)
    requires Starts(d0, o, begin) && !BeginFast(begin, override) && Announces(BegunFile(d0, o, begin), image, d0)
    ensures var (s, d, e) := HandleUpdateBegin(s0, d0, o, begin, override);
            && PrefixSaved(s, d, image, d0.flash) && s.chunkIndex == 0
            && s.file.fileAddress == BegunFile(d0, o, begin).fileAddress
  {
    hide ChunkCount, ChunkAt, BeginFile;
  }

  /** What a regular transfer of a file leaves, from whatever the memory held: the receiver is always
      the same, and the saved prefix is the one its index says. */
  lemma TransferSavesPrefix(s0: Ota, d0: Device, was: seq<byte>, o: Oracle, begin: seq<byte>, override: Option<bool>,
                            ops: seq<Op>, image: seq<byte>)
    requires Starts(d0, o, begin) && !BeginFast(begin, override) && Announces(BegunFile(d0, o, begin), image, d0)
    requires Readable(ops) && |was| == |d0.flash|
    requires var (s, d, e) := HandleUpdateBegin(s0, d0, o, begin, override); AllInOrder(s, d, o, ops, image)
    ensures var (s1, d1) := Transferred(s0, d0, was, o, begin, override, ops);
            && PrefixSaved(s1, d1, image, was)
            && s1 == Transferred(s0, d0, d0.flash, o, begin, override, ops).0
            && s1.file.fileAddress == BegunFile(d0, o, begin).fileAddress
            && SameButFlash(Transferred(s0, d0, d0.flash, o, begin, override, ops).1, d1)
  {
    var dw := d0.(flash := was);
    assert d0.(flash := d0.flash) == d0;
    var (s, d, e) := HandleUpdateBegin(s0, d0, o, begin, override);
    var (sw, dv, ew) := HandleUpdateBegin(s0, dw, o, begin, override);
    assert sw == s && SameButFlash(d, dv);
    hide HandleUpdateBegin, PrefixSaved, Run, AllInOrder, BegunFile, Starts;
    SameStart(d0, was, o, begin, image);
    BeginSavesNothing(s0, dw, o, begin, override, image);
    RunIgnoresFlash(s, d, dv, o, ops, image);
    RunKeepsPrefix(s, dv, o, ops, image, was);
  }

  lemma SameStart(d0: Device, was: seq<byte>, o: Oracle, begin: seq<byte>, image: seq<byte>)
    requires |was| == |d0.flash|
    ensures Starts(d0.(flash := was), o, begin) == Starts(d0, o, begin)
    ensures BegunFile(d0.(flash := was), o, begin) == BegunFile(d0, o, begin)
    ensures Announces(BegunFile(d0, o, begin), image, d0) == Announces(BegunFile(d0, o, begin), image, d0.(flash := was))
  {
    hide ChunkCount, BeginFile;
  }

  /** With the prefix saved, the memory holds the file whatever it held before exactly if the index has
      reached the number of chunks. */
  lemma WholeIff(s: Ota, d: Device, image: seq<byte>, was: seq<byte>)
    requires PrefixSaved(s, d, image, was)
    ensures |d.flash| == |was|
    ensures s.chunkIndex >= Chunks(s) ==> Holds(d.flash, s.file.fileAddress, image)
    ensures s.chunkIndex < Chunks(s) ==>
              var p := s.chunkIndex * s.chunkSize;
              p < |image| && d.flash[s.file.fileAddress + p] == was[s.file.fileAddress + p]
  {
    hide ChunkAt, ChunkCount;
    var a := s.file.fileAddress;
    if s.chunkIndex >= Chunks(s) {
      forall p | 0 <= p < |image| ensures d.flash[a + p] == image[p] {
        ByteInFile(|image|, s.chunkSize, p);
      }
    } else {
      ChunkInFile(|image|, s.chunkSize, s.chunkIndex);
      var p := s.chunkIndex * s.chunkSize;
      ChunkOfByte(p, s.chunkSize, s.chunkIndex);
    }
  }

  /** End to end. After an accepted UpdateBegin of a regular transfer and any messages in order, let an
      UpdateDone arrive during the update, and let its acknowledgement get out. It reports success. The
      report is true for every earlier content of the memory exactly if the index has reached the number
      of chunks. */
  lemma RegularSuccessIsTrueIff(s0: Ota, d0: Device, o: Oracle, begin: seq<byte>, override: Option<bool>,
                                ops: seq<Op>, image: seq<byte>)
    requires Starts(d0, o, begin) && !BeginFast(begin, override) && Announces(BegunFile(d0, o, begin), image, d0)
    requires Readable(ops)
    requires var (s, d, e) := HandleUpdateBegin(s0, d0, o, begin, override); AllInOrder(s, d, o, ops, image)
    ensures var (s, d) := Transferred(s0, d0, d0.flash, o, begin, override, ops);
            && (s.updating != 0 && o.sendError(d.sent) == NoError ==>
                  forall was: seq<byte> :: |was| == |d0.flash| ==>
                    var (s1, d1) := Transferred(s0, d0, was, o, begin, override, ops);
                    Finish(SUCCESS) == Last(HandleUpdateDone(s1, d1, o).1.log) && HandleUpdateDone(s1, d1, o).1.flash == d1.flash)
            && ((forall was: seq<byte> :: |was| == |d0.flash| ==>
                   Holds(Transferred(s0, d0, was, o, begin, override, ops).1.flash, BegunFile(d0, o, begin).fileAddress, image))
                <==> s.chunkIndex >= Chunks(s))
  {
    hide PrefixSaved, Transferred, Announces, Starts, BegunFile, HandleUpdateBegin, AllInOrder, Chunks, HandleUpdateDone;
    var a := BegunFile(d0, o, begin).fileAddress;
    var (s, d) := Transferred(s0, d0, d0.flash, o, begin, override, ops);
    forall was: seq<byte> | |was| == |d0.flash|
      ensures s.chunkIndex >= Chunks(s) ==> Holds(Transferred(s0, d0, was, o, begin, override, ops).1.flash, a, image)
      ensures s.updating != 0 && o.sendError(d.sent) == NoError ==>
                var (s1, d1) := Transferred(s0, d0, was, o, begin, override, ops);
                Finish(SUCCESS) == Last(HandleUpdateDone(s1, d1, o).1.log) && HandleUpdateDone(s1, d1, o).1.flash == d1.flash
    {
      TransferSavesPrefix(s0, d0, was, o, begin, override, ops, image);
      var (s1, d1) := Transferred(s0, d0, was, o, begin, override, ops);
      WholeIff(s1, d1, image, was);
      if s.updating != 0 && o.sendError(d.sent) == NoError {
        PrefixIsFull(s1, d1, image, was);
        RegularReportsSuccess(s1, d1, o);
      }
    }
    if s.chunkIndex < Chunks(s) {
      var was := Spoiled(d0.flash, a, image, s.chunkIndex * s.chunkSize);
      TransferSavesPrefix(s0, d0, was, o, begin, override, ops, image);
      var (s1, d1) := Transferred(s0, d0, was, o, begin, override, ops);
      WholeIff(s1, d1, image, was);
      SpoiledThere(d0.flash, d1.flash, a, image, s.chunkIndex * s.chunkSize);
    }
  }

  function Last(log: seq<Action>): Action {
    if log == [] then Finish(0) else log[|log| - 1]
  }

  lemma PrefixIsFull(s: Ota, d: Device, image: seq<byte>, was: seq<byte>)
    requires PrefixSaved(s, d, image, was)
    ensures AllChunks(Chunks(s)) <= s.received
  {
  }

  /** A memory that does not hold the file at byte `p`. */
  function Spoiled(flash: seq<byte>, a: nat, image: seq<byte>, p: nat): (r: seq<byte>)
    ensures |r| == |flash|
    ensures a + p < |flash| && p < |image| ==> r[a + p] != image[p]
  {
    if a + p < |flash| && p < |image| then flash[a + p := (image[p] as nat + 1) % 256] else flash
  }

  lemma SpoiledThere(flash: seq<byte>, after: seq<byte>, a: nat, image: seq<byte>, p: nat)
    requires |after| == |flash| && p < |image|
    requires a + p < |flash| ==> after[a + p] == Spoiled(flash, a, image, p)[a + p]
    ensures !Holds(after, a, image)
  {
    assert a + |image| <= |after| ==> after[a..a + |image|][p] == after[a + p];
  }
}
