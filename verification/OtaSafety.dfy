/** The end-to-end promise of the chunked transfer: a success is reported only when the memory holds
    the whole file, whatever the network does to the messages. */
module OtaSafety {
  import opened Basics
  import opened ChunkBitmap
  import opened OtaModel

  /** The file as cut into chunks of `c` bytes. */
  function Slice(image: seq<byte>, c: nat, i: nat): (r: seq<byte>)
    requires c > 0 && i * c <= |image|
  {
    image[i * c..Min(i * c + c, |image|)]
  }

  /** The chunk a byte of a file lies in. */
  function ChunkAt(p: nat, c: nat): nat
    requires c > 0
  {
    p / c
  }

  /** Byte `p` of a file lies in chunk `j` exactly when chunk `j` covers it. */
  lemma ChunkOfByte(p: nat, c: nat, j: nat)
    requires c > 0
    ensures ChunkAt(p, c) == j <==> j * c <= p < j * c + c
  {
    var q := p / c;
    assert q * c <= p < q * c + c;
    if j < q {
      MulLe(j + 1, q, c);
    }
    if q < j {
      MulLe(q + 1, j, c);
    }
  }

  lemma MulLe(a: nat, b: nat, c: nat)
    requires a <= b
    ensures a * c <= b * c
    ensures a > 0 ==> (a - 1) * c + c == a * c
  {
  }

  /** Where chunk `j` of a file begins, and the bytes it covers. */
  lemma ChunkStart(image: seq<byte>, c: nat, j: nat) returns (start: nat)
    requires c > 0 && j * c <= |image|
    ensures start == j * c && start <= |image|
    ensures forall p: nat :: ChunkAt(p, c) == j <==> start <= p < start + c
    ensures Slice(image, c, j) == image[start..Min(start + c, |image|)]
  {
    hide ChunkAt;
    start := j * c;
    forall p: nat ensures ChunkAt(p, c) == j <==> start <= p < start + c {
      ChunkOfByte(p, c, j);
    }
  }

  lemma CountBounds(length: nat, c: nat)
    requires c > 0 && length + c <= 0x1_0000_0000
    ensures var n := ChunkCount(length, c); n * c <= length + c - 1 < n * c + c
  {
    ChunkOfByte(length + c - 1, c, ChunkCount(length, c));
  }

  /** Every byte of a file lies in one of its chunks. */
  lemma ByteInFile(length: nat, c: nat, p: nat)
    requires c > 0 && length + c <= 0x1_0000_0000 && p < length
    ensures ChunkAt(p, c) < ChunkCount(length, c)
  {
    hide ChunkCount, ChunkAt;
    CountBounds(length, c);
    var n := ChunkCount(length, c);
    ChunkOfByte(p, c, ChunkAt(p, c));
    if n <= ChunkAt(p, c) { MulLe(n, ChunkAt(p, c), c); }
  }

  /** Every chunk begins inside the file. */
  lemma ChunkInFile(length: nat, c: nat, i: nat)
    requires c > 0 && length + c <= 0x1_0000_0000 && i < ChunkCount(length, c)
    ensures i * c < length
  {
    hide ChunkCount;
    CountBounds(length, c);
    MulLe(i + 1, ChunkCount(length, c), c);
  }

  // ---- Runs ----------------------------------------------------------------------------------

  /** A message that reaches the receiver. */
  datatype Op = Chunk(q: seq<byte>) | Done

  function Accepted(o: Oracle, q: seq<byte>): bool {
    Parsed(q).Some? && o.crc(q[Parsed(q).value.marker + 1..]) == Parsed(q).value.crc
  }

  /** The checksum is exact: a chunk that passes it carries the index of a chunk of the file, and
      that chunk. Anything else may have happened to the message. */
  ghost predicate Genuine(o: Oracle, q: seq<byte>, image: seq<byte>, c: nat) {
    && c > 0 && Parsed(q).Some?
    && (Accepted(o, q) ==>
          var p := Parsed(q).value;
          && p.index.Some? && p.index.value < ChunkCount(|image|, c)
          && p.index.value * c <= |image| && q[p.marker + 1..] == Slice(image, c, p.index.value))
  }

  ghost function Apply(s: Ota, d: Device, o: Oracle, op: Op): (Ota, Device)
    requires op.Chunk? ==> Parsed(op.q).Some?
  {
    match op
    case Chunk(q) => var (s', d', e) := HandleChunk(s, d, o, q); (s', d')
    case Done => var (s', d', e) := HandleUpdateDone(s, d, o); (s', d')
  }

  /** The file a transfer is for: what an accepted UpdateBegin announced. */
  ghost predicate ForFile(s: Ota, d: Device, image: seq<byte>) {
    && s.file.fileLength == |image| && s.chunkSize > 0
    && |image| + s.chunkSize <= 0x1_0000_0000 && ChunkCount(|image|, s.chunkSize) < MAX_CHUNKS
    && s.file.fileAddress + |image| <= |d.flash|
  }

  /** The file bytes in memory whose chunk is flagged are right, and if anything was reported as
      finished since the log had length `from`, all chunks are flagged. */
  ghost predicate Sound(s: Ota, d: Device, image: seq<byte>, from: nat) {
    && ForFile(s, d, image)
    && (forall p :: 0 <= p < |image| && ChunkAt(p, s.chunkSize) in s.received ==> d.flash[s.file.fileAddress + p] == image[p])
    && from <= |d.log|
    && (forall i :: from <= i < |d.log| && d.log[i].Finish? ==> forall k: nat :: k < Chunks(s) ==> k in s.received)
  }

  /** Writing one chunk of the file at `start`, its offset. */
  lemma WriteKeepsSound(s: Ota, d: Device, image: seq<byte>, from: nat, j: nat, start: nat)
    requires Sound(s, d, image, from) && start <= |image|
    requires forall p: nat :: ChunkAt(p, s.chunkSize) == j <==> start <= p < start + s.chunkSize
    ensures var chunk := image[start..Min(start + s.chunkSize, |image|)];
            var d' := d.(flash := Write(d.flash, s.file.fileAddress + start, chunk));
            Sound(s.(received := s.received + {j}), d', image, from)
  {
    hide ChunkAt, ChunkCount, Write;
    SavedInPlace(d.flash, s.file.fileAddress, image, s.chunkSize, s.received, j, start);
  }

  lemma SliceWritten(flash: seq<byte>, a: nat, image: seq<byte>, start: nat, c: nat, p: nat)
    requires start <= |image| && p < |image| && a + |image| <= |flash|
    ensures Write(flash, a + start, image[start..Min(start + c, |image|)])[a + p]
            == if start <= p < start + c then image[p] else flash[a + p]
  {
  }

  /** Saving chunk `idx` in its place makes it right in memory, and leaves the others so. */
  lemma SavedInPlace(flash: seq<byte>, a: nat, image: seq<byte>, c: nat, received: set<nat>, idx: nat, start: nat)
    requires c > 0 && start <= |image| && a + |image| <= |flash|
    requires forall p: nat :: ChunkAt(p, c) == idx <==> start <= p < start + c
    requires forall p :: 0 <= p < |image| && ChunkAt(p, c) in received ==> flash[a + p] == image[p]
    ensures var after := Write(flash, a + start, image[start..Min(start + c, |image|)]);
            forall p :: 0 <= p < |image| && ChunkAt(p, c) in received + {idx} ==> after[a + p] == image[p]
  {
    hide ChunkAt, Write;
    var after := Write(flash, a + start, image[start..Min(start + c, |image|)]);
    forall p | 0 <= p < |image| && ChunkAt(p, c) in received + {idx} ensures after[a + p] == image[p] {
      SliceWritten(flash, a, image, start, c, p);
    }
  }

  /** What a chunk message does when no message without an index passes the check. */
  lemma ChunkEffect(s: Ota, d: Device, o: Oracle, q: seq<byte>)
    requires Parsed(q).Some? && (Accepted(o, q) ==> Parsed(q).value.index.Some?)
    ensures var (s', d') := Apply(s, d, o, Chunk(q));
            && s'.file.fileLength == s.file.fileLength && s'.file.fileAddress == s.file.fileAddress
            && s'.chunkSize == s.chunkSize
            && OnlySends(d.log, d'.log)
            && if s.updating != 0 && Accepted(o, q) && Parsed(q).value.index.value < MAX_CHUNKS then
                 var idx := Parsed(q).value.index.value;
                 && s'.received == s.received + {idx}
                 && d'.flash == Write(d.flash, s.file.fileAddress + idx * s.chunkSize, q[Parsed(q).value.marker + 1..])
               else
                 s'.received == s.received && d'.flash == d.flash
  {
    hide ChunkCount, ParseOptions, Write;
  }

  ghost predicate OnlySends(before: seq<Action>, after: seq<Action>) {
    |before| <= |after| && after[..|before|] == before && forall i :: |before| <= i < |after| ==> after[i].Send?
  }

  /** Sending changes nothing of it. */
  lemma SendingKeepsSound(s: Ota, d: Device, s': Ota, d': Device, image: seq<byte>, from: nat)
    requires Sound(s, d, image, from) && OnlySends(d.log, d'.log) && d'.flash == d.flash
    requires s'.file.fileLength == s.file.fileLength && s'.file.fileAddress == s.file.fileAddress
    requires s'.chunkSize == s.chunkSize && s'.received == s.received
    ensures Sound(s', d', image, from)
  {
    hide ChunkAt, ChunkCount;
    forall i | from <= i < |d'.log| && d'.log[i].Finish?
      ensures forall k: nat :: k < Chunks(s') ==> k in s'.received
    {
      assert d'.log[i] == d'.log[..|d.log|][i];
    }
  }

  /** The memory holds the file at its address. */
  predicate Holds(flash: seq<byte>, a: nat, image: seq<byte>) {
    a + |image| <= |flash| && flash[a..a + |image|] == image
  }

  /** No message, genuine or damaged, makes a sound receiver unsound. */
  lemma ChunkKeepsSound(s: Ota, d: Device, o: Oracle, q: seq<byte>, image: seq<byte>, from: nat)
    requires Sound(s, d, image, from) && Genuine(o, q, image, s.chunkSize)
    ensures var (s', d') := Apply(s, d, o, Chunk(q));
            Sound(s', d', image, from) && s'.chunkSize == s.chunkSize && s.received <= s'.received
  {
    hide ChunkAt, ChunkCount, Slice, ParseOptions, Write, Apply, Sound, OnlySends;
    SoundIsForFile(s, d, image, from);
    var (s', d') := Apply(s, d, o, Chunk(q));
    ChunkEffect(s, d, o, q);
    if s.updating != 0 && Accepted(o, q) {
      var idx := Parsed(q).value.index.value;
      var start := ChunkStart(image, s.chunkSize, idx);
      WriteKeepsSound(s, d, image, from, idx, start);
      SendingKeepsSound(s.(received := s.received + {idx}), d.(flash := d'.flash), s', d', image, from);
    } else {
      SendingKeepsSound(s, d, s', d', image, from);
    }
  }

  lemma SoundIsForFile(s: Ota, d: Device, image: seq<byte>, from: nat)
    requires Sound(s, d, image, from)
    ensures ForFile(s, d, image)
  {
  }

  /** A request for missing chunks changes nothing but what was asked last and the log. */
  lemma SendMissingKeeps(s: Ota, d: Device, o: Oracle, count: nat)
    ensures var (s', d', e) := SendMissing(s, d, o, count, 0);
            && s' == s.(missedIndex := s'.missedIndex)
            && d'.flash == d.flash
            && (d'.log == d.log || (|d'.log| == |d.log| + 1 && d'.log[..|d.log|] == d.log && d'.log[|d.log|].Send?))
  {
  }

  lemma DoneKeepsSound(s: Ota, d: Device, o: Oracle, image: seq<byte>, from: nat)
    requires Sound(s, d, image, from)
    ensures var (s', d') := Apply(s, d, o, Done);
            Sound(s', d', image, from) && s'.chunkSize == s.chunkSize && s.received == s'.received
  {
    hide ChunkAt, ChunkCount, SendMissing;
    SendMissingKeeps(s.(updating := 2, flightCount := 0),
                     d.Sending(DoneAck(false)), o, ResendCount(s.flightCount));
    NoneMissingIff(s.received, Chunks(s));
    assert Missing(s.received, Chunks(s), 0) == [] ==> forall k: nat :: k < Chunks(s) ==> k in s.received;
  }

  predicate Readable(ops: seq<Op>) {
    forall op <- ops :: op.Chunk? ==> Parsed(op.q).Some?
  }

  ghost predicate AllGenuine(o: Oracle, ops: seq<Op>, image: seq<byte>, c: nat) {
    forall op <- ops :: op.Chunk? ==> Genuine(o, op.q, image, c)
  }

  ghost function Run(s: Ota, d: Device, o: Oracle, ops: seq<Op>): (Ota, Device)
    requires Readable(ops)
    decreases |ops|
  {
    if ops == [] then (s, d)
    else
      var (s', d') := Apply(s, d, o, ops[0]);
      Run(s', d', o, ops[1..])
  }

  lemma {:induction false} RunKeepsSound(s: Ota, d: Device, o: Oracle, ops: seq<Op>, image: seq<byte>, from: nat)
    requires Sound(s, d, image, from) && AllGenuine(o, ops, image, s.chunkSize)
    ensures var (s', d') := Run(s, d, o, ops);
            && Sound(s', d', image, from) && s'.file.fileAddress == s.file.fileAddress
            && s'.chunkSize == s.chunkSize && s.received <= s'.received
    decreases |ops|
  {
    if ops == [] {
    } else {
      hide Sound, HandleChunk, HandleUpdateDone, ChunkCount, Genuine;
      ApplyKeepsAddress(s, d, o, ops[0]);
      var (s', d') := Apply(s, d, o, ops[0]);
      if ops[0].Chunk? {
        ChunkKeepsSound(s, d, o, ops[0].q, image, from);
      } else {
        DoneKeepsSound(s, d, o, image, from);
      }
      RunKeepsSound(s', d', o, ops[1..], image, from);
    }
  }

  lemma ApplyKeepsAddress(s: Ota, d: Device, o: Oracle, op: Op)
    requires op.Chunk? ==> Parsed(op.q).Some?
    ensures Apply(s, d, o, op).0.file.fileAddress == s.file.fileAddress
  {
  }

  lemma AllFlaggedIsWhole(s: Ota, d: Device, image: seq<byte>, from: nat)
    requires Sound(s, d, image, from) && forall k: nat :: k < Chunks(s) ==> k in s.received
    ensures Holds(d.flash, s.file.fileAddress, image)
  {
    hide ChunkAt, ChunkCount;
    forall p | 0 <= p < |image| ensures d.flash[s.file.fileAddress + p] == image[p] {
      ByteInFile(|image|, s.chunkSize, p);
    }
  }

  /** End-to-end safety of a fast transfer. After an accepted UpdateBegin for a file, let the network
      lose, duplicate, reorder and damage chunk messages as it likes: if the update is ever reported
      as finished, then the memory holds the file, byte for byte, from then on. */
  lemma SuccessMeansWholeFile(s0: Ota, d0: Device, o: Oracle, begin: seq<byte>, override: Option<bool>,
                              ops: seq<Op>, image: seq<byte>)
    requires Starts(d0, o, begin) && BeginFast(begin, override)
    requires Announces(BegunFile(d0, o, begin), image, d0)
    requires AllGenuine(o, ops, image, BegunFile(d0, o, begin).chunkSize)
    ensures var (s, d, e) := HandleUpdateBegin(s0, d0, o, begin, override);
            var (s', d') := Run(s, d, o, ops);
            var a := BegunFile(d0, o, begin).fileAddress;
            && |d.log| <= |d'.log|
            && ((exists i :: |d.log| <= i < |d'.log| && d'.log[i].Finish?) ==>
                  Holds(d'.flash, a, image))
  {
    var (s, d, e) := HandleUpdateBegin(s0, d0, o, begin, override);
    BeginIsSound(s0, d0, o, begin, override, image);
    hide ChunkCount, ChunkAt, Run, AllGenuine;
    RunKeepsSound(s, d, o, ops, image, |d.log|);
    var (s', d') := Run(s, d, o, ops);
    if exists i :: |d.log| <= i < |d'.log| && d'.log[i].Finish? {
      AllFlaggedIsWhole(s', d', image, |d.log|);
    }
  }

  /** A descriptor for a file of that length, in chunks that can be numbered, inside the memory. */
  ghost predicate Announces(f: Descriptor, image: seq<byte>, d: Device) {
    && f.fileLength == |image| && f.chunkSize > 0 && |image| + f.chunkSize <= 0x1_0000_0000
    && ChunkCount(|image|, f.chunkSize) < MAX_CHUNKS && f.fileAddress + |image| <= |d.flash|
  }

  /** An accepted UpdateBegin of a fast transfer: nothing is flagged, and nothing reported. */
  lemma BeginIsSound(s0: Ota, d0: Device, o: Oracle, begin: seq<byte>, override: Option<bool>, image: seq<byte>)
    requires Starts(d0, o, begin) && BeginFast(begin, override) && Announces(BegunFile(d0, o, begin), image, d0)
    ensures var (s, d, e) := HandleUpdateBegin(s0, d0, o, begin, override);
            && Sound(s, d, image, |d.log|) && s.file == BegunFile(d0, o, begin) && s.updating == 1
            && s.chunkSize == s.file.chunkSize && s.received == {} && d.flash == d0.flash
  {
    hide ChunkCount, ChunkAt, BeginFile;
  }
}
