/** A rejected UpdateBegin in the middle of a transfer. It replaces the file but not the transfer, so from
    then on chunks go to the new address, and an UpdateDone looks at as many chunks as the new file has,
    if need be at memory behind the bitmap. When the reports of the old transfer are still true. */
module OtaRejected {
  import opened Basics
  import opened ChunkBitmap
  import opened OtaModel
  import opened OtaSafety
  import opened OtaRecovery

  /** A rejected UpdateBegin replaces the file and nothing else of the transfer. */
  lemma RejectedBeginOverwritesFile(s: Ota, d: Device, o: Oracle, q: seq<byte>, override: Option<bool>)
    requires !Starts(d, o, q)
    ensures var (s', d', e) := HandleUpdateBegin(s, d, o, q, override);
            && s' == s.(file := BegunFile(d, o, q), flightCount := 0)
            && d'.flash == d.flash && forall i :: |d.log| <= i < |d'.log| ==> d'.log[i].Send?
  {
    hide BeginFile, ChunkCount;
  }

  // ---- What follows --------------------------------------------------------------------------

  /** A message after the rejection. `past` are the indexes whose bits, read from behind the bitmap, are
      set at the time. */
  datatype Late = LateChunk(q: seq<byte>) | LateDone(past: set<nat>)

  /** An UpdateDone that may look behind the bitmap. */
  ghost function DoneReading(s: Ota, d: Device, o: Oracle, past: set<nat>): (Ota, Device) {
    var (s', d', e) := HandleUpdateDone(s.(received := s.received + past), d, o);
    (s'.(received := s.received), d')
  }

  ghost function LateStep(s: Ota, d: Device, o: Oracle, l: Late): (Ota, Device)
    requires l.LateChunk? ==> Parsed(l.q).Some?
  {
    match l
    case LateChunk(q) => Apply(s, d, o, Chunk(q))
    case LateDone(past) => DoneReading(s, d, o, past)
  }

  /** Chunks are those of the old file; what is read from behind the bitmap lies behind it. */
  ghost predicate LateGenuine(o: Oracle, l: Late, image: seq<byte>, c: nat) {
    && c > 0
    && (l.LateChunk? ==> Genuine(o, l.q, image, c))
    && (l.LateDone? ==> forall i <- l.past :: i >= BitmapBits(ChunkCount(|image|, c)))
  }

  ghost predicate AllLateGenuine(o: Oracle, ls: seq<Late>, image: seq<byte>, c: nat) {
    forall i :: 0 <= i < |ls| ==> LateGenuine(o, ls[i], image, c)
  }

  ghost function LateRun(s: Ota, d: Device, o: Oracle, ls: seq<Late>, image: seq<byte>, c: nat): (Ota, Device)
    requires AllLateGenuine(o, ls, image, c)
  {
    if ls == [] then (s, d)
    else
      var (s', d') := LateRun(s, d, o, ls[..|ls| - 1], image, c);
      LateStep(s', d', o, ls[|ls| - 1])
  }

  // ---- The claim -----------------------------------------------------------------------------

  /** An UpdateBegin that starts a fast transfer of `image`, some messages, an UpdateBegin that is
      rejected, and some messages more. */
  datatype Story = Story(
    s0: Ota, d0: Device, o: Oracle, begin: seq<byte>, override: Option<bool>, ops: seq<Op>,
    q: seq<byte>, late: seq<Late>, image: seq<byte>)

  /** The numbers of the old and the new file: length, chunk size and address, length and address. */
  datatype Files = Files(length: nat, c: nat, address: nat, newLength: nat, newAddress: nat)

  /** They fit their fields, and the old file can be transferred. */
  predicate Proper(f: Files) {
    && 0 < f.c < 0x1_0000 && f.length + f.c <= 0x1_0000_0000 && ChunkCount(f.length, f.c) < MAX_CHUNKS
    && f.address < 0x1_0000_0000 && f.newLength < 0x1_0000_0000 && f.newAddress < 0x1_0000_0000
  }

  /** The transfer when the second UpdateBegin arrives. */
  ghost function Interrupted(t: Story): (Ota, Device)
    requires Readable(t.ops)
  {
    var (s, d, e) := HandleUpdateBegin(t.s0, t.d0, t.o, t.begin, t.override);
    Run(s, d, t.o, t.ops)
  }

  ghost function Rejected(t: Story): (Ota, Device)
    requires Readable(t.ops)
  {
    var (s, d) := Interrupted(t);
    var (s', d', e) := HandleUpdateBegin(s, d, t.o, t.q, t.override);
    (s', d')
  }

  ghost predicate Told(t: Story, f: Files) {
    && f.c > 0 && |t.image| == f.length
    && Starts(t.d0, t.o, t.begin) && BeginFast(t.begin, t.override)
    && Announces(BegunFile(t.d0, t.o, t.begin), t.image, t.d0)
    && BegunFile(t.d0, t.o, t.begin).chunkSize == f.c && BegunFile(t.d0, t.o, t.begin).fileAddress == f.address
    && AllGenuine(t.o, t.ops, t.image, f.c) && AllLateGenuine(t.o, t.late, t.image, f.c)
    && Readable(t.ops)
    && var d := Interrupted(t).1;
       && !Starts(d, t.o, t.q)
       && BegunFile(d, t.o, t.q).fileLength == f.newLength && BegunFile(d, t.o, t.q).fileAddress == f.newAddress
  }

  /** If anything was reported as finished after the rejection, the memory holds the old file. */
  ghost predicate Kept(t: Story, f: Files)
    requires Readable(t.ops) && AllLateGenuine(t.o, t.late, t.image, f.c)
  {
    var (s, d) := Rejected(t);
    var (s', d') := LateRun(s, d, t.o, t.late, t.image, f.c);
    FinishedSince(d'.log, |d.log|) ==> Holds(d'.flash, f.address, t.image)
  }

  predicate FinishedSince(log: seq<Action>, from: nat) {
    exists i :: from <= i < |log| && log[i].Finish?
  }

  function OldCount(f: Files): nat { ChunkCount(f.length, f.c) }

  /** The new file in chunks of the old size, as the search for missing chunks counts them. */
  function NewCount(f: Files): nat { ChunkCount(f.newLength, f.c) % 0x1_0000 }

  /** The old file is empty; or the new one has at least as many chunks and the same address; or it has
      more, and the bitmap a bit to spare behind the old chunks. */
  predicate Harmless(f: Files) {
    || f.length == 0
    || (OldCount(f) <= NewCount(f)
        && (f.newAddress == f.address || (OldCount(f) < NewCount(f) && OldCount(f) % 8 != 0)))
  }

  // ---- It is kept ----------------------------------------------------------------------------

  /** The invariant after the rejection. Only chunks of the old file are flagged; at the same address
      they are right in memory; and a report means that all were flagged. */
  ghost predicate LateSound(s: Ota, d: Device, image: seq<byte>, f: Files, from: nat) {
    && s.chunkSize == f.c && s.file.fileLength == f.newLength && s.file.fileAddress == f.newAddress
    && f.c > 0 && |image| == f.length && f.address + |image| <= |d.flash|
    && s.received <= AllChunks(OldCount(f)) && from <= |d.log|
    && (f.newAddress == f.address ==>
          forall p :: 0 <= p < |image| && ChunkAt(p, f.c) in s.received ==> d.flash[f.address + p] == image[p])
    && (FinishedSince(d.log, from) ==> AllChunks(OldCount(f)) <= s.received && f.newAddress == f.address)
  }

  lemma LateChunkKeeps(s: Ota, d: Device, o: Oracle, q: seq<byte>, image: seq<byte>, f: Files, from: nat)
    requires LateSound(s, d, image, f, from) && Genuine(o, q, image, f.c)
    ensures var (s', d') := Apply(s, d, o, Chunk(q)); LateSound(s', d', image, f, from)
  {
    hide ChunkAt, ChunkCount, Slice, ParseOptions, Write, Apply, FinishedSince, LateSound, OnlySends;
    SoundIsForFiles(s, d, image, f, from);
    ChunkEffect(s, d, o, q);
    var (s', d') := Apply(s, d, o, Chunk(q));
    if s.updating != 0 && Accepted(o, q) && Parsed(q).value.index.value < MAX_CHUNKS {
      var idx := Parsed(q).value.index.value;
      var start := ChunkStart(image, f.c, idx);
      SavingKeeps(s, d, image, f, from, idx, start);
      LateSending(s.(received := s.received + {idx}), d.(flash := d'.flash), s', d', image, f, from);
    } else {
      LateSending(s, d, s', d', image, f, from);
    }
  }

  /** Saving a chunk of the old file, wherever it goes. */
  lemma SavingKeeps(s: Ota, d: Device, image: seq<byte>, f: Files, from: nat, idx: nat, start: nat)
    requires LateSound(s, d, image, f, from) && start <= |image| && idx < OldCount(f)
    requires forall p: nat :: ChunkAt(p, f.c) == idx <==> start <= p < start + f.c
    ensures var chunk := image[start..Min(start + f.c, |image|)];
            LateSound(s.(received := s.received + {idx}),
                      d.(flash := Write(d.flash, s.file.fileAddress + start, chunk)), image, f, from)
  {
    hide ChunkAt, ChunkCount, Write, FinishedSince;
    if f.newAddress == f.address {
      SavedInPlace(d.flash, f.address, image, f.c, s.received, idx, start);
    }
  }

  lemma LateSending(s: Ota, d: Device, s': Ota, d': Device, image: seq<byte>, f: Files, from: nat)
    requires LateSound(s, d, image, f, from) && OnlySends(d.log, d'.log) && d'.flash == d.flash
    requires s'.file.fileLength == s.file.fileLength && s'.file.fileAddress == s.file.fileAddress
    requires s'.chunkSize == s.chunkSize && s'.received == s.received
    ensures LateSound(s', d', image, f, from)
  {
    hide ChunkAt, ChunkCount, FinishedSince;
    NothingFinished(d.log, d'.log);
    FinishedSplit(d.log, d'.log, from);
  }

  lemma NothingFinished(before: seq<Action>, after: seq<Action>)
    requires OnlySends(before, after)
    ensures !FinishedSince(after, |before|)
  {
  }

  lemma FinishedSplit(before: seq<Action>, after: seq<Action>, from: nat)
    requires from <= |before| <= |after| && after[..|before|] == before
    ensures FinishedSince(after, from) <==> FinishedSince(before, from) || FinishedSince(after, |before|)
  {
    if i :| from <= i < |after| && after[i].Finish? {
      if i < |before| {
        assert before[i] == after[..|before|][i];
      }
    }
    if i :| from <= i < |before| && before[i].Finish? {
      assert after[..|before|][i] == after[i];
    }
  }

  /** What an UpdateDone reports: nothing while something it looks at is missing. */
  lemma DoneEffect(s: Ota, d: Device, o: Oracle, past: set<nat>)
    ensures var (s', d') := DoneReading(s, d, o, past);
            && s'.received == s.received && s'.chunkSize == s.chunkSize && d'.flash == d.flash
            && s'.file == s.file && |d.log| <= |d'.log| && d'.log[..|d.log|] == d.log
            && (FinishedSince(d'.log, |d.log|) <==> AllChunks(Chunks(s)) <= s.received + past)
  {
    hide ChunkCount, SendMissing;
    var s1 := s.(received := s.received + past);
    NoneMissingIff(s1.received, Chunks(s));
    var d1 := d.Sending(DoneAck(false));
    var s2 := s1.(updating := 2, flightCount := 0);
    SendMissingKeeps(s2, d1, o, ResendCount(s.flightCount));
    var (s', d') := DoneReading(s, d, o, past);
    if AllChunks(Chunks(s)) <= s.received + past {
      assert d'.log[|d.log|] == Finish(SUCCESS + VALIDATE_ONLY);
    }
  }

  lemma LateDoneKeeps(s: Ota, d: Device, o: Oracle, past: set<nat>, image: seq<byte>, f: Files, from: nat)
    requires LateSound(s, d, image, f, from) && Harmless(f) && f.length > 0
    requires forall i <- past :: i >= BitmapBits(OldCount(f))
    ensures var (s', d') := DoneReading(s, d, o, past); LateSound(s', d', image, f, from)
  {
    hide ChunkAt, ChunkCount, DoneReading;
    DoneEffect(s, d, o, past);
    var (s', d') := DoneReading(s, d, o, past);
    FinishedSplit(d.log, d'.log, from);
    if FinishedSince(d'.log, |d.log|) {
      AllFlagged(s.received, past, OldCount(f), NewCount(f));
    }
  }

  /** Nothing missing among the chunks looked at means that nothing of the old file is; and a spare bit
      of the bitmap is never set. */
  lemma AllFlagged(received: set<nat>, past: set<nat>, n: nat, n': nat)
    requires received <= AllChunks(n) && n <= n' && AllChunks(n') <= received + past
    requires forall i <- past :: i >= BitmapBits(n)
    ensures AllChunks(n) <= received && (n == n' || n % 8 == 0)
  {
    forall i | i in AllChunks(n)
      ensures i in received
    {
      assert i in AllChunks(n');
    }
    if n < n' {
      assert n in AllChunks(n');
    }
  }

  lemma {:induction false} LateRunKeeps(s: Ota, d: Device, o: Oracle, ls: seq<Late>, image: seq<byte>, f: Files, from: nat)
    requires LateSound(s, d, image, f, from) && Harmless(f) && f.length > 0 && AllLateGenuine(o, ls, image, f.c)
    ensures var (s', d') := LateRun(s, d, o, ls, image, f.c); LateSound(s', d', image, f, from)
  {
    if ls == [] {
    } else {
      hide LateSound, Harmless, Genuine, ChunkCount, Apply, DoneReading;
      var n := |ls| - 1;
      assert AllLateGenuine(o, ls[..n], image, f.c) && LateGenuine(o, ls[n], image, f.c);
      LateRunKeeps(s, d, o, ls[..n], image, f, from);
      var (s', d') := LateRun(s, d, o, ls[..n], image, f.c);
      SoundIsForFiles(s, d, image, f, from);
      match ls[n]
      case LateChunk(q) => LateChunkKeeps(s', d', o, q, image, f, from);
      case LateDone(past) => LateDoneKeeps(s', d', o, past, image, f, from);
    }
  }

  lemma SoundIsForFiles(s: Ota, d: Device, image: seq<byte>, f: Files, from: nat)
    requires LateSound(s, d, image, f, from)
    ensures |image| == f.length && s.chunkSize == f.c
  {
  }

  /** A run of genuine chunks flags only chunks of the file. */
  lemma {:induction false} RunFlagsInside(s: Ota, d: Device, o: Oracle, ops: seq<Op>, image: seq<byte>, c: nat)
    requires Readable(ops) && AllGenuine(o, ops, image, c) && s.chunkSize == c && ChunkCount(|image|, c) < MAX_CHUNKS
    requires s.received <= AllChunks(ChunkCount(|image|, c))
    ensures Run(s, d, o, ops).0.received <= AllChunks(ChunkCount(|image|, c))
    decreases |ops|
  {
    if ops == [] {
    } else {
      hide HandleChunk, HandleUpdateDone, ChunkCount, Genuine, Slice;
      var (s', d') := Apply(s, d, o, ops[0]);
      if ops[0].Chunk? {
        FlagsInside(s, d, o, ops[0].q, image, c);
      } else {
        DoneFlagsNothing(s, d, o);
      }
      RunFlagsInside(s', d', o, ops[1..], image, c);
    }
  }

  lemma FlagsInside(s: Ota, d: Device, o: Oracle, q: seq<byte>, image: seq<byte>, c: nat)
    requires Genuine(o, q, image, c) && s.chunkSize == c && s.received <= AllChunks(ChunkCount(|image|, c))
    ensures var (s', d') := Apply(s, d, o, Chunk(q));
            s'.received <= AllChunks(ChunkCount(|image|, c)) && s'.chunkSize == c
  {
    hide Apply, ChunkCount, Slice, ParseOptions, Write;
    ChunkEffect(s, d, o, q);
  }

  lemma DoneFlagsNothing(s: Ota, d: Device, o: Oracle)
    ensures var (s', d') := Apply(s, d, o, Done); s'.received == s.received && s'.chunkSize == s.chunkSize
  {
    hide SendMissing, ChunkCount;
    SendMissingKeeps(s.(updating := 2, flightCount := 0), d.Sending(DoneAck(false)), o, ResendCount(s.flightCount));
  }

  /** The state right after the rejection. */
  lemma RejectionIsSound(t: Story, f: Files)
    requires Told(t, f)
    ensures var (s, d) := Rejected(t); LateSound(s, d, t.image, f, |d.log|)
  {
    hide ChunkCount, ChunkAt, Genuine, Sound, Run, HandleUpdateBegin, Starts, BegunFile, Announces;
    BeginIsSound(t.s0, t.d0, t.o, t.begin, t.override, t.image);
    var (s, d, e) := HandleUpdateBegin(t.s0, t.d0, t.o, t.begin, t.override);
    RunKeepsSound(s, d, t.o, t.ops, t.image, |d.log|);
    AnnouncedCount(BegunFile(t.d0, t.o, t.begin), t.image, t.d0);
    RunFlagsInside(s, d, t.o, t.ops, t.image, f.c);
    var (s1, d1) := Interrupted(t);
    RejectedBeginOverwritesFile(s1, d1, t.o, t.q, t.override);
    SoundMeans(s1, d1, t.image, |d.log|);
  }

  lemma AnnouncedCount(b: Descriptor, image: seq<byte>, d: Device)
    requires Announces(b, image, d)
    ensures ChunkCount(|image|, b.chunkSize) < MAX_CHUNKS
  {
  }

  lemma SoundMeans(s: Ota, d: Device, image: seq<byte>, from: nat)
    requires Sound(s, d, image, from)
    ensures s.chunkSize > 0 && s.file.fileAddress + |image| <= |d.flash|
    ensures forall p :: 0 <= p < |image| && ChunkAt(p, s.chunkSize) in s.received ==> d.flash[s.file.fileAddress + p] == image[p]
  {
  }

  lemma HarmlessIsKept(t: Story, f: Files)
    requires Told(t, f) && Harmless(f)
    ensures Kept(t, f)
  {
    hide ChunkAt, LateSound, Told, ChunkCount, Harmless;
    ToldMeans(t, f);
    RejectionIsSound(t, f);
    var (s, d) := Rejected(t);
    if f.length == 0 {
      LateRunKeepsSize(s, d, t.o, t.late, t.image, f.c);
      SoundSize(s, d, t.image, f, |d.log|);
    } else {
      LateRunKeeps(s, d, t.o, t.late, t.image, f, |d.log|);
      var (s', d') := LateRun(s, d, t.o, t.late, t.image, f.c);
      if FinishedSince(d'.log, |d.log|) {
        FinishedIsWhole(s', d', t.image, f, |d.log|);
      }
    }
  }

  lemma ToldMeans(t: Story, f: Files)
    requires Told(t, f)
    ensures Readable(t.ops) && AllLateGenuine(t.o, t.late, t.image, f.c) && |t.image| == f.length
    ensures f.c > 0 && |t.image| + f.c <= 0x1_0000_0000 && ChunkCount(|t.image|, f.c) < MAX_CHUNKS
  {
    hide ChunkCount;
  }

  lemma SoundSize(s: Ota, d: Device, image: seq<byte>, f: Files, from: nat)
    requires LateSound(s, d, image, f, from)
    ensures f.address + |image| <= |d.flash| && |image| == f.length
  {
  }

  lemma {:induction false} LateRunKeepsSize(s: Ota, d: Device, o: Oracle, ls: seq<Late>, image: seq<byte>, c: nat)
    requires AllLateGenuine(o, ls, image, c)
    ensures |LateRun(s, d, o, ls, image, c).1.flash| == |d.flash|
  {
    if ls == [] {
    } else {
      hide Genuine, ChunkCount, Slice, Apply, DoneReading;
      var n := |ls| - 1;
      assert AllLateGenuine(o, ls[..n], image, c) && LateGenuine(o, ls[n], image, c);
      LateRunKeepsSize(s, d, o, ls[..n], image, c);
      var (s', d') := LateRun(s, d, o, ls[..n], image, c);
      match ls[n]
      case LateChunk(q) => ChunkKeepsSize(s', d', o, q, image, c);
      case LateDone(past) => DoneEffect(s', d', o, past);
    }
  }

  lemma ChunkKeepsSize(s: Ota, d: Device, o: Oracle, q: seq<byte>, image: seq<byte>, c: nat)
    requires Genuine(o, q, image, c)
    ensures |Apply(s, d, o, Chunk(q)).1.flash| == |d.flash|
  {
    hide Apply, ChunkCount, Slice, ParseOptions;
    ChunkEffect(s, d, o, q);
  }

  lemma FinishedIsWhole(s: Ota, d: Device, image: seq<byte>, f: Files, from: nat)
    requires LateSound(s, d, image, f, from) && FinishedSince(d.log, from)
    requires |image| + f.c <= 0x1_0000_0000
    ensures Holds(d.flash, f.address, image)
  {
    hide ChunkAt, ChunkCount;
    forall p | 0 <= p < |image| ensures d.flash[f.address + p] == image[p] {
      ByteInFile(|image|, f.c, p);
      assert ChunkAt(p, f.c) in AllChunks(OldCount(f));
    }
  }

  // ---- It is not kept ------------------------------------------------------------------------

  function Bytes16(n: nat): seq<byte>
    requires n < 0x1_0000
  {
    [n / 256, n % 256]
  }

  /** An UpdateBegin of twenty bytes that asks for a fast transfer. */
  function BeginMessage(c: nat, length: nat, address: nat): seq<byte>
    requires c < 0x1_0000 && length < 0x1_0000_0000 && address < 0x1_0000_0000
  {
    [0x41, 0x02, 0, 0, 0, 0xb1, 0x75, 0xff, 1] + Bytes16(c) + Bytes32(length) + [0] + Bytes32(address)
  }

  lemma BeginMessageReads(c: nat, length: nat, address: nat)
    requires c < 0x1_0000 && length < 0x1_0000_0000 && address < 0x1_0000_0000
    ensures var q := BeginMessage(c, length, address);
            |q| == 20 && BeginFile(q) == Descriptor(c, length, 0, address, address) && BeginFast(q, None)
  {
    var q := BeginMessage(c, length, address);
    var head: seq<byte> := [0x41, 0x02, 0, 0, 0, 0xb1, 0x75, 0xff, 1];
    assert q[..9] == head;
    assert q[9] == c / 256 && q[10] == c % 256 && q[15] == 0;
    assert Decode16(q, 9) == c;
    Decode32OfBytes(q, 11, length);
    Decode32OfBytes(q, 16, address);
    assert q[7] == head[7] && q[8] == head[8];
  }

  function Zeros(n: nat): (r: seq<byte>)
    ensures |r| == n && forall i :: 0 <= i < n ==> r[i] == 0
  {
    seq(n, _ => 0)
  }

  /** A file of zeros with a one at the end. */
  function LastIsOne(n: nat): (r: seq<byte>)
    ensures |r| == n && forall i :: 0 <= i < n ==> r[i] == if i == n - 1 then 1 else 0
  {
    seq(n, i => if i == n - 1 then 1 else 0)
  }

  /** Everything is sent and every checksum is 0. The first three preparations succeed and leave the
      descriptor alone, so that the second file is refused for its number of chunks or when it is
      really prepared for. */
  const PLAIN: Oracle := Oracle(_ => NoError, (k: nat, f: Descriptor) => Prepared(k < 3, f), _ => 0)

  const IDLE: Ota := Ota(0, Descriptor(0, 0, 0, 0, 0), 0, 0, 0, 0, {})

  function ChunkOf(image: seq<byte>, c: nat, i: nat): seq<byte>
    requires c > 0 && i * c <= |image| && i < 0x1_0000
  {
    ChunkMessage(Zeros(7), 0, i, Slice(image, c, i))
  }

  lemma ChunkOfIsGenuine(image: seq<byte>, c: nat, i: nat)
    requires c > 0 && |image| + c <= 0x1_0000_0000 && i < ChunkCount(|image|, c) < MAX_CHUNKS
    ensures i * c <= |image|
    ensures var q := ChunkOf(image, c, i);
            && Genuine(PLAIN, q, image, c) && Accepted(PLAIN, q)
            && Parsed(q) == Some(Options(0, Some(i), 15)) && q[16..] == Slice(image, c, i)
  {
    hide ChunkCount, ParseOptions, Slice;
    ChunkInFile(|image|, c, i);
    ChunkMessageParses(Zeros(7), 0, i, Slice(image, c, i));
  }

  /** The first `k` chunks of the file. */
  ghost function FirstChunks(image: seq<byte>, c: nat, k: nat): (r: seq<Late>)
    requires c > 0 && |image| + c <= 0x1_0000_0000 && k <= ChunkCount(|image|, c) < MAX_CHUNKS
    ensures |r| == k && AllLateGenuine(PLAIN, r, image, c)
  {
    if k == 0 then []
    else
      ChunkOfIsGenuine(image, c, k - 1);
      FirstChunks(image, c, k - 1) + [LateChunk(ChunkOf(image, c, k - 1))]
  }

  /** After the first `k` chunks went to another place: exactly they are flagged, and the only byte of
      the memory that can be set is where the last byte of the file went. */
  lemma {:induction false} FirstChunksLand(s: Ota, d: Device, f: Files, k: nat)
    requires Proper(f) && f.length > 0 && k <= OldCount(f)
    requires s.updating != 0 && s.chunkSize == f.c && s.received == {} && s.file.fileAddress == f.newAddress
    requires d.flash == Zeros(|d.flash|)
    ensures var image := LastIsOne(f.length);
            var (s', d') := LateRun(s, d, PLAIN, FirstChunks(image, f.c, k), image, f.c);
            && s'.received == AllChunks(k) && s'.updating != 0 && s'.chunkSize == f.c && d'.sent == d.sent
            && s'.file.fileAddress == f.newAddress && s'.file.fileLength == s.file.fileLength
            && |d'.flash| == |d.flash| && d'.log == d.log && d'.prepared == d.prepared
            && forall p :: 0 <= p < |d'.flash| && d'.flash[p] != 0 ==> k == OldCount(f) && p == f.newAddress + f.length - 1
  {
    hide ChunkCount, Genuine, Apply, Slice, Write, ParseOptions, ChunkOf, Accepted;
    var image := LastIsOne(f.length);
    var ls := FirstChunks(image, f.c, k);
    if k == 0 {
      assert ls == [] && AllChunks(0) == {};
    } else {
      var i := k - 1;
      ChunkOfIsGenuine(image, f.c, i);
      var q := ChunkOf(image, f.c, i);
      assert ls == FirstChunks(image, f.c, i) + [LateChunk(q)];
      assert ls[..i] == FirstChunks(image, f.c, i) && ls[i] == LateChunk(q);
      FirstChunksLand(s, d, f, i);
      var (s1, d1) := LateRun(s, d, PLAIN, ls[..i], image, f.c);
      FastSendsNothing(s1, d1, PLAIN, q);
      ChunkEffect(s1, d1, PLAIN, q);
      LastChunkHoldsOne(f, i);
      var (s2, d2) := Apply(s1, d1, PLAIN, Chunk(q));
      assert AllChunks(k) == AllChunks(i) + {i};
      LandsThere(f, i, d1.flash, d2.flash);
    }
  }

  lemma FastSendsNothing(s: Ota, d: Device, o: Oracle, q: seq<byte>)
    requires Parsed(q).Some? && Parsed(q).value.index.Some?
    ensures var (s', d') := Apply(s, d, o, Chunk(q));
            d'.log == d.log && d'.sent == d.sent && d'.prepared == d.prepared && s'.updating == s.updating
  {
    hide ParseOptions;
  }

  /** The one lies in the last chunk. */
  lemma LastChunkHoldsOne(f: Files, i: nat)
    requires Proper(f) && f.length > 0 && i < OldCount(f)
    ensures i * f.c <= f.length
    ensures i + 1 < OldCount(f) ==> i * f.c + f.c < f.length
  {
    hide ChunkCount;
    ChunkInFile(f.length, f.c, i);
    if i + 1 < OldCount(f) {
      ChunkInFile(f.length, f.c, i + 1);
      MulLe(i, i + 1, f.c);
    }
  }

  lemma LandsThere(f: Files, i: nat, before: seq<byte>, after: seq<byte>)
    requires f.c > 0 && f.length > 0 && i < OldCount(f) && i * f.c <= f.length
    requires i + 1 < OldCount(f) ==> i * f.c + f.c < f.length
    requires forall p :: 0 <= p < |before| ==> before[p] == 0
    requires after == Write(before, f.newAddress + i * f.c, Slice(LastIsOne(f.length), f.c, i))
    ensures forall p :: 0 <= p < |after| && after[p] != 0 ==> i + 1 == OldCount(f) && p == f.newAddress + f.length - 1
  {
    hide ChunkCount;
    var start := i * f.c;
    var chunk := Slice(LastIsOne(f.length), f.c, i);
    forall p | 0 <= p < |after| && after[p] != 0
      ensures i + 1 == OldCount(f) && p == f.newAddress + f.length - 1
    {
      var x := p - (f.newAddress + start);
      assert 0 <= x < |chunk| && after[p] == chunk[x] == LastIsOne(f.length)[start + x];
    }
  }

  /** The bits behind the old chunks that the search for missing chunks looks at. */
  ghost function BitsBehind(f: Files): set<nat> {
    AllChunks(NewCount(f)) - AllChunks(OldCount(f))
  }

  lemma BitsLieBehind(f: Files)
    requires !Harmless(f)
    ensures forall i <- BitsBehind(f) :: i >= BitmapBits(OldCount(f))
  {
    hide ChunkCount;
  }

  lemma AppendGenuine(o: Oracle, ls: seq<Late>, l: Late, image: seq<byte>, c: nat)
    requires AllLateGenuine(o, ls, image, c) && LateGenuine(o, l, image, c)
    ensures AllLateGenuine(o, ls + [l], image, c)
  {
    hide LateGenuine;
  }

  /** The chunks of the file that the search after the rejection looks at, and an UpdateDone that finds
      the bits behind them set. */
  ghost function MisleadingMessages(f: Files): (r: seq<Late>)
    requires Proper(f) && !Harmless(f)
    ensures AllLateGenuine(PLAIN, r, LastIsOne(f.length), f.c)
  {
    var image := LastIsOne(f.length);
    var ls := FirstChunks(image, f.c, Min(OldCount(f), NewCount(f)));
    var done := LateDone(BitsBehind(f));
    BitsLieBehind(f);
    AppendGenuine(PLAIN, ls, done, image, f.c);
    ls + [done]
  }

  ghost function Misleading(f: Files): (t: Story)
    requires Proper(f) && !Harmless(f)
    ensures Readable(t.ops) && |t.image| == f.length && AllLateGenuine(t.o, t.late, t.image, f.c)
  {
    Story(IDLE, Device(Zeros(f.address + f.length), 0, 0, []), PLAIN, BeginMessage(f.c, f.length, f.address), None, [],
          BeginMessage(1, f.newLength, f.newAddress), MisleadingMessages(f), LastIsOne(f.length))
  }

  /** Whenever the files are not harmless: an accepted UpdateBegin of twenty bytes, a rejected one of
      twenty bytes, intact chunks and an UpdateDone, after which success is reported for a file that is
      not there. */
  lemma RejectedBeginBreaksSafety(f: Files)
    requires Proper(f) && !Harmless(f)
    ensures var t := Misleading(f);
            && Told(t, f) && !Kept(t, f) && |t.begin| == 20 && |t.q| == 20
  {
    hide ChunkCount, Genuine, LateRun, DoneReading, FirstChunks;
    var t := Misleading(f);
    MisleadingIsTold(f);
    var (s, d) := Rejected(t);
    MisleadingRejected(f);
    var k, past := Min(OldCount(f), NewCount(f)), BitsBehind(f);
    var ls := FirstChunks(t.image, f.c, k);
    assert t.late == ls + [LateDone(past)];
    FirstChunksLand(s, d, f, k);
    var (s1, d1) := LateRun(s, d, PLAIN, ls, t.image, f.c);
    LateRunStep(s, d, PLAIN, ls, LateDone(past), t.image, f.c);
    DoneEffect(s1, d1, PLAIN, past);
    assert AllChunks(NewCount(f)) <= s1.received + past;
    FinishedSplit(d1.log, LateRun(s, d, PLAIN, t.late, t.image, f.c).1.log, |d.log|);
    NotThere(d1.flash, f);
  }

  lemma LateRunStep(s: Ota, d: Device, o: Oracle, ls: seq<Late>, l: Late, image: seq<byte>, c: nat)
    requires AllLateGenuine(o, ls + [l], image, c) && AllLateGenuine(o, ls, image, c) && l.LateDone?
    ensures var (s', d') := LateRun(s, d, o, ls, image, c);
            LateRun(s, d, o, ls + [l], image, c) == DoneReading(s', d', o, l.past)
  {
    hide Genuine, DoneReading;
    assert (ls + [l])[..|ls|] == ls;
  }

  lemma NotThere(flash: seq<byte>, f: Files)
    requires f.length > 0 && |flash| >= f.address + f.length
    requires flash[f.address + f.length - 1] == 0
    ensures !Holds(flash, f.address, LastIsOne(f.length))
  {
    assert flash[f.address..f.address + f.length][f.length - 1] == flash[f.address + f.length - 1];
    assert LastIsOne(f.length)[f.length - 1] == 1;
  }

  lemma MisleadingIsTold(f: Files)
    requires Proper(f) && !Harmless(f)
    ensures Told(Misleading(f), f)
  {
    hide ChunkCount, MisleadingMessages, Genuine, BeginFile, BeginFast, BeginMessage;
    BeginMessageReads(f.c, f.length, f.address);
    BeginMessageReads(1, f.newLength, f.newAddress);
  }

  /** What the rejection leaves of that transfer. */
  lemma MisleadingRejected(f: Files)
    requires Proper(f) && !Harmless(f)
    ensures var (s, d) := Rejected(Misleading(f));
            && s.updating == 1 && s.chunkSize == f.c && s.received == {}
            && s.file.fileAddress == f.newAddress && s.file.fileLength == f.newLength
            && d.flash == Zeros(f.address + f.length)
  {
    hide ChunkCount, MisleadingMessages, Genuine, BeginFile, BeginFast, BeginMessage;
    BeginMessageReads(f.c, f.length, f.address);
    BeginMessageReads(1, f.newLength, f.newAddress);
  }

  /** After every rejected UpdateBegin in a fast transfer, and whatever follows: a report means that the
      old file is in memory, for every such story, exactly if the numbers of the two files are
      harmless. */
  lemma RejectedBeginSafeIff(f: Files)
    requires Proper(f)
    ensures (forall t: Story :: Told(t, f) ==> Kept(t, f)) <==> Harmless(f)
  {
    hide Told, Kept, Harmless, Misleading;
    if Harmless(f) {
      forall t: Story | Told(t, f)
        ensures Readable(t.ops) && AllLateGenuine(t.o, t.late, t.image, f.c) && Kept(t, f)
      {
        ToldMeans(t, f);
        HarmlessIsKept(t, f);
      }
    } else {
      RejectedBeginBreaksSafety(f);
      assert !Kept(Misleading(f), f);
    }
  }
}
