/** Any number of rejected UpdateBegins in the middle of a transfer, with messages between them: when a
    reported success still means that the old file is in memory. */
module OtaRejections {
  import opened Basics
  import opened ChunkBitmap
  import opened OtaModel
  import opened OtaSafety
  import opened OtaRejected

  // ---- What is told --------------------------------------------------------------------------

  /** The numbers of a file an UpdateBegin was rejected for. */
  datatype New = New(length: nat, address: nat)

  /** The old file, and the files rejected one after the other. */
  datatype Many = Many(length: nat, c: nat, address: nat, news: seq<New>)
  {
    function At(i: nat): Files
      requires i < |news|
    {
      Files(length, c, address, news[i].length, news[i].address)
    }

    function Chunks(): nat { ChunkCount(length, c) }
  }

  predicate ProperMany(m: Many) {
    && Proper(Files(m.length, m.c, m.address, 0, 0))
    && forall i :: 0 <= i < |m.news| ==> Proper(m.At(i))
  }

  /** A rejected UpdateBegin, and the messages up to the next. */
  datatype Chapter = Chapter(q: seq<byte>, late: seq<Late>)

  ghost predicate AllGenuineIn(o: Oracle, chapters: seq<Chapter>, image: seq<byte>, c: nat) {
    forall k :: 0 <= k < |chapters| ==> AllLateGenuine(o, chapters[k].late, image, c)
  }

  ghost function ChapterRun(s: Ota, d: Device, o: Oracle, override: Option<bool>, ch: Chapter, image: seq<byte>, c: nat)
    : (Ota, Device)
    requires AllLateGenuine(o, ch.late, image, c)
  {
    var (s1, d1, e) := HandleUpdateBegin(s, d, o, ch.q, override);
    LateRun(s1, d1, o, ch.late, image, c)
  }

  ghost function AllChapters(s: Ota, d: Device, o: Oracle, override: Option<bool>, chapters: seq<Chapter>,
                             image: seq<byte>, c: nat): (Ota, Device)
    requires AllGenuineIn(o, chapters, image, c)
    decreases |chapters|
  {
    if chapters == [] then (s, d)
    else
      var n := |chapters| - 1;
      var (s1, d1) := AllChapters(s, d, o, override, chapters[..n], image, c);
      ChapterRun(s1, d1, o, override, chapters[n], image, c)
  }

  ghost predicate RejectedAs(d: Device, o: Oracle, q: seq<byte>, f: New) {
    !Starts(d, o, q) && BegunFile(d, o, q).fileLength == f.length && BegunFile(d, o, q).fileAddress == f.address
  }

  /** Each chapter begins with an UpdateBegin that is rejected for the file of its place. */
  ghost predicate AllRejected(s: Ota, d: Device, o: Oracle, override: Option<bool>, chapters: seq<Chapter>,
                              image: seq<byte>, c: nat, news: seq<New>)
    requires AllGenuineIn(o, chapters, image, c)
    decreases |chapters|
  {
    |chapters| == |news| &&
    (chapters == [] ||
     var n := |chapters| - 1;
     && AllRejected(s, d, o, override, chapters[..n], image, c, news[..n])
     && RejectedAs(AllChapters(s, d, o, override, chapters[..n], image, c).1, o, chapters[n].q, news[n]))
  }

  /** An accepted UpdateBegin of a fast transfer of `image`, some messages, and the chapters. */
  datatype Tale = Tale(
    s0: Ota, d0: Device, o: Oracle, begin: seq<byte>, override: Option<bool>, ops: seq<Op>,
    chapters: seq<Chapter>, image: seq<byte>)

  ghost function BeforeRejections(t: Tale): (Ota, Device)
    requires Readable(t.ops)
  {
    var (s, d, e) := HandleUpdateBegin(t.s0, t.d0, t.o, t.begin, t.override);
    Run(s, d, t.o, t.ops)
  }

  ghost predicate ToldOf(t: Tale, m: Many) {
    && m.c > 0 && |t.image| == m.length
    && Starts(t.d0, t.o, t.begin) && BeginFast(t.begin, t.override)
    && Announces(BegunFile(t.d0, t.o, t.begin), t.image, t.d0)
    && BegunFile(t.d0, t.o, t.begin).chunkSize == m.c && BegunFile(t.d0, t.o, t.begin).fileAddress == m.address
    && AllGenuine(t.o, t.ops, t.image, m.c) && Readable(t.ops) && AllGenuineIn(t.o, t.chapters, t.image, m.c)
    && var (s, d) := BeforeRejections(t);
       AllRejected(s, d, t.o, t.override, t.chapters, t.image, m.c, m.news)
  }

  predicate Succeeded(log: seq<Action>, from: nat) {
    exists i :: from <= i < |log| && log[i] == Finish(SUCCESS)
  }

  /** If success was reported after the first rejection, the memory holds the old file. */
  ghost predicate KeptIn(t: Tale, m: Many)
    requires Readable(t.ops) && AllGenuineIn(t.o, t.chapters, t.image, m.c)
  {
    var (s, d) := BeforeRejections(t);
    var (s', d') := AllChapters(s, d, t.o, t.override, t.chapters, t.image, m.c);
    Succeeded(d'.log, |d.log|) ==> Holds(d'.flash, m.address, t.image)
  }

  // ---- The condition -------------------------------------------------------------------------

  /** With all chunks of the old file in, the search for missing chunks may end while file `i` is the
      current one: the file has no more chunks, or the bitmap no bit to spare. */
  predicate CanReport(m: Many, i: nat)
    requires i < |m.news|
  {
    NewCount(m.At(i)) <= m.Chunks() || m.Chunks() % 8 == 0
  }

  /** The old file is empty; or no new file has fewer chunks, and every file up to one that can be
      reported has the old address. */
  predicate AllHarmless(m: Many) {
    || m.length == 0
    || ((forall i :: 0 <= i < |m.news| ==> m.Chunks() <= NewCount(m.At(i)))
        && forall i, j :: 0 <= j <= i < |m.news| && CanReport(m, i) ==> m.news[j].address == m.address)
  }

  // ---- It is kept ----------------------------------------------------------------------------

  /** After `p` rejections. Only chunks of the old file are flagged; as long as no address differed they
      are right in memory; and after a success nothing more is written, and the memory holds the file. */
  ghost predicate SoundAfter(s: Ota, d: Device, image: seq<byte>, m: Many, p: nat, from: nat) {
    && p <= |m.news| && s.chunkSize == m.c && m.c > 0 && |image| == m.length && m.address + |image| <= |d.flash|
    && (p > 0 ==> s.file.fileLength == m.news[p - 1].length && s.file.fileAddress == m.news[p - 1].address)
    && s.received <= AllChunks(m.Chunks()) && from <= |d.log|
    && ((forall j :: 0 <= j < p ==> m.news[j].address == m.address) ==> RightIn(d.flash, m, image, s.received))
    && (Succeeded(d.log, from) ==> s.updating == 0 && Holds(d.flash, m.address, image))
  }

  /** The chunks of the set are in memory at the old address. */
  ghost predicate RightIn(flash: seq<byte>, m: Many, image: seq<byte>, received: set<nat>) {
    && m.c > 0 && m.address + |image| <= |flash|
    && forall p :: 0 <= p < |image| && ChunkAt(p, m.c) in received ==> flash[m.address + p] == image[p]
  }

  lemma SuccessSplit(before: seq<Action>, after: seq<Action>, from: nat)
    requires from <= |before| <= |after| && after[..|before|] == before
    ensures Succeeded(after, from) <==> Succeeded(before, from) || Succeeded(after, |before|)
  {
    if i :| from <= i < |after| && after[i] == Finish(SUCCESS) {
      if i < |before| {
        assert before[i] == after[..|before|][i];
      }
    }
    if i :| from <= i < |before| && before[i] == Finish(SUCCESS) {
      assert after[..|before|][i] == after[i];
    }
  }

  lemma SendsAreNoSuccess(before: seq<Action>, after: seq<Action>, from: nat)
    requires OnlySends(before, after) && from <= |before|
    ensures Succeeded(after, from) <==> Succeeded(before, from)
  {
    SuccessSplit(before, after, from);
  }

  lemma NothingWhenIdle(s: Ota, d: Device, o: Oracle, q: seq<byte>)
    requires Parsed(q).Some?
    ensures Apply(s, d, o, Chunk(q)).0.updating == s.updating
    ensures s.updating == 0 ==> Apply(s, d, o, Chunk(q)).1.flash == d.flash
  {
    hide ParseOptions, Write;
  }

  lemma ChunkKeeps(s: Ota, d: Device, o: Oracle, q: seq<byte>, image: seq<byte>, m: Many, p: nat, from: nat)
    requires SoundAfter(s, d, image, m, p, from) && p > 0 && Genuine(o, q, image, m.c)
    ensures var (s', d') := Apply(s, d, o, Chunk(q)); SoundAfter(s', d', image, m, p, from)
  {
    hide ChunkAt, ChunkCount, Slice, ParseOptions, Write, Apply, Succeeded, RightIn, Holds, OnlySends;
    ChunkEffect(s, d, o, q);
    NothingWhenIdle(s, d, o, q);
    var (s', d') := Apply(s, d, o, Chunk(q));
    SendsAreNoSuccess(d.log, d'.log, from);
    LogGrew(d.log, d'.log);
    if s.updating != 0 && Accepted(o, q) && Parsed(q).value.index.value < MAX_CHUNKS {
      var idx := Parsed(q).value.index.value;
      var start := ChunkStart(image, m.c, idx);
      if forall j :: 0 <= j < p ==> m.news[j].address == m.address {
        assert m.news[p - 1].address == m.address;
        RightAfterSaving(d.flash, m, image, s.received, idx, start);
      }
    }
  }

  lemma LogGrew(before: seq<Action>, after: seq<Action>)
    requires OnlySends(before, after)
    ensures |before| <= |after|
  {
  }

  lemma RightAfterSaving(flash: seq<byte>, m: Many, image: seq<byte>, received: set<nat>, idx: nat, start: nat)
    requires RightIn(flash, m, image, received) && start <= |image|
    requires forall p: nat :: ChunkAt(p, m.c) == idx <==> start <= p < start + m.c
    ensures var after := Write(flash, m.address + start, image[start..Min(start + m.c, |image|)]);
            RightIn(after, m, image, received + {idx})
  {
    hide ChunkAt;
    SavedInPlace(flash, m.address, image, m.c, received, idx, start);
  }

  /** What an UpdateDone does to a report of success. */
  lemma DoneSucceeds(s: Ota, d: Device, o: Oracle, past: set<nat>)
    ensures var (s', d') := DoneReading(s, d, o, past);
            && s'.received == s.received && s'.chunkSize == s.chunkSize && s'.file == s.file && d'.flash == d.flash
            && |d.log| <= |d'.log| && d'.log[..|d.log|] == d.log
            && (s.updating == 0 ==> s'.updating == 0 && !Succeeded(d'.log, |d.log|))
            && (Succeeded(d'.log, |d.log|) ==> s'.updating == 0 && AllChunks(Chunks(s)) <= s.received + past)
  {
    hide ChunkCount, SendMissing;
    NoneMissingIff(s.received + past, Chunks(s));
    var s1 := s.(received := s.received + past, updating := 2, flightCount := 0);
    SendMissingKeeps(s1, d.Sending(DoneAck(false)), o, ResendCount(s.flightCount));
    DoneEffect(s, d, o, past);
  }

  lemma DoneKeeps(s: Ota, d: Device, o: Oracle, past: set<nat>, image: seq<byte>, m: Many, p: nat, from: nat)
    requires SoundAfter(s, d, image, m, p, from) && p > 0 && AllHarmless(m) && m.length + m.c <= 0x1_0000_0000
    requires forall i <- past :: i >= BitmapBits(m.Chunks())
    ensures var (s', d') := DoneReading(s, d, o, past); SoundAfter(s', d', image, m, p, from)
  {
    hide ChunkAt, ChunkCount, DoneReading, Succeeded, RightIn, Holds;
    DoneSucceeds(s, d, o, past);
    var (s', d') := DoneReading(s, d, o, past);
    SuccessSplit(d.log, d'.log, from);
    if Succeeded(d'.log, |d.log|) {
      if m.length == 0 {
        EmptyIsHeld(d.flash, m.address, image);
      } else {
        assert m.Chunks() <= NewCount(m.At(p - 1));
        AllFlagged(s.received, past, m.Chunks(), NewCount(m.At(p - 1)));
        assert CanReport(m, p - 1);
        WholeIsHeld(d.flash, m, image, s.received);
      }
    }
  }

  lemma EmptyIsHeld(flash: seq<byte>, a: nat, image: seq<byte>)
    requires image == [] && a <= |flash|
    ensures Holds(flash, a, image)
  {
  }

  lemma WholeIsHeld(flash: seq<byte>, m: Many, image: seq<byte>, received: set<nat>)
    requires RightIn(flash, m, image, received) && AllChunks(m.Chunks()) <= received && |image| == m.length
    requires m.length + m.c <= 0x1_0000_0000
    ensures Holds(flash, m.address, image)
  {
    hide ChunkAt, ChunkCount;
    forall p | 0 <= p < |image| ensures flash[m.address + p] == image[p] {
      ByteInFile(|image|, m.c, p);
      assert ChunkAt(p, m.c) in AllChunks(m.Chunks());
    }
  }

  lemma {:induction false} LateKeeps(s: Ota, d: Device, o: Oracle, ls: seq<Late>, image: seq<byte>, m: Many, p: nat, from: nat)
    requires SoundAfter(s, d, image, m, p, from) && p > 0 && AllHarmless(m) && m.length + m.c <= 0x1_0000_0000
    requires AllLateGenuine(o, ls, image, m.c)
    ensures var (s', d') := LateRun(s, d, o, ls, image, m.c); SoundAfter(s', d', image, m, p, from)
  {
    if ls == [] {
    } else {
      hide SoundAfter, AllHarmless, Genuine, ChunkCount, Apply, DoneReading;
      var n := |ls| - 1;
      assert AllLateGenuine(o, ls[..n], image, m.c) && LateGenuine(o, ls[n], image, m.c);
      LateKeeps(s, d, o, ls[..n], image, m, p, from);
      var (s', d') := LateRun(s, d, o, ls[..n], image, m.c);
      SizeOfImage(s, d, image, m, p, from);
      match ls[n]
      case LateChunk(q) => ChunkKeeps(s', d', o, q, image, m, p, from);
      case LateDone(past) => DoneKeeps(s', d', o, past, image, m, p, from);
    }
  }

  lemma SizeOfImage(s: Ota, d: Device, image: seq<byte>, m: Many, p: nat, from: nat)
    requires SoundAfter(s, d, image, m, p, from)
    ensures |image| == m.length && m.c > 0
  {
  }

  /** A rejection opens the next chapter. */
  lemma RejectionKeeps(s: Ota, d: Device, o: Oracle, q: seq<byte>, override: Option<bool>, image: seq<byte>,
                       m: Many, p: nat, from: nat)
    requires SoundAfter(s, d, image, m, p, from) && p < |m.news| && RejectedAs(d, o, q, m.news[p])
    ensures var (s', d', e) := HandleUpdateBegin(s, d, o, q, override); SoundAfter(s', d', image, m, p + 1, from)
  {
    hide HandleUpdateBegin, Starts, BegunFile, ChunkCount, Holds, RightIn, Succeeded;
    RejectedBeginOverwritesFile(s, d, o, q, override);
    RejectionOnlySends(s, d, o, q, override);
    var (s', d', e) := HandleUpdateBegin(s, d, o, q, override);
    SendsAreNoSuccess(d.log, d'.log, from);
    if forall j :: 0 <= j < p + 1 ==> m.news[j].address == m.address {
      assert forall j :: 0 <= j < p ==> m.news[j].address == m.address;
    }
  }

  lemma RejectionOnlySends(s: Ota, d: Device, o: Oracle, q: seq<byte>, override: Option<bool>)
    requires !Starts(d, o, q)
    ensures var (s', d', e) := HandleUpdateBegin(s, d, o, q, override); OnlySends(d.log, d'.log)
  {
    hide BeginFile, ChunkCount;
  }

  lemma {:induction false} ChaptersKeep(s: Ota, d: Device, o: Oracle, override: Option<bool>, chapters: seq<Chapter>,
                                        image: seq<byte>, m: Many, from: nat)
    requires SoundAfter(s, d, image, m, 0, from) && AllHarmless(m) && m.length + m.c <= 0x1_0000_0000
    requires |chapters| <= |m.news| && AllGenuineIn(o, chapters, image, m.c)
    requires AllRejected(s, d, o, override, chapters, image, m.c, m.news[..|chapters|])
    ensures var (s', d') := AllChapters(s, d, o, override, chapters, image, m.c);
            SoundAfter(s', d', image, m, |chapters|, from)
    decreases |chapters|
  {
    if chapters == [] {
    } else {
      hide SoundAfter, AllHarmless, LateRun, HandleUpdateBegin, AllLateGenuine, RejectedAs;
      var n := |chapters| - 1;
      assert m.news[..n + 1][..n] == m.news[..n];
      ChaptersKeep(s, d, o, override, chapters[..n], image, m, from);
      var (s1, d1) := AllChapters(s, d, o, override, chapters[..n], image, m.c);
      RejectionKeeps(s1, d1, o, chapters[n].q, override, image, m, n, from);
      var (s2, d2, e) := HandleUpdateBegin(s1, d1, o, chapters[n].q, override);
      LateKeeps(s2, d2, o, chapters[n].late, image, m, n + 1, from);
    }
  }

  lemma BeforeIsSound(t: Tale, m: Many)
    requires ToldOf(t, m)
    ensures var (s, d) := BeforeRejections(t); SoundAfter(s, d, t.image, m, 0, |d.log|)
  {
    hide ChunkCount, ChunkAt, Genuine, Sound, Run, HandleUpdateBegin, Starts, BegunFile, Announces, Holds;
    BeginIsSound(t.s0, t.d0, t.o, t.begin, t.override, t.image);
    var (s, d, e) := HandleUpdateBegin(t.s0, t.d0, t.o, t.begin, t.override);
    RunKeepsSound(s, d, t.o, t.ops, t.image, |d.log|);
    AnnouncedCount(BegunFile(t.d0, t.o, t.begin), t.image, t.d0);
    RunFlagsInside(s, d, t.o, t.ops, t.image, m.c);
    var (s1, d1) := BeforeRejections(t);
    SoundMeans(s1, d1, t.image, |d.log|);
  }

  lemma ToldOfMeans(t: Tale, m: Many)
    requires ToldOf(t, m)
    ensures Readable(t.ops) && AllGenuineIn(t.o, t.chapters, t.image, m.c) && |t.chapters| == |m.news|
    ensures m.length + m.c <= 0x1_0000_0000
    ensures var (s, d) := BeforeRejections(t);
            AllRejected(s, d, t.o, t.override, t.chapters, t.image, m.c, m.news[..|t.chapters|])
  {
    hide ChunkCount, AllGenuineIn, BeforeRejections;
    assert m.news[..|m.news|] == m.news;
  }

  lemma AllHarmlessIsKept(t: Tale, m: Many)
    requires ToldOf(t, m) && AllHarmless(m)
    ensures KeptIn(t, m)
  {
    hide ToldOf, AllHarmless, SoundAfter, AllRejected, BeforeRejections, AllChapters, AllGenuineIn;
    ToldOfMeans(t, m);
    BeforeIsSound(t, m);
    var (s, d) := BeforeRejections(t);
    ChaptersKeep(s, d, t.o, t.override, t.chapters, t.image, m, |d.log|);
    var (s', d') := AllChapters(s, d, t.o, t.override, t.chapters, t.image, m.c);
    SuccessIsTrue(s', d', t.image, m, |t.chapters|, |d.log|);
  }

  lemma SuccessIsTrue(s: Ota, d: Device, image: seq<byte>, m: Many, p: nat, from: nat)
    requires SoundAfter(s, d, image, m, p, from)
    ensures Succeeded(d.log, from) ==> Holds(d.flash, m.address, image)
  {
    hide RightIn, Holds, Succeeded;
  }

  // ---- It is not kept ------------------------------------------------------------------------

  /** While file `i` is the current one a success can be reported that is not true: there are chunks of
      the old file that are not looked at; or all are in, but went to the address of file `j`. */
  ghost predicate Breaks(m: Many, i: nat, j: nat) {
    && m.length > 0 && j <= i < |m.news|
    && if NewCount(m.At(i)) < m.Chunks() then j == i else CanReport(m, i) && m.news[j].address != m.address
  }

  lemma BreaksReports(m: Many, i: nat, j: nat)
    requires Breaks(m, i, j)
    ensures j <= i < |m.news| && CanReport(m, i)
  {
    hide ChunkCount;
  }

  lemma NotHarmlessBreaks(m: Many) returns (i: nat, j: nat)
    requires !AllHarmless(m)
    ensures Breaks(m, i, j)
  {
    hide ChunkCount;
    if k :| 0 <= k < |m.news| && NewCount(m.At(k)) < m.Chunks() {
      return k, k;
    }
    var a, b :| 0 <= b <= a < |m.news| && CanReport(m, a) && m.news[b].address != m.address;
    return a, b;
  }

  function LookedAt(m: Many, i: nat): nat
    requires i < |m.news|
  {
    Min(m.Chunks(), NewCount(m.At(i)))
  }

  lemma NumbersFit(m: Many)
    requires ProperMany(m)
    ensures 0 < m.c < 0x1_0000 && m.length + m.c <= 0x1_0000_0000 && m.Chunks() < MAX_CHUNKS && m.address < 0x1_0000_0000
    ensures forall p :: 0 <= p < |m.news| ==> m.news[p].length < 0x1_0000_0000 && m.news[p].address < 0x1_0000_0000
  {
    hide ChunkCount;
    forall p | 0 <= p < |m.news| ensures m.news[p].length < 0x1_0000_0000 && m.news[p].address < 0x1_0000_0000 {
      assert Proper(m.At(p));
    }
  }

  /** The chunks of the file that are looked at. */
  ghost function ChunksLookedAt(m: Many, i: nat): (r: seq<Late>)
    requires ProperMany(m) && i < |m.news|
    ensures AllLateGenuine(PLAIN, r, LastIsOne(m.length), m.c)
  {
    NumbersFit(m);
    FirstChunks(LastIsOne(m.length), m.c, LookedAt(m, i))
  }

  lemma BehindTheBitmap(m: Many, i: nat)
    requires i < |m.news| && CanReport(m, i)
    ensures forall b <- BitsBehind(m.At(i)) :: b >= BitmapBits(m.Chunks())
  {
    hide ChunkCount;
  }

  lemma DoneIsGenuine(m: Many, i: nat)
    requires ProperMany(m) && i < |m.news| && CanReport(m, i)
    ensures LateGenuine(PLAIN, LateDone(BitsBehind(m.At(i))), LastIsOne(m.length), m.c)
  {
    hide ChunkCount;
    NumbersFit(m);
    BehindTheBitmap(m, i);
  }

  lemma NoneLate(o: Oracle, image: seq<byte>, c: nat)
    ensures AllLateGenuine(o, [], image, c)
  {
  }

  /** The messages of chapter `p`: in chapter `j` the chunks that will be looked at, in chapter `i` an
      UpdateDone that finds the bits behind the bitmap set. */
  ghost function LateOf(m: Many, i: nat, j: nat, p: nat): (r: seq<Late>)
    requires ProperMany(m) && Breaks(m, i, j)
    ensures AllLateGenuine(PLAIN, r, LastIsOne(m.length), m.c)
  {
    var image := LastIsOne(m.length);
    NoneLate(PLAIN, image, m.c);
    var ls := if p == j then ChunksLookedAt(m, i) else [];
    if p == i then
      DoneIsGenuine(m, i);
      AppendGenuine(PLAIN, ls, LateDone(BitsBehind(m.At(i))), image, m.c);
      ls + [LateDone(BitsBehind(m.At(i)))]
    else ls
  }

  ghost function ChaptersOf(m: Many, i: nat, j: nat, n: nat): (r: seq<Chapter>)
    requires ProperMany(m) && Breaks(m, i, j) && n <= |m.news|
    ensures |r| == n && AllGenuineIn(PLAIN, r, LastIsOne(m.length), m.c)
  {
    if n == 0 then []
    else
      NumbersFit(m);
      var f := m.news[n - 1];
      ChaptersOf(m, i, j, n - 1) + [Chapter(BeginMessage(1, f.length, f.address), LateOf(m, i, j, n - 1))]
  }

  /** After `n` chapters: the last byte of the file never got to its place, and after chapter `i` success
      was reported. */
  ghost predicate Breaking(s: Ota, d: Device, m: Many, i: nat, j: nat, n: nat, from: nat)
    requires ProperMany(m) && Breaks(m, i, j)
  {
    && s.chunkSize == m.c && |d.flash| == m.address + m.length && d.flash[m.address + m.length - 1] == 0
    && d.prepared >= (if n == 0 then 2 else 3) && from <= |d.log|
    && (n <= i ==> s.updating != 0)
    && (n <= j ==> s.received == {} && d.flash == Zeros(|d.flash|))
    && (j < n <= i ==> s.received == AllChunks(LookedAt(m, i)))
    && (n > i ==> Succeeded(d.log, from))
  }

  lemma PlainRejects(s: Ota, d: Device, f: New)
    requires d.prepared >= 2 && f.length < 0x1_0000_0000 && f.address < 0x1_0000_0000
    ensures var q := BeginMessage(1, f.length, f.address);
            var (s', d', e) := HandleUpdateBegin(s, d, PLAIN, q, None);
            && RejectedAs(d, PLAIN, q, f) && OnlySends(d.log, d'.log)
            && s' == s.(file := BegunFile(d, PLAIN, q), flightCount := 0)
            && d'.flash == d.flash && d'.prepared >= 3
  {
    hide ChunkCount, BeginFile, BeginFast, BeginMessage;
    BeginMessageReads(1, f.length, f.address);
  }

  /** The chunks that are looked at, sent while file `j` is the current one. */
  lemma ChunksGoAstray(s: Ota, d: Device, m: Many, i: nat, j: nat)
    requires ProperMany(m) && Breaks(m, i, j)
    requires s.updating != 0 && s.chunkSize == m.c && s.received == {} && s.file.fileAddress == m.news[j].address
    requires d.flash == Zeros(|d.flash|) && |d.flash| == m.address + m.length
    ensures var image := LastIsOne(m.length);
            var (s', d') := LateRun(s, d, PLAIN, ChunksLookedAt(m, i), image, m.c);
            && s'.received == AllChunks(LookedAt(m, i)) && s'.updating != 0 && s'.chunkSize == m.c
            && s'.file.fileLength == s.file.fileLength
            && |d'.flash| == |d.flash| && d'.log == d.log && d'.prepared == d.prepared
            && d'.flash[m.address + m.length - 1] == 0
  {
    hide ChunkCount, FirstChunks, LateRun;
    NumbersFit(m);
    FirstChunksLand(s, d, m.At(j), LookedAt(m, i));
  }

  /** An UpdateDone with nothing missing among what it looks at. */
  lemma DoneReports(s: Ota, d: Device, past: set<nat>)
    requires s.updating != 0 && AllChunks(Chunks(s)) <= s.received + past
    ensures var (s', d') := DoneReading(s, d, PLAIN, past);
            && Succeeded(d'.log, |d.log|) && d'.flash == d.flash && d'.prepared == d.prepared
            && s'.chunkSize == s.chunkSize && |d.log| <= |d'.log| && d'.log[..|d.log|] == d.log
  {
    hide ChunkCount, SendMissing;
    NoneMissingIff(s.received + past, Chunks(s));
    var (s', d') := DoneReading(s, d, PLAIN, past);
    assert d'.log[|d'.log| - 1] == Finish(SUCCESS);
  }

  lemma AllLookedAt(m: Many, i: nat)
    requires i < |m.news|
    ensures AllChunks(NewCount(m.At(i))) <= AllChunks(LookedAt(m, i)) + BitsBehind(m.At(i))
  {
    hide ChunkCount;
  }

  /** Behind the rejection, the messages of the chapter. */
  lemma ChapterBreaks(s: Ota, d: Device, m: Many, i: nat, j: nat, n: nat, from: nat)
    requires ProperMany(m) && Breaks(m, i, j) && n < |m.news| && Breaking(s, d, m, i, j, n, from) && d.prepared >= 3
    requires s.file.fileLength == m.news[n].length && s.file.fileAddress == m.news[n].address
    ensures var (s', d') := LateRun(s, d, PLAIN, LateOf(m, i, j, n), LastIsOne(m.length), m.c);
            Breaking(s', d', m, i, j, n + 1, from)
  {
    hide ChunkCount, ChunksLookedAt, LateRun, DoneReading, ProperMany, BitsBehind, LookedAt, CanReport, LateGenuine;
    var image := LastIsOne(m.length);
    var done := LateDone(BitsBehind(m.At(i)));
    NoneLate(PLAIN, image, m.c);
    var ls := if n == j then ChunksLookedAt(m, i) else [];
    if n == j {
      ChunksGoAstray(s, d, m, i, j);
    } else {
      NothingLate(s, d, PLAIN, image, m.c);
    }
    var (s1, d1) := LateRun(s, d, PLAIN, ls, image, m.c);
    if n == i {
      BreaksReports(m, i, j);
      DoneIsGenuine(m, i);
      AppendGenuine(PLAIN, ls, done, image, m.c);
      LateRunStep(s, d, PLAIN, ls, done, image, m.c);
      AllLookedAt(m, i);
      DoneReports(s1, d1, BitsBehind(m.At(i)));
      SuccessSplit(d1.log, DoneReading(s1, d1, PLAIN, BitsBehind(m.At(i))).1.log, from);
    }
  }

  lemma NothingLate(s: Ota, d: Device, o: Oracle, image: seq<byte>, c: nat)
    requires AllLateGenuine(o, [], image, c)
    ensures LateRun(s, d, o, [], image, c) == (s, d)
  {
  }

  lemma {:induction false} ChaptersBreak(s: Ota, d: Device, m: Many, i: nat, j: nat, n: nat, from: nat)
    requires ProperMany(m) && Breaks(m, i, j) && n <= |m.news| && Breaking(s, d, m, i, j, 0, from)
    ensures var image, chapters := LastIsOne(m.length), ChaptersOf(m, i, j, n);
            var (s', d') := AllChapters(s, d, PLAIN, None, chapters, image, m.c);
            && Breaking(s', d', m, i, j, n, from)
            && AllRejected(s, d, PLAIN, None, chapters, image, m.c, m.news[..n])
  {
    hide Breaks, ProperMany, LateOf, LateRun, HandleUpdateBegin, BeginMessage, Starts, BegunFile;
    var image, chapters := LastIsOne(m.length), ChaptersOf(m, i, j, n);
    if n == 0 {
    } else {
      var p := n - 1;
      ChaptersBreak(s, d, m, i, j, p, from);
      assert chapters[..p] == ChaptersOf(m, i, j, p) && m.news[..n][..p] == m.news[..p];
      var (s1, d1) := AllChapters(s, d, PLAIN, None, chapters[..p], image, m.c);
      NumbersFit(m);
      PlainRejects(s1, d1, m.news[p]);
      var (s2, d2, e) := HandleUpdateBegin(s1, d1, PLAIN, chapters[p].q, None);
      SendsAreNoSuccess(d1.log, d2.log, from);
      ChapterBreaks(s2, d2, m, i, j, p, from);
    }
  }

  ghost function BreakingTale(m: Many, i: nat, j: nat): (t: Tale)
    requires ProperMany(m) && Breaks(m, i, j)
    ensures Readable(t.ops) && |t.image| == m.length && AllGenuineIn(t.o, t.chapters, t.image, m.c)
  {
    Tale(IDLE, Device(Zeros(m.address + m.length), 0, 0, []), PLAIN, BeginMessage(m.c, m.length, m.address), None, [],
         ChaptersOf(m, i, j, |m.news|), LastIsOne(m.length))
  }

  /** The accepted UpdateBegin at its start. */
  lemma BreakingStarts(m: Many, i: nat, j: nat)
    requires ProperMany(m) && Breaks(m, i, j)
    ensures var t := BreakingTale(m, i, j);
            var (s, d) := BeforeRejections(t);
            && Starts(t.d0, t.o, t.begin) && BeginFast(t.begin, None) && Announces(BegunFile(t.d0, t.o, t.begin), t.image, t.d0)
            && BegunFile(t.d0, t.o, t.begin).chunkSize == m.c && BegunFile(t.d0, t.o, t.begin).fileAddress == m.address
            && Breaking(s, d, m, i, j, 0, |d.log|)
  {
    hide ChunkCount, ChaptersOf, BeginFile, BeginFast, BeginMessage, CanReport;
    assert Proper(Files(m.length, m.c, m.address, 0, 0));
    BeginMessageReads(m.c, m.length, m.address);
  }

  lemma BreakingTaleIsToldNotKept(m: Many, i: nat, j: nat)
    requires ProperMany(m) && Breaks(m, i, j)
    ensures var t := BreakingTale(m, i, j); ToldOf(t, m) && !KeptIn(t, m)
  {
    hide ChaptersOf, AllChapters, AllRejected, Starts, BegunFile, BeginFast, Announces, BeforeRejections, ChunkCount, ProperMany, Genuine;
    NumbersFit(m);
    BreakingStarts(m, i, j);
    var t := BreakingTale(m, i, j);
    var (s, d) := BeforeRejections(t);
    ChaptersBreak(s, d, m, i, j, |m.news|, |d.log|);
    assert m.news[..|m.news|] == m.news;
    var (s', d') := AllChapters(s, d, t.o, t.override, t.chapters, t.image, m.c);
    NotThere(d'.flash, Files(m.length, m.c, m.address, 0, 0));
  }

  /** For any number of rejected UpdateBegins in a fast transfer, and whatever messages lie between and
      behind them: a success reported after the first means that the old file is in memory, for every
      such tale, exactly if the files are harmless together. */
  lemma RejectionsSafeIff(m: Many)
    requires ProperMany(m)
    ensures (forall t: Tale :: ToldOf(t, m) ==> KeptIn(t, m)) <==> AllHarmless(m)
  {
    hide ToldOf, KeptIn, AllHarmless, BreakingTale, ProperMany, Breaks, AllGenuineIn;
    if AllHarmless(m) {
      forall t: Tale | ToldOf(t, m)
        ensures Readable(t.ops) && AllGenuineIn(t.o, t.chapters, t.image, m.c) && KeptIn(t, m)
      {
        ToldOfMeans(t, m);
        AllHarmlessIsKept(t, m);
      }
    } else {
      var i, j := NotHarmlessBreaks(m);
      BreakingTaleIsToldNotKept(m, i, j);
      assert !KeptIn(BreakingTale(m, i, j), m);
    }
  }
}
