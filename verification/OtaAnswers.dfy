/** Which UpdateBegins start a transfer, of which kind, and what UpdateBegin and UpdateDone answer. */
module OtaAnswers {
  import opened Basics
  import opened ChunkBitmap
  import opened OtaModel
  import opened OtaSafety

  // ---- UpdateBegin ---------------------------------------------------------------------------

  /** Twenty bytes with a payload marker describe a file: chunk size, length, store and address, all in
      network order. */
  lemma BeginDescribes(q: seq<byte>)
    requires |q| >= 20 && q[7] == 255
    ensures var f := BeginFile(q);
            && f.chunkSize == q[9] as nat * 256 + q[10] as nat
            && f.fileLength == q[11] as nat * 0x100_0000 + q[12] as nat * 0x1_0000 + q[13] as nat * 256 + q[14] as nat
            && f.store == q[15]
            && f.fileAddress == q[16] as nat * 0x100_0000 + q[17] as nat * 0x1_0000 + q[18] as nat * 256 + q[19] as nat
            && f.chunkAddress == f.fileAddress
  {
  }

  /** The file fits into fewer than 65535 chunks; of no size at all it has none. */
  predicate Numberable(f: Descriptor) {
    f.chunkSize > 0 ==> (f.fileLength + f.chunkSize - 1) % 0x1_0000_0000 < 65535 * f.chunkSize
  }

  lemma NumberableIff(f: Descriptor)
    ensures ChunkCount(f.fileLength, f.chunkSize) < MAX_CHUNKS <==> Numberable(f)
  {
    if f.chunkSize > 0 {
      var n := (f.fileLength + f.chunkSize - 1) % 0x1_0000_0000;
      BelowIff(n, f.chunkSize, 65535);
    }
  }

  lemma BelowIff(n: nat, c: nat, k: nat)
    requires c > 0
    ensures n / c < k <==> n < k * c
  {
    var q := n / c;
    assert q * c <= n < q * c + c;
    if q < k {
      MulLe(q + 1, k, c);
    } else {
      MulLe(k, q, c);
    }
  }

  /** An UpdateBegin starts a transfer exactly if the callback takes its file, the file as the callback left
      it can be numbered, the acknowledgement gets out, and the callback takes the file once more. The
      acknowledgement comes first and says whether the file was acceptable; UpdateReady goes out last and
      only if the transfer starts. */
  lemma BeginAnswers(s: Ota, d: Device, o: Oracle, q: seq<byte>, override: Option<bool>)
    ensures var p := o.prepare(d.prepared, BeginFile(q));
            var acceptable := p.ok && Numberable(p.file);
            var sent := o.sendError(d.sent) == NoError;
            var starts := acceptable && sent && o.prepare(d.prepared + 1, p.file).ok;
            var (s', d', e) := HandleUpdateBegin(s, d, o, q, override);
            && Starts(d, o, q) == starts
            && d'.log == d.log + [Send(BeginAck(acceptable))] + (if starts then [Send(UpdateReady(BeginFast(q, override)))] else [])
            && d'.flash == d.flash
            && (!sent ==> e == o.sendError(d.sent))
            && (starts ==> s'.updating == 1 && s'.chunkIndex == 0 && s'.chunkSize == s'.file.chunkSize
                           && s'.file == o.prepare(d.prepared + 1, p.file).file)
            && (!starts ==> s'.updating == s.updating && s'.received == s.received && s'.chunkSize == s.chunkSize)
  {
    hide BeginFile, BeginFast, ChunkCount, AllChunks, Numberable;
    NumberableIff(o.prepare(d.prepared, BeginFile(q)).file);
    assert d.log + [Send(BeginAck(Acceptable(d, o, q)))] + [] == d.log + [Send(BeginAck(Acceptable(d, o, q)))];
  }

  /** The transfer is fast exactly if the override says so, or without one the lowest bit of the flags is
      set. A fast one begins with no chunk received; in a regular one every chunk counts as received. */
  lemma BeginKind(s: Ota, d: Device, o: Oracle, q: seq<byte>, override: Option<bool>)
    requires Starts(d, o, q) && |q| >= 20 && q[7] == 255
    ensures var fast := if override.Some? then override.value else q[8] % 2 == 1;
            var (s', d', e) := HandleUpdateBegin(s, d, o, q, override);
            && BeginFast(q, override) == fast
            && if fast then s'.received == {} else AllChunks(Chunks(s')) <= s'.received
  {
    hide BeginFile, ChunkCount;
  }

  /** An UpdateBegin that describes no file never asks for a fast transfer. */
  lemma ShortIsRegular(q: seq<byte>, override: Option<bool>)
    requires |q| < 20 || q[7] != 255
    ensures !BeginFast(q, override) && BeginFile(q) == Descriptor(0, 0, 0, 0, 0)
  {
  }

  // ---- UpdateDone ----------------------------------------------------------------------------

  /** An UpdateDone is answered OK exactly if every chunk is flagged, and then validated before (flags 1 and
      2) and, during an update, finished after (flag 1). If one is missing and the update is under way, chunks are asked for next. */
  lemma DoneAnswers(s: Ota, d: Device, o: Oracle)
    ensures var complete := forall i: nat :: i < Chunks(s) ==> i in s.received;
            var proceeds := o.sendError(d.sent) == NoError && s.updating != 0;
            var (s', d', e) := HandleUpdateDone(s, d, o);
            && s'.received == s.received && d'.flash == d.flash
            && (o.sendError(d.sent) != NoError ==> e == o.sendError(d.sent))
            && (complete ==>
                  && d'.log == d.log + [Finish(3), Send(DoneAck(true))] + (if proceeds then [Finish(1)] else [])
                  && (proceeds ==> s'.updating == 0 && e == NoError))
            && (!complete && !proceeds ==> d'.log == d.log + [Send(DoneAck(false))])
            && (!complete && proceeds ==>
                  && s'.updating == 2
                  && |d'.log| == |d.log| + 2 && d'.log[..|d.log| + 1] == d.log + [Send(DoneAck(false))]
                  && d'.log[|d.log| + 1] == Send(MissingRequest(RequestMessage(0, Requested(s, ResendCount(s.flightCount))))))
  {
    hide ChunkCount, Missing, RequestMessage, ResendCount;
    NoneMissingIff(s.received, Chunks(s));
    if Missing(s.received, Chunks(s), 0) != [] {
      RequestNotEmpty(s);
    }
  }

  lemma RequestNotEmpty(s: Ota)
    requires Missing(s.received, Chunks(s), 0) != []
    ensures Requested(s, ResendCount(s.flightCount)) != []
  {
    hide ChunkCount, Missing;
  }
}
