/** `ChunkedTransfer`: the receiver object with its byte bitmap, updated in place. */
module OtaTransfer {
  import opened Basics
  import opened ChunkBitmap
  import opened OtaModel

  /** The message channel and the callbacks of the receiver. */
  class Host {
    const oracle: Oracle
    var device: Device

    method Send(frame: Frame) returns (error: ProtocolError)
      modifies this
      ensures device == old(device).Sending(frame) && error == oracle.sendError(old(device).sent)
    {
      error := oracle.sendError(device.sent);
      device := device.Sending(frame);
    }

    /** The callback gets the descriptor by reference and may change it. */
    method PrepareForFirmwareUpdate(file: Descriptor) returns (p: Prepared)
      modifies this
      ensures device == old(device).Preparing() && p == oracle.prepare(old(device).prepared, file)
    {
      p := oracle.prepare(device.prepared, file);
      device := device.Preparing();
    }

    method SaveFirmwareChunk(file: Descriptor, chunk: seq<byte>)
      modifies this
      ensures device == old(device).(flash := Write(old(device).flash, file.chunkAddress, chunk))
    {
      device := device.(flash := Write(device.flash, file.chunkAddress, chunk));
    }

    method FinishFirmwareUpdate(flags: nat)
      modifies this
      ensures device == old(device).Finishing(flags)
    {
      device := device.Finishing(flags);
    }

    constructor (oracle: Oracle, device: Device)
      ensures this.oracle == oracle && this.device == device
    {
      this.oracle, this.device := oracle, device;
    }
  }

  class ChunkedTransfer {
    var updating: nat
    var file: Descriptor
    var missedChunkIndex: nat
    var chunkCount: nat
    var chunkIndex: nat
    var chunkSize: nat
    var bitmap: array<bv8>
    var fastOverride: Option<bool>

    constructor ()
      ensures Valid() && updating == 0 && fresh(bitmap)
    {
      updating, missedChunkIndex, chunkCount, chunkIndex, chunkSize := 0, 0, 0, 0, 0;
      file := Descriptor(0, 0, 0, 0, 0);
      bitmap := new bv8[0];
      fastOverride := None;
    }

    /** The number of chunks, as `next_chunk_missing` keeps it in 16 bits. */
    function CountChunks(): nat
      reads this
    {
      ChunkCount(file.fileLength, chunkSize) % 0x1_0000
    }

    /** The bitmap is large enough for the chunks of the file. It holds from an accepted UpdateBegin
        until the next UpdateBegin. */
    ghost predicate Valid()
      reads this
    {
      CountChunks() <= 8 * bitmap.Length
    }

    ghost function View(): Ota
      reads this, bitmap
    {
      Ota(updating, file, missedChunkIndex, chunkCount, chunkIndex, chunkSize, Received(bitmap[..], 8 * bitmap.Length))
    }

    // ---- Bitmap ------------------------------------------------------------------------------

    method IsChunkReceived(idx: nat) returns (r: bool)
      requires idx < 8 * bitmap.Length
      ensures r <==> idx in View().received
    {
      var b := bitmap[idx / 8] & Mask(idx % 8);
      r := b != 0;
    }

    method FlagChunkReceived(idx: nat)
      requires idx < 8 * bitmap.Length
      modifies bitmap
      ensures View() == old(View()).(received := old(View()).received + {idx})
    {
      ghost var before := bitmap[..];
      bitmap[idx / 8] := bitmap[idx / 8] | Mask(idx % 8);
      assert bitmap[..] == Flagged(before, idx);
      FlagInserts(before, idx, 8 * bitmap.Length);
    }

    method SetChunksReceived(all: bool)
      modifies bitmap
      ensures View().received == if all then AllChunks(8 * bitmap.Length) else {}
    {
      var value: bv8 := if all then 0xFF else 0;
      var i := 0;
      while i < bitmap.Length
        invariant i <= bitmap.Length
        invariant forall j :: 0 <= j < i ==> bitmap[j] == value
      {
        bitmap[i] := value;
        i := i + 1;
      }
      FillIsAllOrNothing(bitmap[..], value, 8 * bitmap.Length);
    }

    /** `next_chunk_missing`: the least missing index not below `start`, or none exactly when there
        is none. */
    method NextChunkMissing(start: nat) returns (chunk: nat)
      requires Valid() && start <= CountChunks()
      ensures var m := Missing(View().received, CountChunks(), start);
              chunk == if m == [] then NO_CHUNKS_MISSING else m[0]
      ensures chunk != NO_CHUNKS_MISSING ==> start <= chunk < CountChunks()
      ensures chunk == NO_CHUNKS_MISSING <==> Missing(View().received, CountChunks(), start) == []
    {
      chunk := NO_CHUNKS_MISSING;
      var chunks := CountChunks();
      var idx := start;
      while idx < chunks
        invariant start <= idx <= chunks && chunk == NO_CHUNKS_MISSING
        invariant Missing(View().received, chunks, idx) == Missing(View().received, chunks, start)
      {
        var received := IsChunkReceived(idx);
        if !received {
          chunk := idx;
          break;
        }
        idx := idx + 1;
      }
    }

    // ---- Requests ----------------------------------------------------------------------------

    /** Two bytes of a request, high byte first. */
    static method PutIndex(buf: array<byte>, sent: nat, idx: nat)
      requires 9 + 2 * sent <= buf.Length && idx < 0x1_0000
      modifies buf
      ensures buf[..9 + 2 * sent] == old(buf[..7 + 2 * sent]) + [idx / 256, idx % 256]
    {
      buf[sent * 2 + 7] := idx / 256;
      buf[sent * 2 + 8] := idx % 256;
    }

    /** The loop of `send_missing_chunks`: fills the request with the first `count` missing indexes. */
    method FillRequest(buf: array<byte>, count: nat, ghost id: nat) returns (sent: nat)
      requires Valid() && buf.Length == 7 + 2 * count && buf != bitmap as object && id < 0x1_0000
      requires buf[..7] == RequestHeader(id)
      modifies buf, `missedChunkIndex
      ensures sent == |Requested(old(View()), count)|
      ensures buf[..7 + 2 * sent] == RequestMessage(id, Requested(old(View()), count))
      ensures missedChunkIndex == if sent > 0 then Requested(old(View()), count)[sent - 1] else old(missedChunkIndex)
    {
      hide RequestMessage, IndexBytes, Missing, Received, BitSet, ChunkCount, Requested;
      sent := 0;
      RequestOfNone(id);
      ghost var s := View();
      ghost var n := CountChunks();
      ghost var all := Missing(s.received, n, 0);
      assert all[..0] == [];
      MissingInRange(s.received, n);
      var idx := NextChunkMissing(0);
      while idx != NO_CHUNKS_MISSING && sent < count
        invariant sent <= count && sent <= |all|
        invariant idx == if sent < |all| then all[sent] else NO_CHUNKS_MISSING
        invariant buf[..7 + 2 * sent] == RequestMessage(id, all[..sent])
        invariant missedChunkIndex == if sent > 0 then all[sent - 1] else old(missedChunkIndex)
      {
        PutIndex(buf, sent, idx);
        RequestGrows(id, all, sent);
        missedChunkIndex := idx;
        MissingAfterListed(s.received, n, all, sent);
        idx := NextChunkMissing(idx + 1);
        sent := sent + 1;
      }
      RequestedIs(s, count, all, sent);
    }

    /** `send_missing_chunks`, with a request of the given message id. */
    method SendMissingChunks(host: Host, count: nat, id: nat) returns (error: ProtocolError)
      requires Valid() && id < 0x1_0000
      modifies host, `missedChunkIndex
      ensures Valid()
      ensures SendMissing(old(View()), old(host.device), host.oracle, count, id) == (View(), host.device, error)
    {
      var buf := new byte[7 + 2 * count];
      buf[0], buf[1], buf[2], buf[3], buf[4], buf[5], buf[6] := 0x40, 0x01, id / 256, id % 256, 0xb1, 'c' as int, 0xff;
      assert buf[..7] == RequestHeader(id);
      var sent := FillRequest(buf, count, id);
      if sent > 0 {
        error := host.Send(MissingRequest(buf[..7 + 2 * sent]));
        return;
      }
      return NoError;
    }

    // ---- Messages ----------------------------------------------------------------------------

    /** The option loop of `handle_chunk`. */
    method ReadOptions(q: seq<byte>) returns (crc: nat, fast: bool, marker: nat)
      requires Parsed(q).Some?
      modifies `chunkIndex
      ensures var p := Parsed(q).value;
              && crc == p.crc && fast == p.index.Some? && marker == p.marker
              && chunkIndex == if fast then p.index.value else old(chunkIndex)
    {
      fast := false;
      marker := 7;
      var option := 0;
      crc := 0;
      while q[marker] != 0xFF
        invariant marker < |q|
        invariant ParseOptions(q, marker, option, crc, if fast then Some(chunkIndex) else None) == Parsed(q)
        invariant !fast ==> chunkIndex == old(chunkIndex)
        decreases |q| - marker
      {
        if option == 0 {
          crc := Decode32(q, marker + 1);
        } else if option == 1 {
          chunkIndex := Decode16(q, marker + 1);
          fast := true;
        }
        option := option + 1;
        marker := marker + q[marker] % 16 + 1;
      }
    }

    method HandleChunk(q: seq<byte>, host: Host) returns (error: ProtocolError)
      requires Parsed(q).Some? && InBitmap(View(), 8 * bitmap.Length, host.oracle, q)
      modifies this, host, bitmap
      ensures bitmap == old(bitmap)
      ensures OtaModel.HandleChunk(old(View()), old(host.device), host.oracle, q) == (View(), host.device, error)
    {
      chunkCount := (chunkCount + 1) % 0x1_0000;
      if updating == 0 {
        return NoError;
      }
      var crc, fast, marker := ReadOptions(q);
      if !fast {
        error := host.Send(ChunkAck);
        if error != NoError {
          return;
        }
      }
      error := SaveChunk(q[marker + 1..], crc, fast, host);
    }

    /** The second half of `handle_chunk`. */
    method SaveChunk(chunk: seq<byte>, given: nat, fast: bool, host: Host) returns (error: ProtocolError)
      requires chunkIndex < MAX_CHUNKS && host.oracle.crc(chunk) == given ==> chunkIndex < 8 * bitmap.Length
      modifies this, host, bitmap
      ensures bitmap == old(bitmap)
      ensures AcceptChunk(old(View()), old(host.device), host.oracle, given, chunk, fast) == (View(), host.device, error)
    {
      file := file.(chunkSize := |chunk| % 0x1_0000, chunkAddress := file.fileAddress + chunkIndex * chunkSize);
      if chunkIndex >= MAX_CHUNKS {
        return NoError;
      }
      var ok := host.oracle.crc(chunk) == given;
      if ok {
        host.SaveFirmwareChunk(file, chunk);
        FlagChunkReceived(chunkIndex);
        chunkIndex := (chunkIndex + 1) % 0x1_0000;
      }
      if !fast {
        error := host.Send(ChunkReply(ok));
        return;
      }
      return NoError;
    }

    method HandleUpdateDone(host: Host) returns (error: ProtocolError)
      requires Valid()
      modifies this, host
      ensures Valid() && bitmap == old(bitmap)
      ensures OtaModel.HandleUpdateDone(old(View()), old(host.device), host.oracle) == (View(), host.device, error)
    {
      hide SendMissing, Missing, ResendCount;
      var index := NextChunkMissing(0);
      var missing := index != NO_CHUNKS_MISSING;
      if !missing {
        host.FinishFirmwareUpdate(SUCCESS + VALIDATE_ONLY);
      }
      error := host.Send(DoneAck(!missing));
      if error != NoError {
        return;
      }
      if updating == 0 {
        return NoError;
      }
      if !missing {
        updating := 0;
        host.FinishFirmwareUpdate(SUCCESS);
      } else {
        updating := 2;
        var count := ResendCount(chunkCount);
        chunkCount := 0;
        error := SendMissingChunks(host, count, 0);
      }
    }

    /** The part of `handle_update_begin` that starts a transfer. */
    method BeginTransfer(fast: bool)
      modifies this, bitmap
      ensures View() == Begun(old(View()), fast) && Valid() && fresh(bitmap) && fastOverride == old(fastOverride)
    {
      hide BitSet, ChunkCount, AllChunks, Received;
      chunkIndex := 0;
      chunkSize := file.chunkSize;
      updating := 1;
      bitmap := new bv8[(ChunkCount(file.fileLength, chunkSize) + 7) / 8];
      SetChunksReceived(!fast);
    }

    /** `handle_update_begin`. The receiver is well-formed afterwards if a transfer starts; otherwise the
        bitmap stays, and it may be too small for the new file. */
    method HandleUpdateBegin(q: seq<byte>, host: Host) returns (error: ProtocolError)
      modifies this, host, bitmap
      ensures OtaModel.HandleUpdateBegin(old(View()), old(host.device), host.oracle, q, fastOverride)
              == (View(), host.device, error)
      ensures fastOverride == old(fastOverride)
      ensures if Starts(old(host.device), host.oracle, q) then Valid() && fresh(bitmap) else bitmap == old(bitmap)
    {
      hide BeginFile, BeginFast, BitSet, ChunkCount, AllChunks, Received, Begun;
      var fast := BeginFast(q, fastOverride);
      chunkCount := 0;
      file := BeginFile(q);
      var p := host.PrepareForFirmwareUpdate(file);
      file := p.file;
      var success := p.ok;
      if success {
        success := ChunkCount(file.fileLength, file.chunkSize) < MAX_CHUNKS;
      }
      error := host.Send(BeginAck(success));
      if error != NoError {
        return;
      }
      if success {
        p := host.PrepareForFirmwareUpdate(file);
        file := p.file;
        if p.ok {
          BeginTransfer(fast);
          error := host.Send(UpdateReady(fast));
        }
      }
    }
  }

  lemma MissingInRange(received: set<nat>, n: nat)
    ensures forall i :: 0 <= i < |Missing(received, n, 0)| ==> Missing(received, n, 0)[i] < n
    ensures |Missing(received, n, 0)| <= n
  {
    MissingExactly(received, n, 0);
    var all := Missing(received, n, 0);
    assert forall i :: 0 <= i < |all| ==> all[i] in all;
  }

  lemma RequestedIs(s: Ota, count: nat, all: seq<nat>, sent: nat)
    requires all == Missing(s.received, Chunks(s), 0)
    requires sent == Min(|all|, count)
    ensures Requested(s, count) == all[..sent]
  {
    assert all[..|all|] == all;
  }

  lemma RequestOfNone(id: nat)
    requires id < 0x1_0000
    ensures RequestMessage(id, []) == RequestHeader(id)
  {
  }

  lemma RequestGrows(id: nat, all: seq<nat>, k: nat)
    requires id < 0x1_0000 && k < |all| && forall i :: 0 <= i < |all| ==> all[i] < 0x1_0000
    ensures RequestMessage(id, all[..k + 1]) == RequestMessage(id, all[..k]) + [all[k] / 256, all[k] % 256]
  {
    assert all[..k + 1][..k] == all[..k];
  }

  /** What is missing after the entry at `k` of the list is the rest of the list. */
  lemma MissingAfterListed(received: set<nat>, n: nat, all: seq<nat>, k: nat)
    requires all == Missing(received, n, 0) && k < |all|
    ensures all[k] < n
    ensures Missing(received, n, all[k] + 1) == all[k + 1..]
  {
    hide Missing;
    MissingInRange(received, n);
    MissingSuffix(received, n, 0, k);
  }

  lemma {:induction false} MissingSuffix(received: set<nat>, n: nat, start: nat, k: nat)
    requires k < |Missing(received, n, start)|
    ensures var m := Missing(received, n, start); Missing(received, n, m[k] + 1) == m[k + 1..]
    decreases n - start
  {
    if start in received {
      MissingSuffix(received, n, start + 1, k);
    } else if k > 0 {
      MissingSuffix(received, n, start + 1, k - 1);
    }
  }
}
