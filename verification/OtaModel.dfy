/** Chunked transfer as values: the receiver's state with its bitmap as a set of chunk indexes, the
    device it writes to, and what each message handler makes of them. */
module OtaModel {
  import opened Basics
  import opened ChunkBitmap

  const MAX_CHUNKS: nat := 65535
  const NO_CHUNKS_MISSING: nat := 65535
  const MISSED_CHUNKS_TO_SEND: nat := 40
  const MINIMUM_CHUNK_INCREASE: nat := 2

  /** `UpdateFlag`. */
  const SUCCESS: nat := 1
  const VALIDATE_ONLY: nat := 2

  datatype Descriptor = Descriptor(
    chunkSize: nat, fileLength: nat, store: byte, fileAddress: nat, chunkAddress: nat)

  /** `Descriptor::chunk_count`, in 32-bit unsigned arithmetic. */
  function ChunkCount(fileLength: nat, chunkSize: nat): nat {
    if chunkSize == 0 then 0 else (fileLength + chunkSize - 1) % 0x1_0000_0000 / chunkSize
  }

  /** The receiver. `received` stands for the bits set in the bitmap. */
  datatype Ota = Ota(
    updating: nat, file: Descriptor, missedIndex: nat, flightCount: nat,
    chunkIndex: nat, chunkSize: nat, received: set<nat>)

  datatype Frame =
    | BeginAck(accepted: bool)
    | UpdateReady(fast: bool)
    | ChunkAck
    | ChunkReply(ok: bool)
    | DoneAck(ok: bool)
    | MissingRequest(message: seq<byte>)
    | UpdateDone(id: nat)

  datatype Action = Send(frame: Frame) | Finish(flags: nat)

  /** The result of `prepare_for_firmware_update`, and the descriptor as the callback leaves it. */
  datatype Prepared = Prepared(ok: bool, file: Descriptor)

  /** What the environment answers: the result of each transmission and of each call of
      `prepare_for_firmware_update`, and the checksum function. */
  datatype Oracle = Oracle(
    sendError: nat -> ProtocolError,
    prepare: (nat, Descriptor) -> Prepared,
    crc: seq<byte> -> nat)

  /** The memory chunks are saved to, and what was done. */
  datatype Device = Device(flash: seq<byte>, sent: nat, prepared: nat, log: seq<Action>)
  {
    function Sending(f: Frame): Device { this.(sent := sent + 1, log := log + [Send(f)]) }

    function Finishing(flags: nat): Device { this.(log := log + [Finish(flags)]) }

    function Preparing(): Device { this.(prepared := prepared + 1) }
  }

  /** `save_firmware_chunk`: the bytes go to `address`; what would lie beyond the memory is lost. */
  function Write(flash: seq<byte>, address: nat, chunk: seq<byte>): (r: seq<byte>)
    ensures |r| == |flash|
    ensures forall p :: 0 <= p < |r| ==>
              r[p] == if address <= p < address + |chunk| then chunk[p - address] else flash[p]
  {
    seq(|flash|, p requires 0 <= p < |flash| =>
          if address <= p < address + |chunk| then chunk[p - address] else flash[p])
  }

  // ---- Chunk messages ------------------------------------------------------------------------

  function Decode16(q: seq<byte>, at: nat): nat
    requires at + 2 <= |q|
  {
    BigEndian(q[at], q[at + 1])
  }

  function Decode32(q: seq<byte>, at: nat): nat
    requires at + 4 <= |q|
  {
    Decode16(q, at) * 65536 + Decode16(q, at + 2)
  }

  /** The options of a chunk message: the checksum, the index if there is one (fast transfer), and
      where the payload marker stands. */
  datatype Options = Options(crc: nat, index: Option<nat>, marker: nat)

  /** Walks the options from position `at`: the first is the checksum, the second the chunk index.
      Malformed if there is no marker where an 8-bit position can reach, or an option is cut off. */
  function ParseOptions(q: seq<byte>, at: nat, option: nat, crc: nat, index: Option<nat>): (r: Option<Options>)
    ensures r.Some? ==> at <= r.value.marker < |q| && r.value.marker <= 255 && q[r.value.marker] == 0xFF
    decreases |q| - at
  {
    if at >= |q| || at > 255 then None
    else if q[at] == 0xFF then Some(Options(crc, index, at))
    else if (option == 0 && at + 5 > |q|) || (option == 1 && at + 3 > |q|) then None
    else
      ParseOptions(q, at + q[at] % 16 + 1, option + 1,
                   if option == 0 then Decode32(q, at + 1) else crc,
                   if option == 1 then Some(Decode16(q, at + 1)) else index)
  }

  function Parsed(q: seq<byte>): Option<Options> {
    ParseOptions(q, 7, 0, 0, None)
  }

  /** `handle_chunk`, for a well-formed message. */
  function HandleChunk(s: Ota, d: Device, o: Oracle, q: seq<byte>): (Ota, Device, ProtocolError)
    requires Parsed(q).Some?
  {
    var s1 := s.(flightCount := (s.flightCount + 1) % 0x1_0000);
    if s.updating == 0 then (s1, d, NoError)
    else
      var p := Parsed(q).value;
      var fast := p.index.Some?;
      var s2 := if fast then s1.(chunkIndex := p.index.value) else s1;
      var d2 := if fast then d else d.Sending(ChunkAck);
      if !fast && o.sendError(d.sent) != NoError then (s2, d2, o.sendError(d.sent))
      else AcceptChunk(s2, d2, o, p.crc, q[p.marker + 1..], fast)
  }

  /** The second half of `handle_chunk`: check, save, flag and reply. */
  function AcceptChunk(s: Ota, d: Device, o: Oracle, given: nat, chunk: seq<byte>, fast: bool): (Ota, Device, ProtocolError)
  {
    var s1 := s.(file := s.file.(chunkSize := |chunk| % 0x1_0000,
                                 chunkAddress := s.file.fileAddress + s.chunkIndex * s.chunkSize));
    if s.chunkIndex >= MAX_CHUNKS then (s1, d, NoError)
    else
      var ok := o.crc(chunk) == given;
      var s2 := if ok then s1.(received := s.received + {s.chunkIndex}, chunkIndex := (s.chunkIndex + 1) % 0x1_0000) else s1;
      var d1 := if ok then d.(flash := Write(d.flash, s1.file.chunkAddress, chunk)) else d;
      if fast then (s2, d1, NoError)
      else (s2, d1.Sending(ChunkReply(ok)), o.sendError(d1.sent))
  }

  /** A chunk that passes its checksum has a bit in a bitmap of `bits` bits. */
  ghost predicate InBitmap(s: Ota, bits: nat, o: Oracle, q: seq<byte>)
    requires Parsed(q).Some?
  {
    var p := Parsed(q).value;
    var idx := if p.index.Some? then p.index.value else s.chunkIndex;
    s.updating != 0 && idx < MAX_CHUNKS && o.crc(q[p.marker + 1..]) == p.crc ==> idx < bits
  }

  // ---- UpdateDone ----------------------------------------------------------------------------

  /** How many chunks `next_chunk_missing` looks at: their number in 16 bits. */
  function Chunks(s: Ota): (r: nat)
    ensures r < 0x1_0000
  {
    ChunkCount(s.file.fileLength, s.chunkSize) % 0x1_0000
  }

  function Max(a: nat, b: nat): nat { if a >= b then a else b }

  /** How many chunks the next request asks for: those of the last flight and a fifth more, at least
      two more, at most forty in all. */
  function ResendCount(flightCount: nat): nat {
    Min(flightCount + Max(flightCount / 5, MINIMUM_CHUNK_INCREASE), MISSED_CHUNKS_TO_SEND)
  }

  function First<T>(s: seq<T>, n: nat): seq<T> {
    if |s| <= n then s else s[..n]
  }

  /** A list of chunk indexes as the payload of a request, two bytes each, high byte first. */
  function IndexBytes(idxs: seq<nat>): (r: seq<byte>)
    requires forall i :: 0 <= i < |idxs| ==> idxs[i] < 0x1_0000
    ensures |r| == 2 * |idxs|
  {
    if idxs == [] then []
    else IndexBytes(idxs[..|idxs| - 1]) + [idxs[|idxs| - 1] / 256, idxs[|idxs| - 1] % 256]
  }

  function RequestHeader(id: nat): (r: seq<byte>)
    requires id < 0x1_0000
    ensures |r| == 7
  {
    [0x40, 0x01, id / 256, id % 256, 0xb1, 'c' as int, 0xff]
  }

  function RequestMessage(id: nat, idxs: seq<nat>): seq<byte>
    requires id < 0x1_0000 && forall i :: 0 <= i < |idxs| ==> idxs[i] < 0x1_0000
  {
    RequestHeader(id) + IndexBytes(idxs)
  }

  /** The indexes the next request lists: the first `count` missing ones. */
  ghost function Requested(s: Ota, count: nat): (r: seq<nat>)
    ensures forall i :: 0 <= i < |r| ==> r[i] < Chunks(s)
  {
    MissingExactly(s.received, Chunks(s), 0);
    var m := Missing(s.received, Chunks(s), 0);
    assert forall i :: 0 <= i < |m| ==> m[i] in m;
    First(m, count)
  }

  /** `send_missing_chunks`, with a request of the given message id. */
  ghost function SendMissing(s: Ota, d: Device, o: Oracle, count: nat, id: nat): (Ota, Device, ProtocolError)
    requires id < 0x1_0000
  {
    var r := Requested(s, count);
    if r == [] then (s, d, NoError)
    else (s.(missedIndex := r[|r| - 1]), d.Sending(MissingRequest(RequestMessage(id, r))), o.sendError(d.sent))
  }

  /** `handle_update_done`. The validation pass is reported before the acknowledgement is sent. */
  ghost function HandleUpdateDone(s: Ota, d: Device, o: Oracle): (Ota, Device, ProtocolError) {
    var missing := Missing(s.received, Chunks(s), 0) != [];
    var d1 := (if missing then d else d.Finishing(SUCCESS + VALIDATE_ONLY)).Sending(DoneAck(!missing));
    if o.sendError(d.sent) != NoError then (s, d1, o.sendError(d.sent))
    else if s.updating == 0 then (s, d1, NoError)
    else if !missing then (s.(updating := 0), d1.Finishing(SUCCESS), NoError)
    else SendMissing(s.(updating := 2, flightCount := 0), d1, o, ResendCount(s.flightCount), 0)
  }

  // ---- UpdateBegin ---------------------------------------------------------------------------

  /** The file an UpdateBegin describes; a short one describes nothing. */
  function BeginFile(q: seq<byte>): Descriptor {
    if |q| >= 20 && q[7] == 0xFF then
      var address := Decode32(q, 16);
      Descriptor(Decode16(q, 9), Decode32(q, 11), q[15], address, address)
    else Descriptor(0, 0, 0, 0, 0)
  }

  /** Bit 0 of the flags asks for a fast transfer, unless overridden. */
  function BeginFast(q: seq<byte>, override: Option<bool>): bool {
    |q| >= 20 && q[7] == 0xFF && if override.Some? then override.value else q[8] % 2 == 1
  }

  /** Whether the parameters of an UpdateBegin are accepted: the first preparation succeeds, and the
      chunks can be numbered. */
  function Acceptable(d: Device, o: Oracle, q: seq<byte>): bool {
    var p := o.prepare(d.prepared, BeginFile(q));
    p.ok && ChunkCount(p.file.fileLength, p.file.chunkSize) < MAX_CHUNKS
  }

  /** Whether an UpdateBegin starts a transfer: it is acceptable, the acknowledgement gets out, and the
      second preparation succeeds. */
  function Starts(d: Device, o: Oracle, q: seq<byte>): bool {
    && Acceptable(d, o, q) && o.sendError(d.sent) == NoError
    && o.prepare(d.prepared + 1, o.prepare(d.prepared, BeginFile(q)).file).ok
  }

  /** The descriptor an UpdateBegin leaves in the receiver, as the preparations have changed it. */
  function BegunFile(d: Device, o: Oracle, q: seq<byte>): Descriptor {
    var f := o.prepare(d.prepared, BeginFile(q)).file;
    if o.sendError(d.sent) == NoError && Acceptable(d, o, q) then o.prepare(d.prepared + 1, f).file else f
  }

  /** `handle_update_begin`. Whatever it decides, the file and the flight count are overwritten. */
  ghost function HandleUpdateBegin(s: Ota, d: Device, o: Oracle, q: seq<byte>, override: Option<bool>)
    : (Ota, Device, ProtocolError)
  {
    var f1 := o.prepare(d.prepared, BeginFile(q)).file;
    var accepted := Acceptable(d, o, q);
    var s1 := s.(file := f1, flightCount := 0);
    var d1 := d.Preparing().Sending(BeginAck(accepted));
    if o.sendError(d.sent) != NoError then (s1, d1, o.sendError(d.sent))
    else if !accepted then (s1, d1, NoError)
    else
      var p := o.prepare(d1.prepared, f1);
      if !p.ok then (s1.(file := p.file), d1.Preparing(), NoError)
      else
        (Begun(s1.(file := p.file), BeginFast(q, override)),
         d1.Preparing().Sending(UpdateReady(BeginFast(q, override))), o.sendError(d1.sent))
  }

  /** The receiver at the start of a transfer of its file: nothing received yet, or in a regular transfer
      every bit of the bitmap set. */
  ghost function Begun(s: Ota, fast: bool): Ota {
    var bits := BitmapBits(ChunkCount(s.file.fileLength, s.file.chunkSize));
    s.(updating := 1, chunkIndex := 0, chunkSize := s.file.chunkSize, received := if fast then {} else AllChunks(bits))
  }
}
