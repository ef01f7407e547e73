/** The nanopb encoder as a specification: field descriptors over raw memory, and the bytes they
    stand for on the wire. Static fields only. */
module PbModel {
  import opened Basics

  // ---- Descriptors ---------------------------------------------------------------------------

  /** `PB_LTYPE_*` for static, non-extension fields. */
  datatype LType = Varint | UVarint | SVarint | Fixed32 | Fixed64 | Bytes | String | Submessage | FixedBytes

  /** `PB_HTYPE_*`. */
  datatype HType = Required | Optional | Repeated | OneOf

  /** `pb_field_t`, without the terminator: the end of the list ends the message. `hasSub` says
      whether `ptr` points at the descriptors of a submessage, and `sub` is what it points at. */
  datatype Field = Field(
    tag: nat, ltype: LType, htype: HType,
    dataOffset: nat, sizeOffset: int, dataSize: nat, arraySize: nat, hasSub: bool, sub: seq<Field>)

  /** The memory a message structure lives in, and the width of `pb_size_t` in bytes. */
  datatype Memory = Memory(at: int -> byte, sizeWidth: nat)

  /** The value of `data_offset` that marks a further member of a union, `PB_SIZE_MAX`. */
  function SizeMax(m: Memory): nat {
    Pow256(m.sizeWidth) - 1
  }

  function Pow256(n: nat): (r: nat)
    ensures r > 0
  {
    if n == 0 then 1 else 256 * Pow256(n - 1)
  }

  function ByteAt(m: Memory, at: int, i: nat): byte {
    m.at(at + i)
  }

  /** An unsigned little-endian number of `n` bytes. */
  function ReadU(m: Memory, at: int, n: nat): (r: nat)
    ensures r < Pow256(n)
    decreases n
  {
    if n == 0 then 0 else m.at(at) + 256 * ReadU(m, at + 1, n - 1)
  }

  /** The same bytes as a two's-complement number. */
  function ReadS(m: Memory, at: int, n: nat): int {
    var u := ReadU(m, at, n);
    if 2 * u < Pow256(n) then u else u - Pow256(n)
  }

  /** `*(const pb_size_t*)p`. */
  function ReadSize(m: Memory, at: int): nat {
    ReadU(m, at, m.sizeWidth)
  }

  function Slice(m: Memory, at: int, n: nat): (r: seq<byte>)
    ensures |r| == n && forall i :: 0 <= i < n ==> r[i] == ByteAt(m, at, i)
  {
    seq<byte>(n, i requires 0 <= i < n => ByteAt(m, at, i))
  }

  /** `strnlen`, as the loop of `pb_enc_string` computes it. */
  function StrLen(m: Memory, at: int, max: nat): (r: nat)
    ensures r <= max
    decreases max
  {
    if max == 0 || m.at(at) == 0 then 0 else 1 + StrLen(m, at + 1, max - 1)
  }

  /** Where the data of field `i` lies: `pb_field_iter_begin`, then `pb_field_iter_next` i times. */
  function DataAt(fields: seq<Field>, m: Memory, base: int, i: nat): int
    requires i < |fields|
  {
    if i == 0 then base + fields[0].dataOffset
    else
      var prev, cur := fields[i - 1], fields[i];
      if prev.htype.OneOf? && cur.htype.OneOf? && cur.dataOffset == SizeMax(m) then DataAt(fields, m, base, i - 1)
      else
        var width := if prev.htype.Repeated? then prev.dataSize * prev.arraySize else prev.dataSize;
        DataAt(fields, m, base, i - 1) + width + cur.dataOffset
  }

  // ---- The wire ------------------------------------------------------------------------------

  /** Base 128 varints, least significant group first. */
  function VarintOf(n: nat): (r: seq<byte>)
    ensures |r| > 0
  {
    if n < 128 then [n] else [n % 128 + 128] + VarintOf(n / 128)
  }

  const TWO64: nat := 0x1_0000_0000_0000_0000

  /** A number converted to an unsigned 64-bit one. */
  function ToU64(v: int): nat {
    v % TWO64
  }

  /** `pb_encode_svarint`: `~(v << 1)` for a negative number, `v << 1` otherwise. */
  function ZigZag(v: int): nat {
    var shifted := ToU64(v) * 2 % TWO64;
    if v < 0 then TWO64 - 1 - shifted else shifted
  }

  /** `pb_wire_type_t`. */
  function WireType(t: LType): nat {
    match t
    case Varint => 0
    case UVarint => 0
    case SVarint => 0
    case Fixed64 => 1
    case Fixed32 => 5
    case _ => 2
  }

  function TagBytes(tag: nat, wire: nat): seq<byte> {
    VarintOf(ToU64(tag * 8 + wire))
  }

  function WithLength(b: seq<byte>): seq<byte> {
    VarintOf(ToU64(|b|)) + b
  }

  predicate Packable(t: LType) {
    t.Varint? || t.UVarint? || t.SVarint? || t.Fixed32? || t.Fixed64?
  }

  predicate IsIntSize(n: nat) {
    n == 1 || n == 2 || n == 4 || n == 8
  }

  /** Two outputs in a row; refused if either is. */
  function Then(a: Option<seq<byte>>, b: Option<seq<byte>>): Option<seq<byte>> {
    if a.None? || b.None? then None else Some(a.value + b.value)
  }

  // ---- Encoding ------------------------------------------------------------------------------

  /** The payload of one value, without its tag; none if the encoder refuses it. */
  function ValueBytes(f: Field, m: Memory, at: int): Option<seq<byte>>
    decreases f, 0, 0
  {
    match f.ltype
    case Varint => if IsIntSize(f.dataSize) then Some(VarintOf(ToU64(ReadS(m, at, f.dataSize)))) else None
    case UVarint => if IsIntSize(f.dataSize) then Some(VarintOf(ReadU(m, at, f.dataSize))) else None
    case SVarint => if IsIntSize(f.dataSize) then Some(VarintOf(ZigZag(ReadS(m, at, f.dataSize)))) else None
    case Fixed32 => Some(Slice(m, at, 4))
    case Fixed64 => Some(Slice(m, at, 8))
    case Bytes =>
      var n := ReadSize(m, at);
      if n + m.sizeWidth > f.dataSize then None else Some(WithLength(Slice(m, at + m.sizeWidth, n)))
    case String => Some(WithLength(Slice(m, at, StrLen(m, at, f.dataSize))))
    case FixedBytes => Some(WithLength(Slice(m, at, f.dataSize)))
    case Submessage =>
      if !f.hasSub then None
      else
        var b := MessageBytes(f.sub, m, at);
        if b.None? then None else Some(WithLength(b.value))
  }

  function TaggedBytes(f: Field, m: Memory, at: int): Option<seq<byte>>
    decreases f, 1, 0
  {
    Then(Some(TagBytes(f.tag, WireType(f.ltype))), ValueBytes(f, m, at))
  }

  /** The values of an array one after the other, each with its tag if `tagged`. */
  function ElementsBytes(f: Field, m: Memory, at: int, count: nat, tagged: bool): Option<seq<byte>>
    decreases f, 2, count
  {
    if count == 0 then Some([])
    else
      var p := at + (count - 1) * f.dataSize;
      Then(ElementsBytes(f, m, at, count - 1, tagged), if tagged then TaggedBytes(f, m, p) else ValueBytes(f, m, p))
  }

  /** `encode_array`: packed if the type allows it. */
  function ArrayBytes(f: Field, m: Memory, at: int, count: nat): Option<seq<byte>>
    decreases f, 3, 0
  {
    if count == 0 then Some([])
    else if count > f.arraySize then None
    else if Packable(f.ltype) then
      var b := ElementsBytes(f, m, at, count, false);
      if b.None? then None else Then(Some(TagBytes(f.tag, 2)), Some(WithLength(b.value)))
    else ElementsBytes(f, m, at, count, true)
  }

  /** Whether an optional, repeated or oneof field is there. */
  function Present(f: Field, m: Memory, at: int): bool
    decreases f, 2, 0
  {
    match f.htype
    case Required => true
    case Optional => if f.sizeOffset != 0 then m.at(at + f.sizeOffset) != 0 else !IsDefault(f, m, at)
    case Repeated => true
    case OneOf => (if f.sizeOffset != 0 then ReadSize(m, at + f.sizeOffset) else 1) == f.tag
  }

  /** The number of elements of a repeated field. Without a size offset it reads the local flag. */
  function CountOf(f: Field, m: Memory, at: int): nat {
    if f.sizeOffset != 0 then ReadSize(m, at + f.sizeOffset) else 1
  }

  /** `encode_basic_field`. */
  function FieldBytes(f: Field, m: Memory, at: int): Option<seq<byte>>
    decreases f, 4, 0
  {
    if f.htype.Repeated? then ArrayBytes(f, m, at, CountOf(f, m, at))
    else if Present(f, m, at) then TaggedBytes(f, m, at)
    else Some([])
  }

  /** Fields `0..i` of a message. */
  function FieldsBytes(fields: seq<Field>, m: Memory, base: int, i: nat): Option<seq<byte>>
    requires i <= |fields|
    decreases fields, 0, i
  {
    if i == 0 then Some([])
    else
      Then(FieldsBytes(fields, m, base, i - 1), FieldBytes(fields[i - 1], m, DataAt(fields, m, base, i - 1)))
  }

  /** `pb_encode`. */
  function MessageBytes(fields: seq<Field>, m: Memory, base: int): Option<seq<byte>>
    decreases fields, 1, 0
  {
    FieldsBytes(fields, m, base, |fields|)
  }

  // ---- Defaults ------------------------------------------------------------------------------

  /** `pb_check_proto3_default_value`. */
  function IsDefault(f: Field, m: Memory, at: int): bool
    decreases f, 1, 0
  {
    match f.htype
    case Required => false
    case Repeated => ReadSize(m, at + f.sizeOffset) == 0
    case OneOf => ReadSize(m, at + f.sizeOffset) == 0
    case Optional =>
      if f.sizeOffset != 0 then m.at(at + f.sizeOffset) == 0
      else
        match f.ltype
        case Bytes => ReadSize(m, at) == 0
        case String => m.at(at) == 0
        case FixedBytes => f.dataSize == 0
        case Submessage => AllDefault(f.sub, m, at, 0)
        case _ => forall i :: 0 <= i < f.dataSize ==> ByteAt(m, at, i) == 0
  }

  /** The loop over the fields of a submessage, from field `i`. */
  function AllDefault(fields: seq<Field>, m: Memory, base: int, i: nat): bool
    requires i <= |fields|
    decreases fields, 0, |fields| - i
  {
    i == |fields| || (IsDefault(fields[i], m, DataAt(fields, m, base, i)) && AllDefault(fields, m, base, i + 1))
  }
}
