/** `pb_encode.c` and `pb_common.c`: the encoder and the field iterator, step by step. */
module PbEncoder {
  import opened Basics
  import opened PbModel
  import opened PbStream

  // ---- Field iterator ------------------------------------------------------------------------

  class FieldIter {
    const fields: seq<Field>
    const m: Memory
    const base: int
    var pos: nat
    var requiredFieldIndex: nat
    var pData: int
    var pSize: int

    ghost predicate Valid()
      reads this
    {
      && pos < |fields|
      && pData == DataAt(fields, m, base, pos)
      && pSize == SizeAt(fields, m, base, pos)
      && requiredFieldIndex == RequiredBefore(fields, pos)
    }

    /** Creates the iterator; `pb_field_iter_begin` on a non-empty message. */
    constructor (fields: seq<Field>, m: Memory, base: int)
      requires fields != []
      ensures Valid() && this.fields == fields && this.m == m && this.base == base && pos == 0
    {
      this.fields, this.m, this.base := fields, m, base;
      pos, requiredFieldIndex := 0, 0;
      pData := base + fields[0].dataOffset;
      pSize := base + fields[0].dataOffset + fields[0].sizeOffset;
    }

    method Begin()
      requires fields != []
      modifies this
      ensures Valid() && pos == 0
    {
      pos, requiredFieldIndex := 0, 0;
      pData := base + fields[0].dataOffset;
      pSize := pData + fields[0].sizeOffset;
    }

    /** `pb_field_iter_next`: false when it has wrapped to the first field. */
    method Next() returns (more: bool)
      requires Valid()
      modifies this
      ensures Valid()
      ensures more == (old(pos) + 1 < |fields|)
      ensures pos == if more then old(pos) + 1 else 0
    {
      var prev := fields[pos];
      if pos + 1 == |fields| {
        Begin();
        return false;
      }
      pos := pos + 1;
      var cur := fields[pos];
      var prevSize := prev.dataSize;
      if prev.htype.OneOf? && cur.htype.OneOf? && cur.dataOffset == SizeMax(m) {
        return true;
      } else if prev.htype.Repeated? {
        prevSize := prevSize * prev.arraySize;
      }
      if prev.htype.Required? {
        requiredFieldIndex := requiredFieldIndex + 1;
      }
      pData := pData + prevSize + cur.dataOffset;
      pSize := pData + cur.sizeOffset;
      return true;
    }

    /** `pb_field_iter_find`: goes round at most once, and finds the tag exactly if some field has it. */
    method Find(tag: nat) returns (found: bool)
      requires Valid()
      modifies this
      ensures Valid()
      ensures found <==> exists i :: 0 <= i < |fields| && fields[i].tag == tag
      ensures if found then fields[pos].tag == tag else pos == old(pos)
    {
      var start := pos;
      ghost var seen, n := 0, |fields|;
      while true
        invariant Valid() && seen < n
        invariant pos == if start + seen < n then start + seen else start + seen - n
        invariant forall i :: 0 <= i < n && (start <= i < start + seen || i + n < start + seen) ==> fields[i].tag != tag
        decreases n - seen
      {
        if fields[pos].tag == tag {
          return true;
        }
        var more := Next();
        seen := seen + 1;
        if pos == start {
          return false;
        }
      }
    }
  }

  /** Where the iterator says the size of field `i` lies: inside a union it stays where it was. */
  function SizeAt(fields: seq<Field>, m: Memory, base: int, i: nat): int
    requires i < |fields|
  {
    if i > 0 && fields[i - 1].htype.OneOf? && fields[i].htype.OneOf? && fields[i].dataOffset == SizeMax(m)
    then SizeAt(fields, m, base, i - 1)
    else DataAt(fields, m, base, i) + fields[i].sizeOffset
  }

  /** The members of a union share their data and, as the generator gives them one size offset, the tag
      that says which is set: the pointer the iterator keeps is the one the encoder computes. */
  lemma {:induction false} UnionSharesSize(fields: seq<Field>, m: Memory, base: int, i: nat)
    requires i < |fields|
    requires forall k :: 0 < k <= i && fields[k - 1].htype.OneOf? && fields[k].htype.OneOf? ==>
               fields[k].dataOffset == SizeMax(m) ==> fields[k].sizeOffset == fields[k - 1].sizeOffset
    ensures SizeAt(fields, m, base, i) == DataAt(fields, m, base, i) + fields[i].sizeOffset
  {
    if i == 0 {
    } else {
      UnionSharesSize(fields, m, base, i - 1);
    }
  }

  ghost function RequiredBefore(fields: seq<Field>, i: nat): nat
    requires i < |fields|
  {
    if i == 0 then 0
    else RequiredBefore(fields, i - 1) + (if fields[i - 1].htype.Required? then 1 else 0)
  }

  // ---- Scalars -------------------------------------------------------------------------------

  function Pow128(n: nat): nat {
    if n == 0 then 1 else 128 * Pow128(n - 1)
  }

  /** Ten groups of seven bits hold any 64-bit number. */
  lemma TenGroups()
    ensures Pow128(10) > TWO64
  {
    assert Pow128(2) == 0x4000;
    assert Pow128(4) == 0x1000_0000;
    assert Pow128(6) == 0x400_0000_0000;
    assert Pow128(8) == 0x100_0000_0000_0000;
    assert Pow128(10) == 0x100_0000_0000_0000 * 0x4000;
  }

  /** The groups collected so far, the last with its continuation bit cleared once nothing is left. */
  function Finished(groups: seq<byte>): seq<byte>
    requires groups != [] && groups[|groups| - 1] >= 128
  {
    groups[|groups| - 1 := groups[|groups| - 1] - 128]
  }

  /** `pb_encode_varint`. */
  method EncodeVarint(stream: OStream, value: nat) returns (ok: bool)
    requires Sane(stream.View()) && value < TWO64
    modifies stream, stream.buf
    ensures Did(old(stream.View()), stream.View(), ok, Some(VarintOf(value)))
    ensures !stream.writing ==> stream.buf[..] == old(stream.buf[..])
  {
    if value <= 0x7F {
      ok := stream.Write([value]);
      return;
    }
    var buffer := Groups(value);
    ok := stream.Write(buffer);
  }

  /** One more group: seven bits move from the number to the buffer. */
  lemma VarintStep(groups: seq<byte>, rest: nat)
    requires rest >= 128
    ensures groups + VarintOf(rest) == groups + [rest % 128 + 128] + VarintOf(rest / 128)
  {
  }

  lemma VarintLast(groups: seq<byte>, rest: nat)
    requires rest < 128
    ensures rest / 128 == 0 && groups + VarintOf(rest) == Finished(groups + [rest % 128 + 128])
  {
    FinishedAt(groups + [rest + 128], groups + [rest]);
  }

  lemma GroupsLeft(rest: nat, n: nat)
    requires 0 < rest < Pow128(n)
    ensures n > 0 && rest / 128 < Pow128(n - 1)
  {
  }

  /** The loop of `pb_encode_varint`, over its ten-byte buffer. */
  method Groups(value: nat) returns (r: seq<byte>)
    requires 0x7F < value < TWO64
    ensures r == VarintOf(value)
  {
    hide VarintOf, Pow128, Finished;
    var buffer := new byte[10];
    var i: nat := 0;
    var rest: nat := value;
    TenGroups();
    while rest > 0
      invariant i <= 10 && rest < Pow128(10 - i)
      invariant rest > 0 ==> VarintOf(value) == buffer[..i] + VarintOf(rest)
      invariant rest == 0 ==> i > 0 && buffer[i - 1] >= 128 && VarintOf(value) == Finished(buffer[..i])
    {
      GroupsLeft(rest, 10 - i);
      if rest >= 128 {
        VarintStep(buffer[..i], rest);
      } else {
        VarintLast(buffer[..i], rest);
      }
      ghost var before := buffer[..i];
      buffer[i] := rest % 128 + 128;
      i := i + 1;
      assert buffer[..i] == before + [rest % 128 + 128];
      rest := rest / 128;
    }
    ghost var groups := buffer[..i];
    buffer[i - 1] := buffer[i - 1] - 128;
    r := buffer[..i];
    FinishedAt(groups, r);
  }

  lemma FinishedAt(groups: seq<byte>, r: seq<byte>)
    requires |groups| == |r| > 0 && groups[|r| - 1] >= 128 && r[|r| - 1] == groups[|r| - 1] - 128
    requires r[..|r| - 1] == groups[..|r| - 1]
    ensures r == Finished(groups)
  {
    assert r == r[..|r| - 1] + [r[|r| - 1]];
    assert Finished(groups) == groups[..|r| - 1] + [r[|r| - 1]];
  }

  /** `pb_encode_svarint`. */
  method EncodeSVarint(stream: OStream, value: int) returns (ok: bool)
    requires Sane(stream.View())
    modifies stream, stream.buf
    ensures Did(old(stream.View()), stream.View(), ok, Some(VarintOf(ZigZag(value))))
    ensures !stream.writing ==> stream.buf[..] == old(stream.buf[..])
  {
    var zigzagged := ToU64(value) * 2 % TWO64;
    if value < 0 {
      zigzagged := TWO64 - 1 - zigzagged;
    }
    ok := EncodeVarint(stream, zigzagged);
  }

  /** The bytes of a little-endian number, taken apart arithmetically, are the bytes in memory. */
  lemma LowByte(m: Memory, at: int, n: nat)
    requires n > 0
    ensures ReadU(m, at, n) % 256 == m.at(at) && ReadU(m, at, n) / 256 == ReadU(m, at + 1, n - 1)
  {
  }

  function BytesOf(v: nat, n: nat): seq<byte> {
    if n == 0 then [] else [v % 256] + BytesOf(v / 256, n - 1)
  }

  lemma {:induction false} BytesOfRead(m: Memory, at: int, n: nat)
    ensures BytesOf(ReadU(m, at, n), n) == Slice(m, at, n)
    decreases n
  {
    if n == 0 {
    } else {
      LowByte(m, at, n);
      BytesOfRead(m, at + 1, n - 1);
      assert Slice(m, at, n) == [m.at(at)] + Slice(m, at + 1, n - 1) by {
        assert forall i :: 0 < i < n ==> ByteAt(m, at, i) == ByteAt(m, at + 1, i - 1);
      }
    }
  }

  lemma FourBytes(v: nat)
    ensures BytesOf(v, 4) == [v % 256, v / 0x100 % 256, v / 0x1_0000 % 256, v / 0x100_0000 % 256]
  {
    var v1, v2, v3 := v / 256, v / 256 / 256, v / 256 / 256 / 256;
    assert v2 == v / 0x1_0000 && v3 == v / 0x100_0000;
    assert BytesOf(v3, 1) == [v3 % 256];
    assert BytesOf(v2, 2) == [v2 % 256, v3 % 256];
    assert BytesOf(v1, 3) == [v1 % 256, v2 % 256, v3 % 256];
  }

  lemma EightBytes(v: nat)
    ensures BytesOf(v, 8) == BytesOf(v, 4) + BytesOf(v / 0x1_0000_0000, 4)
  {
    FourBytes(v);
    var v4 := v / 256 / 256 / 256 / 256;
    assert v4 == v / 0x1_0000_0000;
    var v1, v2, v3 := v / 256, v / 256 / 256, v / 256 / 256 / 256;
    assert BytesOf(v3, 5) == [v3 % 256] + BytesOf(v4, 4);
    assert BytesOf(v2, 6) == [v2 % 256] + BytesOf(v3, 5);
    assert BytesOf(v1, 7) == [v1 % 256] + BytesOf(v2, 6);
    assert BytesOf(v, 8) == [v % 256] + BytesOf(v1, 7);
  }

  /** `pb_encode_fixed32`. */
  method EncodeFixed32(stream: OStream, m: Memory, at: int) returns (ok: bool)
    requires Sane(stream.View())
    modifies stream, stream.buf
    ensures Did(old(stream.View()), stream.View(), ok, Some(Slice(m, at, 4)))
    ensures !stream.writing ==> stream.buf[..] == old(stream.buf[..])
  {
    var val := ReadU(m, at, 4);
    var bytes: seq<byte> := [val % 256, val / 0x100 % 256, val / 0x1_0000 % 256, val / 0x100_0000 % 256];
    FourBytes(val);
    BytesOfRead(m, at, 4);
    ok := stream.Write(bytes);
  }

  /** `pb_encode_fixed64`. */
  method EncodeFixed64(stream: OStream, m: Memory, at: int) returns (ok: bool)
    requires Sane(stream.View())
    modifies stream, stream.buf
    ensures Did(old(stream.View()), stream.View(), ok, Some(Slice(m, at, 8)))
    ensures !stream.writing ==> stream.buf[..] == old(stream.buf[..])
  {
    var val := ReadU(m, at, 8);
    var high := val / 0x1_0000_0000;
    var bytes: seq<byte> := [
      val % 256, val / 0x100 % 256, val / 0x1_0000 % 256, val / 0x100_0000 % 256,
      high % 256, high / 0x100 % 256, high / 0x1_0000 % 256, high / 0x100_0000 % 256];
    FourBytes(val);
    FourBytes(high);
    EightBytes(val);
    BytesOfRead(m, at, 8);
    assert bytes == BytesOf(val, 8);
    ok := stream.Write(bytes);
  }

  /** `pb_encode_tag`. */
  method EncodeTag(stream: OStream, wire: nat, tag: nat) returns (ok: bool)
    requires Sane(stream.View())
    modifies stream, stream.buf
    ensures Did(old(stream.View()), stream.View(), ok, Some(TagBytes(tag, wire)))
    ensures !stream.writing ==> stream.buf[..] == old(stream.buf[..])
  {
    ok := EncodeVarint(stream, ToU64(tag * 8 + wire));
  }

  /** `pb_encode_string`. */
  method EncodeString(stream: OStream, data: seq<byte>) returns (ok: bool)
    requires Sane(stream.View())
    modifies stream, stream.buf
    ensures Did(old(stream.View()), stream.View(), ok, Some(WithLength(data)))
    ensures !stream.writing ==> stream.buf[..] == old(stream.buf[..])
  {
    hide Did, VarintOf;
    ghost var v := stream.View();
    ok := EncodeVarint(stream, ToU64(|data|));
    ghost var v1 := stream.View();
    assert Then(Some(VarintOf(ToU64(|data|))), Some(data)) == Some(WithLength(data));
    if !ok {
      DidFail(v, v1, Some(VarintOf(ToU64(|data|))), Some(data));
      return;
    }
    DidSane(v, v1, ok, Some(VarintOf(ToU64(|data|))));
    ok := stream.Write(data);
    DidBoth(v, v1, stream.View(), Some(VarintOf(ToU64(|data|))), ok, Some(data));
  }

  lemma DidSane(v: Out, v': Out, ok: bool, e: Option<seq<byte>>)
    requires Did(v, v', ok, e)
    ensures Sane(v')
  {
  }

  /** The loop of `pb_enc_string`. */
  method StringLength(m: Memory, at: int, max: nat) returns (size: nat)
    ensures size == StrLen(m, at, max)
  {
    size := 0;
    while size < max && m.at(at + size) != 0
      invariant size <= max
      invariant StrLen(m, at, max) == size + StrLen(m, at + size, max - size)
    {
      size := size + 1;
    }
  }

  // ---- Prefixes ------------------------------------------------------------------------------

  /** If a later prefix of the output is accepted and fits, so is every earlier one. */
  lemma {:induction false} FieldsPrefix(fields: seq<Field>, m: Memory, base: int, i: nat, n: nat)
    requires i <= n <= |fields|
    ensures var a, b := FieldsBytes(fields, m, base, i), FieldsBytes(fields, m, base, n);
            b.Some? ==> a.Some? && |a.value| <= |b.value|
    decreases n - i
  {
    hide FieldBytes;
    if i >= n {
    } else {
      FieldsPrefix(fields, m, base, i, n - 1);
    }
  }

  lemma {:induction false} ElementsPrefix(f: Field, m: Memory, at: int, i: nat, n: nat, tagged: bool)
    requires i <= n
    ensures var a, b := ElementsBytes(f, m, at, i, tagged), ElementsBytes(f, m, at, n, tagged);
            b.Some? ==> a.Some? && |a.value| <= |b.value|
    decreases n - i
  {
    hide ValueBytes, TaggedBytes;
    if i >= n {
    } else {
      ElementsPrefix(f, m, at, i, n - 1, tagged);
    }
  }

  lemma FailureStays(v: Out, v': Out, a: Option<seq<byte>>, b: Option<seq<byte>>)
    requires Did(v, v', false, a)
    requires b.Some? ==> a.Some? && |a.value| <= |b.value|
    ensures Did(v, v', false, b)
  {
  }

  /** A packed array of a fixed-width type takes that width per element. */
  lemma {:induction false} FixedElements(f: Field, m: Memory, at: int, count: nat)
    requires f.ltype.Fixed32? || f.ltype.Fixed64?
    ensures var b := ElementsBytes(f, m, at, count, false);
            b.Some? && |b.value| == (if f.ltype.Fixed32? then 4 else 8) * count
    decreases count
  {
    if count == 0 {
    } else {
      FixedElements(f, m, at, count - 1);
    }
  }

  // ---- Values --------------------------------------------------------------------------------

  /** The dispatch through `PB_ENCODERS` and the encoders it selects. */
  method EncodeValue(stream: OStream, f: Field, m: Memory, at: int) returns (ok: bool)
    requires Sane(stream.View())
    modifies stream, stream.buf
    ensures Did(old(stream.View()), stream.View(), ok, ValueBytes(f, m, at))
    ensures !stream.writing && ok ==> stream.buf[..] == old(stream.buf[..])
    decreases f, 0, 0
  {
    match f.ltype {
      case Varint =>
        if !IsIntSize(f.dataSize) { return false; }
        ok := EncodeVarint(stream, ToU64(ReadS(m, at, f.dataSize)));
      case UVarint =>
        if !IsIntSize(f.dataSize) { return false; }
        IntFits(m, at, f.dataSize);
        ok := EncodeVarint(stream, ReadU(m, at, f.dataSize));
      case SVarint =>
        if !IsIntSize(f.dataSize) { return false; }
        ok := EncodeSVarint(stream, ReadS(m, at, f.dataSize));
      case Fixed32 => ok := EncodeFixed32(stream, m, at);
      case Fixed64 => ok := EncodeFixed64(stream, m, at);
      case Bytes =>
        var size := ReadSize(m, at);
        if size + m.sizeWidth > f.dataSize { return false; }
        ok := EncodeString(stream, Slice(m, at + m.sizeWidth, size));
      case String =>
        var size := StringLength(m, at, f.dataSize);
        ok := EncodeString(stream, Slice(m, at, size));
      case FixedBytes => ok := EncodeString(stream, Slice(m, at, f.dataSize));
      case Submessage =>
        if !f.hasSub { return false; }
        ok := EncodeSubmessage(stream, f.sub, m, at);
    }
  }

  lemma IntFits(m: Memory, at: int, n: nat)
    requires IsIntSize(n)
    ensures ReadU(m, at, n) < TWO64
  {
    assert Pow256(2) == 0x1_0000;
    assert Pow256(4) == 0x1_0000_0000;
    assert Pow256(6) == 0x1_0000_0000_0000;
  }

  function SubmessageBytes(fields: seq<Field>, m: Memory, at: int): Option<seq<byte>> {
    var b := MessageBytes(fields, m, at);
    if b.None? then None else Some(WithLength(b.value))
  }

  /** `pb_encode_submessage`: one pass to learn the size, one to write. The second pass cannot come
      out at another size than the first. */
  method EncodeSubmessage(stream: OStream, fields: seq<Field>, m: Memory, at: int) returns (ok: bool)
    requires Sane(stream.View())
    modifies stream, stream.buf
    ensures Did(old(stream.View()), stream.View(), ok, SubmessageBytes(fields, m, at))
    ensures !stream.writing && ok ==> stream.buf[..] == old(stream.buf[..])
    decreases fields, 2, 0
  {
    hide MessageBytes, VarintOf;
    var sizing := new OStream(false, 0, stream.buf, 0);
    ok := EncodeMessage(sizing, fields, m, at);
    if !ok {
      return false;
    }
    ghost var b := MessageBytes(fields, m, at).value;
    ghost var v := stream.View();
    var size := sizing.bytesWritten;
    assert size == |b|;
    ok := EncodeVarint(stream, ToU64(size));
    ghost var v1 := stream.View();
    ghost var head := VarintOf(ToU64(size));
    assert Then(Some(head), Some(b)) == Some(WithLength(b));
    if !ok {
      DidFail(v, v1, Some(head), Some(b));
      return false;
    }
    if !stream.writing {
      ok := stream.Count(b, size);
      DidBoth(v, v1, stream.View(), Some(head), ok, Some(b));
      return;
    }
    if stream.bytesWritten + size > stream.maxSize {
      return false;
    }
    var sub := new OStream(true, size, stream.buf, stream.state);
    var status := EncodeMessage(sub, fields, m, at);
    stream.bytesWritten := stream.bytesWritten + sub.bytesWritten;
    stream.state := sub.state;
    DidBoth(v, v1, stream.View(), Some(head), true, Some(b));
    if sub.bytesWritten != size {
      assert false;
    }
    return status;
  }

  /** `pb_encode_tag_for_field` and the encoder of the field after it. */
  method EncodeTagged(stream: OStream, f: Field, m: Memory, at: int) returns (ok: bool)
    requires Sane(stream.View())
    modifies stream, stream.buf
    ensures Did(old(stream.View()), stream.View(), ok, TaggedBytes(f, m, at))
    ensures !stream.writing && ok ==> stream.buf[..] == old(stream.buf[..])
    decreases f, 1, 0
  {
    hide ValueBytes, TagBytes;
    ghost var v, tag := stream.View(), Some(TagBytes(f.tag, WireType(f.ltype)));
    ok := EncodeTag(stream, WireType(f.ltype), f.tag);
    ghost var v1 := stream.View();
    if !ok {
      DidFail(v, v1, tag, ValueBytes(f, m, at));
      return;
    }
    ok := EncodeValue(stream, f, m, at);
    DidBoth(v, v1, stream.View(), tag, ok, ValueBytes(f, m, at));
  }

  // ---- Arrays --------------------------------------------------------------------------------

  /** The loops of `encode_array`. */
  method EncodeElements(stream: OStream, f: Field, m: Memory, at: int, count: nat, tagged: bool) returns (ok: bool)
    requires Sane(stream.View())
    modifies stream, stream.buf
    ensures Did(old(stream.View()), stream.View(), ok, ElementsBytes(f, m, at, count, tagged))
    ensures !stream.writing && ok ==> stream.buf[..] == old(stream.buf[..])
    decreases f, 2, 0
  {
    hide ValueBytes, TaggedBytes, Did, Appended;
    ghost var v := stream.View();
    DidNothing(v);
    var p := at;
    var i := 0;
    while i < count
      invariant i <= count && p == at + i * f.dataSize
      invariant Did(v, stream.View(), true, ElementsBytes(f, m, at, i, tagged))
      invariant !stream.writing ==> stream.buf[..] == old(stream.buf[..])
    {
      ghost var v1, sofar := stream.View(), ElementsBytes(f, m, at, i, tagged);
      DidSane(v, v1, true, sofar);
      if tagged {
        ok := EncodeTagged(stream, f, m, p);
        NextElement(v, v1, stream.View(), f, m, at, i, tagged, ok, TaggedBytes(f, m, p));
      } else {
        ok := EncodeValue(stream, f, m, p);
        NextElement(v, v1, stream.View(), f, m, at, i, tagged, ok, ValueBytes(f, m, p));
      }
      if !ok {
        ElementsPrefix(f, m, at, i + 1, count, tagged);
        FailureStays(v, stream.View(), ElementsBytes(f, m, at, i + 1, tagged), ElementsBytes(f, m, at, count, tagged));
        return;
      }
      p := p + f.dataSize;
      i := i + 1;
    }
    return true;
  }

  lemma NextElement(v: Out, v1: Out, v2: Out, f: Field, m: Memory, at: int, i: nat, tagged: bool,
                    ok: bool, e: Option<seq<byte>>)
    requires Did(v, v1, true, ElementsBytes(f, m, at, i, tagged)) && Did(v1, v2, ok, e)
    requires var p := at + i * f.dataSize; e == if tagged then TaggedBytes(f, m, p) else ValueBytes(f, m, p)
    ensures Did(v, v2, ok, ElementsBytes(f, m, at, i + 1, tagged))
  {
    hide Did, ValueBytes, TaggedBytes;
    DidBoth(v, v1, v2, ElementsBytes(f, m, at, i, tagged), ok, e);
  }

  /** The size of the elements of a packed array, as `encode_array` determines it. */
  method PackedSize(buf: array<byte>, f: Field, m: Memory, at: int, count: nat) returns (ok: bool, size: nat)
    requires Packable(f.ltype)
    modifies buf
    ensures var b := ElementsBytes(f, m, at, count, false);
            ok == b.Some? && (ok ==> size == |b.value| && buf[..] == old(buf[..]))
    decreases f, 3, 0
  {
    if f.ltype.Fixed32? {
      FixedElements(f, m, at, count);
      return true, 4 * count;
    } else if f.ltype.Fixed64? {
      FixedElements(f, m, at, count);
      return true, 8 * count;
    }
    var sizing := new OStream(false, 0, buf, 0);
    ok := EncodeElements(sizing, f, m, at, count, false);
    size := sizing.bytesWritten;
  }

  /** `encode_array`. */
  method EncodeArray(stream: OStream, f: Field, m: Memory, at: int, count: nat) returns (ok: bool)
    requires Sane(stream.View())
    modifies stream, stream.buf
    ensures Did(old(stream.View()), stream.View(), ok, ArrayBytes(f, m, at, count))
    ensures !stream.writing && ok ==> stream.buf[..] == old(stream.buf[..])
    decreases f, 4, 0
  {
    hide ElementsBytes, Did, TagBytes, VarintOf, Appended;
    ghost var v := stream.View();
    if count == 0 {
      DidNothing(v);
      return true;
    }
    if count > f.arraySize {
      DidRefuse(v);
      return false;
    }
    if !Packable(f.ltype) {
      ok := EncodeElements(stream, f, m, at, count, true);
      return;
    }
    ghost var b := ElementsBytes(f, m, at, count, false);
    ghost var tag := Some(TagBytes(f.tag, 2));
    ok := EncodeTag(stream, 2, f.tag);
    ghost var v1 := stream.View();
    PackedShape(f, m, at, count);
    if !ok {
      DidFail(v, v1, tag, Then(Some(VarintOf(ToU64(if b.Some? then |b.value| else 0))), b));
      return;
    }
    DidSane(v, v1, ok, tag);
    var sized, size := PackedSize(stream.buf, f, m, at, count);
    if !sized {
      DidRefuseAfter(v, v1, tag, stream.View());
      return false;
    }
    ok := EncodePacked(stream, f, m, at, count, size);
    DidBoth(v, v1, stream.View(), tag, ok, Then(Some(VarintOf(ToU64(size))), b));
  }

  /** The length and the elements of a packed array. */
  method EncodePacked(stream: OStream, f: Field, m: Memory, at: int, count: nat, size: nat) returns (ok: bool)
    requires Sane(stream.View())
    requires var b := ElementsBytes(f, m, at, count, false); b.Some? && size == |b.value|
    modifies stream, stream.buf
    ensures Did(old(stream.View()), stream.View(), ok,
                Then(Some(VarintOf(ToU64(size))), ElementsBytes(f, m, at, count, false)))
    ensures !stream.writing && ok ==> stream.buf[..] == old(stream.buf[..])
    decreases f, 3, 0
  {
    hide ElementsBytes, Did, VarintOf, Appended;
    ghost var v, b, head := stream.View(), ElementsBytes(f, m, at, count, false), Some(VarintOf(ToU64(size)));
    ok := EncodeVarint(stream, ToU64(size));
    ghost var v1 := stream.View();
    if !ok {
      DidFail(v, v1, head, b);
      return;
    }
    DidSane(v, v1, ok, head);
    if !stream.writing {
      ok := stream.Count(b.value, size);
      DidBoth(v, v1, stream.View(), head, ok, b);
      return;
    }
    ok := EncodeElements(stream, f, m, at, count, false);
    DidBoth(v, v1, stream.View(), head, ok, b);
  }

  lemma DidRefuse(v: Out)
    requires Sane(v)
    ensures Did(v, v, false, None)
  {
  }

  lemma DidRefuseAfter(v: Out, v1: Out, e: Option<seq<byte>>, v2: Out)
    requires Did(v, v1, true, e)
    requires v2 == v1.(buf := v2.buf) && |v2.buf| == |v1.buf|
    ensures Did(v, v2, false, None)
  {
  }

  lemma PackedShape(f: Field, m: Memory, at: int, count: nat)
    requires 0 < count <= f.arraySize && Packable(f.ltype)
    ensures var b := ElementsBytes(f, m, at, count, false);
            ArrayBytes(f, m, at, count) ==
            if b.None? then None
            else Then(Some(TagBytes(f.tag, 2)), Then(Some(VarintOf(ToU64(|b.value|))), b))
  {
    hide ElementsBytes, VarintOf;
  }

  // ---- Fields and messages -------------------------------------------------------------------

  /** `pb_check_proto3_default_value`: the bytes of a scalar one by one, the fields of a submessage
      through the iterator. */
  method CheckDefault(f: Field, m: Memory, at: int) returns (r: bool)
    ensures r == IsDefault(f, m, at)
    decreases f, 1, 0
  {
    var pSize := at + f.sizeOffset;
    if f.htype.Required? {
      return false;
    } else if f.htype.Repeated? {
      return ReadSize(m, pSize) == 0;
    } else if f.htype.OneOf? {
      return ReadSize(m, pSize) == 0;
    } else if f.sizeOffset != 0 {
      return m.at(pSize) == 0;
    }
    if f.ltype.Bytes? {
      return ReadSize(m, at) == 0;
    } else if f.ltype.String? {
      return m.at(at) == 0;
    } else if f.ltype.FixedBytes? {
      return f.dataSize == 0;
    } else if f.ltype.Submessage? {
      r := CheckDefaults(f.sub, m, at);
      return;
    }
    var i: nat := 0;
    while i < f.dataSize
      invariant i <= f.dataSize && forall k :: 0 <= k < i ==> ByteAt(m, at, k) == 0
    {
      if ByteAt(m, at, i) != 0 {
        return false;
      }
      i := i + 1;
    }
    return true;
  }

  /** The submessage branch of `pb_check_proto3_default_value`. */
  method CheckDefaults(fields: seq<Field>, m: Memory, base: int) returns (r: bool)
    ensures r == AllDefault(fields, m, base, 0)
    decreases fields, 0, 0
  {
    hide IsDefault, DataAt;
    if fields == [] {
      return true;
    }
    var iter := new FieldIter(fields, m, base);
    var more := true;
    ghost var i: nat := 0;
    while more
      invariant iter.Valid() && iter.fields == fields && iter.m == m && iter.base == base
      invariant i <= |fields| && (if more then iter.pos == i else i == |fields|)
      invariant AllDefault(fields, m, base, 0) == AllDefault(fields, m, base, i)
      decreases |fields| - i, more
    {
      var default := CheckDefault(fields[iter.pos], m, iter.pData);
      if !default {
        return false;
      }
      more := iter.Next();
      i := i + 1;
    }
    return true;
  }

  /** `encode_basic_field`. */
  method EncodeField(stream: OStream, f: Field, m: Memory, at: int) returns (ok: bool)
    requires Sane(stream.View())
    modifies stream, stream.buf
    ensures Did(old(stream.View()), stream.View(), ok, FieldBytes(f, m, at))
    ensures !stream.writing && ok ==> stream.buf[..] == old(stream.buf[..])
    decreases f, 5, 0
  {
    hide ArrayBytes, TaggedBytes, Did, IsDefault, Appended;
    match f.htype {
      case Repeated =>
        ok := EncodeArray(stream, f, m, at, CountOf(f, m, at));
      case Required =>
        ok := EncodeTagged(stream, f, m, at);
      case Optional =>
        var has := m.at(at + f.sizeOffset) != 0;
        if f.sizeOffset == 0 {
          var default := CheckDefault(f, m, at);
          has := !default;
        }
        if has {
          ok := EncodeTagged(stream, f, m, at);
        } else {
          DidNothing(stream.View());
          return true;
        }
      case OneOf =>
        var which := if f.sizeOffset != 0 then ReadSize(m, at + f.sizeOffset) else 1;
        if which == f.tag {
          ok := EncodeTagged(stream, f, m, at);
        } else {
          DidNothing(stream.View());
          return true;
        }
    }
  }

  /** `pb_encode`: it succeeds exactly if no field is refused and the output fits, and then the output
      is exactly the specified one. */
  method EncodeMessage(stream: OStream, fields: seq<Field>, m: Memory, base: int) returns (ok: bool)
    requires Sane(stream.View())
    modifies stream, stream.buf
    ensures Did(old(stream.View()), stream.View(), ok, MessageBytes(fields, m, base))
    ensures !stream.writing && ok ==> stream.buf[..] == old(stream.buf[..])
    decreases fields, 1, 0
  {
    hide FieldBytes, Did, DataAt, Appended;
    ghost var v := stream.View();
    DidNothing(v);
    if fields == [] {
      return true;
    }
    var iter := new FieldIter(fields, m, base);
    var more := true;
    ghost var i := 0;
    while more
      invariant iter.Valid() && iter.fields == fields && iter.m == m && iter.base == base
      invariant i <= |fields| && (if more then iter.pos == i else i == |fields|)
      invariant Did(v, stream.View(), true, FieldsBytes(fields, m, base, i))
      invariant !stream.writing ==> stream.buf[..] == old(stream.buf[..])
      decreases |fields| - i, more
    {
      ghost var v1, sofar := stream.View(), FieldsBytes(fields, m, base, i);
      DidSane(v, v1, true, sofar);
      ghost var e := FieldBytes(fields[i], m, DataAt(fields, m, base, i));
      ok := EncodeField(stream, fields[iter.pos], m, iter.pData);
      DidBoth(v, v1, stream.View(), sofar, ok, e);
      assert FieldsBytes(fields, m, base, i + 1) == Then(sofar, e);
      if !ok {
        FieldsPrefix(fields, m, base, i + 1, |fields|);
        FailureStays(v, stream.View(), FieldsBytes(fields, m, base, i + 1), MessageBytes(fields, m, base));
        return;
      }
      more := iter.Next();
      i := i + 1;
    }
    return true;
  }

  /** `pb_get_encoded_size`: the size the encoder would write, known exactly if it would not refuse. */
  method GetEncodedSize(fields: seq<Field>, m: Memory, base: int) returns (ok: bool, size: nat)
    ensures var b := MessageBytes(fields, m, base);
            ok == b.Some? && (ok ==> size == |b.value|)
  {
    hide MessageBytes;
    var none := new byte[0];
    var stream := new OStream(false, 0, none, 0);
    ok := EncodeMessage(stream, fields, m, base);
    size := stream.bytesWritten;
  }

  /** Encoding into a buffer of `max` bytes: succeeds exactly if the size fits, and fills the front of
      the buffer with exactly the bytes of the message. */
  method EncodeToBuffer(fields: seq<Field>, m: Memory, base: int, buf: array<byte>) returns (ok: bool, size: nat)
    modifies buf
    ensures var b := MessageBytes(fields, m, base);
            && ok == (b.Some? && |b.value| <= buf.Length)
            && (ok ==> size == |b.value| && buf[..size] == b.value && buf[size..] == old(buf[size..]))
  {
    hide MessageBytes;
    var stream := new OStream(true, buf.Length, buf, 0);
    ghost var v := stream.View();
    ok := EncodeMessage(stream, fields, m, base);
    size := stream.bytesWritten;
    if ok {
      assert buf[..] == Overwrite(v.buf, 0, MessageBytes(fields, m, base).value);
    }
  }
}
