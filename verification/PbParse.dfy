/** A reader of the wire format written from the Protocol Buffers Encoding guide (sections "Base 128
    Varints", "Message Structure" and "Signed Integers"), and the round trip through the encoder. */
module PbParse {
  import opened Basics
  import opened PbModel

  // ---- Values --------------------------------------------------------------------------------

  datatype Value =
    | Number(n: int)
    | Word(w: nat)
    | Text(b: seq<byte>)
    | Packed(vs: seq<Value>)
    | Message(entries: seq<Entry>)

  datatype Entry = Entry(tag: nat, value: Value)

  /** What was read, and the bytes after it. */
  datatype Read<T> = Read(value: T, rest: seq<byte>)

  // ---- The reader ----------------------------------------------------------------------------

  function ParseVarint(b: seq<byte>): (r: Option<Read<nat>>)
    ensures r.Some? ==> |r.value.rest| < |b|
  {
    if b == [] then None
    else if b[0] < 128 then Some(Read(b[0], b[1..]))
    else
      var r := ParseVarint(b[1..]);
      if r.None? then None else Some(Read(b[0] - 128 + 128 * r.value.value, r.value.rest))
  }

  /** A length and that many bytes. */
  function ParseBlob(b: seq<byte>): (r: Option<Read<seq<byte>>>)
    ensures r.Some? ==> |r.value.value| + |r.value.rest| < |b|
  {
    var n := ParseVarint(b);
    if n.None? || n.value.value > |n.value.rest| then None
    else Some(Read(n.value.rest[..n.value.value], n.value.rest[n.value.value..]))
  }

  function LittleEndian(b: seq<byte>): nat {
    if b == [] then 0 else b[0] + 256 * LittleEndian(b[1..])
  }

  function ParseWord(b: seq<byte>, n: nat): (r: Option<Read<Value>>)
    ensures r.Some? ==> |r.value.rest| == |b| - n
  {
    if |b| < n then None else Some(Read(Word(LittleEndian(b[..n])), b[n..]))
  }

  /** A 64-bit number read as two's complement. */
  function Signed(v: nat): int {
    if v < TWO64 / 2 then v else v - TWO64
  }

  function UnZigZag(v: nat): int {
    if v % 2 == 0 then v / 2 else -(v / 2) - 1
  }

  function Scalar(t: LType, v: nat): Value {
    match t
    case Varint => Number(Signed(v))
    case SVarint => Number(UnZigZag(v))
    case _ => Number(v)
  }

  function ParseScalar(t: LType, b: seq<byte>): (r: Option<Read<Value>>)
    requires Packable(t)
    ensures r.Some? ==> |r.value.rest| < |b|
  {
    match t
    case Fixed32 => ParseWord(b, 4)
    case Fixed64 => ParseWord(b, 8)
    case _ =>
      var v := ParseVarint(b);
      if v.None? then None else Some(Read(Scalar(t, v.value.value), v.value.rest))
  }

  function ParsePacked(t: LType, b: seq<byte>): Option<seq<Value>>
    requires Packable(t)
    decreases |b|
  {
    if b == [] then Some([])
    else
      var v := ParseScalar(t, b);
      if v.None? then None
      else
        var vs := ParsePacked(t, v.value.rest);
        if vs.None? then None else Some([v.value.value] + vs.value)
  }

  function Lookup(fields: seq<Field>, tag: nat): (r: Option<Field>)
    ensures r.Some? <==> exists i :: 0 <= i < |fields| && fields[i].tag == tag
    ensures r.Some? ==> r.value in fields && r.value.tag == tag
  {
    if fields == [] then None
    else if fields[0].tag == tag then Some(fields[0])
    else
      assert forall i :: 0 <= i < |fields[1..]| ==> fields[1..][i] == fields[i + 1];
      assert forall i :: 0 < i < |fields| ==> fields[i] == fields[1..][i - 1];
      Lookup(fields[1..], tag)
  }

  /** The value of one record, given its wire type. */
  function ParseValue(f: Field, wire: nat, b: seq<byte>): (r: Option<Read<Value>>)
    ensures r.Some? ==> |r.value.rest| < |b|
    decreases |b|, 0
  {
    if f.htype.Repeated? && Packable(f.ltype) && wire == 2 then
      var blob := ParseBlob(b);
      if blob.None? then None
      else
        var vs := ParsePacked(f.ltype, blob.value.value);
        if vs.None? then None else Some(Read(Packed(vs.value), blob.value.rest))
    else if wire != WireType(f.ltype) then None
    else if Packable(f.ltype) then ParseScalar(f.ltype, b)
    else
      var blob := ParseBlob(b);
      if blob.None? then None
      else if f.ltype.Submessage? then
        var es := Parse(f.sub, blob.value.value);
        if es.None? then None else Some(Read(Message(es.value), blob.value.rest))
      else Some(Read(Text(blob.value.value), blob.value.rest))
  }

  /** A message: records of a key and a value until the bytes run out. */
  function Parse(fields: seq<Field>, b: seq<byte>): Option<seq<Entry>>
    decreases |b|, 1
  {
    if b == [] then Some([])
    else
      var key := ParseVarint(b);
      if key.None? then None
      else
        var f := Lookup(fields, key.value.value / 8);
        if f.None? then None
        else
          var v := ParseValue(f.value, key.value.value % 8, key.value.rest);
          if v.None? then None
          else After([Entry(f.value.tag, v.value.value)], Parse(fields, v.value.rest))
  }

  function After(es: seq<Entry>, rest: Option<seq<Entry>>): Option<seq<Entry>> {
    if rest.None? then None else Some(es + rest.value)
  }

  // ---- What is in memory ---------------------------------------------------------------------

  /** The value a field has in memory. */
  function ValueOf(f: Field, m: Memory, at: int): Value
    decreases f, 0, 0
  {
    match f.ltype
    case Varint => Number(ReadS(m, at, f.dataSize))
    case UVarint => Number(ReadU(m, at, f.dataSize))
    case SVarint => Number(ReadS(m, at, f.dataSize))
    case Fixed32 => Word(ReadU(m, at, 4))
    case Fixed64 => Word(ReadU(m, at, 8))
    case Bytes => Text(Slice(m, at + m.sizeWidth, ReadSize(m, at)))
    case String => Text(Slice(m, at, StrLen(m, at, f.dataSize)))
    case FixedBytes => Text(Slice(m, at, f.dataSize))
    case Submessage => Message(Entries(f.sub, m, at, |f.sub|))
  }

  function ElementsOf(f: Field, m: Memory, at: int, count: nat): (r: seq<Value>)
    ensures |r| == count
    decreases f, 1, count
  {
    if count == 0 then []
    else ElementsOf(f, m, at, count - 1) + [ValueOf(f, m, at + (count - 1) * f.dataSize)]
  }

  function Tagged(tag: nat, vs: seq<Value>): (r: seq<Entry>)
    ensures |r| == |vs| && forall i :: 0 <= i < |vs| ==> r[i] == Entry(tag, vs[i])
  {
    seq(|vs|, i requires 0 <= i < |vs| => Entry(tag, vs[i]))
  }

  /** The entries of one field: none if it is absent, one for a value or a packed array, and one for
      each element of any other array. */
  function FieldEntries(f: Field, m: Memory, at: int): seq<Entry>
    decreases f, 2, 0
  {
    if !f.htype.Repeated? then
      if Present(f, m, at) then [Entry(f.tag, ValueOf(f, m, at))] else []
    else
      var vs := ElementsOf(f, m, at, CountOf(f, m, at));
      if vs == [] then []
      else if Packable(f.ltype) then [Entry(f.tag, Packed(vs))]
      else Tagged(f.tag, vs)
  }

  /** The present ones of fields `0..i`, in descriptor order. */
  function Entries(fields: seq<Field>, m: Memory, base: int, i: nat): seq<Entry>
    requires i <= |fields|
    decreases fields, 0, i
  {
    if i == 0 then []
    else Entries(fields, m, base, i - 1) + FieldEntries(fields[i - 1], m, DataAt(fields, m, base, i - 1))
  }

  /** Tags are 32-bit numbers, none is 0, none occurs twice; so too in every submessage. */
  predicate WellFormed(fields: seq<Field>) {
    && (forall i :: 0 <= i < |fields| ==> 0 < fields[i].tag < 0x1_0000_0000)
    && (forall i, j :: 0 <= i < j < |fields| ==> fields[i].tag != fields[j].tag)
    && (forall i :: 0 <= i < |fields| ==> WellFormed(fields[i].sub))
  }

  // ---- Round trips of the parts --------------------------------------------------------------

  lemma {:induction false} VarintRoundTrip(n: nat, rest: seq<byte>)
    ensures ParseVarint(VarintOf(n) + rest) == Some(Read(n, rest))
  {
    var b := VarintOf(n) + rest;
    if n < 128 {
      assert b == [n] + rest;
    } else {
      VarintRoundTrip(n / 128, rest);
      assert b == [n % 128 + 128] + (VarintOf(n / 128) + rest);
      assert b[1..] == VarintOf(n / 128) + rest;
    }
  }

  lemma BlobRoundTrip(b: seq<byte>, rest: seq<byte>)
    requires |b| < TWO64
    ensures ParseBlob(WithLength(b) + rest) == Some(Read(b, rest))
  {
    hide VarintOf, ParseVarint;
    assert WithLength(b) + rest == VarintOf(|b|) + (b + rest);
    VarintRoundTrip(|b|, b + rest);
    assert (b + rest)[..|b|] == b && (b + rest)[|b|..] == rest;
  }

  lemma {:induction false} LittleEndianRead(m: Memory, at: int, n: nat)
    ensures LittleEndian(Slice(m, at, n)) == ReadU(m, at, n)
    decreases n
  {
    if n == 0 {
    } else {
      var b := Slice(m, at, n);
      LittleEndianRead(m, at + 1, n - 1);
      assert b[0] == ByteAt(m, at, 0);
      assert b[1..] == Slice(m, at + 1, n - 1) by {
        assert forall i :: 0 < i < n ==> ByteAt(m, at, i) == ByteAt(m, at + 1, i - 1);
      }
    }
  }

  lemma WordRoundTrip(m: Memory, at: int, n: nat, rest: seq<byte>)
    ensures ParseWord(Slice(m, at, n) + rest, n) == Some(Read(Word(ReadU(m, at, n)), rest))
  {
    hide LittleEndian, ReadU;
    var b := Slice(m, at, n);
    assert (b + rest)[..n] == b && (b + rest)[n..] == rest;
    LittleEndianRead(m, at, n);
  }

  /** Numbers of at most eight bytes fit into 64 bits, signed or not. */
  lemma SignedFits(m: Memory, at: int, n: nat)
    requires IsIntSize(n)
    ensures -(TWO64 / 2) <= ReadS(m, at, n) < TWO64 / 2
  {
    hide ReadU;
    assert Pow256(2) == 0x1_0000;
    assert Pow256(4) == 0x1_0000_0000;
    assert Pow256(6) == 0x1_0000_0000_0000;
    assert Pow256(8) == TWO64;
  }

  lemma SignedRoundTrip(v: int)
    requires -(TWO64 / 2) <= v < TWO64 / 2
    ensures Signed(ToU64(v)) == v
  {
  }

  /** Zigzag and back is the identity on every 64-bit number. */
  lemma ZigZagRoundTrip(v: int)
    requires -(TWO64 / 2) <= v < TWO64 / 2
    ensures UnZigZag(ZigZag(v)) == v
  {
    if v >= 0 {
      assert ZigZag(v) == 2 * v;
    } else {
      assert ToU64(v) == v + TWO64;
      assert (v + TWO64) * 2 % TWO64 == 2 * v + TWO64;
      assert ZigZag(v) == -2 * v - 1;
    }
  }

  lemma ScalarRoundTrip(f: Field, m: Memory, at: int, rest: seq<byte>)
    requires Packable(f.ltype) && ValueBytes(f, m, at).Some?
    ensures ParseScalar(f.ltype, ValueBytes(f, m, at).value + rest) == Some(Read(ValueOf(f, m, at), rest))
  {
    hide VarintOf, ParseVarint, ReadS, ReadU, Signed, UnZigZag, ToU64, ZigZag, ParseWord, Slice;
    match f.ltype {
      case Varint =>
        var v := ReadS(m, at, f.dataSize);
        SignedFits(m, at, f.dataSize);
        SignedRoundTrip(v);
        VarintRoundTrip(ToU64(v), rest);
      case SVarint =>
        var v := ReadS(m, at, f.dataSize);
        SignedFits(m, at, f.dataSize);
        ZigZagRoundTrip(v);
        VarintRoundTrip(ZigZag(v), rest);
      case UVarint => VarintRoundTrip(ReadU(m, at, f.dataSize), rest);
      case Fixed32 => WordRoundTrip(m, at, 4, rest);
      case Fixed64 => WordRoundTrip(m, at, 8, rest);
    }
  }

  lemma {:induction false} PackedRoundTrip(f: Field, m: Memory, at: int, count: nat, rest: seq<byte>)
    requires Packable(f.ltype) && ElementsBytes(f, m, at, count, false).Some?
    ensures ParsePacked(f.ltype, ElementsBytes(f, m, at, count, false).value + rest)
         == var vs := ParsePacked(f.ltype, rest);
            if vs.None? then None else Some(ElementsOf(f, m, at, count) + vs.value)
    decreases count
  {
    hide ValueBytes, ValueOf, ParseScalar;
    var b := ElementsBytes(f, m, at, count, false).value;
    if count == 0 {
      assert b + rest == rest;
      var vs := ParsePacked(f.ltype, rest);
      assert vs.Some? ==> [] + vs.value == vs.value;
    } else {
      var p := at + (count - 1) * f.dataSize;
      var e := ValueBytes(f, m, p).value;
      PackedRoundTrip(f, m, at, count - 1, e + rest);
      assert b + rest == ElementsBytes(f, m, at, count - 1, false).value + (e + rest);
      ScalarRoundTrip(f, m, p, rest);
      OnePacked(f.ltype, e + rest, ValueOf(f, m, p), rest);
      Regroup(ElementsOf(f, m, at, count - 1), ValueOf(f, m, p), ParsePacked(f.ltype, rest));
    }
  }

  lemma OnePacked(t: LType, b: seq<byte>, v: Value, rest: seq<byte>)
    requires Packable(t) && ParseScalar(t, b) == Some(Read(v, rest))
    ensures ParsePacked(t, b) == var vs := ParsePacked(t, rest); if vs.None? then None else Some([v] + vs.value)
  {
    hide ParseScalar;
  }

  lemma Regroup(a: seq<Value>, v: Value, o: Option<seq<Value>>)
    ensures o.Some? ==> (a + [v]) + o.value == a + ([v] + o.value)
  {
  }

  // ---- Records -------------------------------------------------------------------------------

  lemma {:induction false} LookupFinds(fields: seq<Field>, i: nat)
    requires i < |fields| && forall j, k :: 0 <= j < k < |fields| ==> fields[j].tag != fields[k].tag
    ensures Lookup(fields, fields[i].tag) == Some(fields[i])
  {
    hide Lookup;
    var r := Lookup(fields, fields[i].tag);
    var k :| 0 <= k < |fields| && fields[k] == r.value;
  }

  /** One key and one value of a known field, then the rest. */
  lemma RecordParses(fields: seq<Field>, i: nat, wire: nat, b: seq<byte>, v: Value, rest: seq<byte>)
    requires i < |fields| && WellFormed(fields) && wire < 8
    requires ParseValue(fields[i], wire, b + rest) == Some(Read(v, rest))
    ensures Parse(fields, TagBytes(fields[i].tag, wire) + b + rest)
         == After([Entry(fields[i].tag, v)], Parse(fields, rest))
  {
    hide ParseValue, VarintOf, ParseVarint, Lookup;
    var key := fields[i].tag * 8 + wire;
    assert TagBytes(fields[i].tag, wire) == VarintOf(key);
    VarintRoundTrip(key, b + rest);
    assert VarintOf(key) + b + rest == VarintOf(key) + (b + rest);
    LookupFinds(fields, i);
    assert key / 8 == fields[i].tag && key % 8 == wire;
  }

  /** The payload of one value reads back as the value. */
  lemma {:induction false} ValueRoundTrip(f: Field, m: Memory, at: int, rest: seq<byte>)
    requires WellFormed(f.sub) && ValueBytes(f, m, at).Some? && |ValueBytes(f, m, at).value| < TWO64
    ensures ParseValue(f, WireType(f.ltype), ValueBytes(f, m, at).value + rest) == Some(Read(ValueOf(f, m, at), rest))
    decreases f, 0, 0
  {
    if Packable(f.ltype) {
      hide ValueBytes, ValueOf, ParseScalar;
      ScalarRoundTrip(f, m, at, rest);
    } else if f.ltype.Submessage? {
      hide MessageBytes, Entries, ParseBlob, VarintOf;
      var b := MessageBytes(f.sub, m, at).value;
      BlobRoundTrip(b, rest);
      RoundTrip(f.sub, m, at);
    } else {
      hide ParseBlob, WithLength;
      var b := ValueOf(f, m, at).b;
      assert ValueBytes(f, m, at) == Some(WithLength(b));
      WithLengthLonger(b);
      BlobRoundTrip(b, rest);
    }
  }

  lemma WithLengthLonger(b: seq<byte>)
    ensures |b| < |WithLength(b)|
  {
  }

  /** The elements of an unpacked array read back as one entry each. */
  lemma {:induction false} ElementsRoundTrip(fields: seq<Field>, i: nat, m: Memory, at: int, count: nat, rest: seq<byte>)
    requires i < |fields| && WellFormed(fields)
    requires var b := ElementsBytes(fields[i], m, at, count, true); b.Some? && |b.value| < TWO64
    ensures Parse(fields, ElementsBytes(fields[i], m, at, count, true).value + rest)
         == After(Tagged(fields[i].tag, ElementsOf(fields[i], m, at, count)), Parse(fields, rest))
    decreases fields[i], 1, count
  {
    hide Parse, ParseValue, ValueOf, ValueBytes, TagBytes;
    var f := fields[i];
    var b := ElementsBytes(f, m, at, count, true).value;
    if count == 0 {
      assert b + rest == rest;
      AfterNothing(Parse(fields, rest));
    } else {
      var p := at + (count - 1) * f.dataSize;
      var tag, e := TagBytes(f.tag, WireType(f.ltype)), ValueBytes(f, m, p).value;
      ElementsRoundTrip(fields, i, m, at, count - 1, tag + e + rest);
      assert b + rest == ElementsBytes(f, m, at, count - 1, true).value + (tag + e + rest);
      ValueRoundTrip(f, m, p, rest);
      RecordParses(fields, i, WireType(f.ltype), e, ValueOf(f, m, p), rest);
      AfterTagged(f.tag, ElementsOf(f, m, at, count - 1), ValueOf(f, m, p), Parse(fields, rest));
    }
  }

  lemma AfterTagged(tag: nat, vs: seq<Value>, v: Value, o: Option<seq<Entry>>)
    ensures After(Tagged(tag, vs), After([Entry(tag, v)], o)) == After(Tagged(tag, vs + [v]), o)
  {
    assert Tagged(tag, vs + [v]) == Tagged(tag, vs) + [Entry(tag, v)];
    AfterTwice(Tagged(tag, vs), [Entry(tag, v)], o);
  }

  lemma AfterTwice(a: seq<Entry>, b: seq<Entry>, o: Option<seq<Entry>>)
    ensures After(a, After(b, o)) == After(a + b, o)
  {
    if o.Some? {
      assert a + (b + o.value) == a + b + o.value;
    }
  }

  lemma AfterNothing(o: Option<seq<Entry>>)
    ensures After([], o) == o
  {
    assert o.Some? ==> [] + o.value == o.value;
  }

  /** One field reads back as its entries. */
  lemma {:induction false} FieldRoundTrip(fields: seq<Field>, i: nat, m: Memory, at: int, rest: seq<byte>)
    requires i < |fields| && WellFormed(fields)
    requires var b := FieldBytes(fields[i], m, at); b.Some? && |b.value| < TWO64
    ensures Parse(fields, FieldBytes(fields[i], m, at).value + rest)
         == After(FieldEntries(fields[i], m, at), Parse(fields, rest))
    decreases fields[i], 2, 0
  {
    hide Parse, ParseValue, ValueOf, ValueBytes, TagBytes, ElementsBytes, ElementsOf, Present, ParseBlob, ParsePacked, VarintOf;
    var f := fields[i];
    var b := FieldBytes(f, m, at).value;
    AfterNothing(Parse(fields, rest));
    if !f.htype.Repeated? {
      if Present(f, m, at) {
        ValueRoundTrip(f, m, at, rest);
        RecordParses(fields, i, WireType(f.ltype), ValueBytes(f, m, at).value, ValueOf(f, m, at), rest);
      } else {
        assert b + rest == rest;
      }
    } else if CountOf(f, m, at) == 0 {
      assert b + rest == rest;
    } else if Packable(f.ltype) {
      PackedRecord(fields, i, m, at, CountOf(f, m, at), rest);
    } else {
      ElementsRoundTrip(fields, i, m, at, CountOf(f, m, at), rest);
    }
  }

  /** A packed array reads back as one entry. */
  lemma PackedRecord(fields: seq<Field>, i: nat, m: Memory, at: int, count: nat, rest: seq<byte>)
    requires i < |fields| && WellFormed(fields) && fields[i].htype.Repeated? && Packable(fields[i].ltype) && count > 0
    requires var b := ArrayBytes(fields[i], m, at, count); b.Some? && |b.value| < TWO64
    ensures Parse(fields, ArrayBytes(fields[i], m, at, count).value + rest)
         == After([Entry(fields[i].tag, Packed(ElementsOf(fields[i], m, at, count)))], Parse(fields, rest))
  {
    hide Parse, ValueOf, ValueBytes, TagBytes, ElementsBytes, ElementsOf, ParseBlob, ParsePacked, VarintOf, WellFormed,
         WithLength;
    var f := fields[i];
    var b := ElementsBytes(f, m, at, count, false).value;
    WithLengthLonger(b);
    BlobRoundTrip(b, rest);
    PackedRoundTrip(f, m, at, count, []);
    assert b + [] == b;
    NoneLeft(f.ltype);
    var vs := ElementsOf(f, m, at, count);
    assert vs + [] == vs;
    assert ParseValue(f, 2, WithLength(b) + rest) == Some(Read(Packed(vs), rest));
    RecordParses(fields, i, 2, WithLength(b), Packed(vs), rest);
  }

  lemma NoneLeft(t: LType)
    requires Packable(t)
    ensures ParsePacked(t, []) == Some([])
  {
  }

  // ---- Messages ------------------------------------------------------------------------------

  lemma {:induction false} PrefixRoundTrip(fields: seq<Field>, m: Memory, base: int, i: nat, rest: seq<byte>)
    requires i <= |fields| && WellFormed(fields)
    requires var b := FieldsBytes(fields, m, base, i); b.Some? && |b.value| < TWO64
    ensures Parse(fields, FieldsBytes(fields, m, base, i).value + rest)
         == After(Entries(fields, m, base, i), Parse(fields, rest))
    decreases fields, 0, i
  {
    hide Parse, FieldBytes, FieldEntries, WellFormed, DataAt;
    var b := FieldsBytes(fields, m, base, i).value;
    if i == 0 {
      assert b + rest == rest;
      AfterNothing(Parse(fields, rest));
    } else {
      var f, at := fields[i - 1], DataAt(fields, m, base, i - 1);
      var e := FieldBytes(f, m, at).value;
      PrefixRoundTrip(fields, m, base, i - 1, e + rest);
      assert b + rest == FieldsBytes(fields, m, base, i - 1).value + (e + rest);
      FieldRoundTrip(fields, i - 1, m, at, rest);
      AfterTwice(Entries(fields, m, base, i - 1), FieldEntries(f, m, at), Parse(fields, rest));
    }
  }

  /** Reading what the encoder wrote gives back exactly the present fields, in descriptor order, with
      the values they have in memory, at every depth. */
  lemma {:induction false} RoundTrip(fields: seq<Field>, m: Memory, base: int)
    requires WellFormed(fields)
    requires var b := MessageBytes(fields, m, base); b.Some? && |b.value| < TWO64
    ensures Parse(fields, MessageBytes(fields, m, base).value) == Some(Entries(fields, m, base, |fields|))
    decreases fields, 1, 0
  {
    hide FieldsBytes, Entries;
    var b := MessageBytes(fields, m, base).value;
    assert b + [] == b;
    PrefixRoundTrip(fields, m, base, |fields|, []);
    assert Entries(fields, m, base, |fields|) + [] == Entries(fields, m, base, |fields|);
  }

  /** Two messages with the same bytes have the same present fields with the same values. */
  lemma EncodingIsInjective(fields: seq<Field>, m1: Memory, base1: int, m2: Memory, base2: int)
    requires WellFormed(fields)
    requires var b := MessageBytes(fields, m1, base1); b.Some? && |b.value| < TWO64
    requires MessageBytes(fields, m1, base1) == MessageBytes(fields, m2, base2)
    ensures Entries(fields, m1, base1, |fields|) == Entries(fields, m2, base2, |fields|)
  {
    hide MessageBytes, Entries, Parse;
    RoundTrip(fields, m1, base1);
    RoundTrip(fields, m2, base2);
  }
}
