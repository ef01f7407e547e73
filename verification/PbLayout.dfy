/** The C structures the descriptors stand for: members at absolute offsets, and the descriptors as the
    macros of pb.h fill them in. What the iterator and the encoder take from memory is what the members of
    the structure hold. */
module PbLayout {
  import opened Basics
  import opened PbModel
  import opened PbParse
  import opened PbDefault

  // ---- Structures ----------------------------------------------------------------------------

  /** How a member is declared, with the absolute offset of what says whether it is there: a `bool has_x`,
      a `pb_size_t x_count` in front of so many elements, or a `pb_size_t which_u` of its union. */
  datatype Place = Single | Flagged(hasAt: nat) | Implicit | Array(countAt: nat, elements: nat) | InUnion(whichAt: nat)

  /** A member at an absolute offset; `size` is that of one element. */
  datatype Member = Member(
    tag: nat, ltype: LType, place: Place, at: nat, size: nat, hasSub: bool, sub: seq<Member>)

  /** `pb_membersize`. */
  function WholeSize(x: Member): nat {
    if x.place.Array? then x.size * x.place.elements else x.size
  }

  /** Whether member `i` shares its union with the one before. */
  predicate SharesUnion(ms: seq<Member>, i: nat)
    requires i < |ms|
  {
    i > 0 && ms[i - 1].place.InUnion? && ms[i].place.InUnion? && ms[i - 1].place.whichAt == ms[i].place.whichAt
  }

  /** The bytes between the end of member `i - 1` and the start of member `i`. */
  function Padding(ms: seq<Member>, i: nat): int
    requires 0 < i < |ms|
  {
    ms[i].at - ms[i - 1].at - WholeSize(ms[i - 1])
  }

  /** The order of the generator: each member behind the one before, with a padding that fits its field;
      the members of a union at one offset; nothing at the offset of what says whether it is there. */
  predicate LaidOut(ms: seq<Member>, m: Memory) {
    && (forall i :: 0 < i < |ms| ==>
          if SharesUnion(ms, i) then ms[i].at == ms[i - 1].at else 0 <= Padding(ms, i) <= SizeMax(m))
    && (forall i :: 0 <= i < |ms| ==> PlacedWell(ms[i]) && LaidOut(ms[i].sub, m))
  }

  /** The sizes are those of the C types. */
  predicate PlacedWell(x: Member) {
    && (match x.place
        case Flagged(hasAt) => hasAt != x.at
        case Array(countAt, _) => countAt != x.at
        case InUnion(whichAt) => whichAt != x.at
        case _ => true)
    && match x.ltype
       case Varint => IsIntSize(x.size)
       case UVarint => IsIntSize(x.size)
       case SVarint => IsIntSize(x.size)
       case Fixed32 => x.size == 4
       case Fixed64 => x.size == 8
       case String => x.size > 0
       case _ => true
  }

  // ---- Descriptors ---------------------------------------------------------------------------

  /** `PB_DATAOFFSET_FIRST`, `PB_DATAOFFSET_UNION` and `PB_DATAOFFSET_OTHER`. */
  function DataOffset(ms: seq<Member>, m: Memory, i: nat): nat
    requires i < |ms| && LaidOut(ms, m)
  {
    if i == 0 then ms[0].at
    else if SharesUnion(ms, i) then SizeMax(m)
    else Padding(ms, i)
  }

  /** `PB_REQUIRED_STATIC`, `PB_OPTIONAL_STATIC`, `PB_SINGULAR_STATIC`, `PB_REPEATED_STATIC` and
      `PB_ONEOF_STATIC`. */
  function Descriptor(ms: seq<Member>, m: Memory, i: nat): Field
    requires i < |ms| && LaidOut(ms, m)
    decreases ms, 0
  {
    var x := ms[i];
    var (htype, sizeOffset, arraySize) :=
      match x.place
      case Single => (Required, 0, 0)
      case Flagged(hasAt) => (Optional, hasAt - x.at, 0)
      case Implicit => (Optional, 0, 0)
      case Array(countAt, elements) => (Repeated, countAt - x.at, elements)
      case InUnion(whichAt) => (OneOf, whichAt - x.at, 0);
    Field(x.tag, x.ltype, htype, DataOffset(ms, m, i), sizeOffset, x.size, arraySize, x.hasSub, Descriptors(x.sub, m, |x.sub|))
  }

  /** The descriptors of the first `n` members. */
  function Descriptors(ms: seq<Member>, m: Memory, n: nat): (r: seq<Field>)
    requires n <= |ms| && LaidOut(ms, m)
    ensures |r| == n
    decreases ms, 1, n
  {
    if n == 0 then [] else Descriptors(ms, m, n - 1) + [Descriptor(ms, m, n - 1)]
  }

  lemma {:induction false} DescriptorsAt(ms: seq<Member>, m: Memory, n: nat, i: nat)
    requires i < n <= |ms| && LaidOut(ms, m)
    ensures Descriptors(ms, m, n)[i] == Descriptor(ms, m, i)
    decreases n
  {
    hide Descriptor;
    if i == n - 1 {
    } else {
      DescriptorsAt(ms, m, n - 1, i);
    }
  }

  function FieldsOf(ms: seq<Member>, m: Memory): (r: seq<Field>)
    requires LaidOut(ms, m)
    ensures |r| == |ms|
  {
    Descriptors(ms, m, |ms|)
  }

  // ---- Where the fields are ------------------------------------------------------------------

  /** The padding between two unions is never taken for the mark of a further member. */
  predicate Unambiguous(ms: seq<Member>, m: Memory) {
    forall i :: 0 < i < |ms| && ms[i - 1].place.InUnion? && ms[i].place.InUnion? && !SharesUnion(ms, i) ==>
      Padding(ms, i) != SizeMax(m)
  }

  /** One step of the iterator, in terms of the structure. */
  lemma StepInStruct(ms: seq<Member>, m: Memory, base: int, i: nat)
    requires 0 < i < |ms| && LaidOut(ms, m)
    requires DataAt(FieldsOf(ms, m), m, base, i - 1) == base + ms[i - 1].at
    ensures var misread := ms[i - 1].place.InUnion? && ms[i].place.InUnion? && !SharesUnion(ms, i) && Padding(ms, i) == SizeMax(m);
            DataAt(FieldsOf(ms, m), m, base, i) == base + if misread then ms[i - 1].at else ms[i].at
  {
    hide LaidOut, SizeMax, Descriptors;
    DescriptorsAt(ms, m, |ms|, i);
    DescriptorsAt(ms, m, |ms|, i - 1);
    LaidOutAt(ms, m, i);
  }

  lemma LaidOutAt(ms: seq<Member>, m: Memory, i: nat)
    requires 0 < i < |ms| && LaidOut(ms, m)
    ensures if SharesUnion(ms, i) then ms[i].at == ms[i - 1].at else 0 <= Padding(ms, i) <= SizeMax(m)
  {
  }

  lemma {:induction false} FieldIsMember(ms: seq<Member>, m: Memory, base: int, i: nat)
    requires i < |ms| && LaidOut(ms, m) && Unambiguous(ms, m)
    ensures DataAt(FieldsOf(ms, m), m, base, i) == base + ms[i].at
  {
    hide LaidOut, SharesUnion, Padding, FieldsOf;
    if i == 0 {
      FirstIsMember(ms, m, base);
    } else {
      FieldIsMember(ms, m, base, i - 1);
      StepInStruct(ms, m, base, i);
    }
  }

  lemma FirstIsMember(ms: seq<Member>, m: Memory, base: int)
    requires ms != [] && LaidOut(ms, m)
    ensures DataAt(FieldsOf(ms, m), m, base, 0) == base + ms[0].at
  {
    DescriptorsAt(ms, m, |ms|, 0);
  }

  /** The iterator finds every member at its place exactly if no padding between two unions looks like
      the mark of a further member. */
  lemma PlacedIff(ms: seq<Member>, m: Memory, base: int)
    requires LaidOut(ms, m) && m.sizeWidth > 0
    ensures (forall i :: 0 <= i < |ms| ==> DataAt(FieldsOf(ms, m), m, base, i) == base + ms[i].at) <==> Unambiguous(ms, m)
  {
    hide LaidOut, FieldsOf, SharesUnion, DataAt;
    if Unambiguous(ms, m) {
      forall i | 0 <= i < |ms| ensures DataAt(FieldsOf(ms, m), m, base, i) == base + ms[i].at {
        FieldIsMember(ms, m, base, i);
      }
    } else {
      var i :| 0 < i < |ms| && ms[i - 1].place.InUnion? && ms[i].place.InUnion? && !SharesUnion(ms, i)
               && Padding(ms, i) == SizeMax(m);
      if DataAt(FieldsOf(ms, m), m, base, i - 1) == base + ms[i - 1].at {
        StepInStruct(ms, m, base, i);
      }
    }
  }

  // ---- What the structure holds --------------------------------------------------------------

  /** The unsigned number in `n` bytes at `p`, the last byte weighing most. */
  function UnsignedAt(m: Memory, p: int, n: nat): nat {
    if n == 0 then 0 else UnsignedAt(m, p, n - 1) + m.at(p + n - 1) * Pow256(n - 1)
  }

  /** The two's-complement number there. */
  function SignedAt(m: Memory, p: int, n: nat): int {
    if n > 0 && m.at(p + n - 1) >= 128 then UnsignedAt(m, p, n) - Pow256(n) else UnsignedAt(m, p, n)
  }

  function BytesAt(m: Memory, p: int, n: nat): seq<byte> {
    seq<byte>(n, i requires 0 <= i < n => m.at(p + i))
  }

  /** The characters before the first zero, or all `max` of them. */
  function TextAt(m: Memory, p: int, max: nat): seq<byte>
    decreases max
  {
    if max == 0 || m.at(p) == 0 then [] else [m.at(p)] + TextAt(m, p + 1, max - 1)
  }

  /** `*(pb_size_t*)p`. */
  function SizeTAt(m: Memory, p: int): nat {
    UnsignedAt(m, p, m.sizeWidth)
  }

  /** The value of one element of member `x` that starts at `p`. */
  function StructValue(x: Member, m: Memory, p: int): Value
    requires LaidOut(x.sub, m)
    decreases x, 0, 0
  {
    match x.ltype
    case Varint => Number(SignedAt(m, p, x.size))
    case UVarint => Number(UnsignedAt(m, p, x.size))
    case SVarint => Number(SignedAt(m, p, x.size))
    case Fixed32 => Word(UnsignedAt(m, p, 4))
    case Fixed64 => Word(UnsignedAt(m, p, 8))
    case Bytes => Text(BytesAt(m, p + m.sizeWidth, SizeTAt(m, p)))
    case String => Text(TextAt(m, p, x.size))
    case FixedBytes => Text(BytesAt(m, p, x.size))
    case Submessage => Message(StructEntries(x.sub, m, p, |x.sub|))
  }

  function StructElements(x: Member, m: Memory, p: int, count: nat): seq<Value>
    requires LaidOut(x.sub, m)
    decreases x, 1, count
  {
    if count == 0 then [] else StructElements(x, m, p, count - 1) + [StructValue(x, m, p + (count - 1) * x.size)]
  }

  /** Whether a member of the structure at `base` is there. One without a flag is if it differs from the
      default of the Encoding guide; a submessage without a flag if some field in it is not default. */
  function There(x: Member, m: Memory, base: int): bool
    requires LaidOut(x.sub, m)
    decreases x, 1, 0
  {
    match x.place
    case Single => true
    case Flagged(hasAt) => m.at(base + hasAt) != 0
    case Implicit =>
      if x.ltype.Submessage? then !AllDefault(FieldsOf(x.sub, m), m, base + x.at, 0)
      else StructValue(x, m, base + x.at) != DefaultOf(x.ltype)
    case Array(_, _) => true
    case InUnion(whichAt) => SizeTAt(m, base + whichAt) == x.tag
  }

  function MemberEntries(x: Member, m: Memory, base: int): seq<Entry>
    requires LaidOut(x.sub, m)
    decreases x, 2, 0
  {
    match x.place
    case Array(countAt, _) =>
      var vs := StructElements(x, m, base + x.at, SizeTAt(m, base + countAt));
      if vs == [] then []
      else if Packable(x.ltype) then [Entry(x.tag, Packed(vs))]
      else seq(|vs|, i requires 0 <= i < |vs| => Entry(x.tag, vs[i]))
    case _ => if There(x, m, base) then [Entry(x.tag, StructValue(x, m, base + x.at))] else []
  }

  /** The entries of the first `n` members of the structure at `base`, each read at its own offset. */
  function StructEntries(ms: seq<Member>, m: Memory, base: int, n: nat): seq<Entry>
    requires n <= |ms| && LaidOut(ms, m)
    decreases ms, 0, n
  {
    if n == 0 then [] else StructEntries(ms, m, base, n - 1) + MemberEntries(ms[n - 1], m, base)
  }

  // ---- It is what the encoder reads ----------------------------------------------------------

  predicate AllUnambiguous(ms: seq<Member>, m: Memory) {
    Unambiguous(ms, m) && forall i :: 0 <= i < |ms| ==> AllUnambiguous(ms[i].sub, m)
  }

  lemma {:induction false} UnsignedTail(m: Memory, p: int, n: nat)
    requires n > 0
    ensures UnsignedAt(m, p, n) == m.at(p) + 256 * UnsignedAt(m, p + 1, n - 1)
    decreases n
  {
    if n == 1 {
      assert UnsignedAt(m, p, 0) == 0 && UnsignedAt(m, p + 1, 0) == 0 && Pow256(0) == 1;
    } else {
      UnsignedTail(m, p, n - 1);
      Scaled(m.at(p + n - 1), Pow256(n - 2));
      assert p + 1 + (n - 1) - 1 == p + n - 1;
    }
  }

  lemma Scaled(b: nat, w: nat)
    ensures b * (256 * w) == 256 * (b * w)
  {
  }

  lemma {:induction false} UnsignedIsRead(m: Memory, p: int, n: nat)
    ensures UnsignedAt(m, p, n) == ReadU(m, p, n)
    decreases n
  {
    if n == 0 {
    } else {
      UnsignedTail(m, p, n);
      UnsignedIsRead(m, p + 1, n - 1);
    }
  }

  lemma SignedIsRead(m: Memory, p: int, n: nat)
    ensures SignedAt(m, p, n) == ReadS(m, p, n)
  {
    hide ReadU;
    UnsignedIsRead(m, p, n);
    if n > 0 {
      var b, low, w := m.at(p + n - 1), UnsignedAt(m, p, n - 1), Pow256(n - 1);
      UnsignedIsRead(m, p, n - 1);
      assert low < w && Pow256(n) == 256 * w;
      TopBit(b, low, w);
    }
  }

  lemma TopBit(b: byte, low: nat, w: nat)
    requires low < w
    ensures b >= 128 <==> 2 * (low + b * w) >= 256 * w
  {
    if b >= 128 {
      assert b * w >= 128 * w;
    } else {
      assert b * w <= 127 * w;
    }
  }

  lemma {:induction false} TextIsRead(m: Memory, p: int, max: nat)
    ensures TextAt(m, p, max) == Slice(m, p, StrLen(m, p, max))
    decreases max
  {
    if max == 0 || m.at(p) == 0 {
    } else {
      TextIsRead(m, p + 1, max - 1);
      var r := Slice(m, p, StrLen(m, p, max));
      var t := TextAt(m, p + 1, max - 1);
      forall i | 0 <= i < |r| ensures r[i] == ([m.at(p)] + t)[i] {
        assert r[i] == ByteAt(m, p, i);
        assert i > 0 ==> t[i - 1] == ByteAt(m, p + 1, i - 1);
      }
    }
  }

  lemma BytesAreRead(m: Memory, p: int, n: nat)
    ensures BytesAt(m, p, n) == Slice(m, p, n)
  {
    assert forall i :: 0 <= i < n ==> Slice(m, p, n)[i] == ByteAt(m, p, i);
  }

  lemma {:induction false} ValueIsRead(ms: seq<Member>, m: Memory, i: nat, p: int)
    requires i < |ms| && LaidOut(ms, m) && AllUnambiguous(ms, m)
    ensures StructValue(ms[i], m, p) == ValueOf(Descriptor(ms, m, i), m, p)
    decreases ms, 1, 0
  {
    hide ReadU, ReadS, LaidOut, Unambiguous, Slice, UnsignedAt, SignedAt, BytesAt, TextAt, StrLen;
    var x := ms[i];
    SubIsLaidOut(ms, m, i);
    match x.ltype
    case Varint => SignedIsRead(m, p, x.size);
    case UVarint => UnsignedIsRead(m, p, x.size);
    case SVarint => SignedIsRead(m, p, x.size);
    case Fixed32 => UnsignedIsRead(m, p, 4);
    case Fixed64 => UnsignedIsRead(m, p, 8);
    case Bytes =>
      UnsignedIsRead(m, p, m.sizeWidth);
      BytesAreRead(m, p + m.sizeWidth, SizeTAt(m, p));
    case String => TextIsRead(m, p, x.size);
    case FixedBytes => BytesAreRead(m, p, x.size);
    case Submessage => EntriesAreRead(x.sub, m, p, |x.sub|);
  }

  lemma SubIsLaidOut(ms: seq<Member>, m: Memory, i: nat)
    requires i < |ms| && LaidOut(ms, m) && AllUnambiguous(ms, m)
    ensures LaidOut(ms[i].sub, m) && AllUnambiguous(ms[i].sub, m) && PlacedWell(ms[i])
  {
    hide PlacedWell, SharesUnion, Unambiguous;
  }

  lemma {:induction false} ElementsAreRead(ms: seq<Member>, m: Memory, i: nat, p: int, count: nat)
    requires i < |ms| && LaidOut(ms, m) && AllUnambiguous(ms, m) && LaidOut(ms[i].sub, m)
    ensures StructElements(ms[i], m, p, count) == ElementsOf(Descriptor(ms, m, i), m, p, count)
    decreases ms, 2, count
  {
    hide StructValue, ValueOf, LaidOut, AllUnambiguous;
    if count == 0 {
    } else {
      ElementsAreRead(ms, m, i, p, count - 1);
      ValueIsRead(ms, m, i, p + (count - 1) * ms[i].size);
    }
  }

  lemma PresentIffNotDefault(f: Field, m: Memory, at: int)
    requires f.htype.Optional? && f.sizeOffset == 0 && !f.ltype.Submessage? && SizeMatches(f)
    ensures Present(f, m, at) <==> ValueOf(f, m, at) != DefaultOf(f.ltype)
  {
    hide ValueOf, TaggedBytes, IsDefault;
    ScalarSkippedIffDefault(f, m, at);
    TaggedIsNotEmpty(f, m, at);
  }

  lemma {:induction false} ThereIsPresent(ms: seq<Member>, m: Memory, base: int, i: nat)
    requires i < |ms| && LaidOut(ms, m) && AllUnambiguous(ms, m) && LaidOut(ms[i].sub, m) && !ms[i].place.Array?
    ensures There(ms[i], m, base) == Present(Descriptor(ms, m, i), m, base + ms[i].at)
    decreases ms, 2, 0
  {
    hide StructValue, ValueOf, LaidOut, AllUnambiguous, UnsignedAt, ReadU, AllDefault;
    var x, f := ms[i], Descriptor(ms, m, i);
    SubIsLaidOut(ms, m, i);
    match x.place
    case Single =>
    case Flagged(hasAt) =>
    case Array(_, _) =>
    case InUnion(whichAt) => UnsignedIsRead(m, base + whichAt, m.sizeWidth);
    case Implicit =>
      if !x.ltype.Submessage? {
        PresentIffNotDefault(f, m, base + x.at);
        ValueIsRead(ms, m, i, base + x.at);
      }
  }

  lemma {:induction false} MemberIsRead(ms: seq<Member>, m: Memory, base: int, i: nat)
    requires i < |ms| && LaidOut(ms, m) && AllUnambiguous(ms, m) && LaidOut(ms[i].sub, m)
    ensures MemberEntries(ms[i], m, base) == FieldEntries(Descriptor(ms, m, i), m, base + ms[i].at)
    decreases ms, 3, 0
  {
    hide StructValue, ValueOf, LaidOut, AllUnambiguous, UnsignedAt, ReadU, There, Present, StructElements, ElementsOf;
    var x, f := ms[i], Descriptor(ms, m, i);
    SubIsLaidOut(ms, m, i);
    if x.place.Array? {
      UnsignedIsRead(m, base + x.place.countAt, m.sizeWidth);
      ElementsAreRead(ms, m, i, base + x.at, SizeTAt(m, base + x.place.countAt));
    } else {
      ThereIsPresent(ms, m, base, i);
      ValueIsRead(ms, m, i, base + x.at);
    }
  }

  lemma {:induction false} EntriesAreRead(ms: seq<Member>, m: Memory, base: int, n: nat)
    requires n <= |ms| && LaidOut(ms, m) && AllUnambiguous(ms, m)
    ensures StructEntries(ms, m, base, n) == Entries(FieldsOf(ms, m), m, base, n)
    decreases ms, 4, n
  {
    hide MemberEntries, FieldEntries, LaidOut, DataAt, Descriptor, Unambiguous;
    if n == 0 {
    } else {
      EntriesAreRead(ms, m, base, n - 1);
      SubIsLaidOut(ms, m, n - 1);
      MemberIsRead(ms, m, base, n - 1);
      FieldIsMember(ms, m, base, n - 1);
      DescriptorsAt(ms, m, |ms|, n - 1);
    }
  }

  /** For every structure laid out like that, at every address, and every contents of memory: what an
      independent reader takes from the encoder's output is what the members of the structure hold, each
      at its own offset, in the order of the structure and at every depth. */
  lemma StructRoundTrip(ms: seq<Member>, m: Memory, base: int)
    requires LaidOut(ms, m) && AllUnambiguous(ms, m) && WellFormed(FieldsOf(ms, m))
    requires var b := MessageBytes(FieldsOf(ms, m), m, base); b.Some? && |b.value| < TWO64
    ensures Parse(FieldsOf(ms, m), MessageBytes(FieldsOf(ms, m), m, base).value) == Some(StructEntries(ms, m, base, |ms|))
  {
    hide LaidOut, AllUnambiguous, WellFormed, MessageBytes, Parse, Entries, StructEntries, FieldsOf;
    EntriesAreRead(ms, m, base, |ms|);
    RoundTrip(FieldsOf(ms, m), m, base);
  }

  // ---- What is refused -----------------------------------------------------------------------

  /** One element can be written: bytes keep to their buffer, a submessage has descriptors and can be
      written itself. */
  predicate ElementOk(x: Member, m: Memory, p: int)
    requires LaidOut(x.sub, m)
    decreases x, 0, 0
  {
    match x.ltype
    case Bytes => SizeTAt(m, p) + m.sizeWidth <= x.size
    case Submessage => x.hasSub && StructOk(x.sub, m, p, |x.sub|)
    case _ => true
  }

  /** What is there of a member can be written, and an array counts no more elements than it has. */
  predicate MemberOk(x: Member, m: Memory, base: int)
    requires LaidOut(x.sub, m)
    decreases x, 1, 0
  {
    match x.place
    case Array(countAt, elements) =>
      var count := SizeTAt(m, base + countAt);
      count <= elements && forall k :: 0 <= k < count ==> ElementOk(x, m, base + x.at + k * x.size)
    case _ => There(x, m, base) ==> ElementOk(x, m, base + x.at)
  }

  predicate StructOk(ms: seq<Member>, m: Memory, base: int, n: nat)
    requires n <= |ms| && LaidOut(ms, m)
    decreases ms, 0, n
  {
    n == 0 || (StructOk(ms, m, base, n - 1) && MemberOk(ms[n - 1], m, base))
  }

  lemma {:induction false} ValueIsWritten(ms: seq<Member>, m: Memory, i: nat, p: int)
    requires i < |ms| && LaidOut(ms, m) && AllUnambiguous(ms, m) && LaidOut(ms[i].sub, m)
    ensures ValueBytes(Descriptor(ms, m, i), m, p).Some? <==> ElementOk(ms[i], m, p)
    decreases ms, 1, 0
  {
    hide LaidOut, AllUnambiguous, ReadU, ReadS, UnsignedAt, VarintOf, StructOk, MessageBytes, FieldsOf;
    SubIsLaidOut(ms, m, i);
    var x := ms[i];
    if x.ltype.Bytes? {
      UnsignedIsRead(m, p, m.sizeWidth);
    } else if x.ltype.Submessage? {
      StructIsWritten(x.sub, m, p, |x.sub|);
      AllFields(x.sub, m, p);
    }
  }

  lemma AllFields(ms: seq<Member>, m: Memory, base: int)
    requires LaidOut(ms, m)
    ensures Descriptors(ms, m, |ms|) == FieldsOf(ms, m)
    ensures MessageBytes(FieldsOf(ms, m), m, base) == FieldsBytes(FieldsOf(ms, m), m, base, |ms|)
  {
    hide FieldsBytes;
  }

  lemma TaggedIfWritten(f: Field, m: Memory, p: int)
    ensures TaggedBytes(f, m, p).Some? <==> ValueBytes(f, m, p).Some?
  {
    hide ValueBytes;
  }

  lemma {:induction false} ElementsAreWritten(ms: seq<Member>, m: Memory, i: nat, p: int, count: nat, tagged: bool)
    requires i < |ms| && LaidOut(ms, m) && AllUnambiguous(ms, m) && LaidOut(ms[i].sub, m)
    ensures ElementsBytes(Descriptor(ms, m, i), m, p, count, tagged).Some? <==>
            forall k :: 0 <= k < count ==> ElementOk(ms[i], m, p + k * ms[i].size)
    decreases ms, 2, count
  {
    hide ValueBytes, TaggedBytes, LaidOut, AllUnambiguous, ElementOk;
    if count == 0 {
    } else {
      ElementsAreWritten(ms, m, i, p, count - 1, tagged);
      var q := p + (count - 1) * ms[i].size;
      ValueIsWritten(ms, m, i, q);
      TaggedIfWritten(Descriptor(ms, m, i), m, q);
    }
  }

  lemma {:induction false} MemberIsWritten(ms: seq<Member>, m: Memory, base: int, i: nat)
    requires i < |ms| && LaidOut(ms, m) && AllUnambiguous(ms, m) && LaidOut(ms[i].sub, m)
    ensures FieldBytes(Descriptor(ms, m, i), m, base + ms[i].at).Some? <==> MemberOk(ms[i], m, base)
    decreases ms, 3, 0
  {
    hide ValueBytes, TaggedBytes, LaidOut, AllUnambiguous, ElementOk, ElementsBytes, There, Present, ReadU, UnsignedAt, VarintOf;
    var x, f := ms[i], Descriptor(ms, m, i);
    SubIsLaidOut(ms, m, i);
    if x.place.Array? {
      var count := SizeTAt(m, base + x.place.countAt);
      UnsignedIsRead(m, base + x.place.countAt, m.sizeWidth);
      ElementsAreWritten(ms, m, i, base + x.at, count, !Packable(x.ltype));
    } else {
      ThereIsPresent(ms, m, base, i);
      ValueIsWritten(ms, m, i, base + x.at);
      TaggedIfWritten(f, m, base + x.at);
    }
  }

  lemma {:induction false} StructIsWritten(ms: seq<Member>, m: Memory, base: int, n: nat)
    requires n <= |ms| && LaidOut(ms, m) && AllUnambiguous(ms, m)
    ensures FieldsBytes(FieldsOf(ms, m), m, base, n).Some? <==> StructOk(ms, m, base, n)
    decreases ms, 4, n
  {
    hide FieldBytes, MemberOk, LaidOut, DataAt, Descriptor, Unambiguous;
    if n == 0 {
    } else {
      StructIsWritten(ms, m, base, n - 1);
      SubIsLaidOut(ms, m, n - 1);
      MemberIsWritten(ms, m, base, n - 1);
      FieldIsMember(ms, m, base, n - 1);
      DescriptorsAt(ms, m, |ms|, n - 1);
    }
  }

  /** The encoder refuses a structure exactly if some array that is there counts too many elements, some
      bytes do not keep to their buffer, or a submessage has no descriptors, at any depth. */
  lemma EncodesIff(ms: seq<Member>, m: Memory, base: int)
    requires LaidOut(ms, m) && AllUnambiguous(ms, m)
    ensures MessageBytes(FieldsOf(ms, m), m, base).Some? <==> StructOk(ms, m, base, |ms|)
  {
    hide LaidOut, AllUnambiguous, StructOk, FieldsBytes, FieldsOf;
    StructIsWritten(ms, m, base, |ms|);
    AllFields(ms, m, base);
  }
}
