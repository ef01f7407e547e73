/** Default elision: when `pb_check_proto3_default_value` lets a submessage be skipped, its encoding
    was empty anyway. */
module PbDefault {
  import opened Basics
  import opened PbModel
  import opened PbParse

  /** The descriptors the generator emits: tags from 1 up, and a size offset wherever the encoder
      looks for a count or for the tag of a union. */
  predicate Generated(fields: seq<Field>) {
    forall f <- fields :: f.tag > 0 && (f.htype.Repeated? || f.htype.OneOf? ==> f.sizeOffset != 0)
  }

  /** Where a union keeps the tag of its current member, and that tag. */
  function WhichAt(fields: seq<Field>, m: Memory, base: int, i: nat): int
    requires i < |fields|
  {
    DataAt(fields, m, base, i) + fields[i].sizeOffset
  }

  function Which(fields: seq<Field>, m: Memory, base: int, i: nat): nat
    requires i < |fields|
  {
    ReadSize(m, WhichAt(fields, m, base, i))
  }

  /** No union has a member set. */
  predicate UnionsUnset(fields: seq<Field>, m: Memory, base: int) {
    forall i :: 0 <= i < |fields| && fields[i].htype.OneOf? ==> Which(fields, m, base, i) == 0
  }

  /** Every union is unset or set to one of its own members. */
  ghost predicate UnionsKnown(fields: seq<Field>, m: Memory, base: int) {
    forall i :: 0 <= i < |fields| && fields[i].htype.OneOf? ==>
      Which(fields, m, base, i) == 0 || exists j :: MemberOf(fields, m, base, i, j)
  }

  predicate MemberOf(fields: seq<Field>, m: Memory, base: int, i: nat, j: int)
    requires i < |fields|
  {
    && 0 <= j < |fields| && fields[j].htype.OneOf?
    && WhichAt(fields, m, base, j) == WhichAt(fields, m, base, i)
    && fields[j].tag == Which(fields, m, base, i)
  }

  /** One field has its default value exactly if it is not encoded and, in a union, none is set. */
  lemma FieldDefaultIff(f: Field, m: Memory, at: int)
    requires f.tag > 0 && (f.htype.Repeated? || f.htype.OneOf? ==> f.sizeOffset != 0)
    ensures IsDefault(f, m, at) <==>
            FieldBytes(f, m, at) == Some([]) && (f.htype.OneOf? ==> ReadSize(m, at + f.sizeOffset) == 0)
  {
    hide ReadU, ValueBytes, AllDefault;
    if f.htype.Repeated? && CountOf(f, m, at) > 0 {
      LastElement(f, m, at, CountOf(f, m, at));
    }
  }

  lemma LastElement(f: Field, m: Memory, at: int, count: nat)
    requires count > 0
    ensures ElementsBytes(f, m, at, count, true) != Some([])
  {
    hide ValueBytes;
  }

  lemma ThenEmpty(a: Option<seq<byte>>, b: Option<seq<byte>>)
    ensures Then(a, b) == Some([]) <==> a == Some([]) && b == Some([])
  {
    if a.Some? && b.Some? {
      assert |a.value + b.value| == |a.value| + |b.value|;
    }
  }

  lemma {:induction false} FieldsEmptyIff(fields: seq<Field>, m: Memory, base: int, n: nat)
    requires n <= |fields|
    ensures FieldsBytes(fields, m, base, n) == Some([]) <==>
            forall i :: 0 <= i < n ==> FieldBytes(fields[i], m, DataAt(fields, m, base, i)) == Some([])
  {
    hide FieldBytes, DataAt;
    if n == 0 {
    } else {
      FieldsEmptyIff(fields, m, base, n - 1);
      ThenEmpty(FieldsBytes(fields, m, base, n - 1), FieldBytes(fields[n - 1], m, DataAt(fields, m, base, n - 1)));
    }
  }

  lemma {:induction false} AllDefaultIff(fields: seq<Field>, m: Memory, base: int, n: nat)
    requires n <= |fields|
    ensures AllDefault(fields, m, base, n) <==>
            forall i :: n <= i < |fields| ==> IsDefault(fields[i], m, DataAt(fields, m, base, i))
    decreases |fields| - n
  {
    hide IsDefault, DataAt;
    if n >= |fields| {
    } else {
      AllDefaultIff(fields, m, base, n + 1);
    }
  }

  /** Whatever the memory: a message is all default exactly if it encodes to nothing and no union in
      it has a member set. */
  lemma DefaultIffEmptyAndUnset(fields: seq<Field>, m: Memory, base: int)
    requires Generated(fields)
    ensures AllDefault(fields, m, base, 0) <==>
            MessageBytes(fields, m, base) == Some([]) && UnionsUnset(fields, m, base)
  {
    hide IsDefault, DataAt, FieldBytes, ReadSize, AllDefault, FieldsBytes;
    AllDefaultIff(fields, m, base, 0);
    FieldsEmptyIff(fields, m, base, |fields|);
    forall i | 0 <= i < |fields|
      ensures IsDefault(fields[i], m, DataAt(fields, m, base, i)) <==>
              && FieldBytes(fields[i], m, DataAt(fields, m, base, i)) == Some([])
              && (fields[i].htype.OneOf? ==> Which(fields, m, base, i) == 0)
    {
      FieldDefaultIff(fields[i], m, DataAt(fields, m, base, i));
    }
  }

  /** With unions in order, a message is all default exactly if it encodes to nothing. */
  lemma DefaultIffEmpty(fields: seq<Field>, m: Memory, base: int)
    requires Generated(fields) && UnionsKnown(fields, m, base)
    ensures AllDefault(fields, m, base, 0) <==> MessageBytes(fields, m, base) == Some([])
  {
    hide IsDefault, DataAt, ReadSize, AllDefault, FieldsBytes, FieldBytes;
    DefaultIffEmptyAndUnset(fields, m, base);
    if MessageBytes(fields, m, base) == Some([]) {
      forall i | 0 <= i < |fields| && fields[i].htype.OneOf?
        ensures Which(fields, m, base, i) == 0
      {
        UnionIsUnset(fields, m, base, i);
      }
    }
  }

  lemma UnionIsUnset(fields: seq<Field>, m: Memory, base: int, i: nat)
    requires Generated(fields) && UnionsKnown(fields, m, base) && MessageBytes(fields, m, base) == Some([])
    requires i < |fields| && fields[i].htype.OneOf?
    ensures Which(fields, m, base, i) == 0
  {
    hide MessageBytes, Generated, Which, MemberOf;
    if Which(fields, m, base, i) != 0 {
      var j :| MemberOf(fields, m, base, i, j);
      MemberIsEncoded(fields, m, base, i, j);
      assert false;
    }
  }

  lemma MemberIsEncoded(fields: seq<Field>, m: Memory, base: int, i: nat, j: int)
    requires Generated(fields) && i < |fields| && MemberOf(fields, m, base, i, j)
    ensures MessageBytes(fields, m, base) != Some([])
  {
    hide DataAt, ReadSize, FieldsBytes, FieldBytes;
    FieldsEmptyIff(fields, m, base, |fields|);
    SetMemberIsEncoded(fields[j], m, DataAt(fields, m, base, j));
  }

  lemma SetMemberIsEncoded(f: Field, m: Memory, at: int)
    requires f.htype.OneOf? && f.sizeOffset != 0 && ReadSize(m, at + f.sizeOffset) == f.tag
    ensures FieldBytes(f, m, at) != Some([])
  {
    hide ValueBytes, ReadSize;
  }

  /** A submessage without a flag of its own is skipped exactly if there is nothing to write in it,
      and then reading the written bytes would have given a message without any field. */
  lemma SkippedIffNothingInIt(f: Field, m: Memory, at: int)
    requires f.htype.Optional? && f.sizeOffset == 0 && f.ltype.Submessage? && f.hasSub
    requires Generated(f.sub) && WellFormed(f.sub) && UnionsKnown(f.sub, m, at)
    ensures FieldBytes(f, m, at) == Some([]) <==> MessageBytes(f.sub, m, at) == Some([])
    ensures FieldBytes(f, m, at) == Some([]) ==> ValueOf(f, m, at) == Message([])
  {
    hide MessageBytes, AllDefault, Entries, UnionsKnown, WellFormed, TaggedBytes, Parse;
    DefaultIffEmpty(f.sub, m, at);
    TaggedIsNotEmpty(f, m, at);
    if MessageBytes(f.sub, m, at) == Some([]) {
      RoundTrip(f.sub, m, at);
      NothingParses(f.sub);
    }
  }

  lemma TaggedIsNotEmpty(f: Field, m: Memory, at: int)
    ensures TaggedBytes(f, m, at) != Some([])
  {
    hide ValueBytes;
  }

  lemma NothingParses(fields: seq<Field>)
    ensures Parse(fields, []) == Some([])
  {
  }

  // ---- Fields without a flag -----------------------------------------------------------------

  /** The default value the Encoding guide gives a field that is absent. */
  function DefaultOf(t: LType): Value {
    match t
    case Varint => Number(0)
    case UVarint => Number(0)
    case SVarint => Number(0)
    case Fixed32 => Word(0)
    case Fixed64 => Word(0)
    case Submessage => Message([])
    case _ => Text([])
  }

  /** The data size is one the generator gives that type. */
  predicate SizeMatches(f: Field) {
    match f.ltype
    case Varint => IsIntSize(f.dataSize)
    case UVarint => IsIntSize(f.dataSize)
    case SVarint => IsIntSize(f.dataSize)
    case Fixed32 => f.dataSize == 4
    case Fixed64 => f.dataSize == 8
    case String => f.dataSize > 0
    case _ => true
  }

  lemma {:induction false} ZeroIff(m: Memory, at: int, n: nat)
    ensures ReadU(m, at, n) == 0 <==> forall i :: 0 <= i < n ==> ByteAt(m, at, i) == 0
    decreases n
  {
    if n == 0 {
    } else {
      ZeroIff(m, at + 1, n - 1);
      assert ByteAt(m, at, 0) == m.at(at);
      assert forall i :: 0 < i < n ==> ByteAt(m, at, i) == ByteAt(m, at + 1, i - 1);
      assert forall i {:trigger ByteAt(m, at + 1, i)} :: 0 <= i < n - 1 ==> ByteAt(m, at + 1, i) == ByteAt(m, at, i + 1);
    }
  }

  lemma SignedZeroIff(m: Memory, at: int, n: nat)
    ensures ReadS(m, at, n) == 0 <==> ReadU(m, at, n) == 0
  {
  }

  /** A field without a flag of its own, of any type but a submessage, is skipped exactly if its value in
      memory is the default a reader assumes for a field that is absent: skipping loses nothing. */
  lemma ScalarSkippedIffDefault(f: Field, m: Memory, at: int)
    requires f.htype.Optional? && f.sizeOffset == 0 && !f.ltype.Submessage? && SizeMatches(f)
    ensures FieldBytes(f, m, at) == Some([]) <==> ValueOf(f, m, at) == DefaultOf(f.ltype)
  {
    hide ReadU, ReadS, ValueBytes, AllDefault;
    TaggedIsNotEmpty(f, m, at);
    ZeroIff(m, at, f.dataSize);
    SignedZeroIff(m, at, f.dataSize);
    if f.ltype.Bytes? {
      assert |Slice(m, at + m.sizeWidth, ReadSize(m, at))| == ReadSize(m, at);
    } else if f.ltype.FixedBytes? {
      assert |Slice(m, at, f.dataSize)| == f.dataSize;
    } else if f.ltype.String? {
      assert |Slice(m, at, StrLen(m, at, f.dataSize))| == StrLen(m, at, f.dataSize);
    }
  }

  /** A union whose tag names no member: nothing is encoded, yet the check says it is not default, so
      the parent writes an empty submessage. */
  lemma UnknownMemberIsNotDefault()
    ensures exists fields, m, base ::
            Generated(fields) && MessageBytes(fields, m, base) == Some([]) && !AllDefault(fields, m, base, 0)
  {
    var f := Field(1, UVarint, OneOf, 1, -1, 1, 0, false, []);
    var m := Memory(i => 7, 1);
    assert ReadU(m, 0, 1) == 7;
    assert DataAt([f], m, 0, 0) == 1 && ReadSize(m, 0) == 7;
    assert FieldBytes(f, m, 1) == Some([]);
    FieldsEmptyIff([f], m, 0, 1);
    assert MessageBytes([f], m, 0) == Some([]);
    assert !IsDefault(f, m, DataAt([f], m, 0, 0));
    assert !AllDefault([f], m, 0, 0);
  }
}
