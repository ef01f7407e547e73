/** `pb_ostream_t`: an output stream over a buffer, or one that only counts. */
module PbStream {
  import opened Basics
  import opened PbModel

  /** A stream as a value: whether it writes, its limit, the buffer with the position in it, and the
      bytes written through this stream so far. */
  datatype Out = Out(writing: bool, max: nat, buf: seq<byte>, at: nat, written: nat)

  /** What a stream may still write lies inside the buffer. */
  predicate Sane(v: Out) {
    v.writing ==> v.written <= v.max && v.at + (v.max - v.written) <= |v.buf|
  }

  predicate Room(v: Out, n: nat) {
    v.writing ==> v.written + n <= v.max
  }

  /** The stream after `b` went through it: copied to the buffer, or only counted. */
  function Appended(v: Out, b: seq<byte>): (r: Out)
    requires Sane(v) && Room(v, |b|)
    ensures Sane(r)
  {
    if v.writing then v.(buf := Overwrite(v.buf, v.at, b), at := v.at + |b|, written := v.written + |b|)
    else v.(written := v.written + |b|)
  }

  /** An encoder that should output `e` went from `v` to `v'`: it succeeds exactly if `e` is not
      refused and fits, and then it has output exactly `e`. */
  ghost predicate Did(v: Out, v': Out, ok: bool, e: Option<seq<byte>>) {
    && Sane(v) && Sane(v')
    && v'.writing == v.writing && v'.max == v.max && |v'.buf| == |v.buf|
    && (ok <==> e.Some? && Room(v, |e.value|))
    && (ok ==> v' == Appended(v, e.value))
  }

  lemma AppendedTwice(v: Out, a: seq<byte>, b: seq<byte>)
    requires Sane(v) && Room(v, |a + b|)
    ensures Room(v, |a|) && Room(Appended(v, a), |b|)
    ensures Appended(Appended(v, a), b) == Appended(v, a + b)
  {
    if v.writing {
      OverwriteTwice(v.buf, v.at, a, b);
    }
  }

  /** Nothing to output. */
  lemma DidNothing(v: Out)
    requires Sane(v)
    ensures Did(v, v, true, Some([]))
  {
    if v.writing {
      assert Overwrite(v.buf, v.at, []) == v.buf;
    }
  }

  /** Two encoders in a row. */
  lemma DidBoth(v: Out, v1: Out, v2: Out, a: Option<seq<byte>>, ok: bool, b: Option<seq<byte>>)
    requires Did(v, v1, true, a) && Did(v1, v2, ok, b)
    ensures Did(v, v2, ok, Then(a, b))
  {
    if b.Some? && Room(v, |a.value + b.value|) {
      AppendedTwice(v, a.value, b.value);
    }
  }

  /** The first of two encoders failed. */
  lemma DidFail(v: Out, v1: Out, a: Option<seq<byte>>, b: Option<seq<byte>>)
    requires Did(v, v1, false, a)
    ensures Did(v, v1, false, Then(a, b))
  {
  }

  class OStream {
    const writing: bool
    const maxSize: nat
    const buf: array<byte>
    var state: nat
    var bytesWritten: nat

    constructor (writing: bool, maxSize: nat, buf: array<byte>, state: nat)
      ensures this.writing == writing && this.maxSize == maxSize && this.buf == buf
      ensures this.state == state && bytesWritten == 0
    {
      this.writing, this.maxSize, this.buf, this.state, bytesWritten := writing, maxSize, buf, state, 0;
    }

    ghost function View(): Out
      reads this, buf
    {
      Out(writing, maxSize, buf[..], state, bytesWritten)
    }

    /** `pb_write` with `buf_write` as the callback. */
    method Write(data: seq<byte>) returns (ok: bool)
      requires Sane(View())
      modifies this, buf
      ensures Did(old(View()), View(), ok, Some(data))
      ensures !writing ==> buf[..] == old(buf[..])
    {
      if writing {
        if bytesWritten + |data| > maxSize {
          return false;
        }
        BufWrite(data);
      }
      bytesWritten := bytesWritten + |data|;
      return true;
    }

    /** `buf_write`. */
    method BufWrite(data: seq<byte>)
      requires state + |data| <= buf.Length
      modifies `state, buf
      ensures state == old(state) + |data| && buf[..] == Overwrite(old(buf[..]), old(state), data)
    {
      var dest := state;
      state := dest + |data|;
      var i := 0;
      while i < |data|
        invariant i <= |data| && state == dest + |data|
        invariant buf[..dest] == old(buf[..dest]) && buf[dest..dest + i] == data[..i]
        invariant buf[dest + |data|..] == old(buf[dest + |data|..])
      {
        buf[dest + i] := data[i];
        assert buf[dest..dest + i + 1] == buf[dest..dest + i] + [data[i]];
        i := i + 1;
      }
      assert buf[..] == buf[..dest] + buf[dest..dest + |data|] + buf[dest + |data|..];
    }

    /** `pb_write(stream, NULL, count)` on a stream that only counts. */
    method Count(ghost data: seq<byte>, count: nat) returns (ok: bool)
      requires !writing && count == |data|
      modifies this
      ensures Did(old(View()), View(), ok, Some(data))
    {
      bytesWritten := bytesWritten + count;
      return true;
    }
  }
}
