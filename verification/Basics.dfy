/** Bytes, optional values and the errors the protocol layers return. */
module Basics {
  type byte = x: nat | x < 256

  datatype Option<+T> = None | Some(value: T)

  datatype ProtocolError =
    | NoError
    | InvalidState
    | InsufficientStorage
    | MessageTimeout
    | MissingMessageId
    | MessageReset
    | MalformedMessage
    | ChannelFault(code: nat)

  /** A buffer after `b` was written into it at `at`. */
  function Overwrite(buf: seq<byte>, at: nat, b: seq<byte>): (r: seq<byte>)
    requires at + |b| <= |buf|
    ensures |r| == |buf|
  {
    buf[..at] + b + buf[at + |b|..]
  }

  lemma OverwriteTwice(buf: seq<byte>, at: nat, a: seq<byte>, b: seq<byte>)
    requires at + |a| + |b| <= |buf|
    ensures Overwrite(Overwrite(buf, at, a), at + |a|, b) == Overwrite(buf, at, a + b)
  {
  }

  lemma OverwriteNothing(buf: seq<byte>, at: nat)
    requires at <= |buf|
    ensures Overwrite(buf, at, []) == buf
  {
  }

  lemma OverwriteHolds(buf: seq<byte>, at: nat, a: seq<byte>, k: nat)
    requires at + |a| <= |buf| && k <= |a|
    ensures Overwrite(buf, at, a)[at..at + |a|] == a && Overwrite(buf, at, a)[at..at + k] == a[..k]
  {
  }

  /** `memcpy` into a buffer. */
  method Copy(buf: array<byte>, at: nat, data: seq<byte>) returns (next: nat)
    requires at + |data| <= buf.Length
    modifies buf
    ensures next == at + |data| && buf[..] == Overwrite(old(buf[..]), at, data)
  {
    next := at + |data|;
    forall i | 0 <= i < |data| {
      buf[at + i] := data[i];
    }
    assert buf[..] == buf[..at] + buf[at..next] + buf[next..];
  }

  function Min(a: nat, b: nat): nat { if a <= b then a else b }

  function Pow2(n: nat): (r: nat)
    ensures r > 0
  {
    if n == 0 then 1 else 2 * Pow2(n - 1)
  }

  /** Two bytes of a number, the high one first. */
  function BigEndian(high: byte, low: byte): nat {
    high as nat * 256 + low as nat
  }
}
