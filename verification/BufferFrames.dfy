/** `Message` as a window into a shared buffer, and `BufferMessageChannel`, which hands out the window
    for a message and, behind it, the window for its response. */
module BufferFrames {
  import opened Basics
  import opened Cbc

  /** What a channel adds in front of a message and behind it: two bytes of length, and up to a block
      of padding. */
  const PREFIX: nat := 2
  const SUFFIX: nat := 16

  /** `Message` as a window: offsets into the buffer of the channel; -1 stands for no buffer and for no id. */
  class Window {
    var buf: int
    var capacity: nat
    var length: nat
    var id: int

    constructor ()
      ensures buf == -1 && capacity == 0 && length == 0 && id == -1
    {
      buf, capacity, length, id := -1, 0, 0, -1;
    }

    method Clear()
      modifies this`id
      ensures id == -1
    {
      id := -1;
    }

    /** `set_length`: a length beyond the capacity is ignored. */
    method SetLength(n: nat)
      modifies this`length
      ensures length == if n <= capacity then n else old(length)
    {
      if n <= capacity {
        length := n;
      }
    }

    method SetBuffer(at: int, size: nat)
      modifies this`buf, this`capacity, this`length
      ensures buf == at && capacity == size && length == 0
    {
      buf, capacity, length := at, size, 0;
    }

    /** `trim_capacity`. */
    method TrimCapacity() returns (trimmed: nat)
      requires length <= capacity
      modifies this`capacity
      ensures trimmed == old(capacity) - length && capacity == length
    {
      trimmed := capacity - length;
      capacity := length;
    }

    /** `splinter`: the target begins `offset` bytes behind this message; the room it is given is
        counted from the end of this message. */
    method Splinter(target: Window, sizeRequired: nat, offset: nat) returns (ok: bool)
      requires target != this && length <= capacity
      modifies this`capacity, target`buf, target`capacity, target`length
      ensures ok == (old(capacity) - length >= sizeRequired + offset)
      ensures !ok ==> capacity == old(capacity) && target.buf == old(target.buf)
                      && target.capacity == old(target.capacity) && target.length == old(target.length)
      ensures ok ==> capacity == length && target.length == 0
                     && target.buf == buf + length + offset && target.capacity == old(capacity) - length
    {
      var available := capacity - length;
      if available < sizeRequired + offset {
        return false;
      }
      var excess := TrimCapacity();
      target.SetBuffer(buf + length + offset, excess);
      return true;
    }
  }

  class BufferMessageChannel {
    const queue: array<byte>

    constructor (max: nat)
      ensures queue.Length == max && fresh(queue)
    {
      queue := new byte[max](_ => 0);
    }

    /** `create`. */
    method Create(message: Window, minimumSize: nat) returns (error: ProtocolError)
      requires queue.Length >= PREFIX + SUFFIX
      modifies message
      ensures error == if minimumSize > queue.Length - PREFIX - SUFFIX then InsufficientStorage else NoError
      ensures error == NoError ==> Created(message, queue.Length) && message.length == 0 && message.id == -1
      ensures error != NoError ==> unchanged(message)
    {
      if minimumSize > queue.Length - PREFIX - SUFFIX {
        return InsufficientStorage;
      }
      message.Clear();
      message.SetBuffer(PREFIX, queue.Length - SUFFIX - PREFIX);
      message.SetLength(0);
      return NoError;
    }

    /** `response`: if it accepts, every response up to the required length, framed, lies inside the
        buffer, behind the original and behind the frame of the original. */
    method Response(original: Window, response: Window, required: nat) returns (error: ProtocolError)
      requires original != response && Created(original, queue.Length)
      modifies original`capacity, response`buf, response`capacity, response`length
      ensures error ==
              if original.length + required + PREFIX + SUFFIX <= old(original.capacity) then NoError else InsufficientStorage
      ensures error == NoError ==>
                && original.capacity == original.length
                && response.buf == original.buf + original.length + PREFIX + SUFFIX
                && forall k: nat :: k <= required ==> Apart(original.buf, original.length, response.buf, k, queue.Length)
    {
      var ok := original.Splinter(response, required, PREFIX + SUFFIX);
      if ok {
        forall k: nat | k <= required
          ensures Apart(original.buf, original.length, response.buf, k, queue.Length)
        {
          FramesApart(queue.Length, original.length, required, k);
        }
        return NoError;
      }
      return InsufficientStorage;
    }
  }

  /** The window `create` hands out of a buffer of `max` bytes. */
  ghost predicate Created(message: Window, max: nat)
    reads message
  {
    && max >= PREFIX + SUFFIX && message.buf == PREFIX
    && message.capacity == max - PREFIX - SUFFIX && message.length <= message.capacity
  }

  // ---- Frames in the buffer ------------------------------------------------------------------

  /** Wrapping a message at `buf` writes from here ... */
  function FrameStart(buf: int): int {
    buf - PREFIX
  }

  /** ... to here. */
  function FrameEnd(buf: int, length: nat): int {
    buf + Padded(length)
  }

  /** The frame of a response of length `k` lies behind the original and its frame, inside the buffer. */
  predicate Apart(original: int, n: nat, response: int, k: nat, max: nat) {
    && original + n <= FrameEnd(original, n) <= FrameStart(response)
    && FrameEnd(response, k) <= max
  }

  /** Where the response to a message of `n` bytes begins. */
  function ResponseAt(n: nat): nat {
    PREFIX + n + PREFIX + SUFFIX
  }

  /** For every buffer and every length: the frame of an accepted response touches neither the original
      nor its frame, and stays inside the buffer. */
  lemma FramesApart(max: nat, n: nat, required: nat, k: nat)
    requires n + required + PREFIX + SUFFIX <= max - PREFIX - SUFFIX && k <= required
    ensures Apart(PREFIX, n, ResponseAt(n), k, max)
  {
  }

  /** Nothing is to spare: both bounds are met exactly when the lengths are whole blocks and all the
      room is asked for. */
  lemma FramesAreTight(max: nat, n: nat, required: nat)
    requires n + required + PREFIX + SUFFIX <= max - PREFIX - SUFFIX
    ensures FrameEnd(PREFIX, n) == FrameStart(ResponseAt(n)) <==> n % BLOCK == 0
    ensures FrameEnd(ResponseAt(n), required) == max
            <==> required % BLOCK == 0 && n + required + PREFIX + SUFFIX == max - PREFIX - SUFFIX
  {
  }

  /** The capacity of a response is counted from the end of the original, so it is more than the buffer
      holds: of the lengths that `set_length` lets pass, those fit that leave a whole block for the
      padding, and the largest never does. */
  lemma ResponseFitsIff(max: nat, n: nat, k: nat)
    requires n + k <= max - PREFIX - SUFFIX
    ensures FrameEnd(ResponseAt(n), k) <= max <==> var room := max - ResponseAt(n); k < room - room % BLOCK
    ensures n + k == max - PREFIX - SUFFIX ==> FrameEnd(ResponseAt(n), k) > max
  {
    var room := max - ResponseAt(n);
    assert room == BLOCK * (room / BLOCK) + room % BLOCK && k == BLOCK * (k / BLOCK) + k % BLOCK;
  }
}
