/** `Messages::event` and the parsing half of `Subscriptions::handle_event`, on the message buffer. */
module EventCodec {
  import opened Basics
  import opened EventModel

  // ---- Parsing in place ----------------------------------------------------------------------

  /** `CoAP::option_decode`. */
  method OptionDecode(queue: array<byte>, option: nat) returns (length: nat, next: nat)
    requires HeaderFits(queue[..], option)
    ensures length == OptionLength(queue[..], option) && next == OptionValue(queue[..], option)
  {
    var nibble := queue[option] % 16;
    if 13 > nibble {
      return nibble, option + 1;
    } else if 13 == nibble {
      return queue[option + 1] as nat + 13, option + 2;
    } else if 14 == nibble {
      return BigEndian(queue[option + 1], queue[option + 2]) + 269, option + 3;
    } else {
      return 0, option;
    }
  }

  /** An option is decoded from the bytes at and behind it. */
  lemma SameOption(a: seq<byte>, b: seq<byte>, at: nat)
    requires |a| == |b| && at <= |a| && a[at..] == b[at..] && HeaderFits(b, at)
    ensures HeaderFits(a, at)
    ensures OptionLength(a, at) == OptionLength(b, at) && OptionValue(a, at) == OptionValue(b, at)
  {
    assert forall k :: at <= k < |a| ==> a[k] == a[at..][k - at] && b[k] == b[at..][k - at];
  }

  lemma SuffixAt(a: seq<byte>, b: seq<byte>, start: nat, k: nat)
    requires |a| == |b| && start <= k <= |a| && a[start..] == b[start..]
    ensures a[k..] == b[k..] && (k < |a| ==> a[k] == b[k])
  {
    assert k < |a| ==> a[k] == a[start..][k - start] && b[k] == b[start..][k - start];
    assert a[k..] == a[start..][k - start..] && b[k..] == b[start..][k - start..];
  }

  /** The buffer after a slash and `n` bytes from `src` went to `dst`. */
  function Spliced(q: seq<byte>, dst: nat, src: nat, n: nat): (r: seq<byte>)
    requires dst < src && src + n <= |q|
    ensures |r| == |q|
  {
    q[..dst] + [SLASH] + q[src..src + n] + q[dst + 1 + n..]
  }

  /** `memmove` towards the front. */
  method Move(queue: array<byte>, dst: nat, src: nat, n: nat)
    requires dst <= src && src + n <= queue.Length
    modifies queue
    ensures queue[..] == old(queue[..dst] + queue[src..src + n] + queue[dst + n..])
  {
    ghost var q := queue[..];
    forall i | 0 <= i < n {
      queue[dst + i] := queue[src + i];
    }
    Moved(q, queue[..], dst, src, n);
  }

  lemma Moved(q: seq<byte>, r: seq<byte>, dst: nat, src: nat, n: nat)
    requires |r| == |q| && dst <= src && src + n <= |q|
    requires forall i :: 0 <= i < |r| && !(dst <= i < dst + n) ==> r[i] == q[i]
    requires forall i :: dst <= i < dst + n ==> r[i] == q[src + (i - dst)]
    ensures r == q[..dst] + q[src..src + n] + q[dst + n..]
  {
    assert r[..dst] == q[..dst] && r[dst..dst + n] == q[src..src + n] && r[dst + n..] == q[dst + n..];
    assert r == r[..dst] + r[dst..dst + n] + r[dst + n..];
  }

  /** A slash, and behind it the segment, moved there if it does not lie there already. */
  method Splice(queue: array<byte>, dst: nat, src: nat, n: nat)
    requires dst < src && src + n <= queue.Length
    modifies queue
    ensures queue[..] == Spliced(old(queue[..]), dst, src, n)
  {
    ghost var q := queue[..];
    queue[dst] := SLASH;
    ghost var q1 := queue[..];
    assert q1 == q[dst := SLASH];
    if dst + 1 != src {
      Move(queue, dst + 1, src, n);
      assert q1[..dst + 1] == q[..dst] + [SLASH] && q1[src..src + n] == q[src..src + n];
      assert q1[dst + 1 + n..] == q[dst + 1 + n..];
    } else {
      assert q1 == q[..dst] + [SLASH] + q[src..src + n] + q[dst + 1 + n..];
    }
  }

  /** Between two rounds: the part of the name in place, and nothing unread overwritten. */
  ghost predicate Joining(q: seq<byte>, b: seq<byte>, first: nat, dst: nat, src: nat, end: nat) {
    && |q| == |b| && first <= dst <= src <= end <= |b|
    && PathFits(b, first, end) && PathFits(b, src, end)
    && PathEnd(b, src, end) == PathEnd(b, first, end)
    && q[first..dst] + Slashed(Segments(b, src, end)) == Slashed(Segments(b, first, end))
    && q[..first] == b[..first] && q[src..] == b[src..]
  }

  lemma JoiningStep(q: seq<byte>, b: seq<byte>, first: nat, dst: nat, src: nat, end: nat, v: nat, n: nat)
    requires Joining(q, b, first, dst, src, end) && AtPath(b, src, end) && HeaderFits(b, src)
    requires v == OptionValue(b, src) && n == OptionLength(b, src)
    ensures dst <= src < v && v + n <= end
    ensures Joining(Spliced(q, dst, v, n), b, first, dst + 1 + n, v + n, end)
  {
    hide Slashed, Segments, PathFits, PathEnd, OptionLength, OptionValue, Spliced;
    PathStep(b, src, end);
    SplicedParts(q, b, first, dst, src, v, n);
    JoinOne(q[first..dst], b[v..v + n], Segments(b, v + n, end));
  }

  lemma SplicedParts(q: seq<byte>, b: seq<byte>, first: nat, dst: nat, src: nat, v: nat, n: nat)
    requires |q| == |b| && first <= dst <= src < v && v + n <= |b|
    requires q[..first] == b[..first] && q[src..] == b[src..]
    ensures var r := Spliced(q, dst, v, n);
            && r[first..dst + 1 + n] == q[first..dst] + ([SLASH] + b[v..v + n])
            && r[..first] == b[..first] && r[v + n..] == b[v + n..]
  {
    var r := Spliced(q, dst, v, n);
    SuffixAt(q, b, src, v);
    assert q[v..v + n] == q[v..][..n] && b[v..v + n] == b[v..][..n];
    assert r[first..dst + 1 + n] == q[first..dst] + ([SLASH] + q[v..v + n]);
    assert r[..first] == q[..first];
    SuffixAt(q, b, src, v + n);
    assert r[v + n..] == q[v + n..];
  }

  /** The loop of `handle_event` over the further segments of the name: joins them in place, each with
      a slash before it, and leaves every byte it has not read as it was. */
  method JoinPath(queue: array<byte>, first: nat, end: nat) returns (dst: nat, src: nat)
    requires end <= queue.Length && PathFits(queue[..], first, end)
    modifies queue
    ensures src == PathEnd(old(queue[..]), first, end) && first <= dst <= src
    ensures queue[first..dst] == Slashed(Segments(old(queue[..]), first, end))
    ensures queue[..first] == old(queue[..first]) && queue[src..] == old(queue[src..])
  {
    hide Joining, Slashed, Segments, PathFits, PathEnd, OptionLength, OptionValue, Spliced;
    ghost var b := queue[..];
    dst, src := first, first;
    JoiningStarts(b, first, end);
    while src < end && queue[src] < 16
      invariant src <= queue.Length && Joining(queue[..], b, first, dst, src, end)
      decreases end - src
    {
      ghost var q := queue[..];
      JoiningReads(q, b, first, dst, src, end);
      var length, value := OptionDecode(queue, src);
      JoiningStep(q, b, first, dst, src, end, value, length);
      Splice(queue, dst, value, length);
      src := value + length;
      dst := dst + 1 + length;
    }
    JoiningEnds(queue[..], b, first, dst, src, end);
  }

  lemma JoiningStarts(b: seq<byte>, first: nat, end: nat)
    requires end <= |b| && PathFits(b, first, end)
    ensures first <= end && Joining(b, b, first, first, first, end)
  {
    assert b[first..first] + Slashed(Segments(b, first, end)) == Slashed(Segments(b, first, end));
  }

  /** What is decoded next is what was in the message to begin with. */
  lemma JoiningReads(q: seq<byte>, b: seq<byte>, first: nat, dst: nat, src: nat, end: nat)
    requires Joining(q, b, first, dst, src, end) && src < end && q[src] < 16
    ensures AtPath(b, src, end) && HeaderFits(b, src) && HeaderFits(q, src)
    ensures OptionLength(q, src) == OptionLength(b, src) && OptionValue(q, src) == OptionValue(b, src)
  {
    hide Slashed, Segments, PathEnd;
    SuffixAt(q, b, src, src);
    PathStep(b, src, end);
    SameOption(q, b, src);
  }

  lemma JoiningEnds(q: seq<byte>, b: seq<byte>, first: nat, dst: nat, src: nat, end: nat)
    requires Joining(q, b, first, dst, src, end) && (src < end ==> q[src] >= 16)
    ensures first <= dst <= src <= |q| && src == PathEnd(b, first, end)
    ensures q[first..dst] == Slashed(Segments(b, first, end))
    ensures q[..first] == b[..first] && q[src..] == b[src..]
  {
    hide Slashed, Segments, PathFits, PathEnd;
    if src < end {
      SuffixAt(q, b, src, src);
    }
    NoSegments(b, src, end);
    assert q[first..dst] + [] == q[first..dst];
  }

  lemma FitsInside(b: seq<byte>, at: nat, end: nat)
    requires end <= |b| && PathFits(b, at, end)
    ensures at <= end
  {
  }

  lemma PathStep(b: seq<byte>, at: nat, end: nat)
    requires end <= |b| && PathFits(b, at, end) && AtPath(b, at, end)
    ensures HeaderFits(b, at)
    ensures var v, n := OptionValue(b, at), OptionLength(b, at);
            && at < v && v + n <= end && PathFits(b, v + n, end)
            && Segments(b, at, end) == [b[v..v + n]] + Segments(b, v + n, end)
            && PathEnd(b, at, end) == PathEnd(b, v + n, end)
  {
  }

  lemma JoinOne(joined: seq<byte>, segment: seq<byte>, rest: seq<seq<byte>>)
    ensures joined + Slashed([segment] + rest) == joined + ([SLASH] + segment) + Slashed(rest)
  {
    assert ([segment] + rest)[1..] == rest;
  }

  lemma NoSegments(b: seq<byte>, at: nat, end: nat)
    requires end <= |b| && PathFits(b, at, end) && !AtPath(b, at, end)
    ensures Slashed(Segments(b, at, end)) == [] && PathEnd(b, at, end) == at
  {
  }

  /** The Max-Age option, skipped if it is there. */
  method PassMaxAge(queue: array<byte>, src: nat, end: nat) returns (next: nat)
    requires end <= queue.Length && (AtMaxAge(queue[..], src, end) ==> HeaderFits(queue[..], src))
    ensures next == SkipMaxAge(queue[..], src, end)
  {
    next := src;
    if next < end && queue[next] / 16 == 3 {
      var length, value := OptionDecode(queue, next);
      next := value + length;
    }
  }

  /** What lies unread is read as it was sent. */
  lemma SameRest(q: seq<byte>, b: seq<byte>, at: nat, end: nat)
    requires |q| == |b| && at <= end < |b| && q[at..] == b[at..] && (AtMaxAge(b, at, end) ==> HeaderFits(b, at))
    ensures AtMaxAge(q, at, end) ==> HeaderFits(q, at)
    ensures SkipMaxAge(q, at, end) == SkipMaxAge(b, at, end)
    ensures PayloadFrom(q, SkipMaxAge(q, at, end), end) == PayloadFrom(b, SkipMaxAge(b, at, end), end)
  {
    hide OptionLength, OptionValue, HeaderFits;
    SuffixAt(q, b, at, at);
    if AtMaxAge(b, at, end) {
      SameOption(q, b, at);
    }
    var marker := SkipMaxAge(b, at, end);
    if marker < end {
      SuffixAt(q, b, at, marker);
      SuffixAt(q, b, at, marker + 1);
      assert q[marker + 1..end] == q[marker + 1..][..end - (marker + 1)];
      assert b[marker + 1..end] == b[marker + 1..][..end - (marker + 1)];
    }
  }

  /** The event in the message, its name joined in place. */
  method ReadEvent(queue: array<byte>, end: nat)
    returns (event: Option<Event>, nameAt: nat, nameEnd: nat, ghost dataAt: nat)
    requires EventFits(queue[..], end)
    modifies queue
    ensures event == EventOf(old(queue[..]), end)
    ensures event.None? ==> queue[..] == old(queue[..])
    ensures event.Some? ==>
              && nameAt <= nameEnd <= end
              && queue[nameAt..nameEnd] == event.value.name && queue[..nameAt] == old(queue[..nameAt])
    ensures event.Some? && event.value.data.Some? ==>
              nameEnd < dataAt <= end && queue[dataAt..end] == event.value.data.value
  {
    hide Slashed, Segments, PathFits, PathEnd, OptionLength, OptionValue, AtMaxAge, SkipMaxAge, EventOf;
    ghost var b := queue[..];
    EventIs(b, end);
    nameAt, nameEnd, dataAt := 0, 0, 0;
    var option: nat := 6 + queue[0] % 16;
    var length, name := OptionDecode(queue, option);
    if length == 0 {
      return None, 0, 0, 0;
    }
    nameAt := name;
    var first := name + length;
    FitsInside(b, first, end);
    var src;
    nameEnd, src := JoinPath(queue, first, end);
    NameInPlace(queue[..], b, name, first, nameEnd);
    SameRest(queue[..], b, src, end);
    src := PassMaxAge(queue, src, end);
    var data := None;
    if src < end && queue[src] == 0xff {
      dataAt := src + 1;
      data := Some(queue[src + 1..end]);
    }
    event := Some(Event(queue[nameAt..nameEnd], data));
  }

  /** The parsing half of `handle_event`: the event in the message, its name and its data each followed
      by a zero byte in the buffer, nothing before the name changed. */
  method ParseEvent(queue: array<byte>, end: nat) returns (event: Option<Event>, ghost nameAt: nat, ghost dataAt: nat)
    requires EventFits(queue[..], end)
    modifies queue
    ensures event == EventOf(old(queue[..]), end)
    ensures event.None? ==> queue[..] == old(queue[..])
    ensures event.Some? ==>
              && nameAt + |event.value.name| <= end
              && queue[nameAt..nameAt + |event.value.name|] == event.value.name
              && queue[nameAt + |event.value.name|] == 0
              && queue[..nameAt] == old(queue[..nameAt])
    ensures event.Some? && event.value.data.Some? ==>
              && nameAt + |event.value.name| < dataAt <= end
              && queue[dataAt..end] == event.value.data.value && queue[end] == 0
  {
    hide EventOf, EventFits;
    assert end < queue.Length by { FitsBuffer(queue[..], end); }
    var nameEnd;
    event, nameAt, nameEnd, dataAt := ReadEvent(queue, end);
    if event.None? {
      return;
    }
    ghost var q := queue[..];
    if event.value.data.Some? {
      queue[end] := 0;
    }
    queue[nameEnd] := 0;
    Terminated(q, queue[..], nameAt, nameEnd, dataAt, end, event.value.data.Some?);
  }

  lemma FitsBuffer(b: seq<byte>, end: nat)
    requires EventFits(b, end)
    ensures end < |b|
  {
  }

  lemma EventIs(b: seq<byte>, end: nat)
    requires EventFits(b, end)
    ensures OptionLength(b, NameAt(b)) == 0 ==> EventOf(b, end) == None
    ensures OptionLength(b, NameAt(b)) != 0 ==>
              var name := b[OptionValue(b, NameAt(b))..FirstEnd(b)] + Slashed(Segments(b, FirstEnd(b), end));
              EventOf(b, end) == Some(Event(name, PayloadFrom(b, SkipMaxAge(b, PathEnd(b, FirstEnd(b), end), end), end)))
  {
    hide Slashed, Segments, PathFits, PathEnd, OptionLength, OptionValue, SkipMaxAge, PayloadFrom;
  }

  lemma NameInPlace(q: seq<byte>, b: seq<byte>, name: nat, first: nat, dst: nat)
    requires |q| == |b| && name <= first <= dst <= |q| && q[..first] == b[..first]
    ensures q[name..dst] == b[name..first] + q[first..dst] && q[..name] == b[..name]
  {
    assert q[name..first] == q[..first][name..] == b[..first][name..];
  }

  lemma Terminated(q: seq<byte>, r: seq<byte>, nameAt: nat, nameEnd: nat, dataAt: nat, end: nat, data: bool)
    requires nameAt <= nameEnd <= end < |q| && (data ==> nameEnd < dataAt <= end)
    requires r == (if data then q[end := 0] else q)[nameEnd := 0]
    ensures r[nameAt..nameEnd] == q[nameAt..nameEnd] && r[nameEnd] == 0 && r[..nameAt] == q[..nameAt]
    ensures data ==> r[dataAt..end] == q[dataAt..end] && r[end] == 0
  {
  }
}
