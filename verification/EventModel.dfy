/** Published events on the wire: a reader of CoAP options written from RFC 7252 section 3.1, what
    `Subscriptions::handle_event` takes from a message, and what `Messages::event` puts into one. */
module EventModel {
  import opened Basics

  // ---- RFC 7252, section 3.1 -----------------------------------------------------------------

  datatype Opt = Opt(number: nat, value: seq<byte>)

  datatype Body = Body(options: seq<Opt>, payload: Option<seq<byte>>)

  const URI_PATH: nat := 11
  const MAX_AGE: nat := 14

  /** An option delta or length: the nibble and the bytes that extend it. */
  datatype Extended = Extended(value: nat, next: nat)

  function ReadExtended(b: seq<byte>, at: nat, end: nat, nibble: nat): (r: Option<Extended>)
    requires end <= |b|
    ensures r.Some? ==> at <= r.value.next && (r.value.next <= end || r.value.next == at)
  {
    if nibble < 13 then Some(Extended(nibble, at))
    else if nibble == 13 && at < end then Some(Extended(b[at] as nat + 13, at + 1))
    else if nibble == 14 && at + 1 < end then Some(Extended(BigEndian(b[at], b[at + 1]) + 269, at + 2))
    else None
  }

  /** Options and payload from `at` on, after an option of the given number. */
  function ReadBody(b: seq<byte>, at: nat, end: nat, number: nat): Option<Body>
    requires at <= end <= |b|
    decreases end - at
  {
    if at == end then Some(Body([], None))
    else if b[at] == 0xff then Some(Body([], Some(b[at + 1..end])))
    else
      var delta := ReadExtended(b, at + 1, end, b[at] / 16);
      if delta.None? then None
      else
        var length := ReadExtended(b, delta.value.next, end, b[at] % 16);
        if length.None? || length.value.next + length.value.value > end then None
        else
          var next := length.value.next + length.value.value;
          var n := number + delta.value.value;
          Prepend(Opt(n, b[length.value.next..next]), ReadBody(b, next, end, n))
  }

  function Prepend(o: Opt, rest: Option<Body>): Option<Body> {
    if rest.None? then None else Some(Body([o] + rest.value.options, rest.value.payload))
  }

  /** The options and the payload of a message of `end` bytes, behind its header and token. */
  function ReadCoap(b: seq<byte>, end: nat): Option<Body>
    requires end <= |b|
  {
    if end < 4 || b[0] % 16 > 8 || 4 + b[0] % 16 > end then None
    else ReadBody(b, 4 + b[0] % 16, end, 0)
  }

  function UriPaths(segments: seq<seq<byte>>): (r: seq<Opt>)
    ensures |r| == |segments| && forall i :: 0 <= i < |r| ==> r[i] == Opt(URI_PATH, segments[i])
  {
    seq(|segments|, i requires 0 <= i < |segments| => Opt(URI_PATH, segments[i]))
  }

  /** Segments, each with a slash before it. */
  function Slashed(segments: seq<seq<byte>>): seq<byte> {
    if segments == [] then [] else [SLASH] + segments[0] + Slashed(segments[1..])
  }

  const SLASH: byte := 0x2f

  // ---- What the event handler takes from a message -------------------------------------------

  /** The bytes `CoAP::option_decode` reads are there. */
  predicate HeaderFits(b: seq<byte>, at: nat) {
    && at < |b|
    && (b[at] % 16 == 13 ==> at + 1 < |b|)
    && (b[at] % 16 == 14 ==> at + 2 < |b|)
  }

  /** What `CoAP::option_decode` returns; 0 for the reserved nibble. */
  function OptionLength(b: seq<byte>, at: nat): nat
    requires HeaderFits(b, at)
  {
    var nibble := b[at] % 16;
    if nibble < 13 then nibble
    else if nibble == 13 then b[at + 1] as nat + 13
    else if nibble == 14 then BigEndian(b[at + 1], b[at + 2]) + 269
    else 0
  }

  /** Where `CoAP::option_decode` leaves the pointer; it does not move over the reserved nibble. */
  function OptionValue(b: seq<byte>, at: nat): nat
    requires HeaderFits(b, at)
  {
    var nibble := b[at] % 16;
    if nibble < 13 then at + 1 else if nibble == 13 then at + 2 else if nibble == 14 then at + 3 else at
  }

  predicate AtPath(b: seq<byte>, at: nat, end: nat)
    requires end <= |b|
  {
    at < end && b[at] < 16
  }

  /** A run of options of delta 0 that stays inside the message. */
  predicate PathFits(b: seq<byte>, at: nat, end: nat)
    requires end <= |b|
    decreases end - at
  {
    at <= end && (AtPath(b, at, end) ==>
      && b[at] % 16 != 15
      && HeaderFits(b, at)
      && OptionValue(b, at) + OptionLength(b, at) <= end
      && PathFits(b, OptionValue(b, at) + OptionLength(b, at), end))
  }

  function Segments(b: seq<byte>, at: nat, end: nat): seq<seq<byte>>
    requires end <= |b| && PathFits(b, at, end)
    decreases end - at
  {
    if !AtPath(b, at, end) then []
    else
      var v, n := OptionValue(b, at), OptionLength(b, at);
      [b[v..v + n]] + Segments(b, v + n, end)
  }

  /** Where the run ends. */
  function PathEnd(b: seq<byte>, at: nat, end: nat): (r: nat)
    requires end <= |b| && PathFits(b, at, end)
    ensures at <= r <= end && !AtPath(b, r, end)
    decreases end - at
  {
    if !AtPath(b, at, end) then at else PathEnd(b, OptionValue(b, at) + OptionLength(b, at), end)
  }

  datatype Event = Event(name: seq<byte>, data: Option<seq<byte>>)

  function NameAt(b: seq<byte>): nat
    requires |b| > 0
  {
    6 + b[0] % 16
  }

  /** The end of the name's first segment. */
  function FirstEnd(b: seq<byte>): nat
    requires |b| > 0 && HeaderFits(b, NameAt(b))
  {
    OptionValue(b, NameAt(b)) + OptionLength(b, NameAt(b))
  }

  /** The message is such that the handler reads and writes inside the buffer only, which has a byte
      to spare behind the message. */
  predicate EventFits(b: seq<byte>, end: nat) {
    && end < |b| && HeaderFits(b, NameAt(b))
    && (OptionLength(b, NameAt(b)) != 0 ==>
        && PathFits(b, FirstEnd(b), end)
        && (AtMaxAge(b, PathEnd(b, FirstEnd(b), end), end) ==> HeaderFits(b, PathEnd(b, FirstEnd(b), end))))
  }

  predicate AtMaxAge(b: seq<byte>, at: nat, end: nat)
    requires end <= |b|
  {
    at < end && b[at] / 16 == 3
  }

  /** Behind a Max-Age option, if there is one. */
  function SkipMaxAge(b: seq<byte>, at: nat, end: nat): (r: nat)
    requires end <= |b| && (AtMaxAge(b, at, end) ==> HeaderFits(b, at))
    ensures at <= r
  {
    if AtMaxAge(b, at, end) then OptionValue(b, at) + OptionLength(b, at) else at
  }

  /** The payload behind a marker. */
  function PayloadFrom(b: seq<byte>, marker: nat, end: nat): Option<seq<byte>>
    requires end <= |b|
  {
    if marker < end && b[marker] == 0xff then Some(b[marker + 1..end]) else None
  }

  /** The event in a message: its name with slashes, and its data; none if the name is missing. */
  function EventOf(b: seq<byte>, end: nat): Option<Event>
    requires EventFits(b, end)
  {
    if OptionLength(b, NameAt(b)) == 0 then None
    else
      var name := b[OptionValue(b, NameAt(b))..FirstEnd(b)] + Slashed(Segments(b, FirstEnd(b), end));
      Some(Event(name, PayloadFrom(b, SkipMaxAge(b, PathEnd(b, FirstEnd(b), end), end), end)))
  }

  // ---- The handler reads what CoAP says ------------------------------------------------------

  /** One step of the reader over an option of a delta below 13. */
  lemma OptionReads(b: seq<byte>, at: nat, end: nat, number: nat)
    requires at < end <= |b| && b[at] / 16 < 13
    requires ReadBody(b, at, end, number).Some?
    ensures HeaderFits(b, at) && b[at] % 16 != 15
    ensures var v, n := OptionValue(b, at), OptionLength(b, at);
            && v + n <= end
            && ReadBody(b, at, end, number)
               == Prepend(Opt(number + b[at] / 16, b[v..v + n]), ReadBody(b, v + n, end, number + b[at] / 16))
  {
  }

  /** A run of Uri-Path options up to a Max-Age option, the payload or the end. */
  lemma {:induction false} PathReads(b: seq<byte>, at: nat, end: nat, segments: seq<seq<byte>>, body: Body)
    requires at <= end <= |b|
    requires ReadBody(b, at, end, URI_PATH) == Some(Body(UriPaths(segments) + body.options, body.payload))
    requires body.options != [] ==> body.options[0].number == MAX_AGE
    ensures PathFits(b, at, end) && Segments(b, at, end) == segments
    ensures ReadBody(b, PathEnd(b, at, end), end, URI_PATH) == Some(body)
    decreases |segments|
  {
    hide ReadBody, OptionValue, OptionLength, HeaderFits;
    var all := UriPaths(segments) + body.options;
    if AtPath(b, at, end) {
      OptionReads(b, at, end, URI_PATH);
      var next := OptionValue(b, at) + OptionLength(b, at);
      var rest := ReadBody(b, next, end, URI_PATH).value;
      assert all == [Opt(URI_PATH, b[OptionValue(b, at)..next])] + rest.options;
      assert all[0].number == URI_PATH;
      assert segments != [];
      assert rest.options == all[1..] == UriPaths(segments[1..]) + body.options;
      assert all[0].value == segments[0];
      PathReads(b, next, end, segments[1..], body);
    } else {
      NotAPath(b, at, end);
      if segments != [] {
        StartsWithPath(segments, body.options);
        assert false;
      }
      assert all == body.options;
    }
  }

  lemma StartsWithPath(segments: seq<seq<byte>>, tail: seq<Opt>)
    requires segments != []
    ensures (UriPaths(segments) + tail)[0].number == URI_PATH
  {
  }

  /** Where no Uri-Path follows, the first option has another number. */
  lemma NotAPath(b: seq<byte>, at: nat, end: nat)
    requires at <= end <= |b| && !AtPath(b, at, end)
    requires ReadBody(b, at, end, URI_PATH).Some?
    ensures var o := ReadBody(b, at, end, URI_PATH).value.options; o != [] ==> o[0].number > URI_PATH
  {
  }

  /** Every message that CoAP reads as a one-byte Uri-Path, the segments of the name as further
      Uri-Paths, perhaps a Max-Age, and perhaps a payload, is handled as the event of that name, the
      segments joined by slashes, and that payload. */
  lemma HandlesWhatCoapReads(b: seq<byte>, end: nat, kind: byte, segments: seq<seq<byte>>, age: Option<seq<byte>>,
                             payload: Option<seq<byte>>)
    requires end < |b| && segments != [] && segments[0] != []
    requires ReadCoap(b, end) == Some(Body(
               [Opt(URI_PATH, [kind])] + UriPaths(segments) + (if age.Some? then [Opt(MAX_AGE, age.value)] else []), payload))
    ensures EventFits(b, end)
    ensures EventOf(b, end) == Some(Event(segments[0] + Slashed(segments[1..]), payload))
  {
    hide ReadBody, Slashed, Segments, PathEnd, PathFits, OptionValue, OptionLength, UriPaths, HeaderFits;
    var ages := if age.Some? then [Opt(MAX_AGE, age.value)] else [];
    var all := [Opt(URI_PATH, [kind])] + UriPaths(segments) + ages;
    var at := 4 + b[0] % 16;
    FirstOption(b, at, end, all, payload);
    assert all[0] == Opt(URI_PATH, [kind]);
    assert all[1..] == UriPaths(segments) + ages;
    var name := at + 2;
    assert name == NameAt(b);
    var body := Body(ages, payload);
    PathReads(b, name, end, segments, body);
    FirstSegment(b, name, end, segments);
    var pe := PathEnd(b, FirstEnd(b), end);
    MaxAgeReads(b, pe, end, age, payload);
  }

  lemma FirstSegment(b: seq<byte>, at: nat, end: nat, segments: seq<seq<byte>>)
    requires end <= |b| && PathFits(b, at, end) && Segments(b, at, end) == segments != []
    ensures AtPath(b, at, end) && HeaderFits(b, at)
    ensures var v, n := OptionValue(b, at), OptionLength(b, at);
            && v + n <= end && b[v..v + n] == segments[0]
            && PathFits(b, v + n, end) && Segments(b, v + n, end) == segments[1..]
            && PathEnd(b, v + n, end) == PathEnd(b, at, end)
  {
  }

  lemma FirstOption(b: seq<byte>, at: nat, end: nat, all: seq<Opt>, payload: Option<seq<byte>>)
    requires at <= end <= |b| && all != [] && all[0].number == URI_PATH && |all[0].value| == 1
    requires ReadBody(b, at, end, 0) == Some(Body(all, payload))
    ensures at + 2 <= end && ReadBody(b, at + 2, end, URI_PATH) == Some(Body(all[1..], payload))
  {
    assert at < end;
    assert b[at] / 16 < 13;
    OptionReads(b, at, end, 0);
    assert b[at] / 16 == 11;
    assert OptionLength(b, at) == 1 && OptionValue(b, at) == at + 1;
    var rest := ReadBody(b, at + 2, end, URI_PATH);
    assert all == [all[0]] + rest.value.options;
  }

  /** The optional Max-Age, then the payload or the end. */
  lemma MaxAgeReads(b: seq<byte>, at: nat, end: nat, age: Option<seq<byte>>, payload: Option<seq<byte>>)
    requires at <= end <= |b| && !AtPath(b, at, end)
    requires ReadBody(b, at, end, URI_PATH)
          == Some(Body(if age.Some? then [Opt(MAX_AGE, age.value)] else [], payload))
    ensures AtMaxAge(b, at, end) <==> age.Some?
    ensures AtMaxAge(b, at, end) ==> HeaderFits(b, at)
    ensures payload == PayloadFrom(b, SkipMaxAge(b, at, end), end)
  {
    if AtMaxAge(b, at, end) {
      OptionReads(b, at, end, URI_PATH);
      PayloadReads(b, SkipMaxAge(b, at, end), end, MAX_AGE);
    } else if age.Some? {
      OptionOf(b, at, end, URI_PATH);
      assert false;
    } else {
      PayloadReads(b, at, end, URI_PATH);
    }
  }

  lemma OptionOf(b: seq<byte>, at: nat, end: nat, number: nat)
    requires at <= end <= |b| && ReadBody(b, at, end, number).Some? && ReadBody(b, at, end, number).value.options != []
    ensures at < end && b[at] != 0xff
    ensures var n := ReadBody(b, at, end, number).value.options[0].number;
            if b[at] / 16 < 13 then n == number + b[at] / 16 else n >= number + 13
  {
  }

  lemma PayloadReads(b: seq<byte>, at: nat, end: nat, number: nat)
    requires at <= end <= |b|
    requires ReadBody(b, at, end, number).Some? && ReadBody(b, at, end, number).value.options == []
    ensures ReadBody(b, at, end, number).value.payload == PayloadFrom(b, at, end)
  {
  }
}
