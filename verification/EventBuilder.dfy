/** `Messages::event` and `event_name_uri_path`: building the message of a published event. */
module EventBuilder {
  import opened Basics
  import CoapHeader
  import opened EventModel

  datatype Publication = Publication(
    name: seq<byte>, data: Option<seq<byte>>, ttl: int, kind: byte, confirmable: bool, id: nat)

  const MAX_EVENT_NAME_LENGTH: nat := 64
  const MAX_EVENT_TTL_SECONDS: nat := 16777215
  const DEFAULT_TTL: int := 60

  /** What `strnlen` leaves of a text. */
  function Clip(s: seq<byte>, max: nat): (r: seq<byte>)
    ensures r <= s && |r| == Min(|s|, max)
  {
    if |s| <= max then s else s[..max]
  }

  function NamePath(name: seq<byte>): seq<byte>
    requires |name| <= MAX_EVENT_NAME_LENGTH
  {
    if name == [] then []
    else if |name| < 13 then [|name| as byte] + name
    else [13 as byte, (|name| - 13) as byte] + name
  }

  function TtlBytes(ttl: int): (r: seq<byte>)
    ensures |r| == 3
  {
    [ttl / 0x1_0000 % 256, ttl / 0x100 % 256, ttl % 256]
  }

  function Header(p: Publication): (r: seq<byte>)
    ensures |r| == 6
  {
    [if p.confirmable then 0x40 else 0x50, 2, p.id / 256 % 256, p.id % 256, 0xb1, p.kind]
  }

  function MaxAge(ttl: int): seq<byte> {
    if ttl == DEFAULT_TTL then [] else [0x33] + TtlBytes(ttl)
  }

  function Payload(data: Option<seq<byte>>): seq<byte> {
    if data.None? then [] else [0xff] + data.value
  }

  function ClipData(data: Option<seq<byte>>, max: nat): Option<seq<byte>> {
    if data.None? then None else Some(Clip(data.value, max))
  }

  function EventBytes(p: Publication, maxData: nat): seq<byte> {
    Header(p) + NamePath(Clip(p.name, MAX_EVENT_NAME_LENGTH)) + MaxAge(p.ttl) + Payload(ClipData(p.data, maxData))
  }

  /** A buffer that starts with the event's bytes. */
  predicate Holds(b: seq<byte>, end: nat, p: Publication, maxData: nat) {
    end < |b| && b[..end] == EventBytes(p, maxData)
  }

  // ---- Building ------------------------------------------------------------------------------

  /** `event_name_uri_path`. */
  method EventNameUriPath(buf: array<byte>, at: nat, name: seq<byte>) returns (next: nat)
    requires |name| <= MAX_EVENT_NAME_LENGTH && at + |name| + 2 <= buf.Length
    modifies buf
    ensures at + |NamePath(name)| <= buf.Length
    ensures next == at + |NamePath(name)| && buf[..] == Overwrite(old(buf[..]), at, NamePath(name))
  {
    hide Overwrite;
    ghost var b := buf[..];
    if 0 == |name| {
      OverwriteNothing(b, at);
      return at;
    }
    var head: seq<byte> := if |name| < 13 then [|name|] else [0x0d, |name| - 13];
    next := Copy(buf, at, head);
    next := Copy(buf, next, name);
    OverwriteTwice(b, at, head, name);
  }

  /** `Messages::event`. */
  method BuildEvent(buf: array<byte>, p: Publication, maxData: nat) returns (length: nat)
    requires buf.Length >= 6 + MAX_EVENT_NAME_LENGTH + 2 + 4 + 1 + maxData
    modifies buf
    ensures length == |EventBytes(p, maxData)| <= buf.Length
    ensures buf[..] == Overwrite(old(buf[..]), 0, EventBytes(p, maxData))
    ensures length < buf.Length ==> Holds(buf[..], length, p, maxData)
  {
    hide NamePath, TtlBytes, Overwrite;
    ghost var b := buf[..];
    var header := [if p.confirmable then 0x40 else 0x50, 0x02, p.id / 256 % 256, p.id % 256, 0xb1, p.kind];
    var next := Copy(buf, 0, header);
    var name := Clip(p.name, MAX_EVENT_NAME_LENGTH);
    NamePathLength(name);
    next := EventNameUriPath(buf, next, name);
    OverwriteTwice(b, 0, header, NamePath(name));
    ghost var named := header + NamePath(name);
    if DEFAULT_TTL != p.ttl {
      next := Copy(buf, next, [0x33] + TtlBytes(p.ttl));
      OverwriteTwice(b, 0, named, [0x33] + TtlBytes(p.ttl));
    }
    ghost var aged := named + MaxAge(p.ttl);
    assert named + [] == named && aged + [] == aged;
    assert next == |aged| && buf[..] == Overwrite(b, 0, aged);
    if p.data.Some? {
      next := Copy(buf, next, [0xff] + Clip(p.data.value, maxData));
      OverwriteTwice(b, 0, aged, [0xff] + Clip(p.data.value, maxData));
    }
    assert aged + Payload(ClipData(p.data, maxData)) == EventBytes(p, maxData);
    OverwriteHolds(b, 0, EventBytes(p, maxData), 0);
    return next;
  }

  lemma NamePathLength(name: seq<byte>)
    requires |name| <= MAX_EVENT_NAME_LENGTH
    ensures |NamePath(name)| <= |name| + 2
  {
  }

  // ---- Round trip ----------------------------------------------------------------------------

  /** The time to live behind a Max-Age option: every one the interface admits, exactly. */
  lemma TtlRoundTrip(ttl: int)
    ensures var t := TtlBytes(ttl); t[0] as int * 0x1_0000 + t[1] as int * 0x100 + t[2] as int == ttl % 0x100_0000
    ensures 0 <= ttl <= MAX_EVENT_TTL_SECONDS ==> ttl % 0x100_0000 == ttl
  {
    var a, b := ttl / 0x100, ttl / 0x1_0000;
    assert ttl == 0x100 * a + ttl % 256 && a == 0x100 * b + a % 256;
    assert b == 0x100 * (b / 256) + b % 256;
  }

  /** One option with a delta below 13 and up to 268 bytes of value, as the reader sees it. */
  lemma OptionWritten(b: seq<byte>, at: nat, end: nat, number: nat, delta: nat, value: seq<byte>, head: nat)
    requires at + head + |value| <= end <= |b| && delta < 13 && b[at + head..at + head + |value|] == value
    requires
      || (head == 1 && |value| < 13 && b[at] == delta * 16 + |value|)
      || (head == 2 && 13 <= |value| < 269 && b[at] == delta * 16 + 13 && b[at + 1] == |value| - 13)
    ensures ReadBody(b, at, end, number)
         == Prepend(Opt(number + delta, value), ReadBody(b, at + head + |value|, end, number + delta))
  {
    assert b[at] != 0xff;
    assert b[at] / 16 == delta;
  }

  lemma Parts(b: seq<byte>, end: nat, p: Publication, maxData: nat)
    requires Holds(b, end, p, maxData)
    ensures var n := |NamePath(Clip(p.name, MAX_EVENT_NAME_LENGTH))|;
            var a := |MaxAge(p.ttl)|;
            && 6 + n + a <= end < |b|
            && b[..6] == Header(p) && b[6..6 + n] == NamePath(Clip(p.name, MAX_EVENT_NAME_LENGTH))
            && b[6 + n..6 + n + a] == MaxAge(p.ttl) && b[6 + n + a..end] == Payload(ClipData(p.data, maxData))
  {
    hide NamePath, MaxAge, Payload, Clip, ClipData, Header;
    var h, n := Header(p), NamePath(Clip(p.name, MAX_EVENT_NAME_LENGTH));
    var a, d := MaxAge(p.ttl), Payload(ClipData(p.data, maxData));
    var e := h + n + a + d;
    FourParts(b, end, h, n, a, d);
  }

  lemma FourParts(b: seq<byte>, end: nat, h: seq<byte>, n: seq<byte>, a: seq<byte>, d: seq<byte>)
    requires end <= |b| && b[..end] == h + n + a + d
    ensures var i, j := |h| + |n|, |h| + |n| + |a|;
            && j <= end && b[..|h|] == h && b[|h|..i] == n && b[i..j] == a && b[j..end] == d
  {
    var c, i, j := b[..end], |h| + |n|, |h| + |n| + |a|;
    assert c[..|h|] == h && c[|h|..i] == n && c[i..j] == a && c[j..] == d;
    assert b[..|h|] == c[..|h|] && b[|h|..i] == c[|h|..i] && b[i..j] == c[i..j] && b[j..end] == c[j..];
  }

  lemma HeaderReads(r: seq<byte>, p: Publication)
    requires |r| >= 4 && r[0] == Header(p)[0] && r[1] == Header(p)[1] && r[2] == Header(p)[2] && r[3] == Header(p)[3]
    ensures CoapHeader.ReadHeader(r)
            == CoapHeader.Header(1, if p.confirmable then CoapHeader.Confirmable else CoapHeader.NonConfirmable, 0,
                                 0, CoapHeader.POST, p.id % 0x1_0000)
  {
    TwoBytes(p.id);
    assert r[0] == if p.confirmable then 64 else 80;
    assert r[2] as nat * 256 + r[3] as nat == p.id % 0x1_0000;
  }

  lemma TwoBytes(n: nat)
    ensures n / 256 % 256 * 256 + n % 256 == n % 0x1_0000
  {
    var q := n / 256;
    assert n == 256 * q + n % 256 && q == 256 * (q / 256) + q % 256;
  }

  /** The header of every event: version 1, confirmable exactly if it should be, no token, a POST, and the
      id in 16 bits. */
  lemma EventHeader(b: seq<byte>, end: nat, p: Publication, maxData: nat)
    requires Holds(b, end, p, maxData)
    ensures 4 <= end && CoapHeader.ReadHeader(b[..end])
            == CoapHeader.Header(1, if p.confirmable then CoapHeader.Confirmable else CoapHeader.NonConfirmable, 0,
                                 0, CoapHeader.POST, p.id % 0x1_0000)
  {
    hide NamePath, MaxAge, Payload;
    var r := b[..end];
    assert |r| >= 6 && r[0] == Header(p)[0] && r[1] == Header(p)[1] && r[2] == Header(p)[2] && r[3] == Header(p)[3] by {
      hide Header;
      assert EventBytes(p, maxData)[..6] == Header(p);
    }
    HeaderReads(r, p);
  }

  /** CoAP reads the message as a POST without token that is confirmable exactly if it should be, with the
      event path and the name as Uri-Path, the time to live as Max-Age if it is not the default, and the
      data. */
  lemma EventIsCoap(b: seq<byte>, end: nat, p: Publication, maxData: nat)
    requires Holds(b, end, p, maxData) && p.name != []
    ensures 4 <= end && CoapHeader.ReadHeader(b[..end])
            == CoapHeader.Header(1, if p.confirmable then CoapHeader.Confirmable else CoapHeader.NonConfirmable, 0,
                                 0, CoapHeader.POST, p.id % 0x1_0000)
    ensures ReadCoap(b, end) == Some(Body(
              [Opt(11, [p.kind])] + UriPaths([Clip(p.name, 64)]) + (if p.ttl == 60 then [] else [Opt(14, TtlBytes(p.ttl))]),
              ClipData(p.data, maxData)))
  {
    hide ReadBody, ReadCoap, TtlBytes, EventBytes, Holds, NamePath, MaxAge, Payload, UriPaths, Clip;
    EventHeader(b, end, p, maxData);
    var name := Clip(p.name, MAX_EVENT_NAME_LENGTH);
    var n, a := |NamePath(name)|, |MaxAge(p.ttl)|;
    Parts(b, end, p, maxData);
    assert b[4] == 0xb1 && b[5] == p.kind && b[0] % 16 == 0 by {
      assert b[..6][0] == b[0] && b[..6][4] == b[4] && b[..6][5] == b[5];
    }
    KindWritten(b, end, p.kind);
    NameWritten(b, 6, end, name);
    MaxAgeWritten(b, 6 + n, end, p.ttl);
    PayloadWritten(b, 6 + n + a, end, if p.ttl == DEFAULT_TTL then URI_PATH else MAX_AGE, ClipData(p.data, maxData));
    var path, named := Opt(URI_PATH, [p.kind]), Opt(URI_PATH, name);
    assert UriPaths([name]) == [named];
    if p.ttl == DEFAULT_TTL {
      assert [path] + ([named] + []) == [path] + UriPaths([name]) + [];
    } else {
      var age := Opt(MAX_AGE, TtlBytes(p.ttl));
      assert [path] + ([named] + ([age] + [])) == [path] + UriPaths([name]) + [age];
    }
  }

  lemma KindWritten(b: seq<byte>, end: nat, kind: byte)
    requires 6 <= end <= |b| && b[0] % 16 == 0 && b[4] == 0xb1 && b[5] == kind
    ensures var rest := ReadBody(b, 6, end, URI_PATH); ReadCoap(b, end) == Prepend(Opt(URI_PATH, [kind]), rest)
  {
    hide ReadBody;
    assert b[5..6] == [kind];
    OptionWritten(b, 4, end, 0, 11, [kind], 1);
  }

  lemma NameWritten(b: seq<byte>, at: nat, end: nat, name: seq<byte>)
    requires 0 < |name| <= MAX_EVENT_NAME_LENGTH
    requires at + |NamePath(name)| <= end <= |b| && b[at..at + |NamePath(name)|] == NamePath(name)
    ensures ReadBody(b, at, end, URI_PATH) == Prepend(Opt(URI_PATH, name), ReadBody(b, at + |NamePath(name)|, end, URI_PATH))
  {
    hide ReadBody;
    var e := NamePath(name);
    var head := if |name| < 13 then 1 else 2;
    assert b[at] == b[at..at + |e|][0] == e[0];
    assert head == 2 ==> b[at + 1] == b[at..at + |e|][1];
    assert b[at + head..at + |e|] == b[at..at + |e|][head..] == name;
    OptionWritten(b, at, end, URI_PATH, 0, name, head);
  }

  lemma MaxAgeWritten(b: seq<byte>, at: nat, end: nat, ttl: int)
    requires at + |MaxAge(ttl)| <= end <= |b| && b[at..at + |MaxAge(ttl)|] == MaxAge(ttl)
    ensures ttl != DEFAULT_TTL ==>
              ReadBody(b, at, end, URI_PATH)
              == Prepend(Opt(MAX_AGE, TtlBytes(ttl)), ReadBody(b, at + |MaxAge(ttl)|, end, MAX_AGE))
    ensures ttl == DEFAULT_TTL ==> |MaxAge(ttl)| == 0
  {
    hide ReadBody, TtlBytes;
    if ttl != DEFAULT_TTL {
      var e := MaxAge(ttl);
      assert b[at] == b[at..at + 4][0] == e[0];
      assert b[at + 1..at + 4] == b[at..at + 4][1..] == TtlBytes(ttl);
      OptionWritten(b, at, end, URI_PATH, 3, TtlBytes(ttl), 1);
    }
  }

  lemma PayloadWritten(b: seq<byte>, at: nat, end: nat, number: nat, data: Option<seq<byte>>)
    requires at <= end <= |b| && b[at..end] == Payload(data)
    ensures ReadBody(b, at, end, number) == Some(Body([], data))
  {
    if data.Some? {
      assert b[at] == b[at..end][0];
      assert b[at + 1..end] == b[at..end][1..] == data.value;
    }
  }

  /** What the handler takes from a published event is its name and its data, whatever its time to
      live, exactly if the name is not empty. */
  lemma EventRoundTripIff(b: seq<byte>, end: nat, p: Publication, maxData: nat)
    requires Holds(b, end, p, maxData)
    ensures p.name != [] ==> EventFits(b, end)
    ensures EventFits(b, end) ==>
              (EventOf(b, end) == Some(Event(Clip(p.name, MAX_EVENT_NAME_LENGTH), ClipData(p.data, maxData)))
               <==> p.name != [])
  {
    hide ReadBody, ReadCoap, TtlBytes, EventBytes, Slashed, UriPaths, EventOf, EventFits;
    if p.name != [] {
      var name := Clip(p.name, MAX_EVENT_NAME_LENGTH);
      EventIsCoap(b, end, p, maxData);
      HandlesWhatCoapReads(b, end, p.kind, [name],
                           if p.ttl == DEFAULT_TTL then None else Some(TtlBytes(p.ttl)), ClipData(p.data, maxData));
      NoFurtherSegments(name);
    } else if EventFits(b, end) {
      NameIsNeverEmpty(b, end);
    }
  }

  lemma NoFurtherSegments(name: seq<byte>)
    ensures name + Slashed([name][1..]) == name
  {
  }

  lemma NameIsNeverEmpty(b: seq<byte>, end: nat)
    requires EventFits(b, end)
    ensures EventOf(b, end).Some? ==> EventOf(b, end).value.name != []
  {
    hide Segments, Slashed, PathEnd, PathFits, SkipMaxAge, PayloadFrom, AtMaxAge;
    if OptionLength(b, NameAt(b)) != 0 {
      FirstInside(b, end);
      var v := OptionValue(b, NameAt(b));
      assert b[v..FirstEnd(b)] != [];
    }
  }

  lemma FirstInside(b: seq<byte>, end: nat)
    requires EventFits(b, end) && OptionLength(b, NameAt(b)) != 0
    ensures FirstEnd(b) <= end
  {
  }

  /** An event with an empty name and a time to live of its own is taken for an event whose name is
      the three bytes of the time to live. */
  lemma EmptyNameIsMisread(b: seq<byte>, end: nat, p: Publication, maxData: nat)
    requires Holds(b, end, p, maxData) && p.name == [] && p.ttl != DEFAULT_TTL
    ensures EventFits(b, end) && EventOf(b, end).Some? && EventOf(b, end).value.name == TtlBytes(p.ttl)
  {
    hide TtlBytes, EventBytes, Holds;
    Parts(b, end, p, maxData);
    assert b[0] == b[..6][0] && b[6] == b[6..10][0];
    assert b[7..10] == b[6..10][1..] == TtlBytes(p.ttl);
    assert end > 10 ==> b[10] == b[10..end][0];
    assert OptionLength(b, 6) == 3 && FirstEnd(b) == 10;
    assert !AtPath(b, 10, end);
    assert b[7..10] + [] == b[7..10];
  }
}
