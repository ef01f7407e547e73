/** The fixed header of a CoAP message, read as section 3 of RFC 7252 lays it out. */
module CoapHeader {
  import opened Basics
  import opened CoapTypes

  datatype Kind = Confirmable | NonConfirmable | Acknowledgement | Reset

  /** Version, type, token length, code class and detail, and message id. */
  datatype Header = Header(version: nat, kind: Kind, tokenLength: nat, codeClass: nat, detail: nat, id: nat)

  const GET: nat := 1
  const POST: nat := 2

  /** Version in the two highest bits, type in the next two, token length in the lowest four; a code byte of
      three and five bits; the id in network order. */
  function ReadHeader(b: seq<byte>): Header
    requires |b| >= 4
  {
    var t := b[0] / 16 % 4;
    var kind := if t == 0 then Confirmable else if t == 1 then NonConfirmable else if t == 2 then Acknowledgement else Reset;
    Header(b[0] / 64, kind, b[0] % 16, b[1] / 32, b[1] % 32, b[2] as nat * 256 + b[3] as nat)
  }

  /** The type and the id on which the message stores decide are those of the header. */
  lemma StoresReadTheHeader(b: seq<byte>)
    requires |b| >= 4
    ensures var h := ReadHeader(b);
            && HeaderId(b) == h.id
            && (TypeOf(b) == CON <==> h.kind == Confirmable) && (TypeOf(b) == NON <==> h.kind == NonConfirmable)
            && (TypeOf(b) == ACK <==> h.kind == Acknowledgement) && (TypeOf(b) == RESET <==> h.kind == Reset)
            && (IsRequest(b) <==> h.kind in {Confirmable, NonConfirmable})
            && (IsAckOrReset(b) <==> h.kind in {Acknowledgement, Reset})
  {
  }
}
