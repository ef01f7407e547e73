/** Bytes, CoAP header fields, protocol errors, and the world outside the message stores. */
module CoapTypes {
  import opened Basics

  type MessageId = x: nat | x < 0x1_0000

  datatype CoapType = CON | NON | ACK | RESET | ERROR

  datatype Delivery = Delivered | DeliveredNack | NotDelivered

  datatype Command = Close | DiscardSession

  /** The type field of the first header byte, `message[0] & 0x30`. An empty buffer has no type. */
  function TypeOf(data: seq<byte>): CoapType {
    if |data| == 0 then ERROR
    else match (data[0] / 16) % 4
      case 0 => CON
      case 1 => NON
      case 2 => ACK
      case _ => RESET
  }

  predicate IsRequest(data: seq<byte>) {
    TypeOf(data) == CON || TypeOf(data) == NON
  }

  predicate IsAckOrReset(data: seq<byte>) {
    TypeOf(data) == ACK || TypeOf(data) == RESET
  }

  /** The id field of a header, big-endian in bytes 2 and 3. */
  function HeaderId(data: seq<byte>): MessageId
    requires |data| >= 4
  {
    BigEndian(data[2], data[3])
  }

  /** `Message::get_id`: the signed field narrowed to 16 bits, so an unset id (-1) reads 65535. */
  function NarrowId(id: int): MessageId {
    id % 0x1_0000
  }

  /** `Message::decode_id` followed by `get_id`: short messages keep the id they had. */
  function DecodedId(data: seq<byte>, id: int): MessageId {
    if |data| >= 4 then HeaderId(data) else NarrowId(id)
  }

  /** What crosses the boundary of the stores: frames handed to the channel, commands issued to
      it, frames taken from it, and calls of delivery handlers. */
  datatype Action =
    | Transmit(frame: seq<byte>)
    | Issue(command: Command)
    | Arrived(taken: seq<byte>)
    | Notify(handler: nat, outcome: Delivery)

  datatype Arrival = Arrival(error: ProtocolError, data: seq<byte>)

  /** Everything the environment will answer, as total functions of how often it was asked:
      random draws, true time at each clock reading, the result of each transmission, what each
      receive yields, and whether each allocation finds room. */
  datatype Oracle = Oracle(
    draw: nat -> byte,
    clock: nat -> nat,
    sendError: nat -> ProtocolError,
    arrival: nat -> Arrival,
    room: nat -> bool)

  /** How far each oracle was consumed, constructions minus destructions of stored messages (the
      16-bit `message_count` is this number modulo 2^16), and what was done. */
  datatype World = World(
    drawn: nat, readings: nat, sent: nat, taken: nat, allocations: nat, live: int, log: seq<Action>)
  {
    function Draw(): World { this.(drawn := drawn + 1) }

    function Sending(frame: seq<byte>): World { this.(sent := sent + 1, log := log + [Transmit(frame)]) }

    function Issuing(c: Command): World { this.(log := log + [Issue(c)]) }

    function Notifying(h: Option<nat>, d: Delivery): World {
      if h.Some? then this.(log := log + [Notify(h.value, d)]) else this
    }

    function Created(): World { this.(live := live + 1) }

    /** `CoAPMessage::messages()`. */
    function MessageCount(): MessageId { live % 0x1_0000 }

    function Deleted(): World { this.(live := live - 1) }
  }

  /** Each clock reading is later than the one before, by at least 1 ms and less than 2^30 ms. */
  ghost predicate Advancing(o: Oracle) {
    forall i: nat :: o.clock(i) + 1 <= o.clock(i + 1) < o.clock(i) + 0x4000_0000
  }

  /** True time never runs backwards. */
  ghost predicate Monotone(o: Oracle) {
    forall i: nat, j: nat :: i <= j ==> o.clock(i) <= o.clock(j)
  }
}
