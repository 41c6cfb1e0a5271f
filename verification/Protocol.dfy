// The replies of the UAM protocol: which kinds there are, how long each is and where
// its decoded fields lie in the packed structures.
module Protocol {
  import opened Wrappers

  datatype Kind =
    | AR00 | AR01 | AR02 | AR03 | AR04 | AR05 | AR06 | AR07 | AR08
    | VR00 | XR00 | ID00 | YR

  const STX: byte := 2
  const ETX: byte := 3
  const HEADER_SIZE: nat := 11
  const FOOTER_SIZE: nat := 5
  const RANGES: nat := 1081
  const RANGES_MULTIECHO: nat := 2161
  const SENSING_SIZE: nat := 39
  // The union of all replies is as large as the AR01 reply.
  const PACKET_SIZE: nat := 8703

  // sizeof(Reply) of each worker.
  function ReplySize(k: Kind): (n: nat)
    ensures HEADER_SIZE + FOOTER_SIZE <= n <= PACKET_SIZE
  {
    match k
    case AR00 => HEADER_SIZE + SENSING_SIZE + 4 * RANGES + FOOTER_SIZE
    case AR01 => HEADER_SIZE + SENSING_SIZE + 8 * RANGES + FOOTER_SIZE
    case AR06 => HEADER_SIZE + SENSING_SIZE + 4 * RANGES_MULTIECHO + FOOTER_SIZE
    case VR00 => HEADER_SIZE + 107 + FOOTER_SIZE
    case XR00 => HEADER_SIZE + 90 + FOOTER_SIZE
    case ID00 => HEADER_SIZE + 16 + FOOTER_SIZE
    case YR => 23 + 4 * RANGES + FOOTER_SIZE
    case _ => HEADER_SIZE + FOOTER_SIZE
  }

  // Header and sub-header characters. The YR worker looks at the header only.
  function Code(k: Kind): (c: seq<byte>)
    ensures |c| == if k.YR? then 2 else 4
  {
    match k
    case AR00 => [65, 82, 48, 48]
    case AR01 => [65, 82, 48, 49]
    case AR02 => [65, 82, 48, 50]
    case AR03 => [65, 82, 48, 51]
    case AR04 => [65, 82, 48, 52]
    case AR05 => [65, 82, 48, 53]
    case AR06 => [65, 82, 48, 54]
    case AR07 => [65, 82, 48, 55]
    case AR08 => [65, 82, 48, 56]
    case VR00 => [86, 82, 48, 48]
    case XR00 => [88, 82, 48, 48]
    case ID00 => [73, 68, 48, 48]
    case YR => [89, 82]
  }

  // validateReplyType of the worker of kind k.
  predicate HasCode(bytes: seq<byte>, k: Kind)
    requires |bytes| >= HEADER_SIZE
  {
    Code(k) <= bytes[5..9]
  }

  // validateCommandHeader of any worker: the filter on the two header characters.
  predicate KnownHeader(bytes: seq<byte>)
    requires |bytes| >= HEADER_SIZE
  {
    bytes[5..7] in {[65, 82], [86, 82], [88, 82], [73, 68], [89, 82]}
  }

  // What happens to a number after it is parsed.
  datatype Adjust =
    | Plain
    | Flag       // a bool: non-zero becomes 1
    | NextArea   // area numbers are shown counting from 1
    | ErrorCode  // a non-zero error code is shown 0x40 higher

  function Adjusted(a: Adjust, v: nat): nat
  {
    match a
    case Plain => v
    case Flag => if v != 0 then 1 else 0
    case NextArea => v + 1
    case ErrorCode => if v != 0 then v + 0x40 else 0
  }

  datatype Field = Field(offset: nat, width: nat, adjust: Adjust)
  {
    function End(): nat { offset + width }
  }

  const CMD_SIZE := Field(1, 4, Plain)
  const STATUS := Field(9, 2, Plain)

  function CrcField(k: Kind): Field
  {
    Field(ReplySize(k) - FOOTER_SIZE, 4, Plain)
  }

  // decodeHeaderAndFooter
  function HeaderFields(k: Kind): (fs: seq<Field>)
    ensures |fs| == 3
  {
    [CMD_SIZE, STATUS, CrcField(k)]
  }

  // count consecutive bools.
  function Flags(offset: nat, count: nat): (fs: seq<Field>)
    ensures |fs| == count
  {
    seq(count, i requires 0 <= i < count => Field(offset + i, 1, Flag))
  }

  // Operating mode, area number, error state, error code; lockout, OSSD 1 and 2, warning
  // 1 and 2, OSSD 3 and 4; two reserved bytes; muting 1 and 2, reset request 1 and 2;
  // encoder speed.
  function StateFields(): (fs: seq<Field>)
    ensures |fs| == 16
  {
    [Field(11, 1, Flag), Field(12, 2, NextArea), Field(14, 1, Flag), Field(15, 2, ErrorCode)]
    + Flags(17, 7) + Flags(26, 4) + [Field(30, 4, Plain)]
  }

  // decodeSensingData, in the order of its calls: then the timestamp, laser off and the
  // contaminated window.
  function SensingFields(): (fs: seq<Field>)
    ensures |fs| == 19
  {
    StateFields() + ([Field(34, 8, Plain)] + Flags(42, 2))
  }

  // decodeStatusData of the XR00 reply: laser off, eighteen flags of the three slaves, the
  // timestamp and the contaminated window. The calls come in another order, which makes no
  // difference because a reply with a field that fails is dropped.
  function StatusFields(): (fs: seq<Field>)
    ensures |fs| == 37
  {
    StateFields() + (Flags(34, 19) + [Field(53, 8, Plain), Field(61, 1, Flag)])
  }

  // decodeField on an array of count uint32_t.
  function Elements(offset: nat, count: nat): (fs: seq<Field>)
    ensures |fs| == count
  {
    seq(count, i requires 0 <= i < count => Field(offset + 4 * i, 4, Plain))
  }

  function DataFields(k: Kind): seq<Field>
  {
    match k
    case AR00 => SensingFields() + Elements(50, RANGES)
    case AR01 => SensingFields() + (Elements(50, RANGES) + Elements(50 + 4 * RANGES, RANGES))
    case AR06 => SensingFields() + Elements(50, RANGES_MULTIECHO)
    case XR00 => StatusFields()
    case _ => []
  }

  // Everything decode(raw_reply) converts, in order.
  function ReplyFields(k: Kind): seq<Field>
  {
    HeaderFields(k) + DataFields(k)
  }
}
