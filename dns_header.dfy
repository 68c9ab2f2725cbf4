/** The older duplicate of the DNS header (dns-tunnel-lib/src/dns.rs): the same
    12-byte frame, with only the ID, QR and OPCODE accessors, its own `OpCode`,
    and literal bit masks instead of the flag-bit helpers. */
module LegacyHeader {
  import opened Wire
  import Headers

  const IdSize: nat := 2
  const IdPos: nat := 0
  const FlagsSize: nat := 2
  const FlagsPos: nat := 2
  const QdcountSize: nat := 2
  const AncountSize: nat := 2
  const NscountSize: nat := 2
  const ArcountSize: nat := 2

  const DnsHeaderSize: nat := IdSize + FlagsSize + QdcountSize + AncountSize + NscountSize + ArcountSize

  /** The kind of query, as declared a second time in dns.rs. */
  datatype OpCode = Query | IQuery | Status | Reserved
  {
    /** The discriminant, `value as u8`. */
    function Value(): (v: bv8)
      ensures v < 4
    {
      match this
      case Query => 0
      case IQuery => 1
      case Status => 2
      case Reserved => 3
    }

    /** `OpCode::from_u8`: 0, 1 and 2 name themselves; anything else is `Reserved`. */
    static function FromU8(v: bv8): (r: OpCode)
      ensures r == Reserved <==> v >= 3
      ensures r != Reserved ==> r.Value() == v
    {
      match v
      case 0 => Query
      case 1 => IQuery
      case 2 => Status
      case _ => Reserved
    }
  }

  /** Every opcode survives conversion to its discriminant and back. */
  lemma OpCodeRoundTrip(o: OpCode)
    ensures OpCode.FromU8(o.Value()) == o
  {
  }

  class DnsHeader {
    var frame: array<bv8>

    ghost predicate Valid()
      reads this
    {
      frame.Length == DnsHeaderSize
    }

    /** `DnsHeader::default()`: all twelve bytes zero, so QR is false and the opcode is `Query`. */
    constructor ()
      ensures Valid() && fresh(frame)
      ensures forall i :: 0 <= i < DnsHeaderSize ==> frame[i] == 0
      ensures GetId() == 0 && !GetQr() && GetOpCode() == Query
    {
      frame := new bv8[DnsHeaderSize](_ => 0);
    }

    /** The big-endian value of bytes 0 and 1. */
    function GetId(): (r: bv16)
      reads this, frame
      requires Valid()
      ensures r == frame[0] as bv16 * 256 + frame[1] as bv16
    {
      FromBeBytes(frame[IdPos], frame[IdPos + 1])
    }

    /** Writes the ID big-endian into bytes 0 and 1 and nowhere else. */
    method SetId(value: bv16)
      requires Valid()
      modifies frame
      ensures Valid()
      ensures GetId() == value
      ensures forall i :: 2 <= i < DnsHeaderSize ==> frame[i] == old(frame[i])
    {
      var bytes := ToBeBytes(value);
      frame[IdPos] := bytes.0;
      frame[IdPos + 1] := bytes.1;
    }

    /** QR, tested with the literal mask 0x80 on byte 2. */
    function GetQr(): (r: bool)
      reads this, frame
      requires Valid()
      ensures r == FlagBit(frame[2], 0)
    {
      frame[FlagsPos] & 0x80 != 0
    }

    /** Sets or clears bit 0x80 of byte 2 with literal masks; every other bit of the frame stays. */
    method SetQr(value: bool)
      requires Valid()
      modifies frame
      ensures Valid()
      ensures GetQr() == value
      ensures frame[2] & 0x7F == old(frame[2]) & 0x7F
      ensures forall i :: 0 <= i < DnsHeaderSize && i != 2 ==> frame[i] == old(frame[i])
      ensures GetOpCode() == old(GetOpCode())
    {
      if value {
        frame[FlagsPos] := frame[FlagsPos] | 0x80;
      } else {
        frame[FlagsPos] := frame[FlagsPos] & 0x7F;
      }
    }

    /** OPCODE is bits 0x78 of byte 2; raw values 3 to 15 read as `Reserved`. */
    function GetOpCode(): (r: OpCode)
      reads this, frame
      requires Valid()
      ensures r == Reserved <==> (frame[2] & 0x78) >> 3 >= 3
      ensures r != Reserved ==> r.Value() == (frame[2] & 0x78) >> 3
    {
      var rawNr := (frame[FlagsPos] & 0x78) >> 3;
      OpCode.FromU8(rawNr)
    }

    /** Rewrites the four OPCODE bits, keeping QR and the low three bits of byte 2. */
    method SetOpCode(value: OpCode)
      requires Valid()
      modifies frame
      ensures Valid()
      ensures GetOpCode() == value
      ensures (frame[2] & 0x78) >> 3 == value.Value()
      ensures frame[2] & 0x87 == old(frame[2]) & 0x87
      ensures forall i :: 0 <= i < DnsHeaderSize && i != 2 ==> frame[i] == old(frame[i])
      ensures GetQr() == old(GetQr())
    {
      var bitMask := value.Value() << 3;
      frame[FlagsPos] := frame[FlagsPos] & 0x87;
      frame[FlagsPos] := frame[FlagsPos] | bitMask;
    }
  }

  /** The opcode of header.rs that has the same discriminant. */
  function AsHeaderOpCode(o: OpCode): (r: Headers.OpCode)
    ensures r.Value() == o.Value()
  {
    match o
    case Query => Headers.Query
    case IQuery => Headers.IQuery
    case Status => Headers.Status
    case Reserved => Headers.Reserved
  }

  /** On the same twelve bytes, the two headers' accessors agree. */
  lemma AgreesWithHeader(d: DnsHeader, h: Headers.Header)
    requires d.Valid() && h.Valid() && d.frame[..] == h.frame[..]
    ensures d.GetId() == h.GetId()
    ensures d.GetQr() == h.GetQr()
    ensures AsHeaderOpCode(d.GetOpCode()) == h.GetOpCode()
  {
    assert d.frame[0] == h.frame[0] && d.frame[1] == h.frame[1] && d.frame[2] == h.frame[2];
  }

  /** A frame whose first two bytes are 10 and 32 carries ID 2592. */
  lemma IdExample(d: DnsHeader)
    requires d.Valid() && d.frame[0] == 10 && d.frame[1] == 32
    ensures d.GetId() == 2592
  {
  }

  /** A client in the style of dns.rs's unit tests. */
  method DnsHeaderClient()
  {
    var d := new DnsHeader();
    assert !d.GetQr() && d.GetOpCode() == Query;
    d.SetId(1000);
    assert d.GetId() == 1000;
    d.SetQr(true);
    d.SetOpCode(Reserved);
    assert d.GetQr() && d.GetOpCode() == Reserved && d.GetId() == 1000;
  }
}
