/** The fixed 12-byte DNS message header of section 4.1.1 of RFC 1035, as an
    in-place frame with typed get/set accessors (dns-tunnel-lib/src/header.rs).

    Layout: ID(2) | FLAGS(2) | QDCOUNT(2) | ANCOUNT(2) | NSCOUNT(2) | ARCOUNT(2),
    where flag byte 2 is QR(1) OPCODE(4) AA(1) TC(1) RD(1) and flag byte 3 is
    RA(1) Z(3) RCODE(4). Within a byte, flag position 0 is the most significant bit. */
module Headers {
  import opened Wire

  const IdSize: nat := 2
  const IdPos: nat := 0
  const FlagsSize: nat := 2
  const FlagsPos: nat := 2
  const QdcountSize: nat := 2
  const QdcountPos: nat := 4
  const AncountSize: nat := 2
  const AncountPos: nat := 6
  const NscountSize: nat := 2
  const NscountPos: nat := 8
  const ArcountSize: nat := 2
  const ArcountPos: nat := 10

  const HeaderSize: nat := IdSize + FlagsSize + QdcountSize + AncountSize + NscountSize + ArcountSize

  /** The kind of query. Every raw value other than 0, 1 and 2 collapses to `Reserved`. */
  datatype OpCode = Query | IQuery | Status | Reserved
  {
    /** The discriminant, `value as u8`. */
    function Value(): (v: bv8)
      ensures v < 4
    {
      match this
      case Query => 0
      case IQuery => 1
      case Status => 2
      case Reserved => 3
    }

    /** `OpCode::from_u8`: 0, 1 and 2 name themselves; anything else is `Reserved`. */
    static function FromU8(v: bv8): (r: OpCode)
      ensures r == Reserved <==> v >= 3
      ensures r != Reserved ==> r.Value() == v
    {
      match v
      case 0 => Query
      case 1 => IQuery
      case 2 => Status
      case _ => Reserved
    }
  }

  /** Every opcode survives conversion to its discriminant and back. */
  lemma OpCodeRoundTrip(o: OpCode)
    ensures OpCode.FromU8(o.Value()) == o
  {
  }

  /** The response code. Raw values 6 to 255 have no name. */
  datatype RCode = NoError | FormatError | ServerFailure | NameError | NotImplemented | Refused
  {
    /** The discriminant, `value as u8`. */
    function Value(): (v: bv8)
      ensures v < 6
    {
      match this
      case NoError => 0
      case FormatError => 1
      case ServerFailure => 2
      case NameError => 3
      case NotImplemented => 4
      case Refused => 5
    }

    /** `RCode::from_u8`: `Some` of the code named by 0 to 5, `None` for every other value. */
    static function FromU8(v: bv8): (r: Option<RCode>)
      ensures r.Some? <==> v < 6
      ensures r.Some? ==> r.value.Value() == v
    {
      match v
      case 0 => Some(NoError)
      case 1 => Some(FormatError)
      case 2 => Some(ServerFailure)
      case 3 => Some(NameError)
      case 4 => Some(NotImplemented)
      case 5 => Some(Refused)
      case _ => None
    }
  }

  /** Every response code survives conversion to its discriminant and back. */
  lemma RCodeRoundTrip(c: RCode)
    ensures RCode.FromU8(c.Value()) == Some(c)
  {
  }

  /** `ResourceRecordType`: the record types of section 3.2.2 of RFC 1035. The codec never uses it. */
  datatype RecordType = A | NS | MD | MF | CNAME | SOA | MB | MG | MR | NULL | WKS | PTR | HINFO | MINFO | MX | TXT
  {
    /** The type's code on the wire. */
    function Code(): (c: bv16)
      ensures 1 <= c <= 16
    {
      match this
      case A => 1
      case NS => 2
      case MD => 3
      case MF => 4
      case CNAME => 5
      case SOA => 6
      case MB => 7
      case MG => 8
      case MR => 9
      case NULL => 10
      case WKS => 11
      case PTR => 12
      case HINFO => 13
      case MINFO => 14
      case MX => 15
      case TXT => 16
    }
  }

  /** No two record types share a code. */
  lemma RecordTypeCodeInjective(a: RecordType, b: RecordType)
    requires a.Code() == b.Code()
    ensures a == b
  {
  }

  class Header {
    var frame: array<bv8>

    ghost predicate Valid()
      reads this
    {
      frame.Length == HeaderSize
    }

    /** `Header::default()`: all twelve bytes zero. */
    constructor ()
      ensures Valid() && fresh(frame)
      ensures forall i :: 0 <= i < HeaderSize ==> frame[i] == 0
      ensures GetId() == 0 && GetQdcount() == 0 && GetAncount() == 0 && GetAnscount() == 0 && GetArscount() == 0
      ensures !GetQr() && GetOpCode() == Query && !GetAa() && !GetTc() && !GetRd() && !GetRa()
      ensures GetRcode() == Some(NoError)
    {
      frame := new bv8[HeaderSize](_ => 0);
    }

    /** `Header::read`: the first twelve bytes of the input become the frame; a shorter
        input is an `UnexpectedEof` error. */
    static method Read(input: seq<bv8>) returns (r: Result<Header>)
      ensures r.Ok? <==> |input| >= HeaderSize
      ensures r.Ok? ==> fresh(r.value) && fresh(r.value.frame) && r.value.Valid()
      ensures r.Ok? ==> r.value.frame[..] == input[..HeaderSize]
    {
      if |input| < HeaderSize {
        return Err(UnexpectedEof);
      }
      var h := new Header();
      forall i | 0 <= i < HeaderSize {
        h.frame[i] := input[i];
      }
      r := Ok(h);
    }

    // ---- the private primitives: one flag bit, one big-endian 16-bit window ----

    /** `get_flag_bit`: flag `bitPos` of byte `bytePos`, i.e. bit `7 - bitPos` from the least significant. */
    function GetFlagBit(bytePos: nat, bitPos: bv8): (r: bool)
      reads this, frame
      requires Valid() && bytePos < HeaderSize && bitPos < 8
      ensures r <==> (frame[bytePos] >> (7 - bitPos)) & 1 == 1
    {
      FlagBit(frame[bytePos], bitPos)
    }

    /** `set_flag_bit`: sets or clears one bit; no other bit of that byte and no other byte changes. */
    method SetFlagBit(bytePos: nat, bitPos: bv8, value: bool)
      requires Valid() && bytePos < HeaderSize && bitPos < 8
      modifies frame
      ensures Valid()
      ensures GetFlagBit(bytePos, bitPos) == value
      ensures frame[bytePos] & !FlagMask(bitPos) == old(frame[bytePos]) & !FlagMask(bitPos)
      ensures forall i :: 0 <= i < HeaderSize && i != bytePos ==> frame[i] == old(frame[i])
    {
      if value {
        frame[bytePos] := frame[bytePos] | (1 << (7 - bitPos));
      } else {
        frame[bytePos] := frame[bytePos] & !(1 << (7 - bitPos));
      }
    }

    /** `get_u16`: the big-endian value of bytes `bytePos` and `bytePos + 1`. */
    function GetU16(bytePos: nat): (r: bv16)
      reads this, frame
      requires Valid() && bytePos + 1 < HeaderSize
      ensures r == frame[bytePos] as bv16 * 256 + frame[bytePos + 1] as bv16
    {
      FromBeBytes(frame[bytePos], frame[bytePos + 1])
    }

    /** `set_u16`: writes the value big-endian into its two-byte window and nowhere else. */
    method SetU16(bytePos: nat, value: bv16)
      requires Valid() && bytePos + 1 < HeaderSize
      modifies frame
      ensures Valid()
      ensures GetU16(bytePos) == value
      ensures forall i :: 0 <= i < HeaderSize && i != bytePos && i != bytePos + 1 ==> frame[i] == old(frame[i])
    {
      var bytes := ToBeBytes(value);
      frame[bytePos] := bytes.0;
      frame[bytePos + 1] := bytes.1;
    }

    // ---- ID and the four counts ----

    function GetId(): (r: bv16)
      reads this, frame
      requires Valid()
      ensures r == frame[0] as bv16 * 256 + frame[1] as bv16
    {
      GetU16(IdPos)
    }

    method SetId(value: bv16)
      requires Valid()
      modifies frame
      ensures Valid()
      ensures GetId() == value
      ensures forall i :: 2 <= i < HeaderSize ==> frame[i] == old(frame[i])
    {
      SetU16(IdPos, value);
    }

    function GetQdcount(): (r: bv16)
      reads this, frame
      requires Valid()
      ensures r == frame[4] as bv16 * 256 + frame[5] as bv16
    {
      GetU16(QdcountPos)
    }

    method SetQdcount(value: bv16)
      requires Valid()
      modifies frame
      ensures Valid()
      ensures GetQdcount() == value
      ensures forall i :: 0 <= i < HeaderSize && i != 4 && i != 5 ==> frame[i] == old(frame[i])
    {
      SetU16(QdcountPos, value);
    }

    function GetAncount(): (r: bv16)
      reads this, frame
      requires Valid()
      ensures r == frame[6] as bv16 * 256 + frame[7] as bv16
    {
      GetU16(AncountPos)
    }

    method SetAncount(value: bv16)
      requires Valid()
      modifies frame
      ensures Valid()
      ensures GetAncount() == value
      ensures forall i :: 0 <= i < HeaderSize && i != 6 && i != 7 ==> frame[i] == old(frame[i])
    {
      SetU16(AncountPos, value);
    }

    /** `get_anscount`: despite its name, the NSCOUNT field. */
    function GetAnscount(): (r: bv16)
      reads this, frame
      requires Valid()
      ensures r == frame[8] as bv16 * 256 + frame[9] as bv16
    {
      GetU16(NscountPos)
    }

    method SetNscount(value: bv16)
      requires Valid()
      modifies frame
      ensures Valid()
      ensures GetAnscount() == value
      ensures forall i :: 0 <= i < HeaderSize && i != 8 && i != 9 ==> frame[i] == old(frame[i])
    {
      SetU16(NscountPos, value);
    }

    /** `get_arscount`: the ARCOUNT field. */
    function GetArscount(): (r: bv16)
      reads this, frame
      requires Valid()
      ensures r == frame[10] as bv16 * 256 + frame[11] as bv16
    {
      GetU16(ArcountPos)
    }

    /** `set_nrcount`: despite its name, the ARCOUNT field. */
    method SetNrcount(value: bv16)
      requires Valid()
      modifies frame
      ensures Valid()
      ensures GetArscount() == value
      ensures forall i :: 0 <= i < 10 ==> frame[i] == old(frame[i])
    {
      SetU16(ArcountPos, value);
    }

    // ---- the single-bit flags ----

    /** QR is the most significant bit of byte 2. */
    function GetQr(): (r: bool)
      reads this, frame
      requires Valid()
      ensures r <==> frame[2] & 0x80 != 0
    {
      GetFlagBit(FlagsPos, 0)
    }

    method SetQr(value: bool)
      requires Valid()
      modifies frame
      ensures Valid()
      ensures GetQr() == value
      ensures frame[2] & 0x7F == old(frame[2]) & 0x7F
      ensures forall i :: 0 <= i < HeaderSize && i != 2 ==> frame[i] == old(frame[i])
      ensures GetOpCode() == old(GetOpCode()) && GetAa() == old(GetAa()) && GetTc() == old(GetTc()) && GetRd() == old(GetRd())
    {
      SetFlagBit(FlagsPos, 0, value);
    }

    /** AA is bit 0x04 of byte 2. */
    function GetAa(): (r: bool)
      reads this, frame
      requires Valid()
      ensures r <==> frame[2] & 0x04 != 0
    {
      GetFlagBit(FlagsPos, 5)
    }

    /** `set_add`: sets the AA flag. */
    method SetAdd(value: bool)
      requires Valid()
      modifies frame
      ensures Valid()
      ensures GetAa() == value
      ensures frame[2] & 0xFB == old(frame[2]) & 0xFB
      ensures forall i :: 0 <= i < HeaderSize && i != 2 ==> frame[i] == old(frame[i])
      ensures GetQr() == old(GetQr()) && GetOpCode() == old(GetOpCode()) && GetTc() == old(GetTc()) && GetRd() == old(GetRd())
    {
      SetFlagBit(FlagsPos, 5, value);
    }

    /** TC is bit 0x02 of byte 2. */
    function GetTc(): (r: bool)
      reads this, frame
      requires Valid()
      ensures r <==> frame[2] & 0x02 != 0
    {
      GetFlagBit(FlagsPos, 6)
    }

    method SetTc(value: bool)
      requires Valid()
      modifies frame
      ensures Valid()
      ensures GetTc() == value
      ensures frame[2] & 0xFD == old(frame[2]) & 0xFD
      ensures forall i :: 0 <= i < HeaderSize && i != 2 ==> frame[i] == old(frame[i])
      ensures GetQr() == old(GetQr()) && GetOpCode() == old(GetOpCode()) && GetAa() == old(GetAa()) && GetRd() == old(GetRd())
    {
      SetFlagBit(FlagsPos, 6, value);
    }

    /** RD is the least significant bit of byte 2. */
    function GetRd(): (r: bool)
      reads this, frame
      requires Valid()
      ensures r <==> frame[2] & 0x01 != 0
    {
      GetFlagBit(FlagsPos, 7)
    }

    method SetRd(value: bool)
      requires Valid()
      modifies frame
      ensures Valid()
      ensures GetRd() == value
      ensures frame[2] & 0xFE == old(frame[2]) & 0xFE
      ensures forall i :: 0 <= i < HeaderSize && i != 2 ==> frame[i] == old(frame[i])
      ensures GetQr() == old(GetQr()) && GetOpCode() == old(GetOpCode()) && GetAa() == old(GetAa()) && GetTc() == old(GetTc())
    {
      SetFlagBit(FlagsPos, 7, value);
    }

    /** RA is the most significant bit of byte 3. */
    function GetRa(): (r: bool)
      reads this, frame
      requires Valid()
      ensures r <==> frame[3] & 0x80 != 0
    {
      GetFlagBit(FlagsPos + 1, 0)
    }

    method SetRa(value: bool)
      requires Valid()
      modifies frame
      ensures Valid()
      ensures GetRa() == value
      ensures frame[3] & 0x7F == old(frame[3]) & 0x7F
      ensures forall i :: 0 <= i < HeaderSize && i != 3 ==> frame[i] == old(frame[i])
      ensures GetRcode() == old(GetRcode())
    {
      SetFlagBit(FlagsPos + 1, 0, value);
    }

    // ---- the two 4-bit fields ----

    /** OPCODE is bits 0x78 (binary 0111 1000) of byte 2; raw values 3 to 15 read as `Reserved`. */
    function GetOpCode(): (r: OpCode)
      reads this, frame
      requires Valid()
      ensures r == Reserved <==> (frame[2] & 0x78) >> 3 >= 3
      ensures r != Reserved ==> r.Value() == (frame[2] & 0x78) >> 3
    {
      var rawNr := (frame[FlagsPos] & 0x78) >> 3;
      OpCode.FromU8(rawNr)
    }

    /** `set_op_code`: rewrites the four OPCODE bits and keeps QR, AA, TC and RD. */
    method SetOpCode(value: OpCode)
      requires Valid()
      modifies frame
      ensures Valid()
      ensures GetOpCode() == value
      ensures (frame[2] & 0x78) >> 3 == value.Value()
      ensures frame[2] & 0x87 == old(frame[2]) & 0x87
      ensures forall i :: 0 <= i < HeaderSize && i != 2 ==> frame[i] == old(frame[i])
      ensures GetQr() == old(GetQr()) && GetAa() == old(GetAa()) && GetTc() == old(GetTc()) && GetRd() == old(GetRd())
    {
      var bitMask := value.Value() << 3;
      frame[FlagsPos] := frame[FlagsPos] & 0x87;
      frame[FlagsPos] := frame[FlagsPos] | bitMask;
    }

    /** RCODE is the low nibble of byte 3; raw values 6 to 15 have no name and read as `None`. */
    function GetRcode(): (r: Option<RCode>)
      reads this, frame
      requires Valid()
      ensures r.Some? <==> frame[3] & 0x0F < 6
      ensures r.Some? ==> r.value.Value() == frame[3] & 0x0F
    {
      var rawNr := frame[FlagsPos + 1] & 0x0F;
      RCode.FromU8(rawNr)
    }

    /** `set_rcode`: rewrites the low nibble of byte 3 and keeps RA and the Z bits. */
    method SetRcode(value: RCode)
      requires Valid()
      modifies frame
      ensures Valid()
      ensures GetRcode() == Some(value)
      ensures frame[3] & 0x0F == value.Value()
      ensures frame[3] & 0xF0 == old(frame[3]) & 0xF0
      ensures forall i :: 0 <= i < HeaderSize && i != 3 ==> frame[i] == old(frame[i])
      ensures GetRa() == old(GetRa())
    {
      var bitMask := value.Value();
      frame[FlagsPos + 1] := frame[FlagsPos + 1] & 0xF0;
      frame[FlagsPos + 1] := frame[FlagsPos + 1] | bitMask;
    }
  }

  /** A frame whose first two bytes are 10 and 32 carries ID 10 * 256 + 32 = 2592. */
  lemma IdExample(h: Header)
    requires h.Valid() && h.frame[0] == 10 && h.frame[1] == 32
    ensures h.GetId() == 2592
  {
  }

  /** Flag positions 0 to 7 of the byte 0xCA (binary 1100 1010) read true, true, false, false, true, false, true, false. */
  lemma FlagBitExample(h: Header)
    requires h.Valid() && h.frame[0] == 0xCA
    ensures h.GetFlagBit(0, 0) && h.GetFlagBit(0, 1) && !h.GetFlagBit(0, 2) && !h.GetFlagBit(0, 3)
    ensures h.GetFlagBit(0, 4) && !h.GetFlagBit(0, 5) && h.GetFlagBit(0, 6) && !h.GetFlagBit(0, 7)
  {
  }

  /** The raw opcodes 3 to 15 all read as `Reserved`, and 0, 1, 2 as themselves. */
  lemma OpCodeFromRawNibble(h: Header, raw: bv8)
    requires h.Valid() && raw < 16 && h.frame[2] == raw << 3
    ensures h.GetOpCode() == (if raw == 0 then Query else if raw == 1 then IQuery
                              else if raw == 2 then Status else Reserved)
  {
  }

  /** A client in the style of the header's unit tests: what the contracts let a caller conclude. */
  method HeaderClient()
  {
    var h := new Header();
    assert h.GetId() == 0 && !h.GetQr() && h.GetOpCode() == Query;
    h.frame[0] := 10;
    h.frame[1] := 32;
    assert h.GetId() == 2592;
    h.SetId(1000);
    assert h.GetId() == 1000;
    h.SetQr(true);
    h.SetOpCode(Status);
    h.SetRcode(Refused);
    h.SetQdcount(1);
    assert h.GetQr() && h.GetOpCode() == Status && h.GetRcode() == Some(Refused);
    assert h.GetId() == 1000 && h.GetQdcount() == 1 && !h.GetRa();
    h.SetQr(false);
    assert !h.GetQr() && h.GetOpCode() == Status;
  }
}
