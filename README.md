# dns-tunnel wire codec in Dafny

This project models the DNS wire-format codec of `dns-tunnel-lib`, the library half of
a tool that tunnels data through DNS queries. The codec has three parts:

- `Header` (header.rs): the 12-byte message header of section 4.1.1 of RFC 1035, kept
  as a byte array. It has get/set accessors for:
  - the big-endian 16-bit fields ID, QDCOUNT, ANCOUNT, NSCOUNT and ARCOUNT;
  - the single-bit flags QR, AA, TC, RD and RA;
  - the 4-bit fields OPCODE and RCODE, with their `from_u8` lookups;
  - the primitives under them: one flag bit, and one big-endian 16-bit window.
- `DnsHeader` (dns.rs): an older copy of the header. It has only the ID, QR and
  OPCODE accessors, uses literal masks, and declares its own `OpCode`.
- `Question` (question.rs): a byte frame built from a dotted name, a query type and
  a query class, and a reader that gives the name back.

Modules:

- `Wire` (wire.dfy): the shared vocabulary. Bytes are `bv8`, 16-bit values are
  `bv16`, and there are `Option` and `Result` types. It holds big-endian conversion
  and the flag-bit mask. Position 0 is the most significant bit.
- `Headers` (header.dfy): `Header` is a class over `array<bv8>`. The getters are
  functions that read the frame. The setters are methods that modify it. Each setter
  states:
  - what the getter returns afterwards;
  - which bits of the touched byte stay the same;
  - that every other byte stays the same;
  - for flag and 4-bit setters, that the other accessors of the same byte keep their
    values.
- `LegacyHeader` (dns_header.dfy): `DnsHeader` in the same style, plus a lemma. On
  the same twelve bytes, both headers' accessors agree.
- `Questions` (question.dfy): `Question::new` and `get_qname` as methods. `new` is
  specified by the function `Encoding`, and the frame layout is proved about that
  function.

The code differs from section 4.1.2 of RFC 1035 in two ways, and the model follows
the code:

- `Question::new` writes QTYPE right after the last label. There is no zero byte
  terminating the name. In the unit test, the `0x00` after the labels is QTYPE's
  high byte.
- `get_qname` does not decode labels and inserts no dots. It returns every frame
  byte before the first zero byte, length bytes included, each as a character.

The lemma `FirstZeroOfEncoding` and the method `NameOfNewQuestion` pin down what this means.
For a well-formed name with a QTYPE below 256, the reader stops at QTYPE's high
byte. It returns the name with a length byte in front and a length byte in place
of each dot. `UnterminatedExample` exhibits a frame with no zero byte at all,
where the reader would index past the end.

## Model

| member | source | states |
|---|---|---|
| `Wire.FromBeBytes` | dns-tunnel-lib/src/header.rs:194-195 | `u16::from_be_bytes`: the value is high byte × 256 + low byte |
| `Wire.ToBeBytes` | dns-tunnel-lib/src/header.rs:197-200 | `u16::to_be_bytes`: decoding the pair it yields gives back the value |
| `Wire.ToBeBytesOfFromBeBytes` | dns-tunnel-lib/src/header.rs:194-200 | the other round trip: any two bytes survive decoding and re-encoding |
| `Wire.FromBeBytesInjective` | dns-tunnel-lib/src/header.rs:194-195 | equal 16-bit values come only from equal byte pairs |
| `Wire.FlagBit` | dns-tunnel-lib/src/header.rs:175-180 | the flag test is true exactly when bit 7 − p of the byte is 1 |
| `Wire.FlagBitsDetermineByte` | dns-tunnel-lib/src/header.rs:175-180 | two bytes with the same eight flag bits are equal |
| `Wire.OtherFlagsAgree` | dns-tunnel-lib/src/header.rs:185-192 | keeping all bits but flag p's keeps every other flag's value |
| `Headers.OpCode.Value` | dns-tunnel-lib/src/header.rs:210-219 | the discriminant is below 4 |
| `Headers.OpCode.FromU8` | dns-tunnel-lib/src/header.rs:222-229 | the result is `Reserved` exactly for raw values ≥ 3; otherwise its discriminant is the raw value |
| `Headers.OpCodeRoundTrip` | dns-tunnel-lib/src/header.rs:210-229 | `from_u8(o as u8) == o` for every opcode |
| `Headers.RCode.Value` | dns-tunnel-lib/src/header.rs:233-265 | the discriminant is below 6 |
| `Headers.RCode.FromU8` | dns-tunnel-lib/src/header.rs:268-278 | `Some` exactly for raw values < 6, and then the code's discriminant is the raw value |
| `Headers.RCodeRoundTrip` | dns-tunnel-lib/src/header.rs:233-278 | `from_u8(r as u8) == Some(r)` for every response code |
| `Headers.RecordType.Code` | dns-tunnel-lib/src/header.rs:362-410 | every resource record type code lies in 1..16 |
| `Headers.RecordTypeCodeInjective` | dns-tunnel-lib/src/header.rs:362-410 | no two resource record types share a code |
| `Headers.Header.constructor` | dns-tunnel-lib/src/header.rs:28-31 | `Header::default()`: twelve zero bytes, so every count is 0, every flag false, the opcode `Query`, the rcode `Some(NoError)` |
| `Headers.Header.Read` | dns-tunnel-lib/src/header.rs:35-39 | succeeds exactly when at least 12 bytes are available; the new frame is the first 12 bytes; otherwise `UnexpectedEof` |
| `Headers.Header.GetFlagBit` | dns-tunnel-lib/src/header.rs:175-180 | true exactly when bit 7 − bitPos of the byte is set; requires bitPos < 8, as the source asserts |
| `Headers.Header.SetFlagBit` | dns-tunnel-lib/src/header.rs:185-192 | the flag then reads as the value; the byte's other bits and every other byte are unchanged |
| `Headers.Header.GetU16` | dns-tunnel-lib/src/header.rs:194-196 | big-endian value of the two-byte window |
| `Headers.Header.SetU16` | dns-tunnel-lib/src/header.rs:197-201 | `get_u16` at the same offset returns the value; the other ten bytes are unchanged |
| `Headers.Header.GetId` | dns-tunnel-lib/src/header.rs:47-49 | ID is bytes 0–1, big-endian |
| `Headers.Header.SetId` | dns-tunnel-lib/src/header.rs:50-52 | `get_id` returns the value; bytes 2–11 are unchanged |
| `Headers.Header.GetQdcount` | dns-tunnel-lib/src/header.rs:144-146 | QDCOUNT is bytes 4–5, big-endian |
| `Headers.Header.SetQdcount` | dns-tunnel-lib/src/header.rs:147-149 | `get_qdcount` returns the value; all bytes but 4–5 are unchanged |
| `Headers.Header.GetAncount` | dns-tunnel-lib/src/header.rs:151-153 | ANCOUNT is bytes 6–7, big-endian |
| `Headers.Header.SetAncount` | dns-tunnel-lib/src/header.rs:154-156 | `get_ancount` returns the value; all bytes but 6–7 are unchanged |
| `Headers.Header.GetAnscount` | dns-tunnel-lib/src/header.rs:158-160 | `get_anscount` reads NSCOUNT, bytes 8–9, big-endian |
| `Headers.Header.SetNscount` | dns-tunnel-lib/src/header.rs:161-163 | `get_anscount` returns the value; all bytes but 8–9 are unchanged |
| `Headers.Header.GetArscount` | dns-tunnel-lib/src/header.rs:165-167 | ARCOUNT is bytes 10–11, big-endian |
| `Headers.Header.SetNrcount` | dns-tunnel-lib/src/header.rs:168-170 | `set_nrcount` writes ARCOUNT: `get_arscount` returns the value; bytes 0–9 are unchanged |
| `Headers.Header.GetQr` | dns-tunnel-lib/src/header.rs:58-60 | QR is bit 0x80 of byte 2 |
| `Headers.Header.SetQr` | dns-tunnel-lib/src/header.rs:61-63 | QR reads as the value; the other bits of byte 2 and all other bytes are unchanged; OPCODE, AA, TC and RD keep their values |
| `Headers.Header.GetAa` | dns-tunnel-lib/src/header.rs:90-92 | AA is bit 0x04 of byte 2 |
| `Headers.Header.SetAdd` | dns-tunnel-lib/src/header.rs:93-95 | AA reads as the value; the other bits and bytes are unchanged; QR, OPCODE, TC and RD keep their values |
| `Headers.Header.GetTc` | dns-tunnel-lib/src/header.rs:102-104 | TC is bit 0x02 of byte 2 |
| `Headers.Header.SetTc` | dns-tunnel-lib/src/header.rs:105-107 | TC reads as the value; the other bits and bytes are unchanged; QR, OPCODE, AA and RD keep their values |
| `Headers.Header.GetRd` | dns-tunnel-lib/src/header.rs:115-117 | RD is bit 0x01 of byte 2 |
| `Headers.Header.SetRd` | dns-tunnel-lib/src/header.rs:118-120 | RD reads as the value; the other bits and bytes are unchanged; QR, OPCODE, AA and TC keep their values |
| `Headers.Header.GetRa` | dns-tunnel-lib/src/header.rs:127-129 | RA is bit 0x80 of byte 3 |
| `Headers.Header.SetRa` | dns-tunnel-lib/src/header.rs:130-132 | RA reads as the value; the other bits of byte 3 and all other bytes are unchanged; RCODE keeps its value |
| `Headers.Header.GetOpCode` | dns-tunnel-lib/src/header.rs:70-73 | raw OPCODE bits `(byte2 & 0x78) >> 3`: 0, 1 and 2 name themselves, 3–15 read `Reserved` |
| `Headers.Header.SetOpCode` | dns-tunnel-lib/src/header.rs:74-78 | `get_op_code` returns the value; only bits 0x78 of byte 2 change; QR, AA, TC and RD keep their values |
| `Headers.Header.GetRcode` | dns-tunnel-lib/src/header.rs:134-137 | `Some` exactly when the low nibble of byte 3 is below 6, carrying that code |
| `Headers.Header.SetRcode` | dns-tunnel-lib/src/header.rs:138-142 | `get_rcode` returns `Some(value)`; the high nibble of byte 3 (RA and Z) and all other bytes are unchanged |
| `Headers.IdExample` | dns-tunnel-lib/src/header.rs:286-290 | bytes 10, 32 give ID 2592 |
| `Headers.FlagBitExample` | dns-tunnel-lib/src/header.rs:334-345 | byte 0xCA reads T,T,F,F,T,F,T,F at flag positions 0–7 |
| `Headers.OpCodeFromRawNibble` | dns-tunnel-lib/src/header.rs:310-320 | a raw opcode nibble n in byte 2 reads as Query/IQuery/Status for 0/1/2, else `Reserved` |
| `LegacyHeader.OpCode.Value` | dns-tunnel-lib/src/dns.rs:75-84 | the discriminant is below 4 |
| `LegacyHeader.OpCode.FromU8` | dns-tunnel-lib/src/dns.rs:87-94 | `Reserved` exactly for raw values ≥ 3, else the opcode with that discriminant |
| `LegacyHeader.OpCodeRoundTrip` | dns-tunnel-lib/src/dns.rs:75-94 | `from_u8(o as u8) == o` for every opcode |
| `LegacyHeader.DnsHeader.constructor` | dns-tunnel-lib/src/dns.rs:26-29 | `DnsHeader::default()`: zero bytes, ID 0, QR false, opcode `Query` |
| `LegacyHeader.DnsHeader.GetId` | dns-tunnel-lib/src/dns.rs:38-40 | ID is bytes 0–1, big-endian |
| `LegacyHeader.DnsHeader.SetId` | dns-tunnel-lib/src/dns.rs:41-45 | `get_id` returns the value; bytes 2–11 are unchanged |
| `LegacyHeader.DnsHeader.GetQr` | dns-tunnel-lib/src/dns.rs:50-52 | the literal mask 0x80 tests the same bit as flag position 0 of byte 2 |
| `LegacyHeader.DnsHeader.SetQr` | dns-tunnel-lib/src/dns.rs:53-59 | QR reads as the value; only bit 0x80 of byte 2 changes; the opcode keeps its value |
| `LegacyHeader.DnsHeader.GetOpCode` | dns-tunnel-lib/src/dns.rs:60-63 | raw OPCODE bits `(byte2 & 0x78) >> 3`: 0–2 name themselves, 3–15 read `Reserved` |
| `LegacyHeader.DnsHeader.SetOpCode` | dns-tunnel-lib/src/dns.rs:64-68 | `get_op_code` returns the value; QR and the low three bits of byte 2 and all other bytes are unchanged |
| `LegacyHeader.AsHeaderOpCode` | dns-tunnel-lib/src/dns.rs:75-84 | maps each duplicate opcode to the header.rs opcode with the same discriminant |
| `LegacyHeader.AgreesWithHeader` | dns-tunnel-lib/src/dns.rs:38-68 | on equal frames, `DnsHeader` and `Header` return the same ID, QR and opcode |
| `LegacyHeader.IdExample` | dns-tunnel-lib/src/dns.rs:102-106 | bytes 10, 32 give ID 2592 |
| `Questions.Split` | dns-tunnel-lib/src/question.rs:12 | `str::split('.')`: at least one piece, no piece holds a dot |
| `Questions.JoinSplit` | dns-tunnel-lib/src/question.rs:12 | the pieces, joined with dots, give the name back |
| `Questions.SplitJoin` | dns-tunnel-lib/src/question.rs:12 | splitting dot-free pieces joined with dots gives the pieces back |
| `Questions.CharBytes` | dns-tunnel-lib/src/question.rs:14-16 | one byte per character of the label |
| `Questions.CharByte` | dns-tunnel-lib/src/question.rs:15 | `c as u8`: the low eight bits of the code point (code mod 256); below 256 the byte read back as a char is `c` itself |
| `Questions.LengthByte` | dns-tunnel-lib/src/question.rs:13 | `label.len() as u8`: the length itself below 256; zero exactly when the length is a multiple of 256 |
| `Questions.EncodeLabels` | dns-tunnel-lib/src/question.rs:12-17 | at least one byte per label; a non-empty list starts with the first label's length byte |
| `Questions.NameBytes` | dns-tunnel-lib/src/question.rs:12-17 | the labels of `split('.')` encode to at least one byte, led by the first label's length byte |
| `Questions.Encoding` | dns-tunnel-lib/src/question.rs:10-24 | the frame `new` builds: the name's label bytes followed by four bytes that decode big-endian to QTYPE, then QCLASS |
| `Questions.EncodeLabelsAppend` | dns-tunnel-lib/src/question.rs:12-17 | each further label appends its length byte and its bytes |
| `Questions.NameBytesUnfold` | dns-tunnel-lib/src/question.rs:12-17 | a leading dot is a zero length byte; any other first character is the first byte after the first label's length byte |
| `Questions.NameBytesLength` | dns-tunnel-lib/src/question.rs:12-17 | the labels of a name encode to one byte more than the name |
| `Questions.NameByteAt` | dns-tunnel-lib/src/question.rs:12-17 | byte i + 1 of the labels is the character's byte, or for a dot the next label's length byte |
| `Questions.EncodingLength` | dns-tunnel-lib/src/question.rs:11-23 | the frame is the name's length + 5 bytes |
| `Questions.EncodingTail` | dns-tunnel-lib/src/question.rs:18-23 | the last four bytes decode big-endian to QTYPE and then QCLASS |
| `Questions.EncodingOfEmptyName` | dns-tunnel-lib/src/question.rs:11-23 | the empty name gives `[0, qtype_hi, qtype_lo, qclass_hi, qclass_lo]` |
| `Questions.NoTerminatorBeforeQType` | dns-tunnel-lib/src/question.rs:12-18 | no zero terminator: for a name not ending in a dot, the byte before QTYPE is the name's last character |
| `Questions.LengthByteNonZero` | dns-tunnel-lib/src/question.rs:13 | a label of 1 to 255 characters has a non-zero length byte |
| `Questions.FirstZeroOfEncoding` | dns-tunnel-lib/src/question.rs:10-37 | for a well-formed ASCII name under 256 bytes and QTYPE < 256, the first zero byte is QTYPE's high byte at index length + 1 |
| `Questions.EncodingExample` | dns-tunnel-lib/src/question.rs:46-56 | "google.com", 16, 1 encodes to exactly the fifteen bytes of the unit test |
| `Questions.UnterminatedExample` | dns-tunnel-lib/src/question.rs:10-37 | "a" with QTYPE and QCLASS 257 gives a frame without any zero byte |
| `Questions.PushBeBytes` | dns-tunnel-lib/src/question.rs:18-23 | appends the high byte then the low byte, which decode back to the value |
| `Questions.Question.New` | dns-tunnel-lib/src/question.rs:10-24 | the frame is each label's length byte and bytes, in order, then QTYPE and QCLASS big-endian |
| `Questions.Question.GetQname` | dns-tunnel-lib/src/question.rs:27-38 | returns the bytes before the first zero byte, each as a char; requires a zero byte and at least 4 bytes |
| `Questions.NameOfNewQuestion` | dns-tunnel-lib/src/question.rs:10-38 | reading back a new question's name gives the name with the first label's length in front and each dot replaced by the next label's length |

## Left out

- `Header::read` takes any `std::io::Read` and calls `read_exact`. `Headers.Header.Read`
  takes the available bytes as a sequence instead. Short input is the single error
  `UnexpectedEof`; other I/O errors are not modelled.
- dns-tunnel-client/src/main.rs is not part of this model. It only binds a UDP socket
  and sends a frame.
- `ResourceRecordType` appears twice, in header.rs and dns.rs. It is modelled once
  (`Headers.RecordType`), since both copies are the same unused table.
- `Questions.Question.New`: requires an ASCII name. For other characters `c as u8`
  truncates, but `label.len()` counts UTF-8 bytes, not characters. That case is not
  modelled.
- `Questions.Question.GetQname`: requires a zero byte in the frame and at least four
  bytes. In Rust a frame without a zero byte panics on an out-of-bounds index, and
  a shorter frame underflows the capacity `frame.len() - 4` and panics. Both panics
  are preconditions here, not error results.
- `Vec::with_capacity` and `String::with_capacity` only reserve memory. They are not
  modelled.
- The code has no zero terminator, no dotted decoding, no question parsing from a
  stream, no QTYPE/QCLASS getters and no checks of the 63-byte label or 255-byte name
  limits, so the model has none of these either.
- The three Z bits of byte 3 have no accessor in the source. The model only proves
  that `Headers.Header.SetRcode` and `Headers.Header.SetRa` keep them.
