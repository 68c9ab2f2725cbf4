/** Shared vocabulary of the DNS codec: bytes are `bv8` (Rust `u8`) and 16-bit
    fields are `bv16` (Rust `u16`), so that `&`, `|`, `!`, `<<` and `>>` are the
    operators the codec itself uses. */
module Wire {

  /** Rust's `Option`. */
  datatype Option<T> = None | Some(value: T)

  /** The error `Read::read_exact` reports when the source ends too early. */
  datatype ReadError = UnexpectedEof

  /** Rust's `io::Result`. */
  datatype Result<T> = Ok(value: T) | Err(error: ReadError)

  /** `u16::from_be_bytes([hi, lo])`: the high byte comes first on the wire, so the
      value is `hi * 256 + lo` (which never exceeds 65535, so the 16-bit arithmetic is exact). */
  function FromBeBytes(hi: bv8, lo: bv8): (r: bv16)
    ensures r == hi as bv16 * 256 + lo as bv16
  {
    (hi as bv16 << 8) | lo as bv16
  }

  /** `u16::to_be_bytes(v)`: the pair (high byte, low byte). */
  function ToBeBytes(v: bv16): (r: (bv8, bv8))
    ensures FromBeBytes(r.0, r.1) == v
  {
    ((v >> 8) as bv8, (v & 0xFF) as bv8)
  }

  /** The other direction of the round trip: two bytes survive decoding and re-encoding. */
  lemma ToBeBytesOfFromBeBytes(hi: bv8, lo: bv8)
    ensures ToBeBytes(FromBeBytes(hi, lo)) == (hi, lo)
  {
  }

  /** Big-endian decoding is injective: equal values come from equal byte pairs. */
  lemma FromBeBytesInjective(hi: bv8, lo: bv8, hi': bv8, lo': bv8)
    requires FromBeBytes(hi, lo) == FromBeBytes(hi', lo')
    ensures hi == hi' && lo == lo'
  {
    ToBeBytesOfFromBeBytes(hi, lo);
    ToBeBytesOfFromBeBytes(hi', lo');
  }

  /** The mask of flag bit `p`, where position 0 is the most significant bit of the byte. */
  function FlagMask(p: bv8): (m: bv8)
    requires p < 8
  {
    1 << (7 - p)
  }

  /** A flag bit test, `x & 1 << (7 - p) != 0`: bit number `7 - p` of `x`, counted from the least significant. */
  function FlagBit(x: bv8, p: bv8): (r: bool)
    requires p < 8
    ensures r <==> (x >> (7 - p)) & 1 == 1
  {
    x & FlagMask(p) != 0
  }

  /** The eight flag bits of a byte determine it. */
  lemma FlagBitsDetermineByte(x: bv8, y: bv8)
    requires forall p :: 0 <= p < 8 ==> FlagBit(x, p) == FlagBit(y, p)
    ensures x == y
  {
    assert FlagBit(x, 0) == FlagBit(y, 0);
    assert FlagBit(x, 1) == FlagBit(y, 1);
    assert FlagBit(x, 2) == FlagBit(y, 2);
    assert FlagBit(x, 3) == FlagBit(y, 3);
    assert FlagBit(x, 4) == FlagBit(y, 4);
    assert FlagBit(x, 5) == FlagBit(y, 5);
    assert FlagBit(x, 6) == FlagBit(y, 6);
    assert FlagBit(x, 7) == FlagBit(y, 7);
  }

  /** Two bytes that agree outside the mask of flag `p` agree on every other flag. */
  lemma OtherFlagsAgree(x: bv8, y: bv8, p: bv8)
    requires p < 8 && x & !FlagMask(p) == y & !FlagMask(p)
    ensures forall q :: 0 <= q < 8 && q != p ==> FlagBit(x, q) == FlagBit(y, q)
  {
  }
}
