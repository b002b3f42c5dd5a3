/** Bytes on the wire of the SQL service: big-endian numbers and the five-byte message header. */
module Wire {
  import opened Wrappers

  type Byte = b: nat | b < 256

  type Bytes = seq<Byte>

  const LIMIT := 0x1_0000_0000

  /** `static_cast<uint32_t>`. */
  function Cast32(n: nat): (r: nat)
    ensures r < LIMIT && (n < LIMIT ==> r == n)
  {
    n % LIMIT
  }

  /** The `k` low bytes of a number, most significant first. */
  function LowBytes(n: nat, k: nat): (r: Bytes)
    ensures |r| == k
  {
    if k == 0 then [] else LowBytes(n / 256, k - 1) + [n % 256]
  }

  function NumberOf(b: Bytes): nat {
    if b == [] then 0 else NumberOf(b[..|b| - 1]) * 256 + b[|b| - 1]
  }

  function Pow256(k: nat): (r: nat)
    ensures 0 < r
  {
    if k == 0 then 1 else 256 * Pow256(k - 1)
  }

  lemma {:induction false} NumberOfLowBytes(n: nat, k: nat)
    requires n < Pow256(k)
    ensures NumberOf(LowBytes(n, k)) == n
  {
    if k > 0 {
      NumberOfLowBytes(n / 256, k - 1);
      assert LowBytes(n, k)[..k - 1] == LowBytes(n / 256, k - 1);
    }
  }

  lemma {:induction false} LowBytesOfNumber(b: Bytes)
    ensures NumberOf(b) < Pow256(|b|) && LowBytes(NumberOf(b), |b|) == b
  {
    if b != [] {
      LowBytesOfNumber(b[..|b| - 1]);
      assert b == b[..|b| - 1] + [b[|b| - 1]];
    }
  }

  function BigEndian(n: nat): (r: Bytes)
    ensures |r| == 4
  {
    LowBytes(n, 4)
  }

  function FromBigEndian(b: Bytes): nat
    requires |b| == 4
  {
    NumberOf(b)
  }

  lemma FourBytes()
    ensures Pow256(4) == LIMIT
  {
    assert Pow256(2) == 65536;
  }

  /** Reading undoes writing. */
  lemma NumberRoundTrip(n: nat)
    requires n < LIMIT
    ensures FromBigEndian(BigEndian(n)) == n
  {
    FourBytes();
    NumberOfLowBytes(n, 4);
  }

  /** And writing undoes reading. */
  lemma BytesRoundTrip(b: Bytes)
    requires |b| == 4
    ensures FromBigEndian(b) < LIMIT && BigEndian(FromBigEndian(b)) == b
  {
    FourBytes();
    LowBytesOfNumber(b);
  }

  /** The four pushes of the serialisers. */
  method PushNumber(data: Bytes, n: nat) returns (data': Bytes)
    ensures data' == data + BigEndian(n)
  {
    data' := data + [n / 0x100_0000 % 256];
    data' := data' + [n / 0x1_0000 % 256];
    data' := data' + [n / 0x100 % 256];
    data' := data' + [n % 256];
    ShiftedBytes(n);
  }

  lemma ShiftedBytes(n: nat)
    ensures BigEndian(n) == [n / 0x100_0000 % 256, n / 0x1_0000 % 256, n / 0x100 % 256, n % 256]
  {
    assert n / 256 / 256 == n / 0x1_0000 && n / 256 / 256 / 256 == n / 0x100_0000;
    assert LowBytes(n / 0x1_0000, 2) == [n / 0x100_0000 % 256, n / 0x1_0000 % 256];
    assert LowBytes(n / 256, 3) == LowBytes(n / 0x1_0000, 2) + [n / 0x100 % 256];
    assert LowBytes(n, 4) == LowBytes(n / 256, 3) + [n % 256];
  }

  /** The shift-or expression of the deserialisers; every byte read is inside the buffer. */
  method ReadNumber(data: Bytes, offset: nat) returns (n: nat)
    requires offset + 4 <= |data|
    ensures n == FromBigEndian(data[offset..offset + 4])
  {
    n := data[offset] as int * 0x100_0000 + data[offset + 1] as int * 0x1_0000 +
         data[offset + 2] as int * 0x100 + data[offset + 3];
    SummedBytes(data[offset..offset + 4]);
  }

  lemma SummedBytes(b: Bytes)
    requires |b| == 4
    ensures FromBigEndian(b) == b[0] as int * 0x100_0000 + b[1] as int * 0x1_0000 + b[2] as int * 0x100 + b[3]
  {
    var b3 := b[..3];
    var b2 := b3[..2];
    var b1 := b2[..1];
    assert b1[..0] == [];
    assert NumberOf(b1) == b[0];
    assert NumberOf(b2) == b[0] as int * 0x100 + b[1];
    assert NumberOf(b3) == b[0] as int * 0x1_0000 + b[1] as int * 0x100 + b[2];
  }

  const HEADER_SIZE := 5

  datatype MessageHeader = MessageHeader(messageType: Byte, payloadSize: nat)

  datatype HeaderError = BufferTooSmall

  function HeaderBytes(h: MessageHeader): (r: Bytes)
    ensures |r| == HEADER_SIZE
  {
    [h.messageType] + BigEndian(h.payloadSize)
  }

  method Serialize(h: MessageHeader) returns (buffer: Bytes)
    ensures buffer == HeaderBytes(h)
  {
    buffer := [h.messageType];
    buffer := PushNumber(buffer, h.payloadSize);
  }

  /** The type, then the size with its most significant byte first. */
  lemma HeaderLayout(h: MessageHeader)
    ensures var n := h.payloadSize;
            HeaderBytes(h) == [h.messageType, n / 0x100_0000 % 256, n / 0x1_0000 % 256, n / 0x100 % 256, n % 256]
  {
    ShiftedBytes(h.payloadSize);
  }

  function Deserialize(buffer: Bytes): Result<MessageHeader, HeaderError> {
    if |buffer| < HEADER_SIZE then Err(BufferTooSmall)
    else Ok(MessageHeader(buffer[0], FromBigEndian(buffer[1..5])))
  }

  /** Headers survive the wire, whatever follows them. */
  lemma HeaderRoundTrip(h: MessageHeader, rest: Bytes)
    requires h.payloadSize < LIMIT
    ensures Deserialize(HeaderBytes(h) + rest) == Ok(h)
  {
    assert (HeaderBytes(h) + rest)[1..5] == BigEndian(h.payloadSize);
    NumberRoundTrip(h.payloadSize);
  }

  /** Every five bytes are the serialisation of the header they deserialise to. */
  lemma HeaderBytesRoundTrip(buffer: Bytes)
    requires |buffer| == HEADER_SIZE
    ensures Deserialize(buffer).Ok? && HeaderBytes(Deserialize(buffer).value) == buffer
  {
    BytesRoundTrip(buffer[1..5]);
    assert buffer == [buffer[0]] + buffer[1..5];
  }

  // ---- message types --------------------------------------------------------------------------

  const QUERY_RAW: Byte := 1
  const QUERY_JSON: Byte := 2
  const QUERY_BINARY: Byte := 3
  const QUERY_STREAM: Byte := 4
  const RESPONSE_RAW: Byte := 11
  const RESPONSE_JSON: Byte := 12
  const RESPONSE_BINARY: Byte := 13
  const RESPONSE_STREAM: Byte := 14
  const RESPONSE_ERROR: Byte := 99
}
