/** The demo store's WebSocket text frames: the writer, the reader, and RFC 6455 sections 5.2 and 5.3 between them. */
module WsFrame {
  import opened Text

  type Byte = b: int | 0 <= b < 256

  type Bytes = seq<Byte>

  const TEXT_FINAL: Byte := 0x81
  const EXTENDED_16: Byte := 126

  // ----- exclusive or, bit by bit --------------------------------------------------------

  function XorBits(a: nat, b: nat, bits: nat): nat {
    if bits == 0 then 0 else (a + b) % 2 + 2 * XorBits(a / 2, b / 2, bits - 1)
  }

  function Pow2(bits: nat): nat { if bits == 0 then 1 else 2 * Pow2(bits - 1) }

  lemma {:induction false} XorBitsRange(a: nat, b: nat, bits: nat)
    ensures XorBits(a, b, bits) < Pow2(bits)
  {
    if bits > 0 { XorBitsRange(a / 2, b / 2, bits - 1); }
  }

  function Xor(a: Byte, b: Byte): Byte {
    XorBitsRange(a, b, 8);
    assert Pow2(8) == 256;
    XorBits(a, b, 8)
  }

  lemma {:induction false} XorBitsTwice(a: nat, b: nat, bits: nat)
    requires a < Pow2(bits)
    ensures XorBits(XorBits(a, b, bits), b, bits) == a
  {
    if bits > 0 {
      XorBitsTwice(a / 2, b / 2, bits - 1);
      LowBit(a, b, XorBits(a / 2, b / 2, bits - 1));
    }
  }

  lemma LowBit(a: nat, b: nat, y: nat)
    ensures var x := (a + b) % 2 + 2 * y;
            x / 2 == y && (x + b) % 2 == a % 2
  {}

  lemma XorTwice(a: Byte, b: Byte)
    ensures Xor(Xor(a, b), b) == a
  {
    assert Pow2(8) == 256;
    XorBitsTwice(a, b, 8);
  }

  function Bit(n: nat, k: nat): nat { if k == 0 then n % 2 else Bit(n / 2, k - 1) }

  lemma Halves(low: nat, rest: nat)
    requires low < 2
    ensures (low + 2 * rest) % 2 == low && (low + 2 * rest) / 2 == rest
  {}

  lemma ParityOfSum(a: nat, b: nat)
    ensures (a + b) % 2 == (a % 2 + b % 2) % 2
  {}

  lemma {:induction false} XorBitsBit(a: nat, b: nat, bits: nat, k: nat)
    requires k < bits
    ensures Bit(XorBits(a, b, bits), k) == (Bit(a, k) + Bit(b, k)) % 2
  {
    var rest := XorBits(a / 2, b / 2, bits - 1);
    assert XorBits(a, b, bits) == (a + b) % 2 + 2 * rest;
    Halves((a + b) % 2, rest);
    ParityOfSum(a, b);
    hide XorBits;
    if k > 0 { XorBitsBit(a / 2, b / 2, bits - 1, k - 1); }
  }

  /** A bit of the exclusive or is set exactly when the two bits differ. */
  lemma XorIsBitwise(a: Byte, b: Byte, k: nat)
    requires k < 8
    ensures Bit(Xor(a, b), k) == if Bit(a, k) == Bit(b, k) then 0 else 1
  {
    XorBitsBit(a, b, 8, k);
    BitIsBinary(a, k);
    BitIsBinary(b, k);
  }

  lemma {:induction false} NumbersAreBits(a: nat, b: nat, bits: nat)
    requires a < Pow2(bits) && b < Pow2(bits) && forall k :: 0 <= k < bits ==> Bit(a, k) == Bit(b, k)
    ensures a == b
  {
    if bits > 0 {
      assert Bit(a, 0) == Bit(b, 0);
      forall k | 0 <= k < bits - 1 ensures Bit(a / 2, k) == Bit(b / 2, k) {
        assert Bit(a, k + 1) == Bit(b, k + 1);
      }
      NumbersAreBits(a / 2, b / 2, bits - 1);
    }
  }

  /** A byte is known by its eight bits. */
  lemma BytesAreBits(a: Byte, b: Byte)
    requires forall k :: 0 <= k < 8 ==> Bit(a, k) == Bit(b, k)
    ensures a == b
  {
    assert Pow2(8) == 256;
    NumbersAreBits(a, b, 8);
  }

  lemma {:induction false} BitIsBinary(n: nat, k: nat)
    ensures Bit(n, k) < 2
  {
    if k > 0 { BitIsBinary(n / 2, k - 1); }
  }

  // Two bytes as one big-endian number.
  function U16(high: nat, low: nat): nat { 256 * high + low }

  // ----- writing -----------------------------------------------------------------------------

  // None when the payload is too long for the 16-bit length, which the writer cannot encode.
  function WriteTextFrame(payload: Bytes): Option<Bytes> {
    if |payload| < 126 then Some([TEXT_FINAL, |payload|] + payload)
    else if |payload| < 65536 then
      Some([TEXT_FINAL, EXTENDED_16, |payload| / 256, |payload| % 256] + payload)
    else None
  }

  // ----- reading -----------------------------------------------------------------------------

  // NotText is the source's null; TooShort is the range error of a 16-bit length that is not there.
  datatype Reading = NotText | TooShort | Payload(bytes: Bytes)

  // buf.subarray(from, from + length): cut at the end of the buffer.
  function Sub(buf: Bytes, from: nat, length: nat): Bytes {
    if from >= |buf| then []
    else if from + length > |buf| then buf[from..] else buf[from..from + length]
  }

  function MaskAt(mask: Bytes, i: nat): Byte { if i % 4 < |mask| then mask[i % 4] else 0 }

  function Masked(data: Bytes, mask: Bytes): (r: Bytes)
    ensures |r| == |data|
    ensures forall i :: 0 <= i < |data| ==> r[i] == Xor(data[i], MaskAt(mask, i))
  {
    seq(|data|, i requires 0 <= i < |data| => Xor(data[i], MaskAt(mask, i)))
  }

  method ReadTextFrame(buf: Bytes) returns (r: Reading)
    ensures r == Read(buf)
  {
    if |buf| < 2 {
      return NotText;
    }
    var opcode := buf[0] % 16;
    if opcode == 0x8 {
      return NotText;
    }
    if opcode != 0x1 {
      return NotText;
    }
    var masked := buf[1] >= 128;
    var length: nat, offset: nat := buf[1] % 128, 2;
    if length == 126 {
      if |buf| < 4 {
        return TooShort;
      }
      length := U16(buf[2], buf[3]);
      offset := 4;
    }
    if !masked {
      return Payload(Sub(buf, offset, length));
    }
    var mask := Sub(buf, offset, 4);
    var data := Sub(buf, offset + 4, length);
    r := Payload(Masked(data, mask));
  }

  // What the 7-bit code and the extension say: the payload length and where the length field ends.
  function LengthField(buf: Bytes): Option<(nat, nat)>
    requires |buf| >= 2
  {
    var code := buf[1] % 128;
    if code != 126 then Some((code, 2))
    else if |buf| < 4 then None
    else Some((U16(buf[2], buf[3]), 4))
  }

  function Read(buf: Bytes): Reading {
    if |buf| < 2 || buf[0] % 16 != 1 then NotText
    else match LengthField(buf)
         case None => TooShort
         case Some((length, offset)) =>
           if buf[1] < 128 then Payload(Sub(buf, offset, length))
           else Payload(Masked(Sub(buf, offset + 4, length), Sub(buf, offset, 4)))
  }

  // ----- the standard -----------------------------------------------------------------------

  // Section 5.2 of RFC 6455: the three ways to write a length, 127 opening an eight-byte one.
  ghost predicate EncodesLength(field: Bytes, n: nat) {
    || (|field| == 1 && field[0] == n && n < 126)
    || (|field| == 3 && field[0] == 126 && n == U16(field[1], field[2]))
    || (|field| == 9 && field[0] == 127 && n == BigEndian(field[1..]) && field[1] < 128)
  }

  function BigEndian(bs: Bytes): nat {
    if bs == [] then 0 else 256 * BigEndian(bs[..|bs| - 1]) + bs[|bs| - 1]
  }

  function LengthBytes(n: nat): Bytes
    requires n < 65536
  {
    if n < 126 then [n] else [EXTENDED_16, n / 256, n % 256]
  }

  // The field with the mask bit set in its first byte.
  function WithMaskBit(field: Bytes): Bytes
    requires field != [] && field[0] < 128
  {
    [field[0] + 128] + field[1..]
  }

  // Section 5.3: a client frame carries its mask and the payload masked with it.
  function ClientFrame(payload: Bytes, mask: Bytes): Bytes
    requires |payload| < 65536 && |mask| == 4
  {
    [TEXT_FINAL] + WithMaskBit(LengthBytes(|payload|)) + mask + Masked(payload, mask)
  }

  /** The writer emits a final unmasked text frame whose length field is the shortest the standard has. */
  lemma WriterIsMinimal(payload: Bytes, field: Bytes)
    requires |payload| < 65536 && EncodesLength(field, |payload|)
    ensures WriteTextFrame(payload) == Some([0x81] + LengthBytes(|payload|) + payload)
    ensures EncodesLength(LengthBytes(|payload|), |payload|)
    ensures |LengthBytes(|payload|)| <= |field|
  {
    assert [TEXT_FINAL] + LengthBytes(|payload|) + payload ==
           if |payload| < 126 then [TEXT_FINAL, |payload|] + payload
           else [TEXT_FINAL, EXTENDED_16, |payload| / 256, |payload| % 256] + payload;
  }

  lemma MaskedTwice(data: Bytes, mask: Bytes)
    ensures Masked(Masked(data, mask), mask) == data
  {
    forall i | 0 <= i < |data| ensures Masked(Masked(data, mask), mask)[i] == data[i] {
      XorTwice(data[i], MaskAt(mask, i));
    }
  }

  lemma SubOfSum(a: Bytes, b: Bytes, c: Bytes)
    ensures Sub(a + b + c, |a|, |b|) == b
  {
    var s := a + b + c;
    assert s[|a|..|a| + |b|] == b;
    if c == [] && b != [] { assert s[|a|..] == b; }
  }

  /** Reading a written frame gives the payload back, whatever follows it. */
  lemma ReadWritten(payload: Bytes, trailing: Bytes)
    requires WriteTextFrame(payload).Some?
    ensures Read(WriteTextFrame(payload).value + trailing) == Payload(payload)
  {
    var n := |payload|;
    var header: Bytes := if n < 126 then [TEXT_FINAL, n] else [TEXT_FINAL, EXTENDED_16, n / 256, n % 256];
    var buf := WriteTextFrame(payload).value + trailing;
    assert buf == header + payload + trailing;
    assert LengthField(buf) == Some((n, |header|));
    SubOfSum(header, payload, trailing);
  }

  function ClientHeader(n: nat): Bytes
    requires n < 65536
  {
    if n < 126 then [TEXT_FINAL, n + 128] else [TEXT_FINAL, 254, n / 256, n % 256]
  }

  lemma ClientHeaderReads(n: nat, rest: Bytes)
    requires n < 65536
    ensures var buf := ClientHeader(n) + rest;
            && [TEXT_FINAL] + WithMaskBit(LengthBytes(n)) == ClientHeader(n)
            && |buf| >= 2 && buf[0] % 16 == 1 && buf[1] >= 128
            && LengthField(buf) == Some((n, |ClientHeader(n)|))
  {}

  /** Reading the masked client form gives the same payload, under every mask and whatever follows. */
  lemma ReadMasked(payload: Bytes, mask: Bytes, trailing: Bytes)
    requires |payload| < 65536 && |mask| == 4
    ensures Read(ClientFrame(payload, mask) + trailing) == Payload(payload)
  {
    hide Masked, LengthBytes, WithMaskBit, ClientHeader, LengthField, Sub;
    var header, data := ClientHeader(|payload|), Masked(payload, mask);
    ClientHeaderReads(|payload|, mask + data + trailing);
    var buf := ClientFrame(payload, mask) + trailing;
    assert buf == header + (mask + data + trailing);
    assert buf == header + mask + (data + trailing);
    assert buf == header + mask + data + trailing;
    SubOfSum(header, mask, data + trailing);
    SubOfSum(header + mask, data, trailing);
    MaskedTwice(payload, mask);
  }

  /** Frames are self-delimiting: byte streams that start with two frames and agree carry the same payload first. */
  lemma FramesDiffer(p: Bytes, q: Bytes, s: Bytes, t: Bytes)
    requires WriteTextFrame(p).Some? && WriteTextFrame(q).Some?
    requires WriteTextFrame(p).value + s == WriteTextFrame(q).value + t
    ensures p == q && s == t
  {
    ReadWritten(p, s);
    ReadWritten(q, t);
    var f := WriteTextFrame(p).value;
    assert (f + s)[|f|..] == s && (f + t)[|f|..] == t;
  }

  // ----- any buffer at all -------------------------------------------------------------------

  /** What the reader makes of any bytes: null unless the opcode is text, an error when the 16-bit length is missing,
      and otherwise the announced payload, cut where the buffer ends. */
  lemma ReadOutcome(buf: Bytes)
    ensures Read(buf) == NotText <==> |buf| < 2 || buf[0] % 16 != 1
    ensures Read(buf) == TooShort <==> 2 <= |buf| < 4 && buf[0] % 16 == 1 && buf[1] % 128 == 126
    ensures |buf| >= 2 && Read(buf).Payload? && buf[1] < 126 ==>
              var n: nat := buf[1];
              Read(buf).bytes == if |buf| < 2 + n then buf[2..] else buf[2..2 + n]
    ensures |buf| >= 4 && Read(buf).Payload? && buf[1] == 126 ==>
              var n: nat := 256 * buf[2] as nat + buf[3];
              Read(buf).bytes == if |buf| < 4 + n then buf[4..] else buf[4..4 + n]
  {}

  lemma MaskedHeaderReads(first: Byte, n: nat, rest: Bytes)
    requires n < 65536
    ensures var header := [first] + WithMaskBit(LengthBytes(n));
            var buf := header + rest;
            |buf| >= 2 && buf[0] == first && buf[1] >= 128 && LengthField(buf) == Some((n, |header|))
  {}

  /** Section 5.3 for any masked text frame: each bit of the payload read is the bit sent if the mask's bit in turn
      is 0, and the other bit if it is 1. */
  lemma ReadUnmasks(first: Byte, mask: Bytes, data: Bytes, trailing: Bytes, i: nat, k: nat)
    requires first % 16 == 1 && |mask| == 4 && i < |data| < 65536 && k < 8
    ensures var r := Read([first] + WithMaskBit(LengthBytes(|data|)) + mask + data + trailing);
            && r.Payload? && |r.bytes| == |data|
            && Bit(r.bytes[i], k) == if Bit(mask[i % 4], k) == 0 then Bit(data[i], k) else 1 - Bit(data[i], k)
  {
    var header := [first] + WithMaskBit(LengthBytes(|data|));
    hide Masked, Sub, Xor, Bit, LengthField, LengthBytes, WithMaskBit;
    var buf := header + mask + data + trailing;
    assert buf == header + (mask + data + trailing);
    MaskedHeaderReads(first, |data|, mask + data + trailing);
    assert buf == header + mask + (data + trailing);
    SubOfSum(header, mask, data + trailing);
    SubOfSum(header + mask, data, trailing);
    XorIsBitwise(data[i], mask[i % 4], k);
    BitIsBinary(data[i], k);
    BitIsBinary(mask[i % 4], k);
  }
}
