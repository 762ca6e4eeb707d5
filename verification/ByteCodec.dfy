// Little-endian integers in byte sequences.
module ByteCodec {
  newtype byte = x: int | 0 <= x < 256

  newtype int16 = x: int | -0x8000 <= x < 0x8000

  function Uint16(lo: byte, hi: byte): nat { lo as int + 256 * hi as int }

  // The two's complement reading of 16 bits.
  function Int16(lo: byte, hi: byte): int16 {
    var u := Uint16(lo, hi);
    if u < 0x8000 then u as int16 else (u - 0x1_0000) as int16
  }

  function Encode16(v: int16): seq<byte> {
    var u := if v < 0 then v as int + 0x1_0000 else v as int;
    [(u % 256) as byte, (u / 256) as byte]
  }

  lemma Int16RoundTrip(v: int16)
    ensures |Encode16(v)| == 2 && Int16(Encode16(v)[0], Encode16(v)[1]) == v
  {}

  function Uint32(b: seq<byte>): nat
    requires |b| == 4
  {
    b[0] as int + 256 * (b[1] as int + 256 * (b[2] as int + 256 * b[3] as int))
  }

  const TWO32: nat := 0x1_0000_0000

  // A size is stored modulo 2^32.
  function Encode32(n: nat): seq<byte> {
    [(n % 256) as byte, (n / 256 % 256) as byte, (n / 256 / 256 % 256) as byte, (n / 256 / 256 / 256 % 256) as byte]
  }

  lemma Uint32RoundTrip(n: nat)
    ensures |Encode32(n)| == 4 && Uint32(Encode32(n)) == n % TWO32
  {
    var a := n / 256;
    var b := a / 256;
    var c := b / 256;
    assert n == 256 * a + n % 256 && a == 256 * b + a % 256 && b == 256 * c + b % 256;
    var low := n % 256 + 256 * (a % 256 + 256 * (b % 256 + 256 * (c % 256)));
    assert c == 256 * (c / 256) + c % 256;
    assert n == low + TWO32 * (c / 256);
  }

  // The first byte is the least significant one.
  lemma LittleEndian(b: seq<byte>)
    requires |b| == 4
    ensures Uint32(b) == b[0] as int + 0x100 * b[1] as int + 0x1_0000 * b[2] as int + 0x100_0000 * b[3] as int
    ensures (Int16(b[0], b[1]) as int - (b[0] as int + 0x100 * b[1] as int)) % 0x1_0000 == 0
  {}
}
