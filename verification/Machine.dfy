/**
 Machine integers and little-endian byte order of the 32-bit x86 target.
 */
module Machine {

  const TWO_32: int := 0x1_0000_0000

  type u8 = x: int | 0 <= x < 0x100
  type u16 = x: int | 0 <= x < 0x1_0000
  type u32 = x: int | 0 <= x < 0x1_0000_0000

  /** Truncation to 32 bits, as every C `uint32_t` operation performs it. */
  function Wrap32(x: int): (r: u32)
    ensures 0 <= x < TWO_32 ==> r == x
  {
    x % 0x1_0000_0000
  }

  function Le16(x: u16): (b: seq<u8>)
    ensures |b| == 2
  {
    [x % 0x100, x / 0x100]
  }

  function Le32(x: u32): (b: seq<u8>)
    ensures |b| == 4
  {
    [x % 0x100, x / 0x100 % 0x100, x / 0x1_0000 % 0x100, x / 0x100_0000]
  }

  function FromLe16(b: seq<u8>): (x: u16)
    requires |b| == 2
  {
    (b[0] as int) + 0x100 * (b[1] as int)
  }

  function FromLe32(b: seq<u8>): (x: u32)
    requires |b| == 4
  {
    (b[0] as int) + 0x100 * (b[1] as int) + 0x1_0000 * (b[2] as int) + 0x100_0000 * (b[3] as int)
  }

  lemma Le16RoundTrip(x: u16)
    ensures FromLe16(Le16(x)) == x
  {
  }

  lemma Le32RoundTrip(x: u32)
    ensures FromLe32(Le32(x)) == x
  {
    var q := x / 0x100;
    var r := q / 0x100;
    assert x == 0x100 * q + x % 0x100 && q == 0x100 * r + q % 0x100 && r == 0x100 * (r / 0x100) + r % 0x100;
    assert x / 0x1_0000 == r && x / 0x100_0000 == r / 0x100;
  }

  function Zeros(n: nat): (z: seq<u8>)
    ensures |z| == n
    ensures forall i :: 0 <= i < n ==> z[i] == 0
  {
    seq(n, _ => 0)
  }
}
