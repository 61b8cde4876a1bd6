/** Byte strings and the start-code patterns every scanner of the media path looks for. */
module Octets {

  type byte = x: int | 0 <= x < 256

  type Bytes = seq<byte>

  const CODE3: Bytes := [0, 0, 1]
  const CODE4: Bytes := [0, 0, 0, 1]

  /** A `00 00 01` begins at index i. */
  predicate Code3At(d: Bytes, i: int) {
    0 <= i && i + 3 <= |d| && d[i] == 0 && d[i + 1] == 0 && d[i + 2] == 1
  }

  /** A `00 00 00 01` begins at index i. */
  predicate Code4At(d: Bytes, i: int) {
    0 <= i && i + 4 <= |d| && d[i] == 0 && d[i + 1] == 0 && d[i + 2] == 0 && d[i + 3] == 1
  }

  /** Big-endian 16-bit field. */
  function Be16(n: nat): (b: Bytes)
    requires n < 0x1_0000
    ensures |b| == 2
    ensures FromBe16(b[0], b[1]) == n
  {
    [n / 256, n % 256]
  }

  function FromBe16(hi: byte, lo: byte): nat {
    hi * 256 + lo
  }

  /** `v >> k`. */
  function Shr(v: nat, k: nat): nat
    decreases v
  {
    if k == 0 || v == 0 then v else Shr(v / 2, k - 1)
  }

  function Concat(parts: seq<Bytes>): Bytes {
    if parts == [] then [] else parts[0] + Concat(parts[1..])
  }

  function TotalLength(parts: seq<Bytes>): nat {
    if parts == [] then 0 else |parts[0]| + TotalLength(parts[1..])
  }

  lemma ConcatAppend(a: seq<Bytes>, b: seq<Bytes>)
    ensures Concat(a + b) == Concat(a) + Concat(b)
  {
    if a == [] {
      assert a + b == b;
    } else {
      assert (a + b)[1..] == a[1..] + b;
      ConcatAppend(a[1..], b);
    }
  }
}
