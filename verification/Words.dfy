/** Bytes, 32-byte words and the big-endian integers of the ABI (`util.rs` and the
    `U256` and `u32` conversions the codec relies on). */
module Words {

  newtype byte = x: int | 0 <= x < 256

  /** An ABI word, `[u8; 32]`. */
  type Word = w: seq<byte> | |w| == 32 witness seq(32, _ => 0)

  type Address = a: seq<byte> | |a| == 20 witness seq(20, _ => 0)

  const TWO_32: nat := 0x1_0000_0000
  const TWO_64: nat := 0x1_0000_0000_0000_0000

  type u32 = x: nat | x < TWO_32
  type u64 = x: nat | x < TWO_64
  type U256 = x: nat | x < Pow256(32)

  /** The value a `u32` holds after an `as u32` cast or a wrapping sum. */
  function U32(n: int): u32 {
    n % TWO_32
  }

  lemma U32Absorbs(a: int, b: int)
    ensures U32(U32(a) + b) == U32(a + b)
  {
    var q := a / TWO_32;
    assert a + b == U32(a) + b + q * TWO_32;
    ModShift(U32(a) + b, q);
  }

  lemma ModShift(x: int, q: int)
    ensures (x + q * TWO_32) % TWO_32 == x % TWO_32
  {
  }

  function Pow256(n: nat): (p: nat)
    ensures p > 0
  {
    if n == 0 then 1 else 256 * Pow256(n - 1)
  }

  function Zeros(n: nat): (z: seq<byte>)
    ensures |z| == n && forall i :: 0 <= i < n ==> z[i] == 0
  {
    seq(n, _ => 0)
  }

  /** The `n` low bytes of `v`, most significant first. */
  function BigEndian(v: nat, n: nat): (b: seq<byte>)
    ensures |b| == n
  {
    if n == 0 then [] else BigEndian(v / 256, n - 1) + [(v % 256) as byte]
  }

  function FromBigEndian(b: seq<byte>): (v: nat)
    ensures v < Pow256(|b|)
  {
    if b == [] then 0 else 256 * FromBigEndian(b[..|b| - 1]) + b[|b| - 1] as int
  }

  lemma {:induction false} BigEndianRoundTrip(v: nat, n: nat)
    requires v < Pow256(n)
    ensures FromBigEndian(BigEndian(v, n)) == v
  {
    if n == 0 {
    } else {
      BigEndianRoundTrip(v / 256, n - 1);
      assert BigEndian(v, n)[..n - 1] == BigEndian(v / 256, n - 1);
    }
  }

  lemma Pow256Values()
    ensures Pow256(4) == TWO_32 && Pow256(8) == TWO_64
    ensures TWO_64 <= Pow256(32)
  {
    assert Pow256(4) == 256 * Pow256(3) && Pow256(3) == 256 * Pow256(2) && Pow256(2) == 256 * Pow256(1);
    assert Pow256(8) == 256 * Pow256(7) && Pow256(7) == 256 * Pow256(6) && Pow256(6) == 256 * Pow256(5);
    Pow256Grows(8, 32);
  }

  lemma {:induction false} Pow256Grows(m: nat, n: nat)
    requires m <= n
    ensures Pow256(m) <= Pow256(n)
  {
    if m < n {
      Pow256Grows(m, n - 1);
    }
  }

  /** `pad_u32`: a `u32` right aligned in a word. */
  function PadU32(v: u32): (w: Word) {
    Zeros(28) + BigEndian(v, 4)
  }

  /** Four big-endian bytes as the decoder sums them. */
  function SumOfShifts(b: seq<byte>): (v: u32)
    requires |b| == 4
  {
    b[0] as int * 0x100_0000 + b[1] as int * 0x1_0000 + b[2] as int * 0x100 + b[3] as int
  }

  lemma SumOfShiftsIsBigEndian(b: seq<byte>)
    requires |b| == 4
    ensures SumOfShifts(b) == FromBigEndian(b)
  {
    assert b[..3][..2] == b[..2] && b[..2][..1] == b[..1] && b[..1][..0] == [];
    assert FromBigEndian(b[..1]) == b[0] as int;
    assert FromBigEndian(b[..2]) == 256 * FromBigEndian(b[..1]) + b[1] as int;
    assert FromBigEndian(b[..3]) == 256 * FromBigEndian(b[..2]) + b[2] as int;
  }

  /** The bytes of a sequence of words, in order. */
  function Flatten(ws: seq<Word>): (b: seq<byte>)
    ensures |b| == 32 * |ws|
  {
    if ws == [] then [] else ws[0] + Flatten(ws[1..])
  }

  /** The words of a byte string whose length is a multiple of 32. */
  function Chunks(data: seq<byte>): (ws: seq<Word>)
    requires |data| % 32 == 0
    ensures |ws| == |data| / 32
  {
    if data == [] then [] else [data[..32]] + Chunks(data[32..])
  }

  lemma {:induction false} ChunksOfFlatten(ws: seq<Word>)
    ensures Chunks(Flatten(ws)) == ws
  {
    if ws == [] {
    } else {
      ChunksOfFlatten(ws[1..]);
      assert Flatten(ws)[..32] == ws[0] && Flatten(ws)[32..] == Flatten(ws[1..]);
    }
  }

  lemma {:induction false} ChunksAt(data: seq<byte>, i: nat)
    requires |data| % 32 == 0 && i < |data| / 32
    ensures Chunks(data)[i] == data[32 * i..32 * i + 32]
  {
    if i == 0 {
    } else {
      ChunksAt(data[32..], i - 1);
      assert data[32..][32 * (i - 1)..32 * (i - 1) + 32] == data[32 * i..32 * i + 32];
    }
  }
}
