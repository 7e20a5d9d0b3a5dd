/** Bytes, the fixed-width integers carried on the wires, and their little- and big-endian layouts. */
module Bytes {

  type byte = x: int | 0 <= x < 256
  type u32 = x: int | 0 <= x < 0x1_0000_0000
  type u64 = x: int | 0 <= x < 0x1_0000_0000_0000_0000
  type i64 = x: int | -0x8000_0000_0000_0000 <= x < 0x8000_0000_0000_0000

  datatype Option<+T> = None | Some(value: T)

  lemma ConcatAssoc<T>(a: seq<T>, b: seq<T>, c: seq<T>)
    ensures a + (b + c) == (a + b) + c
  {
  }

  /** Chunks joined up. */
  function Flat(chunks: seq<seq<byte>>): seq<byte> {
    if chunks == [] then [] else chunks[0] + Flat(chunks[1..])
  }

  /** 256 to the power `k`: how many values `k` bytes can hold. */
  ghost function Pow256(k: nat): (p: nat)
    ensures p >= 1
  {
    if k == 0 then 1 else 256 * Pow256(k - 1)
  }

  /** The number that `b` spells, least significant byte first. */
  function LeVal(b: seq<byte>): nat {
    if b == [] then 0 else b[0] + 256 * LeVal(b[1..])
  }

  /** The low `k` bytes of `n`, least significant byte first. */
  function Le(n: nat, k: nat): (b: seq<byte>)
    ensures |b| == k
  {
    if k == 0 then [] else [n % 256] + Le(n / 256, k - 1)
  }

  /** The number that `b` spells, most significant byte first. */
  function BeVal(b: seq<byte>): nat {
    if b == [] then 0 else 256 * BeVal(b[..|b| - 1]) + b[|b| - 1]
  }

  /** The low `k` bytes of `n`, most significant byte first. */
  function Be(n: nat, k: nat): (b: seq<byte>)
    ensures |b| == k
  {
    if k == 0 then [] else Be(n / 256, k - 1) + [n % 256]
  }

  lemma {:induction false} LeBound(b: seq<byte>)
    ensures LeVal(b) < Pow256(|b|)
  {
    if b != [] {
      LeBound(b[1..]);
    }
  }

  /** A 32-bit number in four and in eight bytes, spelled out. */
  lemma LeFour(n: u32)
    ensures Le(n, 4) == [n % 256, n / 0x100 % 256, n / 0x1_0000 % 256, n / 0x100_0000]
  {
    assert Le(n / 0x1_0000, 2) == [n / 0x1_0000 % 256, n / 0x1_0000 / 256 % 256];
    assert Le(n / 0x100, 3) == [n / 0x100 % 256] + Le(n / 0x1_0000, 2);
  }

  lemma LeEight(n: u32)
    ensures Le(n, 8) == [n % 256, n / 0x100 % 256, n / 0x1_0000 % 256, n / 0x100_0000, 0, 0, 0, 0]
  {
    assert Le(0, 2) == [0, 0] && Le(0, 4) == [0, 0] + Le(0, 2);
    assert Le(n / 0x100_0000, 5) == [n / 0x100_0000] + Le(0, 4);
    assert Le(n / 0x1_0000, 6) == [n / 0x1_0000 % 256] + Le(n / 0x100_0000, 5);
    assert Le(n / 0x100, 7) == [n / 0x100 % 256] + Le(n / 0x1_0000, 6);
  }

  lemma BeFour(n: u32)
    ensures Be(n, 4) == [n / 0x100_0000, n / 0x1_0000 % 256, n / 0x100 % 256, n % 256]
  {
    assert Be(n / 0x1_0000, 2) == [n / 0x1_0000 / 256 % 256, n / 0x1_0000 % 256];
    assert Be(n / 0x100, 3) == Be(n / 0x1_0000, 2) + [n / 0x100 % 256];
  }

  /** Four little-endian bytes, spelled out. */
  lemma LeValFour(b: seq<byte>)
    requires |b| == 4
    ensures LeVal(b) == b[0] as int + 0x100 * (b[1] as int) + 0x1_0000 * (b[2] as int) + 0x100_0000 * (b[3] as int)
  {
    assert LeVal(b[1..][1..]) == b[2] + 256 * LeVal(b[1..][1..][1..]);
    assert LeVal(b[1..][1..][1..]) == b[3] + 256 * LeVal(b[1..][1..][1..][1..]);
  }

  /** `from_le_bytes` undoes `to_le_bytes`. */
  lemma {:induction false} LeRoundTrip(n: nat, k: nat)
    requires n < Pow256(k)
    ensures LeVal(Le(n, k)) == n
  {
    if k > 0 {
      LeRoundTrip(n / 256, k - 1);
      assert Le(n, k)[1..] == Le(n / 256, k - 1);
    }
  }

  /** `to_le_bytes` undoes `from_le_bytes`, so equal values of equal width are equal bytes. */
  lemma {:induction false} LeUnique(b: seq<byte>)
    ensures Le(LeVal(b), |b|) == b
  {
    if b != [] {
      LeUnique(b[1..]);
      assert LeVal(b) % 256 == b[0] && LeVal(b) / 256 == LeVal(b[1..]);
    }
  }

  lemma {:induction false} BeRoundTrip(n: nat, k: nat)
    requires n < Pow256(k)
    ensures BeVal(Be(n, k)) == n
  {
    if k > 0 {
      BeRoundTrip(n / 256, k - 1);
      assert Be(n, k)[..k - 1] == Be(n / 256, k - 1);
    }
  }

  /** `to_be_bytes` undoes `from_be_bytes`. */
  lemma {:induction false} BeUnique(b: seq<byte>)
    ensures BeVal(b) < Pow256(|b|)
    ensures Be(BeVal(b), |b|) == b
  {
    if b != [] {
      var front := b[..|b| - 1];
      BeUnique(front);
      assert BeVal(b) % 256 == b[|b| - 1] && BeVal(b) / 256 == BeVal(front);
    }
  }

  /** Splitting a little-endian number: the high part is weighted by the width of the low part. */
  lemma {:induction false} LeConcat(a: seq<byte>, b: seq<byte>)
    ensures LeVal(a + b) == LeVal(a) + Pow256(|a|) * LeVal(b)
  {
    if a == [] {
      assert a + b == b;
    } else {
      LeConcat(a[1..], b);
      assert (a + b)[1..] == a[1..] + b;
      MulAssoc(256, Pow256(|a| - 1), LeVal(b));
    }
  }

  lemma MulAssoc(a: int, b: int, c: int)
    ensures a * (b * c) == (a * b) * c
  {
  }

  lemma Pow256Widths()
    ensures Pow256(4) == 0x1_0000_0000
    ensures Pow256(8) == 0x1_0000_0000_0000_0000
  {
    assert Pow256(4) == 256 * (256 * (256 * (256 * Pow256(0))));
    assert Pow256(8) == 256 * (256 * (256 * (256 * Pow256(4))));
  }

  /** `u32::to_le_bytes` / `u32::from_le_bytes`. */
  lemma U32Le(n: u32)
    ensures LeVal(Le(n, 4)) == n
  {
    Pow256Widths();
    LeRoundTrip(n, 4);
  }

  /** Any four bytes spell a `u32`. */
  lemma U32Range(b: seq<byte>)
    requires |b| == 4
    ensures LeVal(b) < 0x1_0000_0000
    ensures Le(LeVal(b), 4) == b
  {
    Pow256Widths();
    LeBound(b);
    LeUnique(b);
  }
}
