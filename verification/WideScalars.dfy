/** 256-bit little-endian scalars: in-place addition and shift with carries, and the unreduced double-and-add. */
module WideScalars {
  import opened Bytes
  import opened Groups

  const WIDTH: nat := 32

  /** `ORDER` as the file spells it. */
  const ORDER: seq<byte> :=
    [0xed, 0xd3, 0xf5, 0x5c] + ([0x1a, 0x63, 0x12, 0x58] + ([0xd6, 0x9a, 0x7a, 0xa2] + ([0xde, 0xf9, 0xde, 0x14] +
    ([0, 0, 0, 0] + ([0, 0, 0, 0] + ([0, 0, 0, 0] + [0, 0, 0, 0x10]))))))

  /** The number `ORDER` spells. */
  const ORDER_VALUE: nat := 0x1000_0000_0000_0000_0000_0000_0000_0000_14de_f9de_a27a_9ad6_5812_631a_5cf5_d3ed

  /** L, the order of the prime-order subgroup in section 5.1 of RFC 8032. */
  const RFC_ORDER: nat := 0x1000_0000_0000_0000_0000_0000_0000_0000_14de_f9de_a2f7_9cd6_5812_631a_5cf5_d3ed

  const TWO_253: nat := 0x2000_0000_0000_0000_0000_0000_0000_0000_0000_0000_0000_0000_0000_0000_0000_0000

  const TWO_256: nat := 8 * TWO_253

  lemma {:induction false} Pow256Add(a: nat, b: nat)
    ensures Pow256(a + b) == Pow256(a) * Pow256(b)
  {
    if a > 0 {
      Pow256Add(a - 1, b);
      MulAssoc(256, Pow256(a - 1), Pow256(b));
    }
  }

  lemma Pow256Of32()
    ensures Pow256(WIDTH) == TWO_256
  {
    Pow256Widths();
    Pow256Add(8, 8);
    Pow256Add(16, 16);
  }

  /** Four bytes, then the rest. */
  lemma Limb(b: seq<byte>, rest: seq<byte>)
    requires |b| == 4
    ensures LeVal(b + rest) == (b[0] as int) + 0x100 * (b[1] as int) + 0x1_0000 * (b[2] as int) +
                               0x100_0000 * (b[3] as int) + 0x1_0000_0000 * LeVal(rest)
  {
    assert b[1..][1..] == b[2..] && b[2..][1..] == b[3..] && b[3..][1..] == [];
    assert LeVal(b[3..]) == b[3] && LeVal(b[2..]) == b[2] as int + 256 * LeVal(b[3..]);
    assert LeVal(b[1..]) == b[1] as int + 256 * LeVal(b[2..]);
    LeConcat(b, rest);
    Pow256Widths();
  }

  lemma OrderSpelled()
    ensures |ORDER| == WIDTH && LeVal(ORDER) == ORDER_VALUE
  {
    var zero: seq<byte> := [0, 0, 0, 0];
    var hi := zero + (zero + (zero + [0, 0, 0, 0x10]));
    OrderHigh(hi);
    Limb([0xde, 0xf9, 0xde, 0x14], hi);
    var third := [0xde, 0xf9, 0xde, 0x14] + hi;
    Limb([0xd6, 0x9a, 0x7a, 0xa2], third);
    var second := [0xd6, 0x9a, 0x7a, 0xa2] + third;
    Limb([0x1a, 0x63, 0x12, 0x58], second);
    Limb([0xed, 0xd3, 0xf5, 0x5c], [0x1a, 0x63, 0x12, 0x58] + second);
  }

  lemma OrderHigh(hi: seq<byte>)
    requires hi == [0, 0, 0, 0] + ([0, 0, 0, 0] + ([0, 0, 0, 0] + [0, 0, 0, 0x10]))
    ensures LeVal(hi) == 0x1000_0000_0000_0000_0000_0000_0000_0000
  {
    var zero: seq<byte> := [0, 0, 0, 0];
    var top: seq<byte> := [0, 0, 0, 0x10];
    assert top + [] == top;
    Limb(top, []);
    Limb(zero, top);
    Limb(zero, zero + top);
    Limb(zero, zero + (zero + top));
  }

  // ----- In-place scalar arithmetic

  lemma LeSnoc(s: seq<byte>, i: nat)
    requires i < |s|
    ensures LeVal(s[..i + 1]) == LeVal(s[..i]) + Pow256(i) * s[i]
  {
    assert s[..i + 1] == s[..i] + [s[i]];
    LeConcat(s[..i], [s[i]]);
    assert LeVal([s[i]]) == s[i];
  }

  lemma Distribute(w: int, x: int, y: int)
    ensures w * (x + y) == w * x + w * y
  {
  }

  lemma SpreadCarry(w: nat, digit: nat, out: nat, v: nat, carry: nat)
    requires v + carry == digit + 256 * out
    ensures w * digit + (256 * w) * out == w * carry + w * v
  {
    Distribute(w, v, carry);
    Distribute(w, digit, 256 * out);
    MulAssoc(w, 256, out);
  }

  /** One digit of a carry loop: digit `i` of `b` holds `v + carry` modulo 256 and the rest carries on. */
  lemma Digit(a: seq<byte>, b: seq<byte>, i: nat, carry: byte, v: nat, out: byte)
    requires i < |a| == |b| && b[..i] == a[..i] && b[i] == (v + carry) % 256 && out == (v + carry) / 256
    ensures LeVal(b[..i + 1] + [out]) == LeVal(a[..i] + [carry]) + Pow256(i) * v
  {
    LeSnoc(b, i);
    LeConcat(b[..i + 1], [out]);
    LeConcat(a[..i], [carry]);
    assert LeVal([out]) == out && LeVal([carry]) == carry;
    assert v + carry == b[i] as int + 256 * out as int;
    SpreadCarry(Pow256(i), b[i], out, v, carry);
  }

  lemma AddDigit(a: seq<byte>, b: seq<byte>, was: seq<byte>, src: seq<byte>, i: nat, carry: byte, out: byte)
    requires i < |a| == |b| == |was| == |src| && b[..i] == a[..i]
    requires var sum := was[i] as int + src[i] as int + carry as int; b[i] == sum % 256 && out == sum / 256
    requires LeVal(a[..i] + [carry]) == LeVal(was[..i]) + LeVal(src[..i])
    ensures LeVal(b[..i + 1] + [out]) == LeVal(was[..i + 1]) + LeVal(src[..i + 1])
  {
    Digit(a, b, i, carry, was[i] as int + src[i] as int, out);
    LeSnoc(was, i);
    LeSnoc(src, i);
    Distribute(Pow256(i), was[i], src[i]);
  }

  /** Shifting a byte left by three with the carry or-ed in, read as one number. */
  lemma ShiftSplit(d: nat, carry: nat)
    requires d < 256 && carry < 8
    ensures d * 8 % 256 + carry < 256
    ensures (d * 8 + carry) % 256 == d * 8 % 256 + carry && (d * 8 + carry) / 256 == d / 32
  {
    assert d * 8 == 256 * (d / 32) + 8 * (d % 32);
  }

  lemma ShiftDigit(a: seq<byte>, b: seq<byte>, was: seq<byte>, i: nat, carry: byte, out: byte)
    requires i < |a| == |b| == |was| && b[..i] == a[..i] && carry < 8
    requires var d := was[i] as int; b[i] == d * 8 % 256 + carry && out == d / 32
    requires LeVal(a[..i] + [carry]) == 8 * LeVal(was[..i])
    ensures LeVal(b[..i + 1] + [out]) == 8 * LeVal(was[..i + 1])
  {
    var d := was[i] as int;
    ShiftSplit(d, carry);
    Digit(a, b, i, carry, d * 8, out);
    LeSnoc(was, i);
    MulAssoc(Pow256(i), d, 8);
  }

  lemma WrapAround(r: nat, carry: nat, total: nat)
    requires r < TWO_256 && r + TWO_256 * carry == total
    ensures r == total % TWO_256
  {
    Pow256Of32();
  }

  /** A carry out of the top digit is lost. */
  lemma TopCarryIsLost(d: seq<byte>, carry: byte)
    requires |d| == WIDTH
    ensures LeVal(d) == LeVal(d + [carry]) % TWO_256
  {
    LeBound(d);
    Pow256Of32();
    LeConcat(d, [carry]);
    assert LeVal([carry]) == carry;
    WrapAround(LeVal(d), carry, LeVal(d + [carry]));
  }

  /** `dest += src` modulo 2^256. */
  method AddWide(dest: array<byte>, src: seq<byte>)
    requires dest.Length == |src| == WIDTH
    modifies dest
    ensures LeVal(dest[..]) == (old(LeVal(dest[..])) + LeVal(src)) % TWO_256
  {
    ghost var was := dest[..];
    var carry: byte := 0;
    for i := 0 to WIDTH
      invariant carry <= 1
      invariant LeVal(dest[..][..i] + [carry]) == LeVal(was[..i]) + LeVal(src[..i])
      invariant forall j :: i <= j < WIDTH ==> dest[j] == was[j]
    {
      ghost var before := dest[..];
      var sum := dest[i] as int + src[i] as int + carry as int;
      dest[i] := sum % 256;
      AddDigit(before, dest[..], was, src, i, carry, sum / 256);
      carry := sum / 256;
    }
    assert dest[..][..WIDTH] == dest[..] && was[..WIDTH] == was && src[..WIDTH] == src;
    TopCarryIsLost(dest[..], carry);
  }

  /** `n * 8` modulo 2^256. Shifting left by three clears the low three bits, so or-ing the carry in adds it. */
  method LeftShift3(scalar: array<byte>)
    requires scalar.Length == WIDTH
    modifies scalar
    ensures LeVal(scalar[..]) == 8 * old(LeVal(scalar[..])) % TWO_256
  {
    ghost var was := scalar[..];
    var carry: byte := 0;
    for i := 0 to WIDTH
      invariant carry < 8
      invariant LeVal(scalar[..][..i] + [carry]) == 8 * LeVal(was[..i])
      invariant forall j :: i <= j < WIDTH ==> scalar[j] == was[j]
    {
      ghost var before := scalar[..];
      var b := scalar[i] as int;
      var nextCarry := b / 32;
      ShiftSplit(b, carry);
      scalar[i] := b * 8 % 256 + carry;
      ShiftDigit(before, scalar[..], was, i, carry, nextCarry);
      carry := nextCarry;
    }
    assert scalar[..][..WIDTH] == scalar[..] && was[..WIDTH] == was;
    TopCarryIsLost(scalar[..], carry);
  }

  // ----- Bits

  ghost function Two(i: nat): (p: nat)
    ensures p >= 1
  {
    if i == 0 then 1 else 2 * Two(i - 1)
  }

  /** `(x >> i) & 1`, as a truth value. */
  predicate BitSet(x: nat, i: nat) {
    if i == 0 then x % 2 == 1 else BitSet(x / 2, i - 1)
  }

  /** The low `i` bits of `x`. */
  ghost function Low(x: nat, i: nat): nat {
    if i == 0 then 0 else x % 2 + 2 * Low(x / 2, i - 1)
  }

  lemma {:induction false} LowGrows(x: nat, i: nat)
    ensures Low(x, i + 1) == Low(x, i) + (if BitSet(x, i) then Two(i) else 0)
  {
    if i > 0 {
      LowGrows(x / 2, i - 1);
    }
  }

  lemma {:induction false} LowIsAll(x: nat, i: nat)
    requires x < Two(i)
    ensures Low(x, i) == x
  {
    if i > 0 {
      LowIsAll(x / 2, i - 1);
    }
  }

  // ----- The low-three-bits adjustment of the password scalar

  /** The input plus the one multiple of `ORDER` below 8 times it that clears the low three bits. */
  function Adjusted(v: nat): nat {
    v + (3 * v % 8) * ORDER_VALUE
  }

  lemma AdjustedIsUnique(v: nat, c: nat)
    requires c < 8 && (v + c * ORDER_VALUE) % 8 == 0
    ensures v + c * ORDER_VALUE == Adjusted(v)
  {
  }

  ghost predicate Fits(x: nat) {
    x < TWO_256
  }

  /** A running value and the doubled order before each of the three rounds and after the last. */
  ghost predicate Rounds(xs: seq<nat>, os: seq<nat>) {
    && |xs| == |os| == 4
    && (forall i :: 0 <= i < 4 ==> Fits(xs[i]) && Fits(os[i]))
    && (forall i :: 0 <= i < 3 ==> os[i + 1] == os[i] + os[i])
    && (forall i :: 0 <= i < 3 ==> xs[i + 1] == if BitSet(xs[i] % 256, i) then xs[i] + os[i] else xs[i])
  }

  /** Reading a low bit off the lowest byte reads it off the whole number. */
  lemma LowByteBit(x: nat, i: nat, k: nat)
    requires i < 3 && x == (if i == 0 then k else if i == 1 then 2 * k else 4 * k)
    ensures BitSet(x % 256, i) == (k % 2 == 1)
  {
    var q, s := x / 256, x % 256;
    assert x == 256 * q + s;
    if i == 1 {
      assert s / 2 == k - 128 * q;
      assert BitSet(s, 1) == BitSet(s / 2, 0);
    } else if i == 2 {
      assert s / 4 == k - 64 * q && s / 2 / 2 == s / 4;
      assert BitSet(s, 2) == BitSet(s / 2, 1) == BitSet(s / 2 / 2, 0);
    }
  }

  /** `ORDER` is odd, so adding it to an odd number makes an even one. */
  lemma Halve(k: nat) returns (h: nat)
    ensures Halved(k, h)
  {
    h := (if k % 2 == 1 then k + ORDER_VALUE else k) / 2;
  }

  /** Three rounds clear three bits, add less than 8 times the order, and never outgrow 256 bits on the way. */
  lemma ThreeRounds(v: nat) returns (xs: seq<nat>, os: seq<nat>)
    requires v < TWO_253
    ensures Rounds(xs, os) && xs[0] == v && os[0] == ORDER_VALUE && xs[3] == Adjusted(v)
  {
    var k1 := Halve(v);
    var k2 := Halve(k1);
    var k3 := Halve(k2);
    RoundsFit(v, k1, k2, k3);
    RoundsRead(v, k1, k2, k3);
    AddedUp(v, v % 2 == 1, k1 % 2 == 1, k2 % 2 == 1, k3);
    xs, os := [v, 2 * k1, 4 * k2, 8 * k3], [ORDER_VALUE, 2 * ORDER_VALUE, 4 * ORDER_VALUE, 8 * ORDER_VALUE];
  }

  /** What one round makes of `k`, halved. */
  ghost predicate Halved(k: nat, h: nat) {
    (if k % 2 == 1 then k + ORDER_VALUE else k) == 2 * h
  }

  lemma RoundsFit(v: nat, k1: nat, k2: nat, k3: nat)
    requires v < TWO_253 && Halved(v, k1) && Halved(k1, k2) && Halved(k2, k3)
    ensures Fits(v) && Fits(2 * k1) && Fits(4 * k2) && Fits(8 * k3) && Fits(8 * ORDER_VALUE)
  {
  }

  lemma RoundsRead(v: nat, k1: nat, k2: nat, k3: nat)
    requires Halved(v, k1) && Halved(k1, k2) && Halved(k2, k3)
    ensures 2 * k1 == if BitSet(v % 256, 0) then v + ORDER_VALUE else v
    ensures 4 * k2 == if BitSet(2 * k1 % 256, 1) then 2 * k1 + 2 * ORDER_VALUE else 2 * k1
    ensures 8 * k3 == if BitSet(4 * k2 % 256, 2) then 4 * k2 + 4 * ORDER_VALUE else 4 * k2
  {
    LowByteBit(v, 0, v);
    LowByteBit(2 * k1, 1, k1);
    LowByteBit(4 * k2, 2, k2);
  }

  lemma AddedUp(v: nat, b0: bool, b1: bool, b2: bool, k: nat)
    requires v + (if b0 then ORDER_VALUE else 0) + (if b1 then 2 * ORDER_VALUE else 0) +
             (if b2 then 4 * ORDER_VALUE else 0) == 8 * k
    ensures 8 * k == Adjusted(v)
  {
    var c := (if b0 then 1 else 0) + (if b1 then 2 else 0) + (if b2 then 4 else 0);
    assert v + c * ORDER_VALUE == 8 * k;
    AdjustedIsUnique(v, c);
  }

  lemma LowByte(s: seq<byte>)
    requires s != []
    ensures LeVal(s) % 256 == s[0]
  {
    assert LeVal(s) == s[0] as int + 256 * LeVal(s[1..]);
  }

  /** `AddWide` where the sum is known to fit. */
  method AddFitting(dest: array<byte>, src: seq<byte>, ghost total: nat)
    requires dest.Length == |src| == WIDTH
    requires LeVal(dest[..]) + LeVal(src) == total && Fits(total)
    modifies dest
    ensures LeVal(dest[..]) == total
  {
    AddWide(dest, src);
    Pow256Of32();
  }

  method OrderArray() returns (order: array<byte>)
    ensures fresh(order) && order.Length == WIDTH && LeVal(order[..]) == ORDER_VALUE
  {
    OrderSpelled();
    order := new byte[WIDTH](i requires 0 <= i < WIDTH => ORDER[i]);
    assert order[..] == ORDER;
  }

  /** The low-three-bits loop of `Spake2::new`. */
  method AdjustPasswordScalar(scalar: array<byte>)
    requires scalar.Length == WIDTH && LeVal(scalar[..]) < TWO_253
    modifies scalar
    ensures LeVal(scalar[..]) == Adjusted(old(LeVal(scalar[..])))
  {
    ghost var xs, os := ThreeRounds(LeVal(scalar[..]));
    var order := OrderArray();
    for bit := 0 to 3
      invariant order != scalar
      invariant LeVal(order[..]) == os[bit]
      invariant LeVal(scalar[..]) == xs[bit]
    {
      LowByte(scalar[..]);
      if BitSet(scalar[0], bit) {
        AddFitting(scalar, order[..], xs[bit + 1]);
      }
      var doubled := order[..];
      AddFitting(order, doubled, os[bit + 1]);
    }
  }

  /** The adjusted scalar is a multiple of 8, congruent to its input modulo `ORDER`, and fits in 256 bits. */
  lemma AdjustmentLaws(v: nat)
    requires v < TWO_253
    ensures Adjusted(v) % 8 == 0
    ensures Adjusted(v) % ORDER_VALUE == v % ORDER_VALUE
    ensures Adjusted(v) < TWO_256
    ensures 8 * v < TWO_256
  {
    ShiftedModulus(v, 3 * v % 8, 0, ORDER_VALUE);
  }

  /**
    `ORDER` is meant to be the group order, which would make the adjustment invisible to points of that order.
    With the constant as written that holds only when there was nothing to adjust.
  */
  lemma AdjustmentModuloRfcOrder(v: nat)
    ensures Adjusted(v) % RFC_ORDER == v % RFC_ORDER <==> v % 8 == 0
  {
    var c, gap := 3 * v % 8, RFC_ORDER - ORDER_VALUE;
    assert c == 0 <==> v % 8 == 0;
    assert c * ORDER_VALUE == c * RFC_ORDER - c * gap;
    ShiftedModulus(v, c, c * gap, RFC_ORDER);
  }

  /** Adding a multiple of `m` less `d < m` changes the residue modulo `m` unless `d` is zero. */
  lemma ShiftedModulus(v: nat, k: nat, d: nat, m: nat)
    requires d < m && v + k * m >= d
    ensures (v + k * m - d) % m == v % m <==> d == 0
  {
    var q, r := v / m, v % m;
    assert v + k * m == (q + k) * m + r by { Distribute(m, q, k); }
    if d <= r {
      Residue(v + k * m - d, q + k, r - d, m);
    } else {
      assert (q + k - 1) * m == (q + k) * m - m by { Distribute(m, q + k - 1, 1); }
      Residue(v + k * m - d, q + k - 1, r - d + m, m);
    }
  }

  lemma Residue(x: nat, q: int, r: int, m: nat)
    requires x == q * m + r && 0 <= r < m
    ensures x % m == r
  {
    var e := q - x / m;
    assert x == x / m * m + x % m;
    assert e * m == x % m - r by { Distribute(m, q, -(x / m)); }
    NextMultiple(e, m);
  }

  lemma NextMultiple(e: int, m: nat)
    ensures e >= 1 ==> e * m >= m
    ensures e <= -1 ==> e * m + m <= 0
  {
    if e >= 1 {
      Distribute(m, e - 1, 1);
      assert (e - 1) * m >= 0;
    } else if e <= -1 {
      Distribute(m, e + 1, -1);
      assert (e + 1) * m <= 0;
    }
  }

  // ----- Double-and-add

  /** One bit of the ladder over a byte: the running value gains the bit's multiple, the addend doubles. */
  lemma LadderBit<G(!new)>(g: Group<G>, r: G, q: G, x: byte, i: nat)
    requires IsAbelian(g)
    ensures g.add(r, Times(g, Low(x, i + 1), q)) ==
              if BitSet(x, i) then g.add(g.add(r, Times(g, Low(x, i), q)), Times(g, Two(i), q))
              else g.add(r, Times(g, Low(x, i), q))
    ensures Times(g, Two(i + 1), q) == g.add(Times(g, Two(i), q), Times(g, Two(i), q))
  {
    LowGrows(x, i);
    TimesAdd(g, Low(x, i), Two(i), q);
    Assoc(g, r, Times(g, Low(x, i), q), Times(g, Two(i), q));
    TimesAdd(g, Two(i), Two(i), q);
  }

  /** Eight bits of the ladder add one byte's weight. */
  lemma LadderByte<G(!new)>(g: Group<G>, p: G, scalar: seq<byte>, b: nat)
    requires IsAbelian(g) && b < |scalar|
    ensures Times(g, LeVal(scalar[..b + 1]), p) ==
            g.add(Times(g, LeVal(scalar[..b]), p), Times(g, scalar[b], Times(g, Pow256(b), p)))
    ensures Times(g, Pow256(b + 1), p) == Times(g, 256, Times(g, Pow256(b), p))
  {
    LeSnoc(scalar, b);
    TimesAdd(g, LeVal(scalar[..b]), Pow256(b) * scalar[b], p);
    TimesMul(g, scalar[b], Pow256(b), p);
    TimesMul(g, 256, Pow256(b), p);
  }

  /** The inner loop over one byte: `r` gains [x]q and the addend ends at [256]q. */
  method MulByte<G(!new)>(g: Group<G>, r: G, q: G, x: byte) returns (result: G, addend: G)
    requires IsAbelian(g)
    ensures result == g.add(r, Times(g, x, q))
    ensures addend == Times(g, 256, q)
  {
    result, addend := r, q;
    Zero(g, r);
    Zero(g, q);
    assert Times(g, 1, q) == g.add(q, Times(g, 0, q));
    for i := 0 to 8
      invariant result == g.add(r, Times(g, Low(x, i), q))
      invariant addend == Times(g, Two(i), q)
    {
      LadderBit(g, r, q, x, i);
      var sum := g.add(result, addend);
      if BitSet(x, i) {
        result := sum;
      }
      addend := g.add(addend, addend);
    }
    assert Two(8) == 256;
    LowIsAll(x, 8);
  }

  /** Exact integer scalar multiplication over all bits of the scalar, nothing reduced. */
  method MulWide<G(!new)>(g: Group<G>, point: G, scalar: seq<byte>) returns (result: G)
    requires IsAbelian(g)
    ensures result == Times(g, LeVal(scalar), point)
  {
    result := g.zero;
    var addend := point;
    Zero(g, point);
    assert Times(g, 1, point) == g.add(point, Times(g, 0, point));
    for b := 0 to |scalar|
      invariant result == Times(g, LeVal(scalar[..b]), point)
      invariant addend == Times(g, Pow256(b), point)
    {
      LadderByte(g, point, scalar, b);
      result, addend := MulByte(g, result, addend, scalar[b]);
    }
    assert scalar[..|scalar|] == scalar;
  }
}
