/**
  The SPAKE2 exchange over an arbitrary commutative group. SHA-512, point compression and the wide reduction
  of dalek are parameters of the exchange; `Sound` says all that is used about them.
*/
module SpakeExchange {
  import opened Bytes
  import opened Groups
  import opened WideScalars

  const M_ENCODED: seq<byte> := [
    0x5a, 0xda, 0x7e, 0x4b, 0xf6, 0xdd, 0xd9, 0xad, 0xb6, 0x62, 0x6d, 0x32, 0x13, 0x1c, 0x6b, 0x5c,
    0x51, 0xa1, 0xe3, 0x47, 0xa3, 0x47, 0x8f, 0x53, 0xcf, 0xcf, 0x44, 0x1b, 0x88, 0xee, 0xd1, 0x2e
  ]

  const N_ENCODED: seq<byte> := [
    0x10, 0xe3, 0xdf, 0x0a, 0xe3, 0x7d, 0x8e, 0x7a, 0x99, 0xb5, 0xfe, 0x74, 0xb4, 0x46, 0x72, 0x10,
    0x3d, 0xbd, 0xdc, 0xbd, 0x06, 0xaf, 0x68, 0x0d, 0x71, 0x32, 0x9a, 0x11, 0x69, 0x3b, 0xc7, 0x78
  ]

  /** "adb pair client" and "adb pair server", each with its NUL. */
  const CLIENT_NAME: seq<byte> := [97, 100, 98, 32, 112, 97, 105, 114, 32, 99, 108, 105, 101, 110, 116, 0]
  const SERVER_NAME: seq<byte> := [97, 100, 98, 32, 112, 97, 105, 114, 32, 115, 101, 114, 118, 101, 114, 0]

  datatype Curve<!G> = Curve(
    group: Group<G>, base: G,
    compress: G -> seq<byte>, decompress: seq<byte> -> Option<G>,
    hash: seq<byte> -> seq<byte>, reduce: seq<byte> -> seq<byte>)

  ghost predicate Sound<G(!new)>(c: Curve<G>) {
    && IsAbelian(c.group)
    && (forall p :: |c.compress(p)| == WIDTH && c.decompress(c.compress(p)) == Some(p))
    && c.decompress(M_ENCODED).Some? && c.decompress(N_ENCODED).Some?
    && (forall b :: |c.hash(b)| == 64)
    && (forall b :: |c.reduce(b)| == WIDTH && LeVal(c.reduce(b)) < TWO_253)
  }

  datatype Result<+T> = Ok(value: T) | Err(error: SpakeError)

  datatype SpakeError = ProcessBeforeGenerate | PeerPointNotOnCurve

  // ----- What each side computes

  ghost function PasswordValue<G>(c: Curve<G>, password: seq<byte>): nat {
    Adjusted(LeVal(c.reduce(c.hash(password))))
  }

  ghost function PrivateValue<G>(c: Curve<G>, random: seq<byte>): nat {
    8 * LeVal(c.reduce(random))
  }

  ghost function Mask<G(!new)>(c: Curve<G>, alice: bool): G
    requires Sound(c)
  {
    c.decompress(if alice then M_ENCODED else N_ENCODED).value
  }

  /** [private]B + [password]mask. */
  ghost function MessagePoint<G(!new)>(c: Curve<G>, mask: G, password: seq<byte>, random: seq<byte>): G {
    c.group.add(Times(c.group, PrivateValue(c, random), c.base), Times(c.group, PasswordValue(c, password), mask))
  }

  ghost function Message<G(!new)>(c: Curve<G>, alice: bool, password: seq<byte>, random: seq<byte>): seq<byte>
    requires Sound(c)
  {
    c.compress(MessagePoint(c, Mask(c, alice), password, random))
  }

  /** [private](their point - [password]their mask). */
  ghost function SharedPoint<G(!new)>(c: Curve<G>, theirMask: G, password: seq<byte>, random: seq<byte>, theirs: G): G {
    Times(c.group, PrivateValue(c, random),
          c.group.add(theirs, c.group.neg(Times(c.group, PasswordValue(c, password), theirMask))))
  }

  /** A field with its length as a little-endian `u64` in front. */
  function Prefixed(data: seq<byte>): seq<byte> {
    Le(|data|, 8) + data
  }

  /** What the hash is fed, field by field. */
  function Transcript(fields: seq<seq<byte>>): seq<byte> {
    if fields == [] then [] else Prefixed(fields[0]) + Transcript(fields[1..])
  }

  /** What the key is hashed from, in Alice's order; `k` is the shared point. */
  ghost function HashInput<G(!new)>(c: Curve<G>, alice: bool, password: seq<byte>, mine: seq<byte>, theirs: seq<byte>,
                                    k: G)
    : seq<byte>
  {
    Transcript([CLIENT_NAME, SERVER_NAME, if alice then mine else theirs, if alice then theirs else mine,
                c.compress(k), c.hash(password)])
  }

  /** The answer of `process_msg` after `generate_msg`. */
  ghost function Secret<G(!new)>(c: Curve<G>, alice: bool, password: seq<byte>, random: seq<byte>, theirs: seq<byte>)
    : Result<seq<byte>>
    requires Sound(c)
  {
    if c.decompress(theirs).None? then Err(PeerPointNotOnCurve)
    else
      var k := SharedPoint(c, Mask(c, !alice), password, random, c.decompress(theirs).value);
      Ok(c.hash(HashInput(c, alice, password, Message(c, alice, password, random), theirs, k)))
  }

  // ----- One side of the exchange

  class Spake2<G(!new)> {
    const curve: Curve<G>
    ghost const password: seq<byte>
    ghost var random: seq<byte>

    const roleAlice: bool
    const myName: seq<byte>
    const theirName: seq<byte>
    const passwordHash: seq<byte>
    const passwordScalar: seq<byte>
    var myMsg: seq<byte>
    var myMsgPoint: G
    var privateScalar: seq<byte>
    var generated: bool

    ghost predicate Valid()
      reads this
    {
      && Sound(curve)
      && myName == (if roleAlice then CLIENT_NAME else SERVER_NAME)
      && theirName == (if roleAlice then SERVER_NAME else CLIENT_NAME)
      && passwordHash == curve.hash(password)
      && LeVal(passwordScalar) == PasswordValue(curve, password)
      && (generated ==>
            && LeVal(privateScalar) == PrivateValue(curve, random)
            && myMsgPoint == MessagePoint(curve, Mask(curve, roleAlice), password, random)
            && myMsg == Message(curve, roleAlice, password, random))
    }

    /** [private](their point - [password]mask), with the peer's mask. */
    ghost function Shared(theirMsg: seq<byte>, mask: seq<byte>): G
      requires curve.decompress(theirMsg).Some? && curve.decompress(mask).Some?
      reads this
    {
      var g, w := curve.group, Adjusted(LeVal(curve.reduce(curve.hash(password))));
      var unmasked := g.add(curve.decompress(theirMsg).value, g.neg(Times(g, w, curve.decompress(mask).value)));
      Times(g, 8 * LeVal(curve.reduce(random)), unmasked)
    }

    constructor (c: Curve<G>, alice: bool, pw: seq<byte>)
      requires Sound(c)
      ensures Valid() && !generated && curve == c && roleAlice == alice && password == pw
    {
      curve, password, roleAlice := c, pw, alice;
      myName := if alice then CLIENT_NAME else SERVER_NAME;
      theirName := if alice then SERVER_NAME else CLIENT_NAME;
      var digest := c.hash(pw);
      passwordHash := digest;
      var reduced := c.reduce(digest);
      var scalar := new byte[WIDTH](i requires 0 <= i < WIDTH => reduced[i]);
      assert scalar[..] == reduced;
      AdjustPasswordScalar(scalar);
      passwordScalar := scalar[..];
      myMsg := seq(WIDTH, _ => 0);
      myMsgPoint := c.group.zero;
      privateScalar := seq(WIDTH, _ => 0);
      generated := false;
    }

    /** `randomBytes` are the 64 bytes read from /dev/urandom. */
    method GenerateMsg(randomBytes: seq<byte>) returns (msg: seq<byte>)
      requires Valid() && |randomBytes| == 64
      modifies this
      ensures Valid() && generated && random == randomBytes
      ensures msg == myMsg == Message(curve, roleAlice, password, randomBytes)
      ensures var g, mask := curve.group, curve.decompress(if roleAlice then M_ENCODED else N_ENCODED).value;
        var x, w := 8 * LeVal(curve.reduce(randomBytes)), Adjusted(LeVal(curve.reduce(curve.hash(password))));
        msg == curve.compress(g.add(Times(g, x, curve.base), Times(g, w, mask)))
    {
      var reduced := curve.reduce(randomBytes);
      var scalar := new byte[WIDTH](i requires 0 <= i < WIDTH => reduced[i]);
      assert scalar[..] == reduced;
      AdjustmentLaws(LeVal(reduced));
      LeftShift3(scalar);
      ShiftFits(LeVal(reduced));
      random, privateScalar := randomBytes, scalar[..];
      var mask := curve.decompress(if roleAlice then M_ENCODED else N_ENCODED).value;
      var ephemeral := MulWide(curve.group, curve.base, privateScalar);
      var masked := MulWide(curve.group, mask, passwordScalar);
      myMsgPoint := curve.group.add(ephemeral, masked);
      myMsg := curve.compress(myMsgPoint);
      generated := true;
      msg := myMsg;
    }

    method ProcessMsg(theirMsg: seq<byte>) returns (r: Result<seq<byte>>)
      requires Valid() && |theirMsg| == WIDTH
      ensures r == if generated then Secret(curve, roleAlice, password, random, theirMsg)
                   else Err(ProcessBeforeGenerate)
      ensures r.Ok? && roleAlice ==>
        r.value == curve.hash(Transcript([CLIENT_NAME, SERVER_NAME, myMsg, theirMsg,
                                          curve.compress(Shared(theirMsg, N_ENCODED)), curve.hash(password)]))
      ensures r.Ok? && !roleAlice ==>
        r.value == curve.hash(Transcript([CLIENT_NAME, SERVER_NAME, theirMsg, myMsg,
                                          curve.compress(Shared(theirMsg, M_ENCODED)), curve.hash(password)]))
      ensures r.Ok? <==> generated && curve.decompress(theirMsg).Some?
    {
      if !generated {
        return Err(ProcessBeforeGenerate);
      }
      var theirPoint := curve.decompress(theirMsg);
      if theirPoint.None? {
        return Err(PeerPointNotOnCurve);
      }
      var theirMask := curve.decompress(if roleAlice then N_ENCODED else M_ENCODED).value;
      var unmask := MulWide(curve.group, theirMask, passwordScalar);
      var unmasked := curve.group.add(theirPoint.value, curve.group.neg(unmask));
      var dhShared := MulWide(curve.group, unmasked, privateScalar);
      var dhEncoded := curve.compress(dhShared);
      var digest: seq<byte>;
      if roleAlice {
        digest := HashTranscript(curve, myName, theirName, myMsg, theirMsg, dhEncoded, passwordHash);
      } else {
        digest := HashTranscript(curve, theirName, myName, theirMsg, myMsg, dhEncoded, passwordHash);
      }
      r := Ok(digest);
    }
  }

  method HashTranscript<G(!new)>(c: Curve<G>, f0: seq<byte>, f1: seq<byte>, f2: seq<byte>, f3: seq<byte>, f4: seq<byte>,
                                 f5: seq<byte>)
    returns (digest: seq<byte>)
    ensures digest == c.hash(Transcript([f0, f1, f2, f3, f4, f5]))
  {
    var h := Lp([], f0, []);
    assert [] + [f0] == [f0];
    h := Lp(h, f1, [f0]);
    assert [f0] + [f1] == [f0, f1];
    h := Lp(h, f2, [f0, f1]);
    assert [f0, f1] + [f2] == [f0, f1, f2];
    h := Lp(h, f3, [f0, f1, f2]);
    assert [f0, f1, f2] + [f3] == [f0, f1, f2, f3];
    h := Lp(h, f4, [f0, f1, f2, f3]);
    assert [f0, f1, f2, f3] + [f4] == [f0, f1, f2, f3, f4];
    h := Lp(h, f5, [f0, f1, f2, f3, f4]);
    assert [f0, f1, f2, f3, f4] + [f5] == [f0, f1, f2, f3, f4, f5];
    digest := c.hash(h);
  }

  /** `h.update` with one length-prefixed field, after the fields `f`. */
  method Lp(h: seq<byte>, data: seq<byte>, ghost f: seq<seq<byte>>) returns (h': seq<byte>)
    requires h == Transcript(f)
    ensures h' == Transcript(f + [data])
  {
    TranscriptSnoc(f, data);
    ConcatAssoc(h, Le(|data|, 8), data);
    h' := h + Le(|data|, 8) + data;
  }

  lemma ShiftFits(v: nat)
    requires v < TWO_253
    ensures 8 * v % TWO_256 == 8 * v
  {
  }

  lemma {:induction false} TranscriptSnoc(f: seq<seq<byte>>, x: seq<byte>)
    ensures Transcript(f + [x]) == Transcript(f) + Prefixed(x)
  {
    if f == [] {
      assert f + [x] == [x] && [x][1..] == [];
      assert Transcript([x]) == Prefixed(x) + Transcript([]);
    } else {
      TranscriptSnoc(f[1..], x);
      assert (f + [x])[1..] == f[1..] + [x];
      ConcatAssoc(Prefixed(f[0]), Transcript(f[1..]), Prefixed(x));
    }
  }

  // ----- Agreement

  /** Taking the password mask off a message leaves the ephemeral multiple of the base point. */
  lemma Unmasked<G(!new)>(c: Curve<G>, mask: G, password: seq<byte>, mine: seq<byte>, theirs: seq<byte>)
    requires Sound(c)
    ensures SharedPoint(c, mask, password, mine, MessagePoint(c, mask, password, theirs)) ==
            Times(c.group, Product(PrivateValue(c, mine), PrivateValue(c, theirs)), c.base)
  {
    var ephemeral := Times(c.group, PrivateValue(c, theirs), c.base);
    var masked := Times(c.group, PasswordValue(c, password), mask);
    AddThenSubtract(c.group, ephemeral, masked);
    TimesMul(c.group, PrivateValue(c, mine), PrivateValue(c, theirs), c.base);
  }

  /** With one password, Alice and Bob end with the same 64 bytes, whatever their randomness. */
  lemma Agreement<G(!new)>(c: Curve<G>, password: seq<byte>, ra: seq<byte>, rb: seq<byte>)
    requires Sound(c)
    ensures Secret(c, true, password, ra, Message(c, false, password, rb)).Ok?
    ensures Secret(c, true, password, ra, Message(c, false, password, rb)) ==
            Secret(c, false, password, rb, Message(c, true, password, ra))
  {
    Unmasked(c, Mask(c, false), password, ra, rb);
    Unmasked(c, Mask(c, true), password, rb, ra);
    assert PrivateValue(c, ra) * PrivateValue(c, rb) == PrivateValue(c, rb) * PrivateValue(c, ra);
  }

  ghost function Product(a: nat, b: nat): nat {
    a * b
  }

  /**
    Against a peer whose password scalar is `w`, this side gets the product of the ephemerals exactly when its own
    private scalar times either password scalar is the same multiple of the peer's mask.
  */
  lemma PeerScalarIff<G(!new)>(c: Curve<G>, mask: G, password: seq<byte>, mine: seq<byte>, b: nat, w: nat)
    requires Sound(c)
    ensures var a := PrivateValue(c, mine);
      SharedPoint(c, mask, password, mine, PeerPoint(c, mask, b, w)) == Times(c.group, Product(a, b), c.base) <==>
      Times(c.group, Product(a, w), mask) == Times(c.group, Product(a, PasswordValue(c, password)), mask)
  {
    var a, own := PrivateValue(c, mine), PasswordValue(c, password);
    MaskSwapped(c.group, a, Times(c.group, b, c.base), Times(c.group, w, mask), Times(c.group, own, mask));
    TimesMul(c.group, a, b, c.base);
    TimesMul(c.group, a, w, mask);
    TimesMul(c.group, a, own, mask);
  }

  /** The message of a peer with ephemeral scalar `b` and password scalar `w`. */
  ghost function PeerPoint<G(!new)>(c: Curve<G>, mask: G, b: nat, w: nat): G {
    c.group.add(Times(c.group, b, c.base), Times(c.group, w, mask))
  }

  /** [a]-fold multiples of the mask are equal only for scalars congruent modulo L. */
  ghost predicate TellsApart<G(!new)>(g: Group<G>, a: nat, mask: G, x: nat, y: nat) {
    Times(g, Product(a, x), mask) == Times(g, Product(a, y), mask) ==> x % RFC_ORDER == y % RFC_ORDER
  }

  /**
    A peer that adjusts its scalar by the order of RFC 8032, on a mask of that order up to a small-order part, agrees
    with this side exactly when nothing had to be adjusted.
  */
  lemma RfcPeerIff<G(!new)>(c: Curve<G>, mask: G, password: seq<byte>, mine: seq<byte>, b: nat, w: nat)
    requires Sound(c) && Times(c.group, 8 * RFC_ORDER, mask) == c.group.zero
    requires w % RFC_ORDER == LeVal(c.reduce(c.hash(password))) % RFC_ORDER
    requires TellsApart(c.group, PrivateValue(c, mine), mask, w, PasswordValue(c, password))
    ensures SharedPoint(c, mask, password, mine, PeerPoint(c, mask, b, w)) ==
            Times(c.group, Product(PrivateValue(c, mine), b), c.base) <==>
            LeVal(c.reduce(c.hash(password))) % 8 == 0
  {
    var v, own, r := LeVal(c.reduce(c.hash(password))), PasswordValue(c, password), LeVal(c.reduce(mine));
    PeerScalarIff(c, mask, password, mine, b, w);
    AdjustmentModuloRfcOrder(v);
    if v % 8 == 0 {
      SameMultiples(c.group, mask, r, w, own);
    }
  }

  lemma SameMultiples<G(!new)>(g: Group<G>, p: G, r: nat, x: nat, y: nat)
    requires IsAbelian(g) && Times(g, 8 * RFC_ORDER, p) == g.zero && x % RFC_ORDER == y % RFC_ORDER
    ensures Times(g, 8 * r * x, p) == Times(g, 8 * r * y, p)
  {
    DownToResidue(g, p, r, x);
    DownToResidue(g, p, r, y);
  }

  lemma DownToResidue<G(!new)>(g: Group<G>, p: G, r: nat, x: nat)
    requires IsAbelian(g) && Times(g, 8 * RFC_ORDER, p) == g.zero
    ensures Times(g, 8 * r * x, p) == Times(g, 8 * r * (x % RFC_ORDER), p)
  {
    var q, e := x / RFC_ORDER, x % RFC_ORDER;
    SplitProduct(r, q, e, RFC_ORDER);
    TimesAdd(g, r * q * (8 * RFC_ORDER), 8 * r * e, p);
    TimesMul(g, r * q, 8 * RFC_ORDER, p);
    TimesZero(g, r * q);
    Zero(g, Times(g, 8 * r * e, p));
  }

  lemma SplitProduct(r: nat, q: nat, e: nat, m: nat)
    ensures 8 * r * (q * m + e) == r * q * (8 * m) + 8 * r * e
  {
  }

  /** The whole exchange, run: both sides succeed with the same key. */
  method Exchange<G(!new)>(c: Curve<G>, password: seq<byte>, ra: seq<byte>, rb: seq<byte>)
    returns (aliceKey: Result<seq<byte>>, bobKey: Result<seq<byte>>)
    requires Sound(c) && |ra| == |rb| == 64
    ensures aliceKey.Ok? && aliceKey == bobKey && |aliceKey.value| == 64
  {
    var alice := new Spake2(c, true, password);
    var bob := new Spake2(c, false, password);
    var aMsg := alice.GenerateMsg(ra);
    var bMsg := bob.GenerateMsg(rb);
    aliceKey := alice.ProcessMsg(bMsg);
    bobKey := bob.ProcessMsg(aMsg);
    Agreement(c, password, ra, rb);
  }

  // ----- Small-order points

  lemma EightKills<G(!new)>(g: Group<G>, k: nat, t: G)
    requires IsAbelian(g) && Times(g, 8, t) == g.zero && k % 8 == 0
    ensures Times(g, k, t) == g.zero
  {
    assert k == k / 8 * 8;
    TimesMul(g, k / 8, 8, t);
    TimesZero(g, k / 8);
  }

  lemma EightKillsSum<G(!new)>(g: Group<G>, k: nat, p: G, t: G)
    requires IsAbelian(g) && Times(g, 8, t) == g.zero && k % 8 == 0
    ensures Times(g, k, g.add(p, t)) == Times(g, k, p)
  {
    TimesDistributes(g, k, p, t);
    EightKills(g, k, t);
    Zero(g, Times(g, k, p));
  }

  lemma PasswordIsMultipleOf8<G(!new)>(c: Curve<G>, password: seq<byte>)
    requires Sound(c)
    ensures PasswordValue(c, password) % 8 == 0
  {
    AdjustmentLaws(LeVal(c.reduce(c.hash(password))));
  }

  /** The order in which a mask and a small-order point are added does not matter. */
  lemma SmallOrderLast<G(!new)>(g: Group<G>, k: nat, p: G, t: G, m: G)
    requires IsAbelian(g) && Times(g, 8, t) == g.zero && k % 8 == 0
    ensures Times(g, k, g.add(g.add(p, t), m)) == Times(g, k, g.add(p, m))
  {
    Assoc(g, p, t, m);
    Comm(g, t, m);
    Assoc(g, p, m, t);
    EightKillsSum(g, k, g.add(p, m), t);
  }

  /** A small-order point added to the peer's point or to the mask leaves the shared point unchanged. */
  lemma SmallOrderIsInvisible<G(!new)>(c: Curve<G>, mask: G, password: seq<byte>, random: seq<byte>, theirs: G, t: G)
    requires Sound(c) && Times(c.group, 8, t) == c.group.zero
    ensures SharedPoint(c, mask, password, random, c.group.add(theirs, t)) ==
            SharedPoint(c, mask, password, random, theirs)
    ensures SharedPoint(c, c.group.add(mask, t), password, random, theirs) ==
            SharedPoint(c, mask, password, random, theirs)
    ensures MessagePoint(c, c.group.add(mask, t), password, random) == MessagePoint(c, mask, password, random)
  {
    PasswordIsMultipleOf8(c, password);
    EightKillsSum(c.group, PasswordValue(c, password), mask, t);
    var unmask := c.group.neg(Times(c.group, PasswordValue(c, password), mask));
    SmallOrderLast(c.group, PrivateValue(c, random), theirs, t, unmask);
  }

  // ----- The transcript

  lemma PrefixedInjective(a: seq<byte>, x: seq<byte>, b: seq<byte>, y: seq<byte>)
    requires |a| < 0x1_0000_0000_0000_0000 && |b| < 0x1_0000_0000_0000_0000
    requires Prefixed(a) + x == Prefixed(b) + y
    ensures a == b && x == y
  {
    Pow256Widths();
    var s, t := Prefixed(a) + x, Prefixed(b) + y;
    assert s[..8] == Le(|a|, 8) && t[..8] == Le(|b|, 8);
    LeRoundTrip(|a|, 8);
    LeRoundTrip(|b|, 8);
    assert s[8..8 + |a|] == a && t[8..8 + |b|] == b;
    assert s[8 + |a|..] == x && t[8 + |b|..] == y;
  }

  /** Equal transcripts of equally many fields have equal fields. */
  lemma {:induction false} TranscriptInjective(f: seq<seq<byte>>, h: seq<seq<byte>>)
    requires |f| == |h| && Transcript(f) == Transcript(h)
    requires forall i :: 0 <= i < |f| ==> |f[i]| < 0x1_0000_0000_0000_0000 && |h[i]| < 0x1_0000_0000_0000_0000
    ensures f == h
  {
    if f != [] {
      PrefixedInjective(f[0], Transcript(f[1..]), h[0], Transcript(h[1..]));
      TranscriptInjective(f[1..], h[1..]);
      assert f == [f[0]] + f[1..] && h == [h[0]] + h[1..];
    }
  }

  /** Different messages, shared points or password hashes never feed the hash the same bytes. */
  lemma HashInputsDiffer<G(!new)>(c: Curve<G>, alice: bool, p: seq<byte>, mine: seq<byte>, theirs: seq<byte>, k: G,
                                  p': seq<byte>, mine': seq<byte>, theirs': seq<byte>, k': G)
    requires Sound(c) && |mine| == |theirs| == |mine'| == |theirs'| == WIDTH
    requires HashInput(c, alice, p, mine, theirs, k) == HashInput(c, alice, p', mine', theirs', k')
    ensures mine == mine' && theirs == theirs' && k == k' && c.hash(p) == c.hash(p')
  {
    var f := [CLIENT_NAME, SERVER_NAME, if alice then mine else theirs, if alice then theirs else mine,
              c.compress(k), c.hash(p)];
    var h := [CLIENT_NAME, SERVER_NAME, if alice then mine' else theirs', if alice then theirs' else mine',
              c.compress(k'), c.hash(p')];
    TranscriptInjective(f, h);
    assert f[2] == h[2] && f[3] == h[3] && f[4] == h[4] && f[5] == h[5];
    assert c.decompress(c.compress(k)) == Some(k) && c.decompress(c.compress(k')) == Some(k');
  }

  /** The two sides' hash inputs are equal only if each saw the messages the other did, and the same point and hash. */
  lemma SidesAgreeOnlyIf<G(!new)>(c: Curve<G>, pa: seq<byte>, sentA: seq<byte>, gotA: seq<byte>, ka: G,
                                  pb: seq<byte>, sentB: seq<byte>, gotB: seq<byte>, kb: G)
    requires Sound(c) && |sentA| == |gotA| == |sentB| == |gotB| == WIDTH
    requires HashInput(c, true, pa, sentA, gotA, ka) == HashInput(c, false, pb, sentB, gotB, kb)
    ensures sentA == gotB && gotA == sentB && ka == kb && c.hash(pa) == c.hash(pb)
  {
    assert HashInput(c, false, pb, sentB, gotB, kb) == HashInput(c, true, pb, gotB, sentB, kb);
    HashInputsDiffer(c, true, pa, sentA, gotA, ka, pb, gotB, sentB, kb);
  }

  /** Two sides whose passwords hash differently feed the hash different bytes: equal keys would be a collision. */
  lemma DifferentPasswordsDiffer<G(!new)>(c: Curve<G>, pa: seq<byte>, pb: seq<byte>, ma: seq<byte>, mb: seq<byte>,
                                          ka: G, kb: G)
    requires Sound(c) && c.hash(pa) != c.hash(pb) && |ma| == |mb| == WIDTH
    ensures HashInput(c, true, pa, ma, mb, ka) != HashInput(c, false, pb, mb, ma, kb)
  {
    if HashInput(c, true, pa, ma, mb, ka) == HashInput(c, false, pb, mb, ma, kb) {
      SidesAgreeOnlyIf(c, pa, ma, mb, ka, pb, mb, ma, kb);
    }
  }

  /** Each field of the transcript stands behind its length in eight little-endian bytes. */
  lemma TranscriptSpelled(a: seq<byte>, more: seq<seq<byte>>)
    requires |a| < 0x1_0000_0000
    ensures Transcript([a] + more) ==
            [|a| % 256, |a| / 0x100 % 256, |a| / 0x1_0000 % 256, |a| / 0x100_0000, 0, 0, 0, 0] + a +
            Transcript(more)
  {
    assert ([a] + more)[1..] == more;
    LeEight(|a|);
  }

  /** The two names, each with a NUL behind it. */
  lemma NamesSpelled()
    ensures |CLIENT_NAME| == 16 && CLIENT_NAME[15] == 0
    ensures forall i :: 0 <= i < 15 ==> CLIENT_NAME[i] == "adb pair client"[i] as int
    ensures |SERVER_NAME| == 16 && SERVER_NAME[15] == 0
    ensures forall i :: 0 <= i < 15 ==> SERVER_NAME[i] == "adb pair server"[i] as int
  {
  }

  /** The two masks, by their first and last bytes. */
  lemma MasksSpelled()
    ensures |M_ENCODED| == 32 && M_ENCODED[..4] == [0x5a, 0xda, 0x7e, 0x4b] && M_ENCODED[31] == 0x2e
    ensures |N_ENCODED| == 32 && N_ENCODED[..4] == [0x10, 0xe3, 0xdf, 0x0a] && N_ENCODED[31] == 0x78
  {
  }
}
