/**
 The primitives the wallet calls: a prime-order group with x-only keys, hash functions,
 Schnorr signatures and address text. Everything is a parameter; only the laws in
 `Lawful` are used, so every theorem holds for every choice that obeys them.
 */
module Crypto {
  import opened Prelude
  import opened Chain

  /** A point by its abscissa and the parity of its ordinate. */
  datatype Point = Infinity | Affine(x: Bytes, odd: bool) {
    function Negate(): Point {
      match this
      case Infinity => Infinity
      case Affine(x, odd) => Affine(x, !odd)
    }
  }

  /** What a signature commits to: the spent outputs, the transaction without witnesses, the input, the leaf. */
  datatype SigMessage = SigMessage(spent: seq<TxOut>, tx: MsgTx, index: nat, leafHash: Option<Bytes>)

  datatype Suite = Suite(
    n: nat,                                    // group order
    mul: nat -> Point,                         // multiples of the generator
    add: (Point, Point) -> Point,
    onCurve: Bytes -> bool,                    // is this the abscissa of a point
    sha256: Bytes -> Bytes,
    tapLeaf: Bytes -> Bytes,                   // tagged hashes of BIP 341
    tapBranch: Bytes -> Bytes,
    tapTweak: Bytes -> nat,
    hmac: (Bytes, Bytes) -> (nat, Bytes),      // HMAC-SHA512: left half as a number, right half
    hash160: Bytes -> Bytes,
    sigHash: SigMessage -> Bytes,
    sign: (nat, Bytes) -> Bytes,
    verify: (Bytes, Bytes, Bytes) -> bool,     // x-only key, message, signature
    encodeAddress: Bytes -> string,
    decodeAddress: string -> Option<Bytes>,
    base58: Bytes -> string,
    unbase58: string -> Option<Bytes>,
    publicVersion: Bytes)

  ghost predicate GroupLaws(c: Suite) {
    && c.n > 2
    && c.mul(0) == Infinity
    && (forall d: nat {:trigger c.mul(d)} | 0 < d < c.n ::
          c.mul(d).Affine? && |c.mul(d).x| == 32 && c.onCurve(c.mul(d).x))
    && (forall d: nat, e: nat {:trigger c.mul(d), c.mul(e)} | 0 < d && 0 < e && d + e == c.n ::
          c.mul(e) == c.mul(d).Negate())
    && (forall a: nat, b: nat {:trigger c.add(c.mul(a), c.mul(b))} | a < c.n && b < c.n ::
          c.add(c.mul(a), c.mul(b)) == c.mul((a + b) % c.n))
    && !c.onCurve(Zeros(32))
  }

  ghost predicate HashLaws(c: Suite) {
    && (forall b :: |c.tapLeaf(b)| == 32)
    && (forall b :: |c.hash160(b)| == 20)
    && (forall k, b :: |c.hmac(k, b).1| == 32)
  }

  ghost predicate SignatureLaws(c: Suite) {
    forall d: nat, m {:trigger c.sign(d, m)} | 0 < d < c.n && c.mul(d).Affine? ::
      |c.sign(d, m)| == 64 && c.verify(c.mul(d).x, m, c.sign(d, m))
  }

  ghost predicate TextLaws(c: Suite) {
    && (forall p :: |p| == 32 ==> c.decodeAddress(c.encodeAddress(p)) == Some(p))
    && (forall b :: c.unbase58(c.base58(b)) == Some(b) && ']' !in c.base58(b))
    && |c.publicVersion| == 4
  }

  function Pow256(width: nat): (p: nat)
    ensures p > 0
  {
    if width == 0 then 1 else 0x100 * Pow256(width - 1)
  }

  /** All laws, and that a scalar fits 32 bytes. */
  ghost predicate Lawful(c: Suite) {
    GroupLaws(c) && HashLaws(c) && SignatureLaws(c) && TextLaws(c) && c.n <= Pow256(32)
  }

  lemma LawfulParts(c: Suite)
    requires Lawful(c)
    ensures GroupLaws(c) && TextLaws(c) && c.n > 2
  {
  }

  // ----- the laws can be met -----

  function ToyX(k: byte): (x: Bytes)
    requires k > 0
    ensures |x| == 32 && x[31] == k && x != Zeros(32)
  {
    var x := Zeros(31) + [k];
    assert x[31] != Zeros(32)[31];
    x
  }

  /** The group of order five: two points, their negatives, and infinity. */
  function ToyMul(d: nat): Point {
    if d == 1 || d == 4 then Affine(ToyX(1), d == 4)
    else if d == 2 || d == 3 then Affine(ToyX(2), d == 3)
    else Infinity
  }

  function ToyLog(p: Point): nat {
    if p == ToyMul(1) then 1
    else if p == ToyMul(2) then 2
    else if p == ToyMul(3) then 3
    else if p == ToyMul(4) then 4
    else 0
  }

  function ToyAdd(p: Point, q: Point): Point {
    ToyMul((ToyLog(p) + ToyLog(q)) % 5)
  }

  function ToyText(b: Bytes): (s: string)
    ensures |s| == |b| && forall i :: 0 <= i < |b| ==> s[i] == (b[i] as int + 0x100) as char
  {
    seq(|b|, i requires 0 <= i < |b| => (b[i] as int + 0x100) as char)
  }

  function ToyBytes(s: string): Option<Bytes> {
    if exists i :: 0 <= i < |s| && !(0x100 <= s[i] as int < 0x200) then None
    else Some(seq(|s|, i requires 0 <= i < |s| => s[i] as int - 0x100))
  }

  /** What takes the scalar `d` to 1 or 4 when the last byte is even, and to 2 or 3 when it is odd. */
  function ToyTweak(d: nat, last: byte): nat {
    if last % 2 == 0 then if d == 1 then 3 else (6 - d) % 5
    else if d == 2 then 1 else (7 - d) % 5
  }

  /** The scalar the bytes speak of is their 33rd byte, or its negative behind an odd compressed point. */
  function ToyHmac(key: Bytes, data: Bytes): (nat, Bytes) {
    (if |data| <= 33 then 1
     else ToyTweak(if data[0] == 3 then (5 - data[32] as int) % 5 else data[32], data[|data| - 1]), Zeros(32))
  }

  function ToySuite(): Suite {
    Suite(5, ToyMul, ToyAdd, x => x == ToyX(1) || x == ToyX(2),
          _ => [], _ => Zeros(32), _ => [], _ => 0, ToyHmac, _ => Zeros(20),
          _ => [], (_, _) => Zeros(64), (_, _, _) => true,
          ToyText, ToyBytes, ToyText, ToyBytes, Zeros(4))
  }

  lemma ToyTextRoundTrip(b: Bytes)
    ensures ToyBytes(ToyText(b)) == Some(b) && ']' !in ToyText(b)
  {
    var s := ToyText(b);
    assert forall i :: 0 <= i < |s| ==> 0x100 <= s[i] as int < 0x200;
    assert ToyBytes(s).value == b;
  }

  lemma ToyLogIs(d: nat)
    requires d < 5
    ensures ToyLog(ToyMul(d)) == d
  {
    assert ToyX(1)[31] != ToyX(2)[31];
    hide ToyX;
  }

  lemma ToyAdds(a: nat, b: nat)
    requires a < 5 && b < 5
    ensures ToyAdd(ToyMul(a), ToyMul(b)) == ToyMul((a + b) % 5)
  {
    hide ToyMul, ToyLog;
    ToyLogIs(a);
    ToyLogIs(b);
  }

  lemma ToyPoint(d: nat)
    requires 0 < d < 5
    ensures var p := ToyMul(d); p.Affine? && |p.x| == 32 && (p.x == ToyX(1) || p.x == ToyX(2))
    ensures ToyMul(5 - d) == ToyMul(d).Negate()
  {
    hide ToyX;
  }

  lemma ToyGroup()
    ensures GroupLaws(ToySuite())
  {
    forall d: nat | 0 < d < 5
      ensures var p := ToyMul(d); p.Affine? && |p.x| == 32 && (p.x == ToyX(1) || p.x == ToyX(2))
      ensures ToyMul(5 - d) == ToyMul(d).Negate()
    {
      ToyPoint(d);
    }
    forall a: nat, b: nat | a < 5 && b < 5
      ensures ToyAdd(ToyMul(a), ToyMul(b)) == ToyMul((a + b) % 5)
    {
      ToyAdds(a, b);
    }
    assert ToyMul(0) == Infinity;
    hide ToyMul, ToyAdd, ToyX, ToyText, ToyBytes, Zeros;
  }

  lemma ToyTexts()
    ensures TextLaws(ToySuite())
  {
    forall b
      ensures ToyBytes(ToyText(b)) == Some(b) && ']' !in ToyText(b)
    {
      ToyTextRoundTrip(b);
    }
    hide ToyText, ToyBytes;
  }

  lemma ToyHashes()
    ensures HashLaws(ToySuite()) && SignatureLaws(ToySuite())
  {
    hide ToyMul, ToyAdd, ToyX, ToyText, ToyBytes, ToyTweak;
  }

  lemma ToyOrder()
    ensures ToySuite().n == 5 <= Pow256(32)
  {
    hide ToyMul, ToyAdd, ToyX, ToyText, ToyBytes, ToyHmac;
    assert Pow256(32) == 0x100 * Pow256(31);
  }

  /** The laws do not contradict each other. */
  lemma ToyIsLawful()
    ensures Lawful(ToySuite())
  {
    ToyGroup();
    ToyTexts();
    ToyHashes();
    ToyOrder();
    hide ToySuite, GroupLaws, TextLaws, HashLaws, SignatureLaws, Pow256;
  }

  // ----- fixed-width numbers -----

  /** The last `width` base-256 digits of `v`, most significant first. */
  function BE(v: nat, width: nat): (b: Bytes)
    ensures |b| == width
  {
    if width == 0 then [] else BE(v / 0x100, width - 1) + [v % 0x100]
  }

  function FromBE(b: Bytes): nat {
    if b == [] then 0 else FromBE(b[..|b| - 1]) * 0x100 + b[|b| - 1]
  }

  /** A number that fits is read back. */
  lemma {:induction false} NumberRoundTrip(v: nat, width: nat)
    requires v < Pow256(width)
    ensures FromBE(BE(v, width)) == v
  {
    if width > 0 {
      NumberRoundTrip(v / 0x100, width - 1);
      assert BE(v, width)[..width - 1] == BE(v / 0x100, width - 1);
    }
  }

  /** Bytes are the digits of the number they give. */
  lemma {:induction false} BytesRoundTrip(b: Bytes)
    ensures BE(FromBE(b), |b|) == b
  {
    if b != [] {
      var init, last := b[..|b| - 1], b[|b| - 1];
      BytesRoundTrip(init);
      assert FromBE(b) / 0x100 == FromBE(init) && FromBE(b) % 0x100 == last;
      assert b == init + [last];
    }
  }

  /** A point in compressed form; the point at infinity has none and is written as an even zero. */
  function SerP(p: Point): Bytes {
    match p
    case Infinity => [2] + Zeros(32)
    case Affine(x, odd) => [if odd then 3 else 2] + x
  }

  /** The x-only form of a point (schnorr.SerializePubKey). */
  function XOnly(p: Point): Bytes {
    match p
    case Infinity => Zeros(32)
    case Affine(x, _) => x
  }

  /** The even point with abscissa `x` (schnorr.ParsePubKey, `lift_x` of BIP 340). */
  function LiftX(c: Suite, x: Bytes): Option<Point> {
    if |x| == 32 && c.onCurve(x) then Some(Affine(x, false)) else None
  }

  predicate IsScalar(c: Suite, d: nat) {
    0 < d < c.n
  }

  lemma ScalarPoint(c: Suite, d: nat)
    requires GroupLaws(c) && IsScalar(c, d)
    ensures c.mul(d).Affine? && |c.mul(d).x| == 32 && c.onCurve(c.mul(d).x)
  {
  }

  lemma GroupOrder(c: Suite)
    requires GroupLaws(c)
    ensures c.n > 2 && c.mul(0) == Infinity
  {
  }

  lemma Negated(c: Suite, d: nat)
    requires GroupLaws(c) && IsScalar(c, d)
    ensures c.mul(c.n - d) == c.mul(d).Negate()
  {
  }

  lemma AddScalars(c: Suite, a: nat, b: nat)
    requires GroupLaws(c) && a < c.n && b < c.n
    ensures c.add(c.mul(a), c.mul(b)) == c.mul((a + b) % c.n)
  {
  }
}
