/**
 Extended keys: child derivation and serialization (sections "Child key derivation (CKD)
 functions" and "Serialization format" of BIP 32).
 */
module Bip32 {
  import opened Prelude
  import opened Crypto

  const HARDENED_KEY_START: uint32 := 0x8000_0000

  datatype Key = Private(d: nat) | Public(p: Point)

  datatype ExtKey = ExtKey(
    version: Bytes,
    key: Key,
    chainCode: Bytes,
    depth: byte,
    parentFingerprint: Bytes,
    childNumber: uint32)

  function PublicPoint(c: Suite, k: ExtKey): Point {
    match k.key
    case Private(d) => c.mul(d)
    case Public(p) => p
  }

  function Neuter(c: Suite, k: ExtKey): ExtKey {
    if k.key.Public? then k else k.(version := c.publicVersion, key := Public(c.mul(k.key.d)))
  }

  function Fingerprint(c: Suite, k: ExtKey): Bytes {
    var hash := c.hash160(SerP(PublicPoint(c, k)));
    if |hash| < 4 then hash else hash[..4]
  }

  /** The bytes hashed for child `i`: the private key for hardened children, the public key otherwise. */
  function ChildData(c: Suite, k: ExtKey, i: uint32): Bytes
    requires i >= HARDENED_KEY_START ==> k.key.Private?
  {
    (if i >= HARDENED_KEY_START then [0] + BE(k.key.d, 32) else SerP(PublicPoint(c, k))) + BE(i, 4)
  }

  /** The child's key from the left half of the hash; a zero or infinite child is invalid. */
  function ChildKey(c: Suite, key: Key, tweak: nat): Option<Key>
    requires c.n > 0
  {
    match key
    case Private(d) => if (tweak + d) % c.n == 0 then None else Some(Private((tweak + d) % c.n))
    case Public(p) =>
      var q := c.add(c.mul(tweak), p);
      if q.Infinity? then None else Some(Public(q))
  }

  function Derive(c: Suite, k: ExtKey, i: uint32): Option<ExtKey>
    requires c.n > 0
  {
    if k.depth == 0xFF || (i >= HARDENED_KEY_START && k.key.Public?) then None
    else
      var hash := c.hmac(k.chainCode, ChildData(c, k, i));
      if hash.0 >= c.n || hash.0 == 0 then None
      else
        var key :- ChildKey(c, k.key, hash.0);
        Some(ExtKey(k.version, key, hash.1, k.depth + 1, Fingerprint(c, k), i))
  }

  predicate ValidPrivate(c: Suite, k: ExtKey) {
    k.key.Private? && IsScalar(c, k.key.d)
  }

  /** Adding to the private key and adding to the public key give the same child. */
  lemma ChildKeyAgrees(c: Suite, d: nat, tweak: nat)
    requires GroupLaws(c) && IsScalar(c, d) && tweak < c.n
    ensures match ChildKey(c, Private(d), tweak)
      case None => ChildKey(c, Public(c.mul(d)), tweak).None?
      case Some(child) =>
        && child.Private? && IsScalar(c, child.d)
        && ChildKey(c, Public(c.mul(d)), tweak) == Some(Public(c.mul(child.d)))
  {
    hide GroupLaws;
    GroupOrder(c);
    var sum := (tweak + d) % c.n;
    AddScalars(c, tweak, d);
    Remainder(tweak + d, c.n);
    if sum > 0 {
      ScalarPoint(c, sum);
    }
  }

  lemma Remainder(a: nat, n: nat)
    requires n > 0
    ensures 0 <= a % n < n
  {
  }

  /** The public part of a key is what its non-hardened children are hashed from. */
  lemma NeuterSame(c: Suite, k: ExtKey, i: uint32)
    requires i < HARDENED_KEY_START
    ensures ChildData(c, Neuter(c, k), i) == ChildData(c, k, i)
    ensures Fingerprint(c, Neuter(c, k)) == Fingerprint(c, k)
  {
  }

  /**
   Public derivation agrees with private derivation: neutering and then deriving a
   non-hardened child is deriving and then neutering, failures included.
   */
  lemma DeriveNeuter(c: Suite, k: ExtKey, i: uint32)
    requires GroupLaws(c) && ValidPrivate(c, k) && i < HARDENED_KEY_START
    ensures Derive(c, Neuter(c, k), i)
         == match Derive(c, k, i)
            case None => None
            case Some(child) => Some(Neuter(c, child))
    ensures Derive(c, k, i).Some? ==> ValidPrivate(c, Derive(c, k, i).value)
  {
    hide ChildData, Fingerprint, ChildKey, GroupLaws;
    GroupOrder(c);
    NeuterSame(c, k, i);
    var hash := c.hmac(k.chainCode, ChildData(c, k, i));
    if 0 < hash.0 < c.n {
      ChildKeyAgrees(c, k.key.d, hash.0);
    }
  }

  lemma DerivePrivate(c: Suite, k: ExtKey, i: uint32)
    requires GroupLaws(c) && ValidPrivate(c, k)
    ensures Derive(c, k, i).Some? ==> ValidPrivate(c, Derive(c, k, i).value)
  {
  }

  // ----- serialization -----

  /** A public key that can be written down: fixed field widths and a point on the curve. */
  predicate Writable(c: Suite, k: ExtKey) {
    && |k.version| == 4 && |k.chainCode| == 32 && |k.parentFingerprint| == 4
    && k.key.Public? && k.key.p.Affine? && |k.key.p.x| == 32 && c.onCurve(k.key.p.x)
  }

  function Serialize(k: ExtKey): Bytes
    requires k.key.Public?
  {
    k.version + [k.depth] + k.parentFingerprint + BE(k.childNumber, 4) + k.chainCode + SerP(k.key.p)
  }

  function ParsePoint(c: Suite, b: Bytes): Option<Point>
    requires |b| == 33
  {
    if (b[0] == 2 || b[0] == 3) && c.onCurve(b[1..]) then Some(Affine(b[1..], b[0] == 3)) else None
  }

  /** Four bytes give a 32-bit number. */
  function ChildNumberOf(b: Bytes): uint32
    requires |b| == 4
  {
    b[0] as int * 0x100_0000 + b[1] as int * 0x1_0000 + b[2] as int * 0x100 + b[3] as int
  }

  function ParseKeyData(c: Suite, b: Bytes): Option<Key>
    requires |b| == 33
  {
    if b[0] == 0 then
      if IsScalar(c, FromBE(b[1..])) then Some(Private(FromBE(b[1..]))) else None
    else
      var p :- ParsePoint(c, b);
      Some(Public(p))
  }

  /** hdkeychain's `NewKeyFromString`, past the Base58 checksum. */
  function ParseKey(c: Suite, s: string): Option<ExtKey> {
    var b :- c.unbase58(s);
    if |b| != 78 then None
    else
      var key :- ParseKeyData(c, b[45..]);
      Some(ExtKey(b[..4], key, b[13..45], b[4], b[5..9], ChildNumberOf(b[9..13])))
  }

  function KeyString(c: Suite, k: ExtKey): string
    requires k.key.Public?
  {
    c.base58(Serialize(k))
  }

  lemma ChildNumberRoundTrip(i: uint32)
    ensures ChildNumberOf(BE(i, 4)) == i
  {
    var i1, i2, i3 := i / 0x100, i / 0x100 / 0x100, i / 0x100 / 0x100 / 0x100;
    assert BE(i3, 1) == [i3];
    assert BE(i2, 2) == [i3, i2 % 0x100];
    assert BE(i1, 3) == [i3, i2 % 0x100, i1 % 0x100];
  }

  lemma KeyStringRoundTrip(c: Suite, k: ExtKey)
    requires TextLaws(c) && Writable(c, k)
    ensures ParseKey(c, KeyString(c, k)) == Some(k)
  {
    ChildNumberRoundTrip(k.childNumber);
    hide BE, ChildNumberOf;
    var b := Serialize(k);
    assert b[..4] == k.version && b[4] == k.depth && b[5..9] == k.parentFingerprint;
    assert b[9..13] == BE(k.childNumber, 4) && b[13..45] == k.chainCode && b[45..] == SerP(k.key.p);
    assert SerP(k.key.p)[1..] == k.key.p.x;
  }

  // ----- what is hashed for a child -----

  /** A private scalar, or a point on the curve. */
  predicate ValidKey(c: Suite, k: ExtKey) {
    match k.key
    case Private(d) => IsScalar(c, d)
    case Public(p) => p.Affine? && |p.x| == 32 && c.onCurve(p.x)
  }

  /**
   37 bytes that speak of child `i`: in front the private key behind a zero when `i` is hardened, else
   the public key in compressed form; behind it the index, most significant byte first.
   */
  predicate SpeaksOf(c: Suite, k: ExtKey, i: uint32, m: Bytes) {
    && |m| == 37
    && i as int == m[33] as int * 0x100_0000 + m[34] as int * 0x1_0000 + m[35] as int * 0x100 + m[36] as int
    && if i >= 0x8000_0000 then k.key.Private? && m[0] == 0 && FromBE(m[1..33]) == k.key.d
       else PublicPoint(c, k) == Affine(m[1..33], m[0] == 3) && (m[0] == 2 || m[0] == 3)
  }

  lemma ValidPoint(c: Suite, k: ExtKey)
    requires Lawful(c) && ValidKey(c, k)
    ensures var p := PublicPoint(c, k); p.Affine? && |p.x| == 32 && c.onCurve(p.x)
  {
    hide Lawful;
    LawfulParts(c);
    if k.key.Private? {
      ScalarPoint(c, k.key.d);
    }
    hide GroupLaws;
  }

  lemma Parts(head: Bytes, i: uint32)
    requires |head| == 33
    ensures var m := head + BE(i, 4);
      && |m| == 37 && m[..33] == head && m[1..33] == head[1..] && m[33..] == BE(i, 4)
      && i as int == m[33] as int * 0x100_0000 + m[34] as int * 0x1_0000 + m[35] as int * 0x100 + m[36] as int
  {
    ChildNumberRoundTrip(i);
    hide BE;
  }

  /** The bytes hashed for a child speak of that child, and are read back by the parsers of public keys. */
  lemma ChildDataReads(c: Suite, k: ExtKey, i: uint32)
    requires Lawful(c) && ValidKey(c, k) && (i >= HARDENED_KEY_START ==> k.key.Private?)
    ensures var m := ChildData(c, k, i);
      && SpeaksOf(c, k, i, m) && ChildNumberOf(m[33..]) == i
      && (i < HARDENED_KEY_START ==> ParsePoint(c, m[..33]) == Some(PublicPoint(c, k)))
  {
    ChildNumberRoundTrip(i);
    if i >= HARDENED_KEY_START {
      FitsBytes(c, k.key.d);
      NumberRoundTrip(k.key.d, 32);
      Parts([0] + BE(k.key.d, 32), i);
      assert ([0] + BE(k.key.d, 32))[1..] == BE(k.key.d, 32);
    } else {
      ValidPoint(c, k);
      var p := PublicPoint(c, k);
      Parts(SerP(p), i);
      assert SerP(p)[1..] == p.x;
    }
    hide BE, FromBE, Lawful, ChildNumberOf;
  }

  lemma FitsBytes(c: Suite, d: nat)
    requires Lawful(c) && IsScalar(c, d)
    ensures d < Pow256(32)
  {
    hide GroupLaws, TextLaws, HashLaws, SignatureLaws, Pow256;
  }

  lemma FourDigits(b: Bytes)
    requires |b| == 4
    ensures BE(b[0] as int * 0x100_0000 + b[1] as int * 0x1_0000 + b[2] as int * 0x100 + b[3] as int, 4) == b
  {
    var b3, b2, b1 := b[..3], b[..3][..2], b[..3][..2][..1];
    assert FromBE(b1) == b[0] as int;
    assert FromBE(b2) == FromBE(b1) * 0x100 + b[1] as int;
    assert FromBE(b3) == FromBE(b2) * 0x100 + b[2] as int;
    BytesRoundTrip(b);
    hide BE;
  }

  lemma Joined(m: Bytes)
    requires |m| == 37
    ensures m == m[..33] + m[33..] && m[..33] == [m[0]] + m[1..33]
  {
  }

  lemma SameSerP(p: Point, x: Bytes, head: byte)
    requires p == Affine(x, head == 3) && (head == 2 || head == 3)
    ensures SerP(p) == [head] + x
  {
  }

  /** Only one message speaks of a child, so messages about different children are different. */
  lemma SpeaksOnce(c: Suite, k: ExtKey, i: uint32, m: Bytes)
    requires SpeaksOf(c, k, i, m)
    ensures m == ChildData(c, k, i)
  {
    FourDigits(m[33..]);
    Joined(m);
    if i >= HARDENED_KEY_START {
      BytesRoundTrip(m[1..33]);
    } else {
      SameSerP(PublicPoint(c, k), m[1..33], m[0]);
    }
    hide BE, FromBE, SerP;
  }

  /** What the hash of a message makes of a key: chain code, key, depth, parent and number of the child. */
  ghost predicate IsChild(c: Suite, k: ExtKey, i: uint32, m: Bytes, child: ExtKey)
    requires c.n > 0
  {
    var (left, right) := c.hmac(k.chainCode, m);
    && 0 < left < c.n && child.chainCode == right
    && child.childNumber == i && child.depth as int == k.depth as int + 1 && child.version == k.version
    && (match k.key
        case Private(d) => child.key == Private((left + d) % c.n) && (left + d) % c.n != 0
        case Public(p) => child.key == Public(c.add(c.mul(left), p)) && c.add(c.mul(left), p).Affine?)
  }

  /** The parent is named by the first four bytes of the hash of its compressed public key. */
  ghost predicate NamesParent(c: Suite, k: ExtKey, child: ExtKey) {
    exists m: Bytes :: |m| == 33 && PublicPoint(c, k) == Affine(m[1..], m[0] == 3) && (m[0] == 2 || m[0] == 3)
      && |child.parentFingerprint| == 4 && child.parentFingerprint <= c.hash160(m)
  }

  lemma ParentNamedOnce(c: Suite, k: ExtKey, child: ExtKey)
    requires NamesParent(c, k, child)
    ensures child.parentFingerprint == Fingerprint(c, k)
  {
    var m: Bytes :| |m| == 33 && PublicPoint(c, k) == Affine(m[1..], m[0] == 3) && (m[0] == 2 || m[0] == 3)
      && |child.parentFingerprint| == 4 && child.parentFingerprint <= c.hash160(m);
    SameSerP(PublicPoint(c, k), m[1..], m[0]);
    assert m == [m[0]] + m[1..];
  }

  /**
   A key has a child exactly when it may have one at that depth and index and the hash, keyed by the chain
   code, of the bytes that speak of the index leaves a key; the child is then made from that hash.
   */
  lemma DerivesIff(c: Suite, k: ExtKey, i: uint32, child: ExtKey)
    requires Lawful(c) && ValidKey(c, k)
    ensures c.n > 0
    ensures Derive(c, k, i) == Some(child)
       <==> && k.depth < 0xFF && (i >= 0x8000_0000 ==> k.key.Private?)
            && NamesParent(c, k, child) && exists m :: SpeaksOf(c, k, i, m) && IsChild(c, k, i, m, child)
  {
    LawfulParts(c);
    hide *;
    if k.depth < 0xFF && (i >= 0x8000_0000 ==> k.key.Private?) {
      ChildDataReads(c, k, i);
      ParentOf(c, k, child);
      DeriveIs(c, k, i, child);
      if m :| SpeaksOf(c, k, i, m) && IsChild(c, k, i, m, child) {
        SpeaksOnce(c, k, i, m);
      }
    } else {
      NoChild(c, k, i);
    }
  }

  lemma NoChild(c: Suite, k: ExtKey, i: uint32)
    requires c.n > 0 && !(k.depth < 0xFF && (i >= 0x8000_0000 ==> k.key.Private?))
    ensures Derive(c, k, i).None?
  {
  }

  lemma DeriveIs(c: Suite, k: ExtKey, i: uint32, child: ExtKey)
    requires c.n > 0 && k.depth < 0xFF && (i >= 0x8000_0000 ==> k.key.Private?)
    ensures Derive(c, k, i) == Some(child)
       <==> child.parentFingerprint == Fingerprint(c, k) && IsChild(c, k, i, ChildData(c, k, i), child)
  {
    hide ChildData, Fingerprint;
  }

  lemma ParentOf(c: Suite, k: ExtKey, child: ExtKey)
    requires Lawful(c) && ValidKey(c, k)
    ensures NamesParent(c, k, child) <==> child.parentFingerprint == Fingerprint(c, k)
  {
    NamedParent(c, k);
    hide Fingerprint, Lawful, ValidKey;
    if NamesParent(c, k, child) {
      ParentNamedOnce(c, k, child);
    }
  }

  lemma NamedParent(c: Suite, k: ExtKey)
    requires Lawful(c) && ValidKey(c, k)
    ensures var m := SerP(PublicPoint(c, k));
      && |m| == 33 && PublicPoint(c, k) == Affine(m[1..], m[0] == 3) && (m[0] == 2 || m[0] == 3)
      && |Fingerprint(c, k)| == 4 && Fingerprint(c, k) <= c.hash160(m)
  {
    ValidPoint(c, k);
    assert SerP(PublicPoint(c, k))[1..] == PublicPoint(c, k).x;
    HashWidth(c, SerP(PublicPoint(c, k)));
    hide Lawful;
  }

  lemma HashWidth(c: Suite, b: Bytes)
    requires Lawful(c)
    ensures |c.hash160(b)| == 20
  {
  }

  // ----- what is read as a key -----

  function KeyBytes(key: Key): Bytes {
    match key
    case Private(d) => [0] + BE(d, 32)
    case Public(p) => SerP(p)
  }

  /** The 78 bytes of an extended key, private or public, in the order of BIP 32. */
  predicate Written(c: Suite, k: ExtKey, b: Bytes) {
    && |k.version| == 4 && |k.chainCode| == 32 && |k.parentFingerprint| == 4 && ValidKey(c, k)
    && b == k.version + [k.depth] + k.parentFingerprint + BE(k.childNumber, 4) + k.chainCode + KeyBytes(k.key)
  }

  lemma KeyDataIff(c: Suite, b: Bytes, k: ExtKey)
    requires Lawful(c) && |b| == 33
    ensures ParseKeyData(c, b) == Some(k.key) <==> ValidKey(c, k) && b == KeyBytes(k.key)
  {
    hide Lawful, BE, FromBE;
    assert b == [b[0]] + b[1..];
    match k.key
    case Private(d) =>
      BytesRoundTrip(b[1..]);
      assert ([0] + BE(d, 32))[1..] == BE(d, 32);
      if IsScalar(c, d) {
        FitsBytes(c, d);
        NumberRoundTrip(d, 32);
      }
    case Public(p) =>
      if p.Affine? {
        assert SerP(p)[1..] == p.x;
      }
  }

  lemma Sliced(version: Bytes, depth: byte, parent: Bytes, number: Bytes, chain: Bytes, key: Bytes, b: Bytes)
    requires |version| == 4 && |parent| == 4 && |number| == 4 && |chain| == 32 && |key| == 33
    ensures b == version + [depth] + parent + number + chain + key
       <==> && |b| == 78 && b[..4] == version && b[4] == depth && b[5..9] == parent
            && b[9..13] == number && b[13..45] == chain && b[45..] == key
  {
    var whole := version + [depth] + parent + number + chain + key;
    assert whole[..4] == version && whole[4] == depth && whole[5..9] == parent;
    assert whole[9..13] == number && whole[13..45] == chain && whole[45..] == key;
    if |b| == 78 {
      assert b == b[..4] + [b[4]] + b[5..9] + b[9..13] + b[13..45] + b[45..];
    }
  }

  lemma NumberIff(b: Bytes, i: uint32)
    requires |b| == 4
    ensures ChildNumberOf(b) == i <==> b == BE(i, 4)
  {
    ChildNumberRoundTrip(i);
    FourDigits(b);
    hide BE;
  }

  /** A text is read as an extended key exactly when it stands for that key's 78 bytes. */
  lemma ParseKeyIff(c: Suite, s: string, k: ExtKey)
    requires Lawful(c)
    ensures ParseKey(c, s) == Some(k) <==> c.unbase58(s).Some? && Written(c, k, c.unbase58(s).value)
  {
    if c.unbase58(s).Some? {
      ReadIff(c, s, k);
    }
    hide Written, Lawful;
  }

  lemma ReadIff(c: Suite, s: string, k: ExtKey)
    requires Lawful(c) && c.unbase58(s).Some?
    ensures ParseKey(c, s) == Some(k) <==> Written(c, k, c.unbase58(s).value)
  {
    var b := c.unbase58(s).value;
    hide Lawful, BE, ParseKeyData, KeyBytes, ChildNumberOf, ValidKey;
    if |b| == 78 {
      KeyDataIff(c, b[45..], k);
      NumberIff(b[9..13], k.childNumber);
    }
    if ValidKey(c, k) {
      KeyWidth(c, k);
      if |k.version| == 4 && |k.chainCode| == 32 && |k.parentFingerprint| == 4 {
        Sliced(k.version, k.depth, k.parentFingerprint, BE(k.childNumber, 4), k.chainCode, KeyBytes(k.key), b);
      }
    }
  }

  lemma KeyWidth(c: Suite, k: ExtKey)
    requires ValidKey(c, k)
    ensures |KeyBytes(k.key)| == 33
  {
    hide BE;
  }
}
