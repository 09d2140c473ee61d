/** The two routes to an address agree, and both ways of signing satisfy the network's rules. */
module TaprootTheorems {
  import opened Prelude
  import opened Chain
  import opened Crypto
  import opened Script
  import opened Taproot
  import opened Consensus

  // ----- what is hashed and signed -----

  lemma TwoDigits(n: nat)
    requires n <= 0xFFFF
    ensures LEn(n, 2) == [n % 0x100, n / 0x100]
  {
    assert LEn(n / 0x100, 1) == [n / 0x100] + LEn(0, 0);
  }

  lemma MoreDigits(n: nat, width: nat)
    ensures LEn(n, 4 + width) == FourBytes(n) + LEn(n / 0x1_0000_0000, width)
  {
    var n1, n2, n3 := n / 0x100, n / 0x1_0000, n / 0x100_0000;
    assert LEn(n, 4 + width) == [n % 0x100] + LEn(n1, 3 + width);
    assert LEn(n1, 3 + width) == [n1 % 0x100] + LEn(n2, 2 + width);
    assert LEn(n2, 2 + width) == [n2 % 0x100] + LEn(n3, 1 + width);
    assert LEn(n3, 1 + width) == [n3 % 0x100] + LEn(n / 0x1_0000_0000, width);
  }

  lemma NoDigits(n: nat)
    ensures LEn(n, 0) == []
  {
  }

  lemma SizesAgree(n: nat)
    ensures CompactSize(n) == SizePrefix(n)
  {
    hide LEn, FourBytes;
    if n > 0xFFFF_FFFF {
      MoreDigits(n, 4);
      MoreDigits(n / 0x1_0000_0000, 0);
      NoDigits(n / 0x1_0000_0000 / 0x1_0000_0000);
    } else if n > 0xFFFF {
      MoreDigits(n, 0);
      NoDigits(n / 0x1_0000_0000);
    } else if n > 0xFC {
      TwoDigits(n);
    }
  }

  /** The wallet hashes leaves as the network does. */
  lemma LeafHashIs(c: Suite, version: byte, script: Bytes)
    ensures LeafHash(c, version, script) == TapLeafHash(c, version, script)
  {
    hide CompactSize, SizePrefix;
    SizesAgree(|script|);
  }

  /** What a signature sees of a transaction is everything but its witnesses. */
  lemma SignedFields(a: MsgTx, b: MsgTx)
    ensures WithoutWitnesses(a) == WithoutWitnesses(b)
       <==> && a.version == b.version && a.lockTime == b.lockTime && a.txOut == b.txOut && |a.txIn| == |b.txIn|
            && forall i :: 0 <= i < |a.txIn| ==>
                 a.txIn[i].previousOutPoint == b.txIn[i].previousOutPoint && a.txIn[i].sequence == b.txIn[i].sequence
  {
    var x, y := WithoutWitnesses(a), WithoutWitnesses(b);
    if x == y {
      forall i | 0 <= i < |a.txIn|
        ensures |a.txIn| == |b.txIn|
        ensures a.txIn[i].previousOutPoint == b.txIn[i].previousOutPoint && a.txIn[i].sequence == b.txIn[i].sequence
      {
        assert x.txIn[i] == y.txIn[i];
      }
      assert |x.txIn| == |y.txIn|;
    }
  }

  // ----- tweaking commutes with taking the public key -----

  /** The even one of a scalar and its negative. */
  function EvenScalar(c: Suite, d: nat): nat
    requires IsScalar(c, d)
  {
    if c.mul(d).Affine? && c.mul(d).odd then c.n - d else d
  }

  lemma EvenScalarLifts(c: Suite, d: nat)
    requires GroupLaws(c) && IsScalar(c, d)
    ensures IsScalar(c, EvenScalar(c, d))
    ensures LiftX(c, XOnly(c.mul(d))) == Some(c.mul(EvenScalar(c, d)))
  {
    ScalarPoint(c, d);
    Negated(c, d);
  }

  /** The public key of a tweaked private key is the tweaked public key, odd keys included. */
  lemma TweaksAgree(c: Suite, d: nat, root: Bytes)
    requires GroupLaws(c) && IsScalar(c, d)
    ensures TweakPublic(c, c.mul(d), root) == Some(c.mul(TweakPrivate(c, d, root)))
    ensures TweakPrivate(c, d, root) < c.n
  {
    EvenScalarLifts(c, d);
    assert c.n > 2;
    hide GroupLaws;
    var e := EvenScalar(c, d);
    var t := TapTweak(c, XOnly(c.mul(d)), root);
    assert XOnly(c.mul(e)) == XOnly(c.mul(d));
    assert TweakPrivate(c, d, root) == (e + t) % c.n;
    AddScalars(c, e, t);
  }

  /** Zero has no tweak on the public side. */
  lemma ZeroTweaksNothing(c: Suite, root: Bytes)
    requires GroupLaws(c)
    ensures TweakPublic(c, c.mul(0), root).None?
  {
  }

  /**
   The address computed from the second public key alone is the one computed from the
   second private key, and fails for the same keys.
   */
  lemma RoutesAgree(c: Suite, timelock: uint32, secondKey: nat, firstKey: nat)
    requires GroupLaws(c) && IsScalar(c, secondKey)
    ensures
      var fromPublic := CreateTweakedAddressFromPublicKey(c, timelock, c.mul(secondKey), firstKey);
      var k := TweakPrivate(c, secondKey, FirstKeyHash(c, firstKey));
      CreateTweakedAddress(c, timelock, secondKey, firstKey)
      == if fromPublic.None? then None else Some((fromPublic.value, k))
    ensures
      var fromPublic := CreateTweakedAddressFromPublicKey(c, timelock, c.mul(secondKey), firstKey);
      fromPublic.Some?
      ==> fromPublic.value.internalKey == c.mul(TweakPrivate(c, secondKey, FirstKeyHash(c, firstKey)))
  {
    hide CreateFromTweaked, TweakPublic, TweakPrivate;
    TweaksAgree(c, secondKey, FirstKeyHash(c, firstKey));
    InternalKeyKept(c, timelock, c.mul(TweakPrivate(c, secondKey, FirstKeyHash(c, firstKey))), firstKey);
  }

  lemma InternalKeyKept(c: Suite, timelock: uint32, internalKey: Point, firstKey: nat)
    requires c.n > 0
    ensures var r := CreateFromTweaked(c, timelock, internalKey, firstKey);
      r.Some? ==> r.value.internalKey == internalKey
  {
    hide CreateTapscriptTimelockFromKey, TweakPublic;
  }

  // ----- both keys are in the internal key -----

  /** Different scalars have different points. */
  lemma MulInjective(c: Suite, a: nat, b: nat)
    requires GroupLaws(c) && a < c.n && b < c.n && a != b
    ensures c.mul(a) != c.mul(b)
  {
    GroupOrder(c);
    var e := if b == 0 then 0 else c.n - b;
    AddScalars(c, a, e);
    AddScalars(c, b, e);
    Apart(a, b, e, c.n);
    ScalarPoint(c, (a + e) % c.n);
    hide GroupLaws;
    assert (b + e) % c.n == 0;
  }

  lemma Apart(a: nat, b: nat, e: nat, n: nat)
    requires a < n && b < n && a != b && e == if b == 0 then 0 else n - b
    ensures 0 < (a + e) % n < n
  {
    if a + e >= n {
      Rest(a + e, a + e - n, n);
    } else {
      SmallMod(a + e, n);
    }
  }

  lemma Rest(a: nat, r: nat, n: nat)
    requires a == r + n && r < n
    ensures a % n == r
  {
  }

  function AddMod(a: nat, b: nat, n: nat): nat
    requires n > 0
  {
    (a + b) % n
  }

  /** The same scalar plus two remainders is the same sum exactly when the remainders are. */
  lemma SameSum(e: nat, s: nat, t: nat, n: nat)
    requires e < n && s < n && t < n
    ensures AddMod(e, s, n) == AddMod(e, t, n) <==> s == t
    ensures AddMod(e, s, n) < n && AddMod(e, t, n) < n
  {
    Sum(e, s, n);
    Sum(e, t, n);
  }

  lemma Sum(e: nat, s: nat, n: nat)
    requires e < n && s < n
    ensures (e + s) % n == if e + s < n then e + s else e + s - n
  {
    if e + s >= n {
      Rest(e + s, e + s - n, n);
    } else {
      SmallMod(e + s, n);
    }
  }

  /** The second key, made even, plus the hash of its abscissa and of the hash of the bytes of the first key. */
  function InternalScalar(c: Suite, secondKey: nat, firstBytes: Bytes): nat
    requires IsScalar(c, secondKey)
  {
    (EvenScalar(c, secondKey) + c.tapTweak(XOnly(c.mul(secondKey)) + c.sha256(firstBytes)) % c.n) % c.n
  }

  /**
   Whatever 32 bytes the first private key is, their hash tweaks the second key on both routes: the tweaked
   private key is the scalar written out above, and both internal keys are its point.
   */
  lemma FirstKeyIsHashed(c: Suite, timelock: uint32, secondKey: nat, firstBytes: Bytes)
    requires GroupLaws(c) && IsScalar(c, secondKey) && |firstBytes| == 32
    ensures
      var k := InternalScalar(c, secondKey, firstBytes);
      var secret := CreateTweakedAddress(c, timelock, secondKey, FromBE(firstBytes));
      var public := CreateTweakedAddressFromPublicKey(c, timelock, c.mul(secondKey), FromBE(firstBytes));
      && secret.Some? == public.Some?
      && (secret.Some? ==>
            secret.value.1 == k && secret.value.0.internalKey == c.mul(k) && public.value.internalKey == c.mul(k))
  {
    hide *;
    GroupOrder(c);
    BytesRoundTrip(firstBytes);
    RoutesAgree(c, timelock, secondKey, FromBE(firstBytes));
    HashOfBytes(c, firstBytes);
    TweakIs(c, secondKey, firstBytes);
  }

  lemma HashOfBytes(c: Suite, firstBytes: Bytes)
    requires BE(FromBE(firstBytes), 32) == firstBytes
    ensures FirstKeyHash(c, FromBE(firstBytes)) == c.sha256(firstBytes)
  {
    hide BE, FromBE;
  }

  lemma TweakIs(c: Suite, d: nat, firstBytes: Bytes)
    requires IsScalar(c, d)
    ensures TweakPrivate(c, d, c.sha256(firstBytes)) == InternalScalar(c, d, firstBytes)
  {
  }

  /** Two first keys give one internal key exactly when their tweaks of the second key are congruent. */
  lemma FirstKeysApart(c: Suite, timelock: uint32, secondKey: nat, a: Bytes, b: Bytes)
    requires GroupLaws(c) && IsScalar(c, secondKey) && |a| == |b| == 32
    requires CreateTweakedAddressFromPublicKey(c, timelock, c.mul(secondKey), FromBE(a)).Some?
    requires CreateTweakedAddressFromPublicKey(c, timelock, c.mul(secondKey), FromBE(b)).Some?
    ensures
      var x := XOnly(c.mul(secondKey));
      CreateTweakedAddressFromPublicKey(c, timelock, c.mul(secondKey), FromBE(a)).value.internalKey
      == CreateTweakedAddressFromPublicKey(c, timelock, c.mul(secondKey), FromBE(b)).value.internalKey
      <==> c.tapTweak(x + c.sha256(a)) % c.n == c.tapTweak(x + c.sha256(b)) % c.n
  {
    hide *;
    GroupOrder(c);
    FirstKeyIsHashed(c, timelock, secondKey, a);
    FirstKeyIsHashed(c, timelock, secondKey, b);
    ScalarsApart(c, secondKey, a, b);
    if InternalScalar(c, secondKey, a) != InternalScalar(c, secondKey, b) {
      MulInjective(c, InternalScalar(c, secondKey, a), InternalScalar(c, secondKey, b));
    }
  }

  lemma ScalarsApart(c: Suite, d: nat, a: Bytes, b: Bytes)
    requires GroupLaws(c) && IsScalar(c, d)
    ensures InternalScalar(c, d, a) < c.n && InternalScalar(c, d, b) < c.n
    ensures InternalScalar(c, d, a) == InternalScalar(c, d, b)
       <==> c.tapTweak(XOnly(c.mul(d)) + c.sha256(a)) % c.n == c.tapTweak(XOnly(c.mul(d)) + c.sha256(b)) % c.n
  {
    hide *;
    GroupOrder(c);
    EvenBelow(c, d);
    ScalarIs(c, d, a);
    ScalarIs(c, d, b);
    var x := XOnly(c.mul(d));
    TweakBelow(c, x, c.sha256(a));
    TweakBelow(c, x, c.sha256(b));
    SameSum(EvenScalar(c, d), TapTweak(c, x, c.sha256(a)), TapTweak(c, x, c.sha256(b)), c.n);
  }

  lemma EvenBelow(c: Suite, d: nat)
    requires GroupLaws(c) && IsScalar(c, d)
    ensures EvenScalar(c, d) < c.n
  {
    hide GroupLaws;
    EvenScalarLifts(c, d);
    hide EvenScalar, XOnly, LiftX;
  }

  lemma ScalarIs(c: Suite, d: nat, firstBytes: Bytes)
    requires IsScalar(c, d)
    ensures InternalScalar(c, d, firstBytes)
         == AddMod(EvenScalar(c, d), TapTweak(c, XOnly(c.mul(d)), c.sha256(firstBytes)), c.n)
  {
    hide EvenScalar, XOnly;
  }

  lemma TweakBelow(c: Suite, x: Bytes, root: Bytes)
    requires c.n > 0
    ensures TapTweak(c, x, root) == c.tapTweak(x + root) % c.n < c.n
  {
  }

  // ----- what a created address commits to -----

  /** The output key behind a tweaked address, as the scalar that signs for it. */
  function OutputScalar(c: Suite, internalScalar: nat, root: Bytes): nat
    requires c.n > 0
  {
    SignerKey(c, internalScalar, WithScript(root))
  }

  lemma CreatedFrom(c: Suite, timelock: uint32, internalScalar: nat, firstKey: nat)
    requires GroupLaws(c) && internalScalar < c.n
    requires CreateFromTweaked(c, timelock, c.mul(internalScalar), firstKey).Some?
    ensures
      var w := CreateFromTweaked(c, timelock, c.mul(internalScalar), firstKey).value;
      var output := c.mul(OutputScalar(c, internalScalar, w.MerkleRoot()));
      && IsScalar(c, internalScalar)
      && Some(w.tapscript.leafScript) == CreateTapscriptTimelockFromKey(c, timelock, c.mul(firstKey))
      && w.MerkleRoot() == RootOf(c, w.tapscript.leafScript)
      && w.address == c.encodeAddress(XOnly(output))
      && w.tapscript.controlBlock == ControlBlock(c.mul(internalScalar), output)
      && OutputScalar(c, internalScalar, w.MerkleRoot()) < c.n
  {
    hide CreateTapscriptTimelockFromKey, TweakPublic, TweakPrivate;
    var leaf := CreateTapscriptTimelockFromKey(c, timelock, c.mul(firstKey)).value;
    if internalScalar == 0 {
      ZeroTweaksNothing(c, RootOf(c, leaf));
    } else {
      TweaksAgree(c, internalScalar, RootOf(c, leaf));
    }
  }

  /**
   Key path: signing with the doubly tweaked private key satisfies the output whose
   address was computed from public second-key data only.
   */
  lemma KeyPathSpendVerifies(c: Suite, timelock: uint32, secondKey: nat, firstKey: nat, message: Bytes)
    requires Lawful(c) && IsScalar(c, secondKey)
    requires CreateTweakedAddressFromPublicKey(c, timelock, c.mul(secondKey), firstKey).Some?
    ensures
      var w := CreateTweakedAddressFromPublicKey(c, timelock, c.mul(secondKey), firstKey).value;
      var signed := TaprootSign(c, TweakPrivate(c, secondKey, FirstKeyHash(c, firstKey)), message,
                                Some(w.MerkleRoot()));
      signed.Some? ==>
        && c.decodeAddress(w.address).Some?
        && |signed.value| == 1
        && KeyPathSpends(c, c.decodeAddress(w.address).value, signed.value[0], message)
  {
    hide CreateFromTweaked, TweakPublic, TweakPrivate, LeafHash;
    var k := TweakPrivate(c, secondKey, FirstKeyHash(c, firstKey));
    TweaksAgree(c, secondKey, FirstKeyHash(c, firstKey));
    CreatedFrom(c, timelock, k, firstKey);
    var w := CreateTweakedAddressFromPublicKey(c, timelock, c.mul(secondKey), firstKey).value;
    ScalarSigns(c, OutputScalar(c, k, w.MerkleRoot()), message);
  }

  /** A scalar's signature verifies under its x-only key, and its address reads back as that key. */
  lemma ScalarSigns(c: Suite, d: nat, message: Bytes)
    requires Lawful(c) && d < c.n
    ensures SchnorrSign(c, d, message).Some? ==>
      && IsScalar(c, d)
      && c.decodeAddress(c.encodeAddress(XOnly(c.mul(d)))) == Some(XOnly(c.mul(d)))
      && |SchnorrSign(c, d, message).value| == 64
      && LiftX(c, XOnly(c.mul(d))).Some?
      && c.verify(XOnly(c.mul(d)), message, SchnorrSign(c, d, message).value)
  {
    if d > 0 {
      ScalarPoint(c, d);
      assert c.mul(d).Affine?;
    }
  }

  /**
   Script path: the control block proves that the output commits to the leaf, parity
   included, exactly when the tweak is a canonical scalar. Larger tweaks, which the library
   reduces and section "Script validation rules" rejects, are the only exception.
   */
  lemma ControlBlockCommits(c: Suite, timelock: uint32, internalScalar: nat, firstKey: nat)
    requires Lawful(c) && internalScalar < c.n
    requires CreateFromTweaked(c, timelock, c.mul(internalScalar), firstKey).Some?
    requires
      var w := CreateFromTweaked(c, timelock, c.mul(internalScalar), firstKey).value;
      OutputScalar(c, internalScalar, w.MerkleRoot()) > 0
    ensures
      var w := CreateFromTweaked(c, timelock, c.mul(internalScalar), firstKey).value;
      var program := XOnly(c.mul(OutputScalar(c, internalScalar, w.MerkleRoot())));
      && LeafVersion(w.tapscript.controlBlock) == BASE_LEAF_VERSION
      && (Commits(c, program, w.tapscript.leafScript, w.tapscript.controlBlock)
          <==> c.tapTweak(XOnly(w.internalKey) + w.MerkleRoot()) < c.n)
  {
    CreatedFrom(c, timelock, internalScalar, firstKey);
    InternalKeyKept(c, timelock, c.mul(internalScalar), firstKey);
    hide CreateFromTweaked, CreateTapscriptTimelockFromKey, LeafHash, Commits, ControlBlock, OutputScalar;
    var w := CreateFromTweaked(c, timelock, c.mul(internalScalar), firstKey).value;
    CommitsIff(c, internalScalar, w.tapscript.leafScript);
  }

  /** The commitment check, spelled out for a lone leaf. */
  lemma CommitsSpelledOut(c: Suite, internalKey: Point, output: Point, script: Bytes)
    requires c.n > 0 && internalKey.Affine? && output.Affine? && |internalKey.x| == 32
    requires LiftX(c, internalKey.x).Some?
    ensures
      var control, tweak := ControlBlock(internalKey, output), c.tapTweak(internalKey.x + RootOf(c, script));
      && LeafVersion(control) == BASE_LEAF_VERSION
      && (Commits(c, output.x, script, control)
          <==> tweak < c.n && c.add(LiftX(c, internalKey.x).value, c.mul(tweak)) == output)
  {
    var control := ControlBlock(internalKey, output);
    assert control[1..33] == internalKey.x && control[33..] == [];
    assert LeafVersion(control) == BASE_LEAF_VERSION && control[0] % 2 == if output.odd then 1 else 0;
    LeafHashIs(c, BASE_LEAF_VERSION, script);
    hide LeafHash, TapLeafHash, LiftX;
    assert MerklePath(c, RootOf(c, script), []) == RootOf(c, script);
  }

  lemma TweakSpelledOut(c: Suite, p: Point, root: Bytes)
    requires c.n > 0 && p.Affine? && LiftX(c, p.x).Some?
    ensures TweakPublic(c, p, root) == Some(c.add(LiftX(c, p.x).value, c.mul(c.tapTweak(p.x + root) % c.n)))
  {
  }

  lemma SmallMod(a: nat, n: nat)
    requires a < n
    ensures a % n == a
  {
  }

  lemma CommitsIff(c: Suite, internalScalar: nat, script: Bytes)
    requires GroupLaws(c) && IsScalar(c, internalScalar)
    requires OutputScalar(c, internalScalar, RootOf(c, script)) > 0
    ensures
      var internalKey, root := c.mul(internalScalar), RootOf(c, script);
      var output := c.mul(OutputScalar(c, internalScalar, root));
      var control := ControlBlock(internalKey, output);
      && LeafVersion(control) == BASE_LEAF_VERSION
      && (Commits(c, XOnly(output), script, control) <==> c.tapTweak(XOnly(internalKey) + root) < c.n)
  {
    var internalKey, root := c.mul(internalScalar), RootOf(c, script);
    var output := OutputScalar(c, internalScalar, root);
    TweaksAgree(c, internalScalar, root);
    ScalarPoint(c, internalScalar);
    assert OutputScalar(c, internalScalar, root) == TweakPrivate(c, internalScalar, root);
    ScalarPoint(c, output);
    assert LiftX(c, internalKey.x).Some?;
    hide *;
    var tweak := c.tapTweak(internalKey.x + root);
    XOnlyAffine(internalKey);
    XOnlyAffine(c.mul(output));
    CommitsSpelledOut(c, internalKey, c.mul(output), script);
    TweakSpelledOut(c, internalKey, root);
    if tweak < c.n {
      SmallMod(tweak, c.n);
    }
  }

  lemma XOnlyAffine(p: Point)
    requires p.Affine?
    ensures XOnly(p) == p.x
  {
  }

  // ----- the leaf runs -----

  lemma KeyScript(key: Bytes)
    requires |key| == 32
    ensures NewScriptBuilder().AddData(key).AddOp(OP_CHECKSIGVERIFY).Script()
         == Some(PushBytes(key) + [OP_CHECKSIGVERIFY])
  {
    assert [] + PushBytes(key) == PushBytes(key);
  }

  lemma LockScript(timelock: uint32, script: Bytes)
    ensures var num := NewScriptBuilder().AddInt64(timelock).bytes;
      && AugmentWithTimelock(timelock, script) == Some(script + (num + [OP_CHECKSEQUENCEVERIFY]))
      && Parse(num + [OP_CHECKSEQUENCEVERIFY])
         == Some([Push(ScriptNum(timelock)), Code(OP_CHECKSEQUENCEVERIFY)])
      && |num| == NumPushLength(timelock)
  {
    var b := NewScriptBuilder().AddInt64(timelock);
    LockNumber(timelock);
    ParseVerify();
    hide Parse, ScriptNum, ScriptBuilder.AddInt64;
    assert [Push(ScriptNum(timelock))] + [Code(OP_CHECKSEQUENCEVERIFY)]
        == [Push(ScriptNum(timelock)), Code(OP_CHECKSEQUENCEVERIFY)];
  }

  lemma LockNumber(timelock: uint32)
    ensures var b := NewScriptBuilder().AddInt64(timelock);
      && !b.failed && |b.bytes| < MAX_SCRIPT_SIZE
      && Parse(b.bytes + [OP_CHECKSEQUENCEVERIFY])
         == Prepend(Push(ScriptNum(timelock)), Parse([OP_CHECKSEQUENCEVERIFY]))
      && |b.bytes| == NumPushLength(timelock)
  {
    var b := NewScriptBuilder().AddInt64(timelock);
    ScriptNumSize(timelock);
    ParseInt64(NewScriptBuilder(), timelock, [OP_CHECKSEQUENCEVERIFY]);
    hide Parse, ScriptNum;
    assert b.bytes[0..] == b.bytes;
  }

  lemma ParseVerify()
    ensures Parse([OP_CHECKSEQUENCEVERIFY]) == Some([Code(OP_CHECKSEQUENCEVERIFY)])
  {
    assert Parse([]) == Some([]);
    ParseCode(OP_CHECKSEQUENCEVERIFY, []);
    hide Parse;
    assert [OP_CHECKSEQUENCEVERIFY] + [] == [OP_CHECKSEQUENCEVERIFY];
    assert [Code(OP_CHECKSEQUENCEVERIFY)] + [] == [Code(OP_CHECKSEQUENCEVERIFY)];
  }

  /** The leaf is one push of a key, a signature check, the timelock, and the sequence check. */
  lemma LeafOps(c: Suite, timelock: uint32, publicKey: Point)
    requires c.n > 0 && TweakPublic(c, publicKey, []).Some?
    requires |XOnly(TweakPublic(c, publicKey, []).value)| == 32
    ensures
      var leaf := CreateTapscriptTimelockFromKey(c, timelock, publicKey);
      && leaf.Some?
      && Parse(leaf.value) == Some([Push(XOnly(TweakPublic(c, publicKey, []).value)), Code(OP_CHECKSIGVERIFY),
                                    Push(ScriptNum(timelock)), Code(OP_CHECKSEQUENCEVERIFY)])
      && |leaf.value| == 35 + NumPushLength(timelock)
  {
    var key := XOnly(TweakPublic(c, publicKey, []).value);
    KeyScript(key);
    LockScript(timelock, PushBytes(key) + [OP_CHECKSIGVERIFY]);
    hide Parse, ScriptNum, TweakPublic, XOnly, PushBytes, AugmentWithTimelock,
         ScriptBuilder.AddData, ScriptBuilder.AddInt64, ScriptBuilder.AddOp;
    KeyThenLock(key, NewScriptBuilder().AddInt64(timelock).bytes + [OP_CHECKSEQUENCEVERIFY],
                [Push(ScriptNum(timelock)), Code(OP_CHECKSEQUENCEVERIFY)]);
  }

  lemma KeyPush(key: Bytes)
    requires |key| == 32
    ensures |PushBytes(key)| == 33 && Pushed(key) == key
  {
  }

  lemma ParseCheck(tail: Bytes, lock: seq<Op>)
    requires Parse(tail) == Some(lock)
    ensures Parse([OP_CHECKSIGVERIFY] + tail) == Some([Code(OP_CHECKSIGVERIFY)] + lock)
  {
    ParseCode(OP_CHECKSIGVERIFY, tail);
    hide Parse;
  }

  lemma ParseKey(key: Bytes, rest: Bytes, ops: seq<Op>)
    requires |key| == 32 && Parse(rest) == Some(ops)
    ensures Parse(PushBytes(key) + rest) == Some([Push(key)] + ops)
  {
    KeyPush(key);
    ParsePush(key, rest);
    hide Parse, PushBytes, Pushed;
  }

  lemma GroupOps(a: Op, b: Op, lock: seq<Op>)
    requires |lock| == 2
    ensures [a] + ([b] + lock) == [a, b, lock[0], lock[1]]
  {
  }

  lemma GroupBytes(a: Bytes, b: byte, tail: Bytes)
    ensures a + [b] + tail == a + ([b] + tail)
    ensures |a + [b] + tail| == |a| + 1 + |tail|
  {
  }

  /** A key, its signature check, and whatever the tail parses to. */
  lemma KeyThenLock(key: Bytes, tail: Bytes, lock: seq<Op>)
    requires |key| == 32 && Parse(tail) == Some(lock) && |lock| == 2
    ensures var script := PushBytes(key) + [OP_CHECKSIGVERIFY] + tail;
      && |script| == 34 + |tail|
      && Parse(script) == Some([Push(key), Code(OP_CHECKSIGVERIFY), lock[0], lock[1]])
  {
    hide *;
    KeyPush(key);
    ParseCheck(tail, lock);
    ParseKey(key, [OP_CHECKSIGVERIFY] + tail, [Code(OP_CHECKSIGVERIFY)] + lock);
    GroupBytes(PushBytes(key), OP_CHECKSIGVERIFY, tail);
    GroupOps(Push(key), Code(OP_CHECKSIGVERIFY), lock);
  }

  /** The bytes that push the timelock: one opcode up to 16, else a length and the script number. */
  function TimelockPush(timelock: uint32): Bytes {
    if timelock == 0 then [0x00]
    else if timelock <= 16 then [0x50 + timelock]
    else [NumLength(timelock)] + ScriptNum(timelock)
  }

  lemma PushedTimelock(timelock: uint32)
    ensures NewScriptBuilder().AddInt64(timelock).bytes == TimelockPush(timelock)
  {
    hide *;
    if timelock > 16 {
      ScriptNumSize(timelock);
      LongNumber(timelock);
      LengthFirst(ScriptNum(timelock));
      LongPush(timelock);
    } else {
      ShortPush(timelock);
    }
  }

  lemma ShortPush(v: uint32)
    requires v <= 16
    ensures NewScriptBuilder().AddInt64(v).bytes == TimelockPush(v)
  {
    hide ScriptNum, PushBytes;
  }

  lemma LengthFirst(data: Bytes)
    requires 0 < |data| <= 5 && !(|data| == 1 && (data[0] <= 16 || data[0] == 0x81))
    ensures PushBytes(data) == [|data|] + data
  {
  }

  lemma LongPush(v: uint32)
    requires v > 16 && |ScriptNum(v)| == NumLength(v) && PushBytes(ScriptNum(v)) == [|ScriptNum(v)|] + ScriptNum(v)
    ensures NewScriptBuilder().AddInt64(v).bytes == TimelockPush(v)
  {
    hide ScriptNum, PushBytes;
    assert [] + PushBytes(ScriptNum(v)) == PushBytes(ScriptNum(v));
  }

  lemma LongNumber(v: uint32)
    requires v > 16
    ensures !(|ScriptNum(v)| == 1 && (ScriptNum(v)[0] <= 16 || ScriptNum(v)[0] == 0x81))
    ensures 0 < |ScriptNum(v)| <= 5
  {
    ScriptNumSize(v);
    if v < 0x80 {
      LEOne(v);
    } else {
      ScriptNumSize(v);
      hide ScriptNum;
    }
  }

  lemma KeyPushBytes(key: Bytes)
    requires |key| == 32
    ensures PushBytes(key) == [0x20] + key
  {
  }

  /** The leaf, byte by byte. */
  lemma LeafBytes(c: Suite, timelock: uint32, publicKey: Point)
    requires c.n > 0 && TweakPublic(c, publicKey, []).Some?
    requires |XOnly(TweakPublic(c, publicKey, []).value)| == 32
    ensures
      CreateTapscriptTimelockFromKey(c, timelock, publicKey)
      == Some([0x20] + XOnly(TweakPublic(c, publicKey, []).value) + [0xAD] + (TimelockPush(timelock) + [0xB2]))
    ensures TimelockPush(52560) == [0x03, 0x50, 0xCD, 0x00]
  {
    DefaultPush();
    var key := XOnly(TweakPublic(c, publicKey, []).value);
    KeyScript(key);
    KeyPushBytes(key);
    LockScript(timelock, PushBytes(key) + [OP_CHECKSIGVERIFY]);
    PushedTimelock(timelock);
    hide Parse, ScriptNum, TweakPublic, XOnly, PushBytes, AugmentWithTimelock, TimelockPush,
         ScriptBuilder.AddData, ScriptBuilder.AddInt64, ScriptBuilder.AddOp;
  }

  lemma DefaultPush()
    ensures TimelockPush(52560) == [0x03, 0x50, 0xCD, 0x00]
  {
    assert LE(52560) == [0x50] + LE(205);
    LEOne(205);
    assert LE(52560) == [0x50, 0xCD];
    assert ScriptNum(52560) == [0x50, 0xCD] + [0];
    hide LE;
  }

  lemma ExecuteLeaf(key: Bytes, num: Bytes, signature: Bytes, ctx: Context)
    ensures
      var ops := [Push(key), Code(OP_CHECKSIGVERIFY), Push(num), Code(OP_CHECKSEQUENCEVERIFY)];
      Execute(ops, [signature], ctx)
      == if KeyCheck(key, signature, ctx) && SequenceVerifies(num, ctx.sequence, ctx.version)
         then Some([num]) else None
  {
    hide KeyCheck, SequenceVerifies;
    var ops := [Push(key), Code(OP_CHECKSIGVERIFY), Push(num), Code(OP_CHECKSEQUENCEVERIFY)];
    var s1, s2 := [signature] + [key], [] + [num];
    assert s1[..0] == [] && s1[1] == key && s1[0] == signature && s2 == [num];
    assert ops[1..][1..] == ops[2..] && ops[2..][1..] == ops[3..] && ops[3..][1..] == [];
    ExecuteNone([num], ctx);
    assert Execute(ops[3..], [num], ctx)
        == if SequenceVerifies(num, ctx.sequence, ctx.version) then Some([num]) else None;
    assert Execute(ops[2..], [], ctx) == Execute(ops[3..], [num], ctx);
    assert Execute(ops[1..], s1, ctx) == if KeyCheck(key, signature, ctx) then Execute(ops[2..], [], ctx) else None;
  }

  lemma ExecuteNone(stack: seq<Bytes>, ctx: Context)
    ensures Execute([], stack, ctx) == Some(stack)
  {
  }

  /**
   The leaf accepts a signature exactly when the signature checks under the leaf's key and
   the sequence passes the timelock, for every timelock but zero.
   */
  lemma LeafSucceedsIff(c: Suite, timelock: uint32, publicKey: Point, signature: Bytes, ctx: Context)
    requires c.n > 0 && TweakPublic(c, publicKey, []).Some?
    requires |XOnly(TweakPublic(c, publicKey, []).value)| == 32
    ensures CreateTapscriptTimelockFromKey(c, timelock, publicKey).Some?
    ensures
      ScriptSucceeds(CreateTapscriptTimelockFromKey(c, timelock, publicKey).value, [signature], ctx)
      == (&& timelock != 0
          && KeyCheck(XOnly(TweakPublic(c, publicKey, []).value), signature, ctx)
          && SequenceVerifies(ScriptNum(timelock), ctx.sequence, ctx.version))
  {
    hide CreateTapscriptTimelockFromKey, TweakPublic, Parse, Execute, KeyCheck, SequenceVerifies;
    LeafOps(c, timelock, publicKey);
    ExecuteLeaf(XOnly(TweakPublic(c, publicKey, []).value), ScriptNum(timelock), signature, ctx);
    NumberTruthy(timelock);
  }

  lemma NumberTruthy(v: uint32)
    ensures Truthy(ScriptNum(v)) <==> v != 0
  {
    var b := LE(v);
    if v > 0 {
      var num := ScriptNum(v);
      assert num[|b| - 1] == b[|b| - 1] != 0;
      assert |num| == |b| ==> b[|b| - 1] < 0x80;
    }
  }

  /** A recovery input carries the timelock as its sequence, so the check always passes. */
  lemma OwnTimelockPasses(timelock: uint32)
    ensures SequenceVerifies(ScriptNum(timelock), timelock, 2)
  {
    ScriptNumRoundTrip(timelock);
    ScriptNumSize(timelock);
  }

  /** The key inside the leaf is the public key of the tweaked first key that signs. */
  lemma LeafKeySigns(c: Suite, firstKey: nat, message: Bytes)
    requires Lawful(c) && IsScalar(c, firstKey)
    ensures
      var signer := SignerKey(c, firstKey, NoScript);
      && TweakPublic(c, c.mul(firstKey), []) == Some(c.mul(signer))
      && (SchnorrSign(c, signer, message).Some? ==>
            && |XOnly(c.mul(signer))| == 32
            && |SchnorrSign(c, signer, message).value| == 64
            && c.verify(XOnly(c.mul(signer)), message, SchnorrSign(c, signer, message).value))
  {
    TweaksAgree(c, firstKey, []);
    ScalarSigns(c, SignerKey(c, firstKey, NoScript), message);
    if SignerKey(c, firstKey, NoScript) > 0 {
      ScalarPoint(c, SignerKey(c, firstKey, NoScript));
    }
  }

  /** A bare signature is one under the key itself. */
  lemma BareKeySigns(c: Suite, key: nat, message: Bytes)
    requires Lawful(c) && IsScalar(c, key)
    ensures var signature := SchnorrSign(c, SignerKey(c, key, Bare), message);
      signature.Some? && |signature.value| == 64 && c.verify(XOnly(c.mul(key)), message, signature.value)
  {
    ScalarSigns(c, key, message);
    hide Lawful;
  }
}
