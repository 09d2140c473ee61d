/** Taproot keys, leaves and addresses as the wallet computes them (script.go, signer.go, leafy.go). */
module Taproot {
  import opened Prelude
  import opened Crypto
  import opened Script

  const BASE_LEAF_VERSION: byte := 0xC0

  // ----- tweaks (txscript's ComputeTaprootOutputKey and TweakTaprootPrivKey) -----

  function TapTweak(c: Suite, x: Bytes, root: Bytes): nat
    requires c.n > 0
  {
    c.tapTweak(x + root) % c.n
  }

  /** Tweaks a public key by its x-only form; fails when that is on no point. */
  function TweakPublic(c: Suite, p: Point, root: Bytes): Option<Point>
    requires c.n > 0
  {
    var even :- LiftX(c, XOnly(p));
    Some(c.add(even, c.mul(TapTweak(c, XOnly(even), root))))
  }

  /** Tweaks a private key, first negating it when its public key is odd. */
  function TweakPrivate(c: Suite, d: nat, root: Bytes): nat
    requires c.n > 0
  {
    var p := c.mul(d);
    var even := if p.Affine? && p.odd && 0 < d < c.n then c.n - d else d;
    (even + TapTweak(c, XOnly(p), root)) % c.n
  }

  // ----- leaves -----

  function LEn(v: nat, width: nat): (b: Bytes)
    ensures |b| == width
  {
    if width == 0 then [] else [v % 0x100] + LEn(v / 0x100, width - 1)
  }

  function CompactSize(n: nat): (b: Bytes) {
    if n < 0xFD then [n]
    else if n <= 0xFFFF then [0xFD] + LEn(n, 2)
    else if n <= 0xFFFF_FFFF then [0xFE] + LEn(n, 4)
    else [0xFF] + LEn(n, 8)
  }

  function LeafHash(c: Suite, version: byte, script: Bytes): Bytes {
    c.tapLeaf([version] + CompactSize(|script|) + script)
  }

  /** `AugmentWithTimelock`: the script followed by a relative timelock. */
  function AugmentWithTimelock(timelock: uint32, script: Bytes): Option<Bytes> {
    var lock :- NewScriptBuilder().AddInt64(timelock).AddOp(OP_CHECKSEQUENCEVERIFY).Script();
    Some(script + lock)
  }

  /** `CreateTapscriptTimelockFromKey`: a signature by the key's no-script tweak, then the timelock. */
  function CreateTapscriptTimelockFromKey(c: Suite, timelock: uint32, publicKey: Point): Option<Bytes>
    requires c.n > 0
  {
    var key :- TweakPublic(c, publicKey, []);
    var script :- NewScriptBuilder().AddData(XOnly(key)).AddOp(OP_CHECKSIGVERIFY).Script();
    AugmentWithTimelock(timelock, script)
  }

  // ----- trees of one leaf -----

  datatype SigningData = SigningData(leafScript: Bytes, controlBlock: Bytes, merkleRoot: Bytes)

  /** Leaf version and output parity in one byte, then the internal key; a lone leaf has no inclusion proof. */
  function ControlBlock(internalKey: Point, outputKey: Point): Bytes {
    [if outputKey.Affine? && outputKey.odd then BASE_LEAF_VERSION + 1 else BASE_LEAF_VERSION] + XOnly(internalKey)
  }

  function RootOf(c: Suite, script: Bytes): Bytes {
    LeafHash(c, BASE_LEAF_VERSION, script)
  }

  function SignWith(c: Suite, internalKey: Point, script: Bytes): Option<SigningData>
    requires c.n > 0
  {
    var outputKey :- TweakPublic(c, internalKey, RootOf(c, script));
    Some(SigningData(script, ControlBlock(internalKey, outputKey), RootOf(c, script)))
  }

  /** script.go's `TapscriptBuilder`, for the one leaf the wallet uses. */
  class TapscriptBuilder {
    var leaves: seq<Bytes>
    const internalKey: Point

    constructor (internalKey: Point)
      ensures leaves == [] && this.internalKey == internalKey
    {
      this.internalKey := internalKey;
      leaves := [];
    }

    method AddLeafScript(script: Bytes) returns (builder: TapscriptBuilder)
      modifies this`leaves
      ensures leaves == old(leaves) + [script] && builder == this
    {
      leaves := leaves + [script];
      builder := this;
    }

    method GetMerkleRoot(c: Suite) returns (root: Bytes)
      requires |leaves| == 1
      ensures root == RootOf(c, leaves[0])
    {
      root := LeafHash(c, BASE_LEAF_VERSION, leaves[0]);
    }

    method Address(c: Suite) returns (address: Option<string>)
      requires |leaves| == 1 && c.n > 0
      ensures var key := TweakPublic(c, internalKey, RootOf(c, leaves[0]));
        address == if key.None? then None else Some(c.encodeAddress(XOnly(key.value)))
    {
      var treeRootHash := GetMerkleRoot(c);
      var outputKey := TweakPublic(c, internalKey, treeRootHash);
      if outputKey.None? {
        return None;
      }
      return Some(c.encodeAddress(XOnly(outputKey.value)));
    }

    method ToSign(c: Suite) returns (data: Option<SigningData>)
      requires |leaves| == 1 && c.n > 0
      ensures data == SignWith(c, internalKey, leaves[0])
    {
      var root := GetMerkleRoot(c);
      var outputKey := TweakPublic(c, internalKey, root);
      if outputKey.None? {
        return None;
      }
      return Some(SigningData(leaves[0], ControlBlock(internalKey, outputKey.value), root));
    }
  }

  // ----- the wallet's addresses -----

  datatype Tweaked = Tweaked(address: string, internalKey: Point, tapscript: SigningData) {
    function MerkleRoot(): Bytes {
      tapscript.merkleRoot
    }
  }

  /** `createTweakedAddressFromTweakedPublicKey` */
  function CreateFromTweaked(c: Suite, timelock: uint32, internalKey: Point, firstKey: nat): Option<Tweaked>
    requires c.n > 0
  {
    var leaf :- CreateTapscriptTimelockFromKey(c, timelock, c.mul(firstKey));
    var outputKey :- TweakPublic(c, internalKey, RootOf(c, leaf));
    var tapscript :- SignWith(c, internalKey, leaf);
    Some(Tweaked(c.encodeAddress(XOnly(outputKey)), internalKey, tapscript))
  }

  /** The same through the builder, as the source writes it. */
  method BuildFromTweaked(c: Suite, timelock: uint32, internalKey: Point, firstKey: nat)
    returns (r: Option<Tweaked>)
    requires c.n > 0
    ensures r == CreateFromTweaked(c, timelock, internalKey, firstKey)
  {
    var script := CreateTapscriptTimelockFromKey(c, timelock, c.mul(firstKey));
    if script.None? {
      return None;
    }
    var builder := new TapscriptBuilder(internalKey);
    builder := builder.AddLeafScript(script.value);
    var address := builder.Address(c);
    if address.None? {
      return None;
    }
    var tapscript := builder.ToSign(c);
    if tapscript.None? {
      return None;
    }
    return Some(Tweaked(address.value, builder.internalKey, tapscript.value));
  }

  function Ser256(d: nat): Bytes {
    BE(d, 32)
  }

  /** The internal key hides the first key: the second key is tweaked by its hash. */
  function FirstKeyHash(c: Suite, firstKey: nat): Bytes {
    c.sha256(Ser256(firstKey))
  }

  /** `createTweakedAddress`: both private keys are at hand. */
  function CreateTweakedAddress(c: Suite, timelock: uint32, secondKey: nat, firstKey: nat): Option<(Tweaked, nat)>
    requires c.n > 0
  {
    var tweakedPrivateKey := TweakPrivate(c, secondKey, FirstKeyHash(c, firstKey));
    var tweaked :- CreateFromTweaked(c, timelock, c.mul(tweakedPrivateKey), firstKey);
    Some((tweaked, tweakedPrivateKey))
  }

  /** `createTweakedAddressFromPublicKey`: only the second public key is known. */
  function CreateTweakedAddressFromPublicKey(c: Suite, timelock: uint32, secondKey: Point, firstKey: nat)
    : Option<Tweaked>
    requires c.n > 0
  {
    var internalKey :- TweakPublic(c, secondKey, FirstKeyHash(c, firstKey));
    CreateFromTweaked(c, timelock, internalKey, firstKey)
  }

  // ----- signing keys (signer.go) -----

  datatype SignType = Bare | NoScript | WithScript(merkleRoot: Bytes)

  /** `getTweakedPrivateKey` */
  function SignerKey(c: Suite, privateKey: nat, signType: SignType): nat
    requires c.n > 0
  {
    match signType
    case Bare => privateKey
    case NoScript => TweakPrivate(c, privateKey, [])
    case WithScript(merkleRoot) => TweakPrivate(c, privateKey, merkleRoot)
  }

  /** Schnorr signing refuses the zero key. */
  function SchnorrSign(c: Suite, privateKey: nat, message: Bytes): Option<Bytes> {
    if privateKey == 0 then None else Some(c.sign(privateKey, message))
  }

  function TaprootSign(c: Suite, privateKey: nat, message: Bytes, merkleRoot: Option<Bytes>): Option<seq<Bytes>>
    requires c.n > 0
  {
    var signType := match merkleRoot case None => NoScript case Some(root) => WithScript(root);
    var signature :- SchnorrSign(c, SignerKey(c, privateKey, signType), message);
    Some([signature])
  }

  function TapscriptSign(c: Suite, privateKey: nat, message: Bytes, leaf: SigningData): Option<seq<Bytes>>
    requires c.n > 0
  {
    var signature :- SchnorrSign(c, SignerKey(c, privateKey, NoScript), message);
    Some([signature, leaf.leafScript, leaf.controlBlock])
  }
}
