/** The snarkyjs primitives the zkApp calls, as uninterpreted operations:
    Poseidon hashing, the bit conversions between fields and scalars, the
    coordinates of a point, private keys, and `MerkleWitness20`. On top of
    them, the key derivation and the masking of the symmetric key that the
    contract and its tests share. */
module Primitives {
  import opened Field
  import Group

  /** A `MerkleWitness20`: an authentication path of a tree of height 20. */
  type MerkleWitness

  /** A `PrivateKey`: a secret scalar. */
  datatype PrivateKey = PrivateKey(s: Scalar)

  /** The library operations the core uses, none of them interpreted. */
  datatype Snarky = Snarky(
    group: Group.GroupOps,
    hash: seq<Felt> -> Felt,                                // Poseidon.hash
    scalarOfBits: Felt -> Scalar,                           // x => Scalar.ofBits(x.toBits())
    scalarToFields: Scalar -> seq<Felt>,                    // PrivateKey.toFields
    scalarOfFields: seq<Felt> -> Scalar,                    // Scalar.ofFields
    pointX: Group.Point -> Felt,                            // Group.toFields(p)[0]
    pointY: Group.Point -> Felt,                            // Group.toFields(p)[1]
    calculateIndex: MerkleWitness -> Felt,                  // witness.calculateIndex()
    calculateRoot: (MerkleWitness, Felt) -> Felt)           // witness.calculateRoot(leaf)

  /** What the model assumes of the library: the group laws, and that
      `Scalar.ofFields` reads back the scalar of a private key's fields. */
  ghost predicate Laws(lib: Snarky)
  {
    && Group.Laws(lib.group)
    && forall s :: lib.scalarOfFields(lib.scalarToFields(s)) == s
  }

  /** `key.toFields()`. */
  function KeyFields(lib: Snarky, key: PrivateKey): seq<Felt>
  {
    lib.scalarToFields(key.s)
  }

  /** `Scalar.ofFields(key.toFields())`. */
  function KeyScalar(lib: Snarky, key: PrivateKey): Scalar
  {
    lib.scalarOfFields(KeyFields(lib, key))
  }

  /** `key.toPublicKey()`: the generator scaled by the secret scalar. */
  function PublicKey(lib: Snarky, key: PrivateKey): Group.Point
  {
    lib.group.scale(lib.group.generator, key.s)
  }

  /** `Group.generator.scale(s)`. */
  function GeneratorTimes(lib: Snarky, s: Scalar): Group.Point
  {
    lib.group.scale(lib.group.generator, s)
  }

  /** `h = Scalar.ofBits(Poseidon.hash(tagFields.concat(key.toFields())).toBits())`:
      the blinding scalar scoped by the tag and the owner's secret. */
  function Derive(lib: Snarky, tagFields: seq<Felt>, key: PrivateKey): Scalar
  {
    lib.scalarOfBits(lib.hash(tagFields + KeyFields(lib, key)))
  }

  /** `Group.toFields(p)`. */
  function PointFields(lib: Snarky, p: Group.Point): seq<Felt>
  {
    [lib.pointX(p), lib.pointY(p)]
  }

  /** `Poseidon.hash(Group.toFields(p))`. */
  function PointHash(lib: Snarky, p: Group.Point): Felt
  {
    lib.hash(PointFields(lib, p))
  }

  /** `k.add(Group.generator.scale(h))`: the key blinded by `h·G`. */
  function Mask(lib: Snarky, k: Group.Point, h: Scalar): Group.Point
  {
    lib.group.add(k, GeneratorTimes(lib, h))
  }

  /** `e.sub(Group.generator.scale(h))`: removing the blinding `h·G`. */
  function Unmask(lib: Snarky, e: Group.Point, h: Scalar): Group.Point
  {
    Group.Sub(lib.group, e, GeneratorTimes(lib, h))
  }

  /** Unmasking with the scalar that masked a key gives the key back. */
  lemma UnmaskInvertsMask(lib: Snarky, k: Group.Point, h: Scalar)
    requires Laws(lib)
    ensures Unmask(lib, Mask(lib, k, h), h) == k
  {
    Group.SubCancelsAdd(lib.group, k, GeneratorTimes(lib, h));
  }
}
