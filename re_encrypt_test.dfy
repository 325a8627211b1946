/** The key algebra and the encryption scenarios that src/ReEncrypt.test.ts
    runs against the contract: the single-leaf payload keyed by the
    recovered symmetric key, the delegate's recovery of that key, the
    Diffie-Hellman symmetry it rests on, and the multi-chunk message sealed
    under a temporary key `T` masked by the owner's derived scalar. */
module ReEncryptTest {
  import opened Field
  import Group
  import opened Primitives
  import opened Sponge
  import opened SpongeCipher
  import opened ReEncryptContract

  /** A fresh sponge that absorbs the key's x and then its y coordinate,
      squeezed once: the keystream for one leaf. */
  function LeafKeystream(sp: SpongeOps, lib: Snarky, key: Group.Point): Felt
  {
    sp.squeeze(sp.absorb(sp.absorb(sp.init, lib.pointX(key)), lib.pointY(key))).1
  }

  /** `data.add(sponge.squeeze())`: the leaf the test stores locally. */
  function EncryptLeaf(sp: SpongeOps, lib: Snarky, key: Group.Point, data: Felt): Felt
  {
    Add(data, LeafKeystream(sp, lib, key))
  }

  /** `leaf.sub(sponge2.squeeze())` with a second sponge fed the same key. */
  function DecryptLeaf(sp: SpongeOps, lib: Snarky, key: Group.Point, leaf: Felt): Felt
  {
    Sub(leaf, LeafKeystream(sp, lib, key))
  }

  /** A second sponge fed the same key decrypts the leaf, and the encrypted
      leaf equals the plaintext exactly when the keystream element is 0. */
  lemma LeafRoundTrip(sp: SpongeOps, lib: Snarky, key: Group.Point, data: Felt)
    ensures DecryptLeaf(sp, lib, key, EncryptLeaf(sp, lib, key, data)) == data
    ensures EncryptLeaf(sp, lib, key, data) == data <==> LeafKeystream(sp, lib, key) == 0
  {
    SubCancelsAdd(data, LeafKeystream(sp, lib, key));
    if LeafKeystream(sp, lib, key) != 0 {
      AddNonZeroChanges(data, LeafKeystream(sp, lib, key));
    }
  }

  /** The first test: after `init(root, alice, 1)` the test recomputes `h`
      from `[1]` and Alice's key, unmasks the stored key and gets the
      sampled symmetric key back; the leaf 666 encrypted under it decrypts
      to 666; and `addData(666, w, alice)` with a witness for index 0 is
      applied, committing the witness's root over 666 and moving the index to 1. */
  lemma SingleLeafScenario(sp: SpongeOps, lib: Snarky, st: ContractState, initRoot: Felt, alice: PrivateKey,
                           symPrivKey: Scalar, w: MerkleWitness)
    requires Laws(lib)
    ensures var st1 := Initialized(lib, st, initRoot, alice, 1, symPrivKey);
      var key := Unmask(lib, st1.encryptedSymmetricKey, Derive(lib, [1], alice));
      && key == GeneratorTimes(lib, symPrivKey)
      && DecryptLeaf(sp, lib, key, EncryptLeaf(sp, lib, key, 666)) == 666
      && (lib.calculateIndex(w) == 0 ==>
            AddDataStep(lib, st1, 666, w, alice)
            == Transition(Applied, st1.(treeRoot := lib.calculateRoot(w, 666), nextIndex := 1)))
  {
    var st1 := Initialized(lib, st, initRoot, alice, 1, symPrivKey);
    InitCommitsSymmetricKey(lib, st, initRoot, alice, 1, symPrivKey);
    var key := Unmask(lib, st1.encryptedSymmetricKey, Derive(lib, [1], alice));
    LeafRoundTrip(sp, lib, key, 666);
    OwnerPassesKeyCheck(lib, st1, alice, GeneratorTimes(lib, symPrivKey), 666, w);
  }

  /** The root an applied `addData` commits is the witness's root over the
      plaintext `data`; the test's local tree holds `data` encrypted under
      the key the state commits to for the owner, the key the owner
      recovers by unmasking, which is a different leaf unless the keystream
      element is 0. */
  lemma CommittedLeafIsRawData(sp: SpongeOps, lib: Snarky, st: ContractState, data: Felt, w: MerkleWitness,
                               owner: PrivateKey, key: Group.Point)
    requires Laws(lib) && KeyCommitted(lib, st, owner, key)
    requires AddDataStep(lib, st, data, w, owner).outcome == Applied
    ensures Unmask(lib, st.encryptedSymmetricKey, Derive(lib, [st.tag], owner)) == key
    ensures AddDataStep(lib, st, data, w, owner).state.treeRoot == lib.calculateRoot(w, data)
    ensures EncryptLeaf(sp, lib, key, data) != data <==> LeafKeystream(sp, lib, key) != 0
  {
    UnmaskInvertsMask(lib, key, Derive(lib, [st.tag], owner));
    LeafRoundTrip(sp, lib, key, data);
  }

  /** The key-exchange test: a's public key scaled by b's scalar equals b's
      public key scaled by a's scalar, with the scalars read back through
      `Scalar.ofFields(key.toFields())`. */
  lemma SharedSecretIsSymmetric(lib: Snarky, a: PrivateKey, b: PrivateKey)
    requires Laws(lib)
    ensures lib.group.scale(PublicKey(lib, a), KeyScalar(lib, b)) == lib.group.scale(PublicKey(lib, b), KeyScalar(lib, a))
  {
    assert KeyScalar(lib, a) == a.s && KeyScalar(lib, b) == b.s;
    Group.ScaleCommutes(lib.group, lib.group.generator, a.s, b.s);
  }

  /** The delegate's recovery: when the re-encrypted key is the symmetric
      key plus Bob's public key scaled by Alice's secret, Bob subtracts
      Alice's public key scaled by his own secret and gets the key back. */
  lemma DelegateRecoversSymmetricKey(lib: Snarky, alice: PrivateKey, bob: PrivateKey, k: Group.Point,
                                     reEncryptedKey: Group.Point)
    requires Laws(lib)
    requires reEncryptedKey == lib.group.add(k, lib.group.scale(PublicKey(lib, bob), KeyScalar(lib, alice)))
    ensures Group.Sub(lib.group, reEncryptedKey, lib.group.scale(PublicKey(lib, alice), KeyScalar(lib, bob))) == k
  {
    SharedSecretIsSymmetric(lib, alice, bob);
    Group.SubCancelsAdd(lib.group, k, lib.group.scale(PublicKey(lib, bob), KeyScalar(lib, alice)));
  }

  /** The encryption half of the third test: the temporary key `T = t·G`
      masked with `h` derived from the tag fields and the owner's key, and
      the message encrypted under the Poseidon hash of `T`'s coordinates.
      The sampled `Scalar.random()` is the parameter `t`. */
  method SealMessage(sp: SpongeOps, lib: Snarky, tagFields: seq<Felt>, owner: PrivateKey, t: Scalar,
                     message: seq<Felt>) returns (encryptedKey: Group.Point, cipherText: seq<Felt>)
    ensures encryptedKey == Mask(lib, GeneratorTimes(lib, t), Derive(lib, tagFields, owner))
    ensures IsCiphertext(sp, PointHash(lib, GeneratorTimes(lib, t)), message, cipherText)
  {
    var T := GeneratorTimes(lib, t);
    var h := Derive(lib, tagFields, owner);
    var hG := GeneratorTimes(lib, h);
    encryptedKey := lib.group.add(T, hG);
    var key := PointHash(lib, T);
    cipherText := Encrypt(sp, key, message);
  }

  /** The decryption half: `h` derived again, `T` unmasked, the sponge
      keyed by the hash of its coordinates, then decrypted with the tag check. */
  method OpenMessage(sp: SpongeOps, lib: Snarky, tagFields: seq<Felt>, owner: PrivateKey,
                     encryptedKey: Group.Point, cipherText: seq<Felt>) returns (r: Result<seq<Felt>>)
    ensures r == Decryption(sp, PointHash(lib, Unmask(lib, encryptedKey, Derive(lib, tagFields, owner))), cipherText)
  {
    var h := Derive(lib, tagFields, owner);
    var hG := GeneratorTimes(lib, h);
    var T := Group.Sub(lib.group, encryptedKey, hG);
    var key := PointHash(lib, T);
    r := Decrypt(sp, key, cipherText);
  }

  /** What the owner seals, the owner opens: with the same tag fields and
      private key, opening returns exactly the sealed message, and a
      ciphertext whose tag alone was changed is rejected. */
  lemma OwnerOpensSealedMessage(sp: SpongeOps, lib: Snarky, tagFields: seq<Felt>, owner: PrivateKey, t: Scalar,
                                message: seq<Felt>, encryptedKey: Group.Point, cipherText: seq<Felt>,
                                forged: seq<Felt>)
    requires Laws(lib)
    requires encryptedKey == Mask(lib, GeneratorTimes(lib, t), Derive(lib, tagFields, owner))
    requires IsCiphertext(sp, PointHash(lib, GeneratorTimes(lib, t)), message, cipherText)
    ensures var key := PointHash(lib, Unmask(lib, encryptedKey, Derive(lib, tagFields, owner)));
      && Decryption(sp, key, cipherText) == Success(message)
      && (|forged| == |cipherText| && forged[..|message|] == cipherText[..|message|]
          && forged[|message|] != cipherText[|message|] ==>
            Decryption(sp, key, forged) == Failure(AuthenticationError))
  {
    UnmaskInvertsMask(lib, GeneratorTimes(lib, t), Derive(lib, tagFields, owner));
    var key := PointHash(lib, GeneratorTimes(lib, t));
    DecryptionInvertsEncryption(sp, key, message, cipherText);
    if |forged| == |cipherText| && forged[..|message|] == cipherText[..|message|]
       && forged[|message|] != cipherText[|message|] {
      ForgedTagIsRejected(sp, key, message, cipherText, forged);
    }
  }
}
