/** The encryption scenario of src/Add.test.ts: the same masking of a
    temporary key `T` as in the contract's tests, but the sponge is keyed by
    `T`'s x coordinate alone; the Poseidon hash of `T` is computed and never
    used, and the masked key is kept as its two coordinates. */
module AddTest {
  import opened Field
  import Group
  import opened Primitives
  import opened SpongeCipher

  /** The encryption in the test; the sampled `Scalar.random()` is the parameter `t`. */
  method SealKeyedByX(sp: Sponge.SpongeOps, lib: Snarky, tagFields: seq<Felt>, owner: PrivateKey, t: Scalar,
                      message: seq<Felt>) returns (encryptedKey: seq<Felt>, cipherText: seq<Felt>)
    ensures encryptedKey == PointFields(lib, Mask(lib, GeneratorTimes(lib, t), Derive(lib, tagFields, owner)))
    ensures |encryptedKey| == 2
    ensures IsCiphertext(sp, lib.pointX(GeneratorTimes(lib, t)), message, cipherText)
  {
    var T := GeneratorTimes(lib, t);
    var h := Derive(lib, tagFields, owner);
    var hG := GeneratorTimes(lib, h);
    encryptedKey := PointFields(lib, lib.group.add(T, hG));
    var tBuf := PointFields(lib, T);
    var key := lib.hash(tBuf);
    cipherText := Encrypt(sp, lib.pointX(T), message);
  }

  /** Two sealings under temporary scalars `t1` and `t2` whose points share
      their x coordinate give the same ciphertext and tag, whatever their y
      coordinates and their Poseidon hashes: `SealKeyedByX` keys the sponge
      with the x coordinate alone. */
  lemma CiphertextDependsOnlyOnX(sp: Sponge.SpongeOps, lib: Snarky, t1: Scalar, t2: Scalar,
                                 message: seq<Felt>, ct1: seq<Felt>, ct2: seq<Felt>)
    requires lib.pointX(GeneratorTimes(lib, t1)) == lib.pointX(GeneratorTimes(lib, t2))
    requires IsCiphertext(sp, lib.pointX(GeneratorTimes(lib, t1)), message, ct1)
    requires IsCiphertext(sp, lib.pointX(GeneratorTimes(lib, t2)), message, ct2)
    ensures ct1 == ct2
  {
    EncryptionIsDeterministic(sp, lib.pointX(GeneratorTimes(lib, t1)), message, ct1, ct2);
  }

  /** The test's decryption half stops after deriving `h` again from the
      same tag fields and key (src/Add.test.ts:122-128); this lemma states
      what completing it would give. Working on the masked point rather than
      on its two stored coordinates, unmasking with the re-derived `h`
      yields `T`, and its x coordinate decrypts the ciphertext to the message. */
  lemma OwnerDecryptsWithX(sp: Sponge.SpongeOps, lib: Snarky, tagFields: seq<Felt>, owner: PrivateKey,
                           t: Scalar, message: seq<Felt>, cipherText: seq<Felt>)
    requires Laws(lib)
    requires IsCiphertext(sp, lib.pointX(GeneratorTimes(lib, t)), message, cipherText)
    ensures var h := Derive(lib, tagFields, owner);
      Decryption(sp, lib.pointX(Unmask(lib, Mask(lib, GeneratorTimes(lib, t), h), h)), cipherText) == Success(message)
  {
    UnmaskInvertsMask(lib, GeneratorTimes(lib, t), Derive(lib, tagFields, owner));
    DecryptionInvertsEncryption(sp, lib.pointX(GeneratorTimes(lib, t)), message, cipherText);
  }
}
