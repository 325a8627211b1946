# zkrecrypt in Dafny

A model of the core of zkrecrypt, a Mina zkApp for proxy re-encryption written with snarkyjs.
The owner, Alice, commits on chain to a symmetric key `K = s·G`. It is stored masked as
`K + h·G`, where `h` is derived from a tag and Alice's private key by Poseidon. Each
`addData` call passes a key integrity check and a leaf index check and then stores a new Merkle
root, the root the caller's witness gives over the new leaf. The new root is not checked
against the stored one, so the log is append-only by convention only (see below). Payloads are encrypted with a Poseidon sponge stream cipher that carries
an authentication tag. A delegate, Bob, can recover `K` from a re-encrypted key with a
Diffie-Hellman shared point.

The model has three parts:

- **The contract** (`ReEncryptContract`, src/ReEncrypt.ts). A class `ReEncrypt` holds the six
  on-chain fields. Its methods `Init` and `AddData` are each proved against a state-transition
  function (`Initialized` and `AddDataStep`). Lemmas over those functions state:
  - the key commitment;
  - the fail-closed outcome of `addData` and the order of its checks;
  - the frame (which fields change);
  - that successive appends use consecutive indices.
- **The sponge cipher** (`Sponge`, `SpongeCipher`; the loops in src/ReEncrypt.test.ts and
  src/Add.test.ts).
  - The sponge is an abstract state with uninterpreted `absorb` and `squeeze`.
  - A run of the cipher is a trace of sponge calls.
  - `Encrypt` and `Decrypt` are the test loops, written as `while` loops. Each is proved against
    a specification: the relation `IsCiphertext` and the function `Decryption`.
  - Lemmas show that the absorb schedule feeds every ciphertext chunk into the sponge exactly
    once and in order, after the key, and that chunk i is masked by squeeze number i.
  - They also show that encryption is determined by key and message, and that decryption
    succeeds with exactly the message precisely on the encryptions of that message.
- **The key algebra and test scenarios** (`Group`, `Primitives`, `ReEncryptTest`, `AddTest`).
  - masking and unmasking with `h·G`
  - Diffie-Hellman symmetry and the delegate's recovery of `K`
  - the single-leaf keystream of the first test
  - the sealed multi-chunk message of the third test
  - the variant in src/Add.test.ts whose sponge is keyed by `T.x` alone

The snarkyjs primitives are uninterpreted:
- the Poseidon hash and sponge
- curve point arithmetic and coordinates
- `Scalar.ofBits`, `Scalar.ofFields` and `PrivateKey.toFields`
- `MerkleWitness20.calculateIndex` and `calculateRoot`

`Primitives.Snarky` and `Sponge.SpongeOps` hold them as function-valued fields. The only
assumptions made about them are the ones in `Primitives.Laws`:
- subtracting a point undoes adding it;
- scaling twice is scaling by the product of the scalars modulo the group order;
- `Scalar.ofFields` reads back the scalar of `PrivateKey.toFields`.

Field elements are integers modulo the Pallas base prime (`Field.P`). Scalars are integers
modulo the Pallas group order (`Field.Q`). Field `add` and `sub` therefore wrap around, and so
do the `nextIndex` increments (`Field.Offset`).

### Where the code and the design differ

The model follows the code.

- **The committed leaf is the plaintext.** `addData` commits `witness.calculateRoot(data)` over
  the raw `data` (src/ReEncrypt.ts:107). The design calls for the root over the encrypted leaf
  `data + squeeze(absorb(K.x, K.y))`. The first test builds its local tree over that encrypted
  leaf (src/ReEncrypt.test.ts:112) and then compares the two roots (src/ReEncrypt.test.ts:120).
  - `ReEncryptTest.CommittedLeafIsRawData` states what the contract commits.
  - `ReEncryptTest.LeafRoundTrip` states that the encrypted leaf equals the plaintext exactly
    when the keystream element is 0.
  - With the hash uninterpreted, nothing in the model makes the two roots equal.
  - The model does not change the contract's behaviour here.
- **The stored root is never checked.** The design describes an append-only log whose new
  root extends the stored one. `addData` reads the stored root and compares it only with itself
  (src/ReEncrypt.ts:101-102). The new root is `witness.calculateRoot(data)` (src/ReEncrypt.ts:107)
  and is compared with nothing. Anyone who passes the key check and has a witness for the right
  index can replace the root with that of any tree. `ReEncryptContract.AddDataStep` does the same
  and never reads the stored root; `ReEncryptContract.NewRootIgnoresOldRoot` states it.
- **`init` can be called again.** The design fixes the tag once. `init` (src/ReEncrypt.ts:44-71)
  is a plain method with no guard, and each call replaces the tag, the key commitment, the root
  and the index. `ReEncrypt.Init` does the same; `ReEncryptContract.InitResetsState` states that
  the new state depends on the old one only through `reEncryptedKey`.
- **`assertEquals` as written.** snarkyjs is not part of this model. The model reads every
  `assertEquals` in `addData` as an independent guard (src/ReEncrypt.ts:86, 94, 102, 103, 112).
  If snarkyjs keeps a single account precondition per state field, the `nextIndex.assertEquals`
  at line 112 replaces the one at line 103. In that case the code does not enforce the index
  check, and the model's `SequenceError` branch follows the evident intent rather than the code.
- **No check on the initial root.** The design rejects a non-empty initial root with a
  configuration error. `init` stores any `initRoot` (src/ReEncrypt.ts:68), and so does `ReEncrypt.Init`.
- **No `generateReKey`.** The design describes a `generateReKey` operation that sets
  `reEncryptedKey`, and the test calls it (src/ReEncrypt.test.ts:142). src/ReEncrypt.ts defines no
  such method and never writes `reEncryptedKey`. The model therefore keeps that field unchanged
  in every operation. The delegate's recovery is a lemma whose hypothesis is the re-encrypted key
  that the design describes.

## Model

| member | source | states |
|---|---|---|
| Group.ScaleCommutes | src/ReEncrypt.test.ts:163-165 | scaling a point by x then y equals scaling it by y then x |
| Primitives.UnmaskInvertsMask | src/ReEncrypt.ts:96-97 | `(K + h·G) − h·G = K` for every point K and scalar h |
| Field.OffsetIsMod | src/ReEncrypt.ts:111-113 | n successive `add(1)` on a field element a give `(a + n) mod P` |
| ReEncryptContract.ReEncrypt.constructor | src/ReEncrypt.ts:25-34 | a new account holds the six state fields, all at their zero value |
| ReEncryptContract.ReEncrypt.Init | src/ReEncrypt.ts:44-72 | the new state is `Initialized(...)`: tag set, key masked as `K + h·G` with h derived from `[tag] ++ alice.toFields()`, `Hash(K)` stored, root = initRoot, index 0, `reEncryptedKey` untouched |
| ReEncryptContract.ReEncrypt.AddData | src/ReEncrypt.ts:76-114 | the outcome and new state are `AddDataStep(...)` of the old state; a rejected call leaves every field as it was; tag, masked key, key hash and `reEncryptedKey` never change |
| ReEncryptContract.InitCommitsSymmetricKey | src/ReEncrypt.ts:53-71 | after `init`, unmasking with h derived again from the stored tag and Alice's key yields the sampled K; its hash is the stored `symKeyHash`; tag, root and index 0 are as given |
| ReEncryptContract.AddDataOutcome | src/ReEncrypt.ts:97-113 | rejected with a key integrity error exactly when the recomputed key's hash differs from `symKeyHash`; rejected with a sequence error exactly when the key passes but `calculateIndex() ≠ nextIndex`; applied exactly when both pass; a rejection leaves the state unchanged; an application sets root = `calculateRoot(witness, data)` and index = index + 1 and changes nothing else |
| ReEncryptContract.OwnerPassesKeyCheck | src/ReEncrypt.ts:88-98 | for the owner a state commits to, the key check always passes; the call is applied exactly when the witness index equals `nextIndex`, is otherwise a sequence error, and leaves the commitment intact |
| ReEncryptContract.NewRootIgnoresOldRoot | src/ReEncrypt.ts:101-108 | two states that differ only in their root get the same outcome from the same call, and an applied call leaves the same new state in both, with root `calculateRoot(witness, data)`: the stored root constrains nothing |
| ReEncryptContract.InitResetsState | src/ReEncrypt.ts:44-71 | `init` on any two earlier states leaves states that differ at most in `reEncryptedKey`: tag, key commitment, root and index are all replaced |
| ReEncryptContract.AppliedHead | src/ReEncrypt.ts:103-113 | the first of a run of applied calls has its witness at `nextIndex`; it moves the index on by one, keeps the key fields, and the rest of the run continues from its state |
| ReEncryptContract.AppendsUseConsecutiveIndices | src/ReEncrypt.ts:103-113 | in a run of applied `addData` calls, call i carries a witness for index `nextIndex` incremented i times; no index is skipped or repeated; afterwards the index has moved on by the number of calls and the key fields are unchanged |
| ReEncryptContract.AppendsFromZero | src/ReEncrypt.ts:103-113 | starting from index 0, call i of a run of applied calls has witness index `i mod P`, and the final index is the number of calls mod P |
| ReEncryptContract.InitThenAppendsFromZero | src/ReEncrypt.ts:71-113 | after `init`, the i-th applied `addData` call uses leaf index `i mod P` |
| SpongeCipher.Encrypt | src/ReEncrypt.test.ts:181-197 | the output is a ciphertext of the message under the key: length of m plus 1, chunk i = `m[i]` + keystream element i, last element the tag squeeze |
| SpongeCipher.Decrypt | src/ReEncrypt.test.ts:280-294 | the result is `Decryption(...)`: an authentication error for an empty input or a tag that the replayed sponge does not reproduce, else each chunk minus its keystream element |
| SpongeCipher.AbsorbedStep | src/ReEncrypt.test.ts:188-193 | one loop iteration squeezes once, absorbs the pair `c[i-1], c[i]` at an odd i, the singleton `c[i]` at a final even i, and nothing otherwise |
| SpongeCipher.LoopAbsorbs | src/ReEncrypt.test.ts:187-194 | after k iterations the loop has squeezed k times and absorbed exactly the chunks before index k rounded down to even (all n chunks once k = n), in order |
| SpongeCipher.ScheduleAbsorbsEachChunkOnceInOrder | src/ReEncrypt.test.ts:181-197 | a whole run absorbs exactly the key followed by every ciphertext chunk once, in increasing order, and squeezes n + 1 times |
| SpongeCipher.KeystreamIsSqueezeNumber | src/ReEncrypt.test.ts:186-197 | keystream element i (the tag for i = n) is the output of squeeze number i of the run, after the key and the first i iterations' calls |
| SpongeCipher.RunLoopOps | src/ReEncrypt.test.ts:187-194 | performing the sponge calls of the first k iterations reaches the loop's state before iteration k |
| SpongeCipher.EncryptionIsDeterministic | src/ReEncrypt.test.ts:181-197 | two ciphertexts of one message under one key are equal |
| SpongeCipher.DecryptionInvertsEncryption | src/ReEncrypt.test.ts:280-294 | `ct` is an encryption of m under the key if and only if decryption under that key returns exactly m |
| SpongeCipher.ForgedTagIsRejected | src/ReEncrypt.test.ts:294 | a ciphertext whose chunks are kept but whose tag is changed fails decryption with an authentication error |
| ReEncryptTest.LeafRoundTrip | src/ReEncrypt.test.ts:106-130 | subtracting the squeeze of a sponge that absorbed `key.x, key.y` from `data + that squeeze` gives data; the encrypted leaf equals data exactly when the keystream element is 0 |
| ReEncryptTest.SingleLeafScenario | src/ReEncrypt.test.ts:99-130 | after `init(root, alice, 1)` the test's recomputed key is the sampled K; the leaf 666 encrypted under K decrypts to 666; `addData(666, w, alice)` with a witness for index 0 is applied, commits `calculateRoot(w, 666)` and sets the index to 1 |
| ReEncryptTest.CommittedLeafIsRawData | src/ReEncrypt.ts:97-107 | for a state that commits to key K for the owner, the owner's unmasking yields K; an applied `addData` commits the root over the plaintext `data`; the test's leaf, `data` encrypted under K, differs from it exactly when the keystream element is nonzero |
| ReEncryptTest.SharedSecretIsSymmetric | src/ReEncrypt.test.ts:156-166 | `aPub.scale(ofFields(b.toFields())) = bPub.scale(ofFields(a.toFields()))` |
| ReEncryptTest.DelegateRecoversSymmetricKey | src/ReEncrypt.test.ts:148-153 | if `reEncryptedKey = K + bobPub·alice`, then `reEncryptedKey − alicePub·bob = K` |
| ReEncryptTest.SealMessage | src/ReEncrypt.test.ts:170-197 | the masked key is `T + h·G` with h derived from the tag fields and the owner's key; the ciphertext is an encryption of the message under `Hash(T.x, T.y)` |
| ReEncryptTest.OpenMessage | src/ReEncrypt.test.ts:269-294 | the result is the decryption of the ciphertext under the hash of the point unmasked with h derived again |
| ReEncryptTest.OwnerOpensSealedMessage | src/ReEncrypt.test.ts:269-294 | with the same tag fields and key, opening a sealed message returns exactly that message, and changing only its tag makes opening fail |
| AddTest.SealKeyedByX | src/Add.test.ts:90-117 | the masked key is kept as the coordinates of `T + h·G`; the ciphertext is an encryption of the message under `T.x` alone |
| AddTest.CiphertextDependsOnlyOnX | src/Add.test.ts:97-102 | sealings under two temporary scalars whose points share the x coordinate give the same ciphertext, whatever their y coordinates and hashes |
| AddTest.OwnerDecryptsWithX | src/Add.test.ts:93-125 | the test only re-derives h (lines 122-125); the lemma states what completing the decryption would give: unmasking the masked point with that h and keying by its x coordinate returns the message |

## Left out

- snarkyjs internals are uninterpreted. These are Poseidon hash and sponge, curve arithmetic,
  `Scalar.ofBits`/`toBits`, and the Merkle witness functions. Properties of their outputs that
  depend on the internals are not modelled. Examples: the witness index being below 2^19, and
  collision resistance.
- `Scalar.random()` and `PrivateKey.random()` are parameters (`symPrivKey`, `t`), not sampled values.
- Mina deployment, permissions, transactions, signing and all `console.log` output
  (src/ReEncrypt.ts:36-42) are host plumbing.
- ReEncryptContract.ReEncrypt.AddData: each `assertEquals` is an independent guard. The checks
  that a field still holds the value just read (src/ReEncrypt.ts:86, 94, 102, 112) always hold in
  a sequential model, so they have no branch. Whether the line-112 check replaces the index check
  at line 103 depends on snarkyjs, which is not part of this model; the `SequenceError` branch
  models the index check as the code evidently intends it.
- src/main.ts is not part of this model. It is a deploy-and-print driver that repeats the
  single-leaf keystream.
- The `Add` contract tests (src/Add.test.ts:68-86) are out of scope. src/Add.ts is not part of this model.
- `generateReKey` is not defined in src/ReEncrypt.ts. Only the delegate's recovery is modelled,
  as `ReEncryptTest.DelegateRecoversSymmetricKey`, under the design's formula for the re-encrypted key.
- The commented-out circuit encryption (src/ReEncrypt.ts:116-165) and the rekey sketch
  (src/ReEncrypt.test.ts:200-266) are not modelled.
- `Encoding.stringToFields` and `stringFromFields` are not modelled. Messages are already
  sequences of field elements.
- Cryptographic claims are not modelled: one-wayness, and detection of any flipped chunk "with
  overwhelming probability". They are not provable over an uninterpreted hash. Only the
  deterministic case of a changed tag with unchanged chunks is proved
  (`SpongeCipher.ForgedTagIsRejected`).
- AddTest.OwnerDecryptsWithX: src/Add.test.ts:122-128 re-derives h and logs it but never unmasks
  or decrypts. The lemma states what completing that half would give. It unmasks the point
  `T + h·G` itself; rebuilding the point from the two stored coordinates
  (`Group.toFields`, src/Add.test.ts:96) is not modelled.
- The curve is an abstract group that satisfies `Primitives.Laws`. Curve facts beyond those
  laws, such as point encoding and the identity point, are not modelled.
