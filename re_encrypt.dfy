/** The `ReEncrypt` zkApp of src/ReEncrypt.ts: six on-chain state fields,
    `init`, which commits to a masked symmetric key, and `addData`, which
    checks the key commitment and the witness index and then stores the
    witness's root over the new leaf, without comparing it to the stored
    root, and advances the next free index. A failed `assertEquals` rejects the
    whole transaction, so a rejected call changes no field. */
module ReEncryptContract {
  import opened Field
  import Group
  import opened Primitives

  /** The six `@state` fields. */
  datatype ContractState = ContractState(
    encryptedSymmetricKey: Group.Point,
    reEncryptedKey: Group.Point,
    symKeyHash: Felt,
    tag: Felt,
    treeRoot: Felt,
    nextIndex: Felt)

  /** How an `addData` transaction ends: applied, or rejected by the key
      hash check or by the witness index check. */
  datatype Outcome = Applied | KeyIntegrityError | SequenceError

  datatype Transition = Transition(outcome: Outcome, state: ContractState)

  /** The state `init` leaves: the tag, the symmetric key `K = symPrivKey·G`
      masked as `K + h·G` with `h` derived from the tag and the owner's key,
      the hash of `K`, the initial root and index 0. */
  function Initialized(lib: Snarky, st: ContractState, initRoot: Felt, alicePrivateKey: PrivateKey,
                       tag: Felt, symPrivKey: Scalar): ContractState
  {
    var symPubKey := GeneratorTimes(lib, symPrivKey);
    var h := Derive(lib, [tag], alicePrivateKey);
    st.(tag := tag,
        encryptedSymmetricKey := Mask(lib, symPubKey, h),
        symKeyHash := PointHash(lib, symPubKey),
        treeRoot := initRoot,
        nextIndex := 0)
  }

  /** The effect of `addData(data, witness, privateKey)` on a state. */
  function AddDataStep(lib: Snarky, st: ContractState, data: Felt, leafWitness: MerkleWitness,
                       privateKey: PrivateKey): Transition
  {
    var key := Unmask(lib, st.encryptedSymmetricKey, Derive(lib, [st.tag], privateKey));
    if PointHash(lib, key) != st.symKeyHash then Transition(KeyIntegrityError, st)
    else if st.nextIndex != lib.calculateIndex(leafWitness) then Transition(SequenceError, st)
    else Transition(Applied, st.(treeRoot := lib.calculateRoot(leafWitness, data), nextIndex := Add(st.nextIndex, 1)))
  }

  /** The state commits to the symmetric key `k` for the owner `owner`:
      unmasking with the owner's derived scalar yields `k`, whose hash is stored. */
  ghost predicate KeyCommitted(lib: Snarky, st: ContractState, owner: PrivateKey, k: Group.Point)
  {
    && st.encryptedSymmetricKey == Mask(lib, k, Derive(lib, [st.tag], owner))
    && st.symKeyHash == PointHash(lib, k)
  }

  class ReEncrypt {
    const lib: Snarky
    var encryptedSymmetricKey: Group.Point
    var reEncryptedKey: Group.Point
    var symKeyHash: Felt
    var tag: Felt
    var treeRoot: Felt
    var nextIndex: Felt

    function State(): ContractState
      reads this
    {
      ContractState(encryptedSymmetricKey, reEncryptedKey, symKeyHash, tag, treeRoot, nextIndex)
    }

    /** A freshly deployed account: every field holds its zero value. */
    constructor (lib: Snarky)
      ensures this.lib == lib
      ensures State() == ContractState(lib.group.zero, lib.group.zero, 0, 0, 0, 0)
    {
      this.lib := lib;
      encryptedSymmetricKey, reEncryptedKey := lib.group.zero, lib.group.zero;
      symKeyHash, tag, treeRoot, nextIndex := 0, 0, 0, 0;
    }

    /** `init`; the sampled `Scalar.random()` is the parameter `symPrivKey`. */
    method Init(initRoot: Felt, alicePrivateKey: PrivateKey, tag: Felt, symPrivKey: Scalar)
      modifies this
      ensures State() == Initialized(lib, old(State()), initRoot, alicePrivateKey, tag, symPrivKey)
      ensures this.tag == tag && treeRoot == initRoot && nextIndex == 0
      ensures reEncryptedKey == old(reEncryptedKey)
    {
      var symPubKey := GeneratorTimes(lib, symPrivKey);
      this.tag := tag;
      var h := Derive(lib, [tag], alicePrivateKey);
      var hG := GeneratorTimes(lib, h);
      encryptedSymmetricKey := lib.group.add(symPubKey, hG);
      symKeyHash := PointHash(lib, symPubKey);
      treeRoot := initRoot;
      nextIndex := 0;
    }

    /** `addData`; a rejected transaction returns its reason and changes nothing. */
    method AddData(data: Felt, leafWitness: MerkleWitness, privateKey: PrivateKey) returns (outcome: Outcome)
      modifies this
      ensures Transition(outcome, State()) == AddDataStep(lib, old(State()), data, leafWitness, privateKey)
      ensures outcome != Applied ==> State() == old(State())
      ensures tag == old(tag) && encryptedSymmetricKey == old(encryptedSymmetricKey)
      ensures symKeyHash == old(symKeyHash) && reEncryptedKey == old(reEncryptedKey)
    {
      var tag := this.tag;
      var h := Derive(lib, [tag], privateKey);
      var hG := GeneratorTimes(lib, h);
      var encryptedKey := encryptedSymmetricKey;
      var key := Group.Sub(lib.group, encryptedKey, hG);
      if symKeyHash != PointHash(lib, key) {
        return KeyIntegrityError;
      }
      if nextIndex != lib.calculateIndex(leafWitness) {
        return SequenceError;
      }
      var newRoot := lib.calculateRoot(leafWitness, data);
      treeRoot := newRoot;
      var currIndex := nextIndex;
      nextIndex := Add(currIndex, 1);
      outcome := Applied;
    }
  }

  /** After `init` the owner recovers the sampled key by unmasking with the
      scalar derived again from the stored tag and the same private key,
      and its hash is the stored one. */
  lemma InitCommitsSymmetricKey(lib: Snarky, st: ContractState, initRoot: Felt, alicePrivateKey: PrivateKey,
                                tag: Felt, symPrivKey: Scalar)
    requires Laws(lib)
    ensures var st' := Initialized(lib, st, initRoot, alicePrivateKey, tag, symPrivKey);
      var k := GeneratorTimes(lib, symPrivKey);
      && KeyCommitted(lib, st', alicePrivateKey, k)
      && Unmask(lib, st'.encryptedSymmetricKey, Derive(lib, [st'.tag], alicePrivateKey)) == k
      && PointHash(lib, Unmask(lib, st'.encryptedSymmetricKey, Derive(lib, [st'.tag], alicePrivateKey))) == st'.symKeyHash
      && st'.tag == tag && st'.treeRoot == initRoot && st'.nextIndex == 0
  {
    UnmaskInvertsMask(lib, GeneratorTimes(lib, symPrivKey), Derive(lib, [tag], alicePrivateKey));
  }

  /** `addData` is fail-closed: the key hash check comes first, then the
      index check; a rejection leaves the state as it was, and an applied
      call moves the root to the witness's root over `data` and the index on by one. */
  lemma AddDataOutcome(lib: Snarky, st: ContractState, data: Felt, leafWitness: MerkleWitness, privateKey: PrivateKey)
    ensures var t := AddDataStep(lib, st, data, leafWitness, privateKey);
      var keyOk := PointHash(lib, Unmask(lib, st.encryptedSymmetricKey, Derive(lib, [st.tag], privateKey))) == st.symKeyHash;
      var indexOk := lib.calculateIndex(leafWitness) == st.nextIndex;
      && (t.outcome == KeyIntegrityError <==> !keyOk)
      && (t.outcome == SequenceError <==> keyOk && !indexOk)
      && (t.outcome == Applied <==> keyOk && indexOk)
      && (t.outcome != Applied ==> t.state == st)
      && (t.outcome == Applied ==>
            t.state == st.(treeRoot := lib.calculateRoot(leafWitness, data), nextIndex := Add(st.nextIndex, 1)))
  {
  }

  /** The owner that `init` committed to always passes the key hash check,
      so only the witness index decides, and the commitment survives. */
  lemma OwnerPassesKeyCheck(lib: Snarky, st: ContractState, owner: PrivateKey, k: Group.Point,
                            data: Felt, leafWitness: MerkleWitness)
    requires Laws(lib) && KeyCommitted(lib, st, owner, k)
    ensures var t := AddDataStep(lib, st, data, leafWitness, owner);
      && (t.outcome == Applied <==> lib.calculateIndex(leafWitness) == st.nextIndex)
      && (t.outcome != Applied ==> t.outcome == SequenceError)
      && KeyCommitted(lib, t.state, owner, k)
  {
    UnmaskInvertsMask(lib, k, Derive(lib, [st.tag], owner));
  }

  /** `addData` never compares the witness with the stored root: two states
      that differ only in their root get the same outcome, and an applied
      call leaves the same new root, the witness's root over `data`. A
      caller holding the key and a witness for the right index can
      therefore put any tree's root in place of the stored one. */
  lemma NewRootIgnoresOldRoot(lib: Snarky, st: ContractState, otherRoot: Felt, data: Felt,
                              leafWitness: MerkleWitness, privateKey: PrivateKey)
    ensures var t1 := AddDataStep(lib, st, data, leafWitness, privateKey);
      var t2 := AddDataStep(lib, st.(treeRoot := otherRoot), data, leafWitness, privateKey);
      && t1.outcome == t2.outcome
      && (t1.outcome == Applied ==>
            t1.state == t2.state && t1.state.treeRoot == lib.calculateRoot(leafWitness, data))
  {
  }

  /** `init` has no guard against being called again: the state it leaves
      depends on the earlier state only through `reEncryptedKey`, so the tag,
      the key commitment, the root and the index are all replaced. */
  lemma InitResetsState(lib: Snarky, st1: ContractState, st2: ContractState, initRoot: Felt,
                        alicePrivateKey: PrivateKey, tag: Felt, symPrivKey: Scalar)
    ensures Initialized(lib, st1, initRoot, alicePrivateKey, tag, symPrivKey).(reEncryptedKey := st2.reEncryptedKey)
         == Initialized(lib, st2, initRoot, alicePrivateKey, tag, symPrivKey)
  {
  }

  /** A sequence of `addData` calls, each on the state the previous one left. */
  datatype AddDataCall = AddDataCall(data: Felt, leafWitness: MerkleWitness, privateKey: PrivateKey)

  function Replay(lib: Snarky, st: ContractState, calls: seq<AddDataCall>): ContractState
    decreases |calls|
  {
    if calls == [] then st
    else Replay(lib, AddDataStep(lib, st, calls[0].data, calls[0].leafWitness, calls[0].privateKey).state, calls[1..])
  }

  /** Every call in the sequence is applied. */
  predicate AllApplied(lib: Snarky, st: ContractState, calls: seq<AddDataCall>)
    decreases |calls|
  {
    calls == [] ||
      var t := AddDataStep(lib, st, calls[0].data, calls[0].leafWitness, calls[0].privateKey);
      t.outcome == Applied && AllApplied(lib, t.state, calls[1..])
  }

  /** The first of a sequence of applied calls: its witness is at the
      current index, and the rest of the sequence runs on the state it leaves. */
  lemma AppliedHead(lib: Snarky, st: ContractState, calls: seq<AddDataCall>)
    requires calls != [] && AllApplied(lib, st, calls)
    ensures var next := AddDataStep(lib, st, calls[0].data, calls[0].leafWitness, calls[0].privateKey).state;
      && lib.calculateIndex(calls[0].leafWitness) == st.nextIndex
      && next.nextIndex == Add(st.nextIndex, 1)
      && next.tag == st.tag && next.encryptedSymmetricKey == st.encryptedSymmetricKey
      && next.symKeyHash == st.symKeyHash && next.reEncryptedKey == st.reEncryptedKey
      && AllApplied(lib, next, calls[1..])
      && Replay(lib, st, calls) == Replay(lib, next, calls[1..])
  {
  }

  /** Successive applied calls use consecutive witness indices, starting at
      the current `nextIndex`, with no gap; afterwards `nextIndex` has moved
      on by the number of calls, and the key fields are untouched. */
  lemma {:induction false} AppendsUseConsecutiveIndices(lib: Snarky, st: ContractState, calls: seq<AddDataCall>)
    requires AllApplied(lib, st, calls)
    ensures forall i :: 0 <= i < |calls| ==> lib.calculateIndex(calls[i].leafWitness) == Offset(st.nextIndex, i)
    ensures Replay(lib, st, calls).nextIndex == Offset(st.nextIndex, |calls|)
    ensures var st' := Replay(lib, st, calls);
      && st'.tag == st.tag && st'.encryptedSymmetricKey == st.encryptedSymmetricKey
      && st'.symKeyHash == st.symKeyHash && st'.reEncryptedKey == st.reEncryptedKey
    decreases |calls|
  {
    if calls != [] {
      AppliedHead(lib, st, calls);
      var next := AddDataStep(lib, st, calls[0].data, calls[0].leafWitness, calls[0].privateKey).state;
      var rest := calls[1..];
      AppendsUseConsecutiveIndices(lib, next, rest);
      forall i | 0 < i < |calls|
        ensures lib.calculateIndex(calls[i].leafWitness) == Offset(st.nextIndex, i)
      {
        assert calls[i] == rest[i - 1];
        OffsetShift(st.nextIndex, i - 1);
      }
      OffsetShift(st.nextIndex, |rest|);
    }
  }

  /** From an index of 0, the i-th applied call carries a witness for leaf
      index i (reduced modulo P). */
  lemma AppendsFromZero(lib: Snarky, st: ContractState, calls: seq<AddDataCall>)
    requires st.nextIndex == 0 && AllApplied(lib, st, calls)
    ensures forall i :: 0 <= i < |calls| ==> lib.calculateIndex(calls[i].leafWitness) == i % P
    ensures Replay(lib, st, calls).nextIndex == |calls| % P
  {
    AppendsUseConsecutiveIndices(lib, st, calls);
    forall i | 0 <= i < |calls|
      ensures lib.calculateIndex(calls[i].leafWitness) == i % P
    {
      OffsetIsMod(0, i);
    }
    OffsetIsMod(0, |calls|);
  }

  /** After `init`, the i-th applied `addData` call carries a witness for
      leaf index i (reduced modulo P). */
  lemma InitThenAppendsFromZero(lib: Snarky, st: ContractState, initRoot: Felt, alicePrivateKey: PrivateKey,
                                tag: Felt, symPrivKey: Scalar, calls: seq<AddDataCall>)
    requires AllApplied(lib, Initialized(lib, st, initRoot, alicePrivateKey, tag, symPrivKey), calls)
    ensures forall i :: 0 <= i < |calls| ==> lib.calculateIndex(calls[i].leafWitness) == i % P
    ensures Replay(lib, Initialized(lib, st, initRoot, alicePrivateKey, tag, symPrivKey), calls).nextIndex == |calls| % P
  {
    AppendsFromZero(lib, Initialized(lib, st, initRoot, alicePrivateKey, tag, symPrivKey), calls);
  }
}
