/** The sponge stream cipher with an authentication tag, as the test suites
    run it (src/ReEncrypt.test.ts, src/Add.test.ts). A sponge keyed by one
    absorbed field element squeezes one keystream element per message chunk,
    and the chunk plus that element is the ciphertext chunk. Ciphertext is
    fed back into the sponge two chunks at a time, at odd indices, and the
    last chunk on its own when the message length is odd. A final squeeze
    gives the tag, which is appended to the ciphertext.

    The calls made by the loop depend only on the ciphertext, so they are
    defined here from the ciphertext alone (`LoopOps`). Decryption knows the
    ciphertext in advance and therefore replays exactly the calls that
    encryption made. */
module SpongeCipher {
  import opened Field
  import opened Sponge

  datatype CipherError = AuthenticationError

  datatype Result<T> = Success(value: T) | Failure(error: CipherError)

  /** `new Poseidon.Sponge()` followed by `sponge.absorb(key)`. */
  function Keyed(sp: SpongeOps, key: Felt): SpongeState
  {
    sp.absorb(sp.init, key)
  }

  /** The sponge calls of loop iteration i over n chunks, given the
      ciphertext c: squeeze the keystream, then at an odd i absorb c[i-1],
      and at an odd i or at the last index absorb c[i]. */
  function StepOps(c: seq<Felt>, n: int, i: nat): seq<Op>
    requires i < |c|
  {
    [Squeeze]
    + (if i % 2 == 1 then [Absorb(c[i - 1])] else [])
    + (if i % 2 == 1 || i == n - 1 then [Absorb(c[i])] else [])
  }

  /** The sponge calls of the first k loop iterations. */
  function LoopOps(c: seq<Felt>, n: int, k: nat): seq<Op>
    requires k <= |c|
    decreases k
  {
    if k == 0 then [] else LoopOps(c, n, k - 1) + StepOps(c, n, k - 1)
  }

  /** The sponge state after loop iteration i's calls from state s. */
  function StepState(sp: SpongeOps, s: SpongeState, c: seq<Felt>, n: int, i: nat): SpongeState
    requires i < |c|
  {
    var squeezed := sp.squeeze(s).0;
    var paired := if i % 2 == 1 then sp.absorb(squeezed, c[i - 1]) else squeezed;
    if i % 2 == 1 || i == n - 1 then sp.absorb(paired, c[i]) else paired
  }

  /** The sponge state before loop iteration i, from the keyed state s0
      (for i = n: before the tag squeeze). */
  function StateAt(sp: SpongeOps, s0: SpongeState, c: seq<Felt>, n: int, i: nat): SpongeState
    requires i <= |c|
    decreases i
  {
    if i == 0 then s0 else StepState(sp, StateAt(sp, s0, c, n, i - 1), c, n, i - 1)
  }

  /** The value squeezed at the start of iteration i: the keystream
      element of chunk i, or the tag when i is n. */
  function Keystream(sp: SpongeOps, s0: SpongeState, c: seq<Felt>, n: int, i: nat): Felt
    requires i <= |c|
  {
    sp.squeeze(StateAt(sp, s0, c, n, i)).1
  }

  /** Every sponge call of an encryption (or decryption) of ciphertext
      chunks c under key: keying, the loop, and the tag squeeze. */
  function Trace(key: Felt, c: seq<Felt>): seq<Op>
  {
    [Absorb(key)] + LoopOps(c, |c|, |c|) + [Squeeze]
  }

  /** `ct` is the encryption of `m` under `key`: one chunk more than the
      message, chunk i is m[i] plus the i-th keystream element of the sponge
      that replays the calls on ct's own chunks, and the last element is the
      final squeeze. */
  predicate IsCiphertext(sp: SpongeOps, key: Felt, m: seq<Felt>, ct: seq<Felt>)
  {
    var n := |m|;
    && |ct| == n + 1
    && (forall i :: 0 <= i < n ==> ct[i] == Add(m[i], Keystream(sp, Keyed(sp, key), ct[..n], n, i)))
    && ct[n] == Keystream(sp, Keyed(sp, key), ct[..n], n, n)
  }

  /** What decryption returns: an authentication error for an empty input
      or a tag that the replayed sponge does not reproduce, otherwise each
      chunk minus its keystream element. */
  function Decryption(sp: SpongeOps, key: Felt, ct: seq<Felt>): Result<seq<Felt>>
  {
    if ct == [] then Failure(AuthenticationError)
    else
      var n := |ct| - 1;
      var c := ct[..n];
      var s0 := Keyed(sp, key);
      if Keystream(sp, s0, c, n, n) != ct[n] then Failure(AuthenticationError)
      else Success(seq(n, i requires 0 <= i < n => Sub(c[i], Keystream(sp, s0, c, n, i))))
  }

  /** The encrypt loop of src/ReEncrypt.test.ts:181-197 and src/Add.test.ts:101-117,
      for a sponge keyed by `key`. */
  method Encrypt(sp: SpongeOps, key: Felt, message: seq<Felt>) returns (cipherText: seq<Felt>)
    ensures IsCiphertext(sp, key, message, cipherText)
  {
    var n := |message|;
    var sponge := Keyed(sp, key);
    ghost var s0 := sponge;
    var c: seq<Felt> := [];
    var i := 0;
    while i < n
      invariant 0 <= i <= n && |c| == i
      invariant sponge == StateAt(sp, s0, c, n, i)
      invariant forall j :: 0 <= j < i ==> c[j] == Add(message[j], Keystream(sp, s0, c, n, j))
    {
      ghost var cBefore, spongeBefore := c, sponge;
      var squeezed := sp.squeeze(sponge);
      sponge := squeezed.0;
      var keyStream := squeezed.1;
      var encryptedChunk := Add(message[i], keyStream);
      c := c + [encryptedChunk];
      // absorb for the auth tag, two at a time
      if i % 2 == 1 {
        sponge := sp.absorb(sponge, c[i - 1]);
      }
      if i % 2 == 1 || i == n - 1 {
        sponge := sp.absorb(sponge, c[i]);
      }
      assert sponge == StepState(sp, spongeBefore, c, n, i);
      EncryptStep(sp, s0, message, cBefore, n, encryptedChunk);
      i := i + 1;
    }
    var authenticationTag := sp.squeeze(sponge).1;
    cipherText := c + [authenticationTag];
    AppendTag(sp, key, message, c, authenticationTag);
  }

  /** The decrypt loop with the tag check of src/ReEncrypt.test.ts:280-294:
      the tag is popped, the same calls are replayed, and the recomputed
      tag must equal the popped one. */
  method Decrypt(sp: SpongeOps, key: Felt, cipherText: seq<Felt>) returns (r: Result<seq<Felt>>)
    ensures r == Decryption(sp, key, cipherText)
  {
    if cipherText == [] {
      return Failure(AuthenticationError);
    }
    var n := |cipherText| - 1;
    var authenticationTag := cipherText[n];
    var c := cipherText[..n];
    var sponge := Keyed(sp, key);
    ghost var s0 := sponge;
    var message: seq<Felt> := [];
    var i := 0;
    while i < n
      invariant 0 <= i <= n && |message| == i
      invariant sponge == StateAt(sp, s0, c, n, i)
      invariant forall j :: 0 <= j < i ==> message[j] == Sub(c[j], Keystream(sp, s0, c, n, j))
    {
      ghost var spongeBefore := sponge;
      var squeezed := sp.squeeze(sponge);
      sponge := squeezed.0;
      var messageChunk := Sub(c[i], squeezed.1);
      message := message + [messageChunk];
      if i % 2 == 1 {
        sponge := sp.absorb(sponge, c[i - 1]);
      }
      if i % 2 == 1 || i == n - 1 {
        sponge := sp.absorb(sponge, c[i]);
      }
      assert sponge == StepState(sp, spongeBefore, c, n, i);
      DecryptStep(sp, s0, c, n, message[..i], messageChunk);
      assert message == message[..i] + [messageChunk];
      i := i + 1;
    }
    if sp.squeeze(sponge).1 != authenticationTag {
      return Failure(AuthenticationError);
    }
    DecryptedAll(sp, s0, c, n, message);
    r := Success(message);
  }

  /** Chunks that satisfy the encrypt loop's invariant for the whole
      message, followed by the final squeeze, form a ciphertext. */
  lemma AppendTag(sp: SpongeOps, key: Felt, m: seq<Felt>, c: seq<Felt>, tag: Felt)
    requires |c| == |m|
    requires forall j :: 0 <= j < |c| ==> c[j] == Add(m[j], Keystream(sp, Keyed(sp, key), c, |m|, j))
    requires tag == Keystream(sp, Keyed(sp, key), c, |m|, |m|)
    ensures IsCiphertext(sp, key, m, c + [tag])
  {
    assert (c + [tag])[..|m|] == c;
  }

  /** One more encrypted chunk keeps the encrypt loop's invariant: every
      chunk so far is its message chunk plus its keystream element, and the
      state before the next iteration is one iteration on from the last. */
  lemma EncryptStep(sp: SpongeOps, s0: SpongeState, m: seq<Felt>, c: seq<Felt>, n: int, x: Felt)
    requires |c| < |m|
    requires forall j :: 0 <= j < |c| ==> c[j] == Add(m[j], Keystream(sp, s0, c, n, j))
    requires x == Add(m[|c|], Keystream(sp, s0, c, n, |c|))
    ensures forall j :: 0 <= j <= |c| ==> (c + [x])[j] == Add(m[j], Keystream(sp, s0, c + [x], n, j))
    ensures StateAt(sp, s0, c + [x], n, |c| + 1) == StepState(sp, StateAt(sp, s0, c, n, |c|), c + [x], n, |c|)
  {
    ExtendCiphertext(sp, s0, c, x, n);
  }

  /** One more decrypted chunk keeps the decrypt loop's invariant. */
  lemma DecryptStep(sp: SpongeOps, s0: SpongeState, c: seq<Felt>, n: int, m: seq<Felt>, x: Felt)
    requires |m| < |c|
    requires forall j :: 0 <= j < |m| ==> m[j] == Sub(c[j], Keystream(sp, s0, c, n, j))
    requires x == Sub(c[|m|], Keystream(sp, s0, c, n, |m|))
    ensures forall j :: 0 <= j <= |m| ==> (m + [x])[j] == Sub(c[j], Keystream(sp, s0, c, n, j))
    ensures StateAt(sp, s0, c, n, |m| + 1) == StepState(sp, StateAt(sp, s0, c, n, |m|), c, n, |m|)
  {
  }

  /** Chunks that satisfy the decrypt loop's invariant for every chunk are
      the plaintext that `Decryption` describes. */
  lemma DecryptedAll(sp: SpongeOps, s0: SpongeState, c: seq<Felt>, n: int, m: seq<Felt>)
    requires |m| == |c| == n
    requires forall j :: 0 <= j < |m| ==> m[j] == Sub(c[j], Keystream(sp, s0, c, n, j))
    ensures m == seq(n, j requires 0 <= j < n => Sub(c[j], Keystream(sp, s0, c, n, j)))
  {
  }

  /** Appending a chunk to the ciphertext leaves the states and keystream
      elements of the iterations already done as they were. */
  lemma ExtendCiphertext(sp: SpongeOps, s0: SpongeState, c: seq<Felt>, x: Felt, n: int)
    ensures StateAt(sp, s0, c + [x], n, |c|) == StateAt(sp, s0, c, n, |c|)
    ensures forall j :: 0 <= j <= |c| ==> Keystream(sp, s0, c + [x], n, j) == Keystream(sp, s0, c, n, j)
  {
    var c' := c + [x];
    assert c <= c';
    forall j | 0 <= j <= |c|
      ensures StateAt(sp, s0, c', n, j) == StateAt(sp, s0, c, n, j)
    {
      StateAtPrefix(sp, s0, c, c', n, j);
    }
  }

  /** The state before iteration k depends only on the first k chunks. */
  lemma {:induction false} StateAtPrefix(sp: SpongeOps, s0: SpongeState, c1: seq<Felt>, c2: seq<Felt>, n: int, k: nat)
    requires k <= |c1| && c1 <= c2
    ensures StateAt(sp, s0, c1, n, k) == StateAt(sp, s0, c2, n, k)
    decreases k
  {
    if k > 0 {
      StateAtPrefix(sp, s0, c1, c2, n, k - 1);
      assert c1[k - 1] == c2[k - 1];
      assert k - 1 >= 1 ==> c1[k - 2] == c2[k - 2];
    }
  }

  /** Performing the calls of the first k iterations reaches StateAt k. */
  lemma {:induction false} RunLoopOps(sp: SpongeOps, s0: SpongeState, c: seq<Felt>, n: int, k: nat)
    requires k <= |c|
    ensures Run(sp, s0, LoopOps(c, n, k)) == StateAt(sp, s0, c, n, k)
    decreases k
  {
    if k > 0 {
      RunLoopOps(sp, s0, c, n, k - 1);
      RunOneMoreStep(sp, s0, c, n, k);
    }
  }

  /** If the first k - 1 iterations reach StateAt (k - 1), the first k reach StateAt k. */
  lemma RunOneMoreStep(sp: SpongeOps, s0: SpongeState, c: seq<Felt>, n: int, k: nat)
    requires 0 < k <= |c|
    requires Run(sp, s0, LoopOps(c, n, k - 1)) == StateAt(sp, s0, c, n, k - 1)
    ensures Run(sp, s0, LoopOps(c, n, k)) == StateAt(sp, s0, c, n, k)
  {
    var prev, step := LoopOps(c, n, k - 1), StepOps(c, n, k - 1);
    assert LoopOps(c, n, k) == prev + step;
    RunAppend(sp, s0, prev, step);
    RunStepOps(sp, StateAt(sp, s0, c, n, k - 1), c, n, k - 1);
  }

  /** Running one iteration's calls: squeeze, then the scheduled absorbs. */
  lemma RunStepOps(sp: SpongeOps, s: SpongeState, c: seq<Felt>, n: int, i: nat)
    requires i < |c|
    ensures Run(sp, s, StepOps(c, n, i)) == StepState(sp, s, c, n, i)
  {
    var a: seq<Op> := if i % 2 == 1 then [Absorb(c[i - 1])] else [];
    var b: seq<Op> := if i % 2 == 1 || i == n - 1 then [Absorb(c[i])] else [];
    assert StepOps(c, n, i) == [Squeeze] + a + b;
    RunAppend(sp, s, [Squeeze] + a, b);
    RunAppend(sp, s, [Squeeze], a);
    assert [Squeeze][..0] == [];
    var s1 := Run(sp, s, [Squeeze]);
    if a != [] {
      assert a[..0] == [];
    }
    var s2 := Run(sp, s1, a);
    if b != [] {
      assert b[..0] == [];
    }
  }

  /** The calls of fewer iterations are a prefix of the calls of more. */
  lemma {:induction false} LoopOpsGrow(c: seq<Felt>, n: int, i: nat, k: nat)
    requires i <= k <= |c|
    ensures LoopOps(c, n, i) <= LoopOps(c, n, k)
    decreases k
  {
    if i < k {
      LoopOpsGrow(c, n, i, k - 1);
    }
  }

  /** Absorbs of one iteration. */
  lemma AbsorbedStep(c: seq<Felt>, n: int, i: nat)
    requires i < |c|
    ensures Absorbed(StepOps(c, n, i)) ==
      (if i % 2 == 1 then [c[i - 1]] else []) + (if i % 2 == 1 || i == n - 1 then [c[i]] else [])
    ensures Squeezes(StepOps(c, n, i)) == 1
  {
    var a: seq<Op> := if i % 2 == 1 then [Absorb(c[i - 1])] else [];
    var b: seq<Op> := if i % 2 == 1 || i == n - 1 then [Absorb(c[i])] else [];
    assert StepOps(c, n, i) == [Squeeze] + a + b;
    AbsorbedAppend([Squeeze] + a, b);
    AbsorbedAppend([Squeeze], a);
    SqueezesAppend([Squeeze] + a, b);
    SqueezesAppend([Squeeze], a);
    assert [Squeeze][..0] == [];
    if a != [] {
      assert a[..0] == [];
    }
    if b != [] {
      assert b[..0] == [];
    }
  }

  /** How many chunks the sponge has absorbed after k of the n iterations:
      all of them once the loop is over, otherwise those of completed pairs. */
  function AbsorbedCount(n: nat, k: nat): nat
    requires k <= n
  {
    if k == n then n else k - k % 2
  }

  /** One iteration's absorbs extend the absorbed prefix of the chunks. */
  lemma AbsorbedPrefixGrows(c: seq<Felt>, i: nat)
    requires i < |c|
    ensures c[..AbsorbedCount(|c|, i)]
          + ((if i % 2 == 1 then [c[i - 1]] else []) + (if i % 2 == 1 || i == |c| - 1 then [c[i]] else []))
         == c[..AbsorbedCount(|c|, i + 1)]
  {
    if i % 2 == 1 {
      assert c[..i + 1] == c[..i - 1] + [c[i - 1]] + [c[i]];
    } else if i == |c| - 1 {
      assert c[..i + 1] == c[..i] + [c[i]];
    }
  }

  /** After k of the n iterations the sponge has absorbed, once each and
      in order, the chunks of every completed pair; after all n it has
      absorbed every chunk. It has squeezed once per iteration. */
  lemma {:induction false} LoopAbsorbs(c: seq<Felt>, k: nat)
    requires k <= |c|
    ensures Absorbed(LoopOps(c, |c|, k)) == c[..AbsorbedCount(|c|, k)]
    ensures Squeezes(LoopOps(c, |c|, k)) == k
    decreases k
  {
    var n := |c|;
    if k > 0 {
      var i := k - 1;
      var prev, step := LoopOps(c, n, i), StepOps(c, n, i);
      calc {
        Absorbed(LoopOps(c, n, k));
        Absorbed(prev + step);
        { AbsorbedAppend(prev, step); }
        Absorbed(prev) + Absorbed(step);
        { LoopAbsorbs(c, i); AbsorbedStep(c, n, i); }
        c[..AbsorbedCount(n, i)]
          + ((if i % 2 == 1 then [c[i - 1]] else []) + (if i % 2 == 1 || i == n - 1 then [c[i]] else []));
        { AbsorbedPrefixGrows(c, i); }
        c[..AbsorbedCount(n, k)];
      }
      calc {
        Squeezes(LoopOps(c, n, k));
        Squeezes(prev + step);
        { SqueezesAppend(prev, step); }
        Squeezes(prev) + Squeezes(step);
        { LoopAbsorbs(c, i); AbsorbedStep(c, n, i); }
        k;
      }
    }
  }

  /** The central property of the absorb schedule: from keying to the tag,
      the sponge absorbs the key and then every ciphertext chunk exactly
      once and in increasing order, and squeezes once per chunk plus once
      for the tag. */
  lemma ScheduleAbsorbsEachChunkOnceInOrder(key: Felt, c: seq<Felt>)
    ensures Absorbed(Trace(key, c)) == [key] + c
    ensures Squeezes(Trace(key, c)) == |c| + 1
  {
    var loop := LoopOps(c, |c|, |c|);
    LoopAbsorbs(c, |c|);
    AbsorbedAppend([Absorb(key)] + loop, [Squeeze]);
    AbsorbedAppend([Absorb(key)], loop);
    SqueezesAppend([Absorb(key)] + loop, [Squeeze]);
    SqueezesAppend([Absorb(key)], loop);
    assert [Absorb(key)][..0] == [];
    assert [Squeeze][..0] == [];
    assert c[..|c|] == c;
  }

  /** Keying and then the first i iterations reach StateAt i. */
  lemma RunKeyedLoop(sp: SpongeOps, key: Felt, c: seq<Felt>, i: nat)
    requires i <= |c|
    ensures Run(sp, sp.init, [Absorb(key)] + LoopOps(c, |c|, i)) == StateAt(sp, Keyed(sp, key), c, |c|, i)
  {
    RunAppend(sp, sp.init, [Absorb(key)], LoopOps(c, |c|, i));
    assert [Absorb(key)][..0] == [];
    RunLoopOps(sp, Keyed(sp, key), c, |c|, i);
  }

  /** Keying and the first i iterations squeeze i times. */
  lemma SqueezesKeyedLoop(key: Felt, c: seq<Felt>, i: nat)
    requires i <= |c|
    ensures Squeezes([Absorb(key)] + LoopOps(c, |c|, i)) == i
  {
    SqueezesAppend([Absorb(key)], LoopOps(c, |c|, i));
    assert [Absorb(key)][..0] == [];
    LoopAbsorbs(c, i);
  }

  /** Keying, the first i iterations and one squeeze are a prefix of the run. */
  lemma KeyedLoopIsTracePrefix(key: Felt, c: seq<Felt>, i: nat)
    requires i <= |c|
    ensures [Absorb(key)] + LoopOps(c, |c|, i) + [Squeeze] <= Trace(key, c)
  {
    var n := |c|;
    var loop := LoopOps(c, n, i);
    if i < n {
      LoopOpsGrow(c, n, i + 1, n);
      assert LoopOps(c, n, i + 1) == loop + StepOps(c, n, i);
      assert LoopOps(c, n, i + 1)[..|loop| + 1] == loop + [Squeeze];
    }
    assert loop + [Squeeze] <= LoopOps(c, n, n) + [Squeeze];
    assert [Absorb(key)] + loop + [Squeeze] == [Absorb(key)] + (loop + [Squeeze]);
  }

  /** Keystream element i (and, for i = n, the tag) is the output of the
      squeeze numbered i, counting from 0, in the trace of the whole run. */
  lemma KeystreamIsSqueezeNumber(sp: SpongeOps, key: Felt, c: seq<Felt>, i: nat)
    requires i <= |c|
    ensures var before := [Absorb(key)] + LoopOps(c, |c|, i);
      && before + [Squeeze] <= Trace(key, c)
      && Squeezes(before) == i
      && Keystream(sp, Keyed(sp, key), c, |c|, i) == sp.squeeze(Run(sp, sp.init, before)).1
  {
    RunKeyedLoop(sp, key, c, i);
    SqueezesKeyedLoop(key, c, i);
    KeyedLoopIsTracePrefix(key, c, i);
  }

  /** Two encryptions of one message under one key agree on every prefix. */
  lemma {:induction false} CiphertextPrefixDetermined(sp: SpongeOps, key: Felt, m: seq<Felt>, ct1: seq<Felt>, ct2: seq<Felt>, k: nat)
    requires IsCiphertext(sp, key, m, ct1) && IsCiphertext(sp, key, m, ct2)
    requires k <= |m|
    ensures ct1[..k] == ct2[..k]
    decreases k
  {
    if k > 0 {
      CiphertextPrefixDetermined(sp, key, m, ct1, ct2, k - 1);
      var n, s0 := |m|, Keyed(sp, key);
      NextChunkAgrees(sp, s0, m[k - 1], ct1[..n], ct2[..n], n, k);
      assert ct1[..k] == ct1[..n][..k] && ct2[..k] == ct2[..n][..k];
    }
  }

  /** Two chunk sequences that agree before chunk k - 1 and each hold
      message chunk x plus their own keystream element there agree on
      chunk k - 1 too: that keystream element depends only on the chunks before it. */
  lemma NextChunkAgrees(sp: SpongeOps, s0: SpongeState, x: Felt, c1: seq<Felt>, c2: seq<Felt>, n: int, k: nat)
    requires 0 < k <= |c1| && k <= |c2| && c1[..k - 1] == c2[..k - 1]
    requires c1[k - 1] == Add(x, Keystream(sp, s0, c1, n, k - 1))
    requires c2[k - 1] == Add(x, Keystream(sp, s0, c2, n, k - 1))
    ensures c1[..k] == c2[..k]
  {
    var shared := c1[..k - 1];
    StateAtPrefix(sp, s0, shared, c1, n, k - 1);
    StateAtPrefix(sp, s0, shared, c2, n, k - 1);
    assert c1[..k] == shared + [c1[k - 1]];
    assert c2[..k] == c2[..k - 1] + [c2[k - 1]];
  }

  /** Encryption is a function of the key and the message: the ciphertext
      and its tag are determined uniquely. */
  lemma EncryptionIsDeterministic(sp: SpongeOps, key: Felt, m: seq<Felt>, ct1: seq<Felt>, ct2: seq<Felt>)
    requires IsCiphertext(sp, key, m, ct1) && IsCiphertext(sp, key, m, ct2)
    ensures ct1 == ct2
  {
    var n := |m|;
    CiphertextPrefixDetermined(sp, key, m, ct1, ct2, n);
    assert ct1 == ct1[..n] + [ct1[n]];
    assert ct2 == ct2[..n] + [ct2[n]];
  }

  /** Decrypting with the same key recovers the message and reproduces the
      tag exactly when the input is an encryption of that message. */
  lemma DecryptionInvertsEncryption(sp: SpongeOps, key: Felt, m: seq<Felt>, ct: seq<Felt>)
    ensures IsCiphertext(sp, key, m, ct) <==> Decryption(sp, key, ct) == Success(m)
  {
    var s0 := Keyed(sp, key);
    if IsCiphertext(sp, key, m, ct) {
      var n := |m|;
      var c := ct[..n];
      var plain := seq(n, i requires 0 <= i < n => Sub(c[i], Keystream(sp, s0, c, n, i)));
      forall i | 0 <= i < n
        ensures plain[i] == m[i]
      {
        SubCancelsAdd(m[i], Keystream(sp, s0, c, n, i));
      }
      assert plain == m;
    }
    if Decryption(sp, key, ct) == Success(m) {
      var n := |ct| - 1;
      var c := ct[..n];
      forall i | 0 <= i < n
        ensures ct[i] == Add(m[i], Keystream(sp, s0, c, n, i))
      {
        AddCancelsSub(c[i], Keystream(sp, s0, c, n, i));
      }
    }
  }

  /** Changing only the tag of a ciphertext makes decryption fail: the
      replayed sponge reproduces the original tag, never a different one. */
  lemma ForgedTagIsRejected(sp: SpongeOps, key: Felt, m: seq<Felt>, ct: seq<Felt>, forged: seq<Felt>)
    requires IsCiphertext(sp, key, m, ct)
    requires |forged| == |ct| && forged[..|m|] == ct[..|m|] && forged[|m|] != ct[|m|]
    ensures Decryption(sp, key, forged) == Failure(AuthenticationError)
  {
  }
}
