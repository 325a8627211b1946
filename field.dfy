/** The two prime fields of the Pallas curve that snarkyjs works over:
    the base field, whose elements are the contract's `Field` values
    (plaintext and ciphertext chunks, hashes, tags, roots, indices), and
    the scalar field, whose elements are `Scalar`s (private keys,
    blinding factors). Both are integers reduced modulo their prime. */
module Field {

  /** Order of the Pallas base field. */
  const P: int := 0x40000000000000000000000000000000224698fc094cf91b992d30ed00000001

  /** Order of the Pallas scalar field (the order of the curve group). */
  const Q: int := 0x40000000000000000000000000000000224698fc0994a8dd8c46eb2100000001

  type Felt = x: int | 0 <= x < P

  type Scalar = x: int | 0 <= x < Q

  /** `Field.add`: addition modulo P. */
  function Add(a: Felt, b: Felt): Felt
  {
    (a + b) % P
  }

  /** `Field.sub`: subtraction modulo P (Dafny's `%` never yields a negative value). */
  function Sub(a: Felt, b: Felt): Felt
  {
    (a - b) % P
  }

  /** Multiplication in the scalar field. */
  function ScalarMul(a: Scalar, b: Scalar): Scalar
  {
    (a * b) % Q
  }

  /** Removing a keystream element undoes adding it. */
  lemma SubCancelsAdd(a: Felt, b: Felt)
    ensures Sub(Add(a, b), b) == a
  {
  }

  /** Adding a keystream element back undoes removing it. */
  lemma AddCancelsSub(a: Felt, b: Felt)
    ensures Add(Sub(a, b), b) == a
  {
  }

  /** Adding a non-zero element always changes the value. */
  lemma AddNonZeroChanges(a: Felt, b: Felt)
    requires b != 0
    ensures Add(a, b) != a
  {
  }

  /** Reducing before or after adding an integer gives the same residue. */
  lemma ModAddShift(a: int, b: int)
    ensures ((a % P) + b) % P == (a + b) % P
  {
  }

  /** `a` incremented `n` times with `Add(_, 1)`. */
  function Offset(a: Felt, n: nat): Felt
    decreases n
  {
    if n == 0 then a else Add(Offset(a, n - 1), 1)
  }

  /** Incrementing first and then `n` more times is incrementing `n + 1` times. */
  lemma {:induction false} OffsetShift(a: Felt, n: nat)
    ensures Offset(Add(a, 1), n) == Offset(a, n + 1)
    decreases n
  {
    if n > 0 {
      OffsetShift(a, n - 1);
    }
  }

  /** `n` increments add `n` modulo `P`. */
  lemma {:induction false} OffsetIsMod(a: Felt, n: nat)
    ensures Offset(a, n) == (a + n) % P
    decreases n
  {
    if n > 0 {
      OffsetIsMod(a, n - 1);
      ModAddShift(a + n - 1, 1);
    }
  }
}
