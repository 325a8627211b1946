/** `Poseidon.Sponge` as a state value with uninterpreted `absorb` and
    `squeeze`, and the semantics of a trace of sponge operations. Because
    the sponge is deterministic, two runs that perform the same trace from
    the same state end in the same state and squeeze the same values. */
module Sponge {
  import opened Field

  /** The internal state of a Poseidon sponge. */
  type SpongeState

  /** `new Poseidon.Sponge()`, `sponge.absorb(x)` and `sponge.squeeze()`. */
  datatype SpongeOps = SpongeOps(
    init: SpongeState,
    absorb: (SpongeState, Felt) -> SpongeState,
    squeeze: SpongeState -> (SpongeState, Felt))

  /** One call on a sponge. */
  datatype Op = Absorb(x: Felt) | Squeeze

  function Apply(sp: SpongeOps, s: SpongeState, op: Op): SpongeState
  {
    match op
    case Absorb(x) => sp.absorb(s, x)
    case Squeeze => sp.squeeze(s).0
  }

  /** The state reached from `s` by performing `ops` in order. */
  function Run(sp: SpongeOps, s: SpongeState, ops: seq<Op>): SpongeState
    decreases |ops|
  {
    if ops == [] then s else Apply(sp, Run(sp, s, ops[..|ops| - 1]), ops[|ops| - 1])
  }

  /** The values a trace absorbs, in the order it absorbs them. */
  function Absorbed(ops: seq<Op>): seq<Felt>
    decreases |ops|
  {
    if ops == [] then []
    else
      var last := ops[|ops| - 1];
      Absorbed(ops[..|ops| - 1]) + (if last.Absorb? then [last.x] else [])
  }

  /** The number of squeezes in a trace. */
  function Squeezes(ops: seq<Op>): nat
    decreases |ops|
  {
    if ops == [] then 0 else Squeezes(ops[..|ops| - 1]) + (if ops[|ops| - 1].Squeeze? then 1 else 0)
  }

  /** Running a concatenation is running its parts one after the other. */
  lemma {:induction false} RunAppend(sp: SpongeOps, s: SpongeState, a: seq<Op>, b: seq<Op>)
    ensures Run(sp, s, a + b) == Run(sp, Run(sp, s, a), b)
    decreases |b|
  {
    if b == [] {
      assert a + b == a;
    } else {
      var b' := b[..|b| - 1];
      assert (a + b)[..|a + b| - 1] == a + b';
      RunAppend(sp, s, a, b');
    }
  }

  /** The absorbed values of a concatenation are those of its parts. */
  lemma {:induction false} AbsorbedAppend(a: seq<Op>, b: seq<Op>)
    ensures Absorbed(a + b) == Absorbed(a) + Absorbed(b)
    decreases |b|
  {
    if b == [] {
      assert a + b == a;
    } else {
      var b' := b[..|b| - 1];
      assert (a + b)[..|a + b| - 1] == a + b';
      AbsorbedAppend(a, b');
    }
  }

  /** The squeezes of a concatenation are those of its parts. */
  lemma {:induction false} SqueezesAppend(a: seq<Op>, b: seq<Op>)
    ensures Squeezes(a + b) == Squeezes(a) + Squeezes(b)
    decreases |b|
  {
    if b == [] {
      assert a + b == a;
    } else {
      var b' := b[..|b| - 1];
      assert (a + b)[..|a + b| - 1] == a + b';
      SqueezesAppend(a, b');
    }
  }
}
