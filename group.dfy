/** The elliptic-curve group (`Group` in snarkyjs) as an abstract additive
    group with scalar multiplication. Nothing about the curve
    itself is modelled: every property proved from here on holds in any
    structure that satisfies `Laws`. */
module Group {
  import opened Field

  /** A curve point. */
  type Point(!new)

  /** The group operations: `Group.zero`, `Group.generator`, `add`, `neg`, `scale`. */
  datatype GroupOps = GroupOps(
    zero: Point,
    generator: Point,
    add: (Point, Point) -> Point,
    neg: Point -> Point,
    scale: (Point, Scalar) -> Point)

  /** `Group.sub`: adding the negation. */
  function Sub(g: GroupOps, a: Point, b: Point): Point
  {
    g.add(a, g.neg(b))
  }

  /** The group facts the model relies on: subtracting a point undoes
      adding it, and scaling twice is scaling by the product (the curve
      group has the order of the scalar field). Both hold in the curve
      group; they are stated in this rewriting form so that the solver
      cannot chain them without end. */
  ghost predicate Laws(g: GroupOps)
  {
    && (forall a, b :: g.add(g.add(a, b), g.neg(b)) == a)
    && (forall p, x, y :: g.scale(g.scale(p, x), y) == g.scale(p, ScalarMul(x, y)))
  }

  /** `(a + b) - b = a`. */
  lemma SubCancelsAdd(g: GroupOps, a: Point, b: Point)
    requires Laws(g)
    ensures Sub(g, g.add(a, b), b) == a
  {
  }

  /** Scaling by x then y is scaling by y then x. */
  lemma ScaleCommutes(g: GroupOps, p: Point, x: Scalar, y: Scalar)
    requires Laws(g)
    ensures g.scale(g.scale(p, x), y) == g.scale(g.scale(p, y), x)
  {
    calc {
      g.scale(g.scale(p, x), y);
      g.scale(p, ScalarMul(x, y));
      g.scale(p, ScalarMul(y, x));
      g.scale(g.scale(p, y), x);
    }
  }
}
