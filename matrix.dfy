/** 4x4 transforms, kept symbolic.
    The viewer only ever builds matrices from four constructors (translate,
    quaternion rotation, scale, and a raw 16-element array) and multiplies
    them. A matrix is modelled as the word of those constructors it was
    multiplied from: `Identity` is the empty word and `Mul` concatenates.
    This is the free monoid on the constructors, so every fact proved here
    holds for real 4x4 matrices under any interpretation of the
    constructors, since matrix multiplication is associative with the
    identity as unit. */
module Matrix {

  /** One uninterpreted matrix constructor and its numeric arguments. */
  datatype Factor =
    | Translate(tx: real, ty: real, tz: real)
    | Rotate(qw: real, qx: real, qy: real, qz: real)
    | Scale(sx: real, sy: real, sz: real)
    | FromArray16(elements: seq<real>)

  datatype Mat = Mat(factors: seq<Factor>)

  function Identity(): Mat { Mat([]) }

  /** The matrix built by one constructor. */
  function Of(f: Factor): Mat { Mat([f]) }

  function Mul(a: Mat, b: Mat): Mat { Mat(a.factors + b.factors) }

  lemma MulAssociative(a: Mat, b: Mat, c: Mat)
    ensures Mul(Mul(a, b), c) == Mul(a, Mul(b, c))
  {
  }

  lemma IdentityIsUnit(a: Mat)
    ensures Mul(Identity(), a) == a && Mul(a, Identity()) == a
  {
  }

  /** Left-to-right product `Identity * s[0] * ... * s[|s|-1]`. */
  function Product(s: seq<Mat>): Mat
    decreases |s|
  {
    if s == [] then Identity() else Mul(Product(s[..|s| - 1]), s[|s| - 1])
  }

  /** The product is a monoid homomorphism from stacks to matrices. */
  lemma {:induction false} ProductAppend(s: seq<Mat>, t: seq<Mat>)
    ensures Product(s + t) == Mul(Product(s), Product(t))
    decreases |t|
  {
    if t == [] {
      assert s + t == s;
    } else {
      var t' := t[..|t| - 1];
      assert (s + t)[..|s + t| - 1] == s + t';
      ProductAppend(s, t');
      MulAssociative(Product(s), Product(t'), t[|t| - 1]);
    }
  }
}
