/** The dimension rule of `resize_image` in image_to_text/src/lib.rs: the
    longer side is scaled to 600 pixels and the other side in proportion,
    rounded down. Widths and heights are `u32`, and so is the arithmetic:
    `600 * side` overflows past 2^32 - 1, which panics in a build with
    overflow checks, and a zero height in the second branch divides by
    zero. */
module ImageToText {
  import opened Common

  const Target: nat := 600

  /** The new `(width, height)`, or the panic of the `u32` arithmetic. */
  function NewDimensions(width: nat, height: nat): (r: Run<(nat, nat)>)
    requires width < U32_MODULUS && height < U32_MODULUS
    ensures r.Done? ==> r.value.0 < U32_MODULUS && r.value.1 < U32_MODULUS
  {
    if width > height then
      if Target * height >= U32_MODULUS then Panicked
      else
        QuotientAtMost(Target * height, width);
        Done((Target, Target * height / width))
    else
      if Target * width >= U32_MODULUS then Panicked
      else if height == 0 then Panicked
      else
        QuotientAtMost(Target * width, height);
        Done((Target * width / height, Target))
  }

  lemma QuotientAtMost(a: nat, c: nat)
    requires 0 < c
    ensures a / c <= a
  {
    ScaledDown(1, a, c);
    assert 1 * a == a;
  }

  /** The rule panics exactly on a 0 x 0 image, or when the shorter side
      times 600 does not fit in `u32`. */
  lemma PanicsExactly(width: nat, height: nat)
    requires width < U32_MODULUS && height < U32_MODULUS
    ensures NewDimensions(width, height).Panicked? <==>
      (width == 0 && height == 0) || Target * Min(width, height) >= U32_MODULUS
  {
  }

  /** `a * b / c` bounds: for `a <= c` the quotient is at most `b`, and it is
      the largest `q` with `q * c <= a * b`. */
  lemma ScaledDown(a: nat, b: nat, c: nat)
    requires 0 < c && a <= c
    ensures a * b / c <= b
    ensures (a * b / c) * c <= a * b < (a * b / c + 1) * c
  {
    var q := a * b / c;
    assert q * c + a * b % c == a * b;
  }

  /** On every image the rule can handle, the longer side becomes exactly
      600, the other side at most 600, and the other side is the proportional
      length rounded down: the largest whole number of pixels that keeps the
      image no wider, relative to its height, than the original. */
  lemma LongerSideIs600(width: nat, height: nat)
    requires width < U32_MODULUS && height < U32_MODULUS
    requires NewDimensions(width, height).Done?
    ensures var (w, h) := NewDimensions(width, height).value;
      w <= Target && h <= Target &&
      (width > height ==> w == Target && h * width <= Target * height < (h + 1) * width) &&
      (width <= height ==> h == Target && w * height <= Target * width < (w + 1) * height)
  {
    if width > height {
      ScaledDown(height, Target, width);
    } else {
      ScaledDown(width, Target, height);
    }
  }

  /** A square image becomes 600 x 600. */
  lemma SquareTo600(side: nat)
    requires 0 < side && Target * side < U32_MODULUS
    ensures NewDimensions(side, side) == Done((Target, Target))
  {
    assert Target * side / side == Target;
  }
}
