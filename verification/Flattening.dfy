/** Row-major flattening of multi-dimensional arrays: index vectors against flat indexes. */
module Flattening {

  /** The number of cells of an array of these dimensions. */
  function Product(dims: seq<nat>): (n: nat) {
    if dims == [] then 1 else dims[0] * Product(dims[1..])
  }

  /** An index vector for the first |ix| dimensions. */
  predicate InBounds(dims: seq<nat>, ix: seq<nat>) {
    |ix| <= |dims| && forall i | 0 <= i < |ix| :: ix[i] < dims[i]
  }

  /** The flat index of the first cell whose index vector starts with `ix`. */
  function Offset(dims: seq<nat>, ix: seq<nat>): nat
    requires InBounds(dims, ix)
  {
    if ix == [] then 0 else ix[0] * Product(dims[1..]) + Offset(dims[1..], ix[1..])
  }

  /** The index vector of flat index `k`. */
  function Unravel(dims: seq<nat>, k: nat): (ix: seq<nat>)
    requires k < Product(dims)
    ensures |ix| == |dims|
  {
    if dims == [] then [] else
      var inner := Product(dims[1..]);
      QuotientBound(k, dims[0], inner);
      [k / inner] + Unravel(dims[1..], k % inner)
  }

  lemma QuotientBound(k: nat, a: nat, b: nat)
    requires k < a * b
    ensures b > 0 && k / b < a
  {
    assert b != 0;
    var q := k / b;
    assert k == q * b + k % b;
    if q >= a {
      MulMono(a, q, b);
      assert false;
    }
  }

  lemma MulMono(a: nat, b: nat, c: nat)
    requires a <= b
    ensures a * c <= b * c
  {
    assert (b - a) * c >= 0;
    assert b * c == a * c + (b - a) * c;
  }

  /** Adding one more index moves by that many inner blocks. */
  lemma {:induction false} OffsetSnoc(dims: seq<nat>, ix: seq<nat>, i: nat)
    requires |ix| < |dims| && InBounds(dims, ix) && i < dims[|ix|]
    ensures InBounds(dims, ix + [i])
    ensures Offset(dims, ix + [i]) == Offset(dims, ix) + i * Product(dims[|ix| + 1..])
  {
    if ix == [] {
      assert ([i])[1..] == [];
      assert ix + [i] == [i];
    } else {
      OffsetSnoc(dims[1..], ix[1..], i);
      assert (ix + [i])[1..] == ix[1..] + [i];
      assert dims[1..][|ix[1..]| + 1..] == dims[|ix| + 1..];
    }
  }

  lemma RowFits(i: nat, rows: nat, width: nat, end: nat)
    requires i < rows && end <= width
    ensures i * width + end <= rows * width
  {
    MulMono(i + 1, rows, width);
    assert (i + 1) * width == i * width + width;
  }

  /** The block of cells below an index vector lies inside the array. */
  lemma {:induction false} BlockFits(dims: seq<nat>, ix: seq<nat>)
    requires InBounds(dims, ix)
    ensures Offset(dims, ix) + Product(dims[|ix|..]) <= Product(dims)
  {
    if ix == [] {
      assert dims[0..] == dims;
    } else {
      BlockFits(dims[1..], ix[1..]);
      assert dims[1..][|ix[1..]|..] == dims[|ix|..];
      RowFits(ix[0], dims[0], Product(dims[1..]), Offset(dims[1..], ix[1..]) + Product(dims[|ix|..]));
    }
  }

  lemma Parts(k: nat, b: nat, q: nat, r: nat)
    requires b > 0 && q == k / b && r == k % b
    ensures k == q * b + r && r < b
  {
  }

  lemma OffsetCons(dims: seq<nat>, i: nat, rest: seq<nat>)
    requires dims != [] && i < dims[0] && InBounds(dims[1..], rest)
    ensures InBounds(dims, [i] + rest) && Offset(dims, [i] + rest) == i * Product(dims[1..]) + Offset(dims[1..], rest)
  {
    assert ([i] + rest)[1..] == rest;
    assert forall k | 0 < k < |[i] + rest| :: ([i] + rest)[k] == rest[k - 1] && dims[k] == dims[1..][k - 1];
  }

  /** Every flat index is the offset of its own index vector. */
  lemma {:induction false} UnravelThenOffset(dims: seq<nat>, k: nat)
    requires k < Product(dims)
    ensures InBounds(dims, Unravel(dims, k)) && Offset(dims, Unravel(dims, k)) == k
  {
    if dims != [] {
      var inner := Product(dims[1..]);
      QuotientBound(k, dims[0], inner);
      var q, r := k / inner, k % inner;
      Parts(k, inner, q, r);
      UnravelThenOffset(dims[1..], r);
      OffsetCons(dims, q, Unravel(dims[1..], r));
    }
  }

  /** Every full index vector is recovered from its offset: no two vectors share a cell. */
  lemma {:induction false} OffsetThenUnravel(dims: seq<nat>, ix: seq<nat>)
    requires InBounds(dims, ix) && |ix| == |dims|
    ensures Offset(dims, ix) < Product(dims) && Unravel(dims, Offset(dims, ix)) == ix
  {
    BlockFits(dims, ix);
    assert dims[|ix|..] == [];
    if ix != [] {
      OffsetThenUnravel(dims[1..], ix[1..]);
      var inner := Product(dims[1..]);
      DivMod(ix[0], Offset(dims[1..], ix[1..]), inner);
    }
  }

  lemma SmallMultiple(x: int, b: nat)
    requires x * b < b && 0 < x * b + b
    ensures x == 0
  {
    if x >= 1 {
      MulMono(1, x, b);
      assert false;
    }
  }

  lemma DivMod(q: nat, r: nat, b: nat)
    requires r < b
    ensures (q * b + r) / b == q && (q * b + r) % b == r
  {
    var k := q * b + r;
    assert k == (k / b) * b + k % b;
    assert (k / b - q) * b == r - k % b;
    SmallMultiple(k / b - q, b);
  }
}
