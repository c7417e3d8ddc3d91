/** src/bulk.rs: a strided map from flat row-major ordinals to signed indices, in checked machine arithmetic. */
module StridedMaps {
  import opened Common

  const USIZES: nat := 0x1_0000_0000_0000_0000
  const ISIZE_MAX: int := 0x7fff_ffff_ffff_ffff
  const ISIZE_MIN: int := -0x8000_0000_0000_0000

  type Usize = n: int | 0 <= n < USIZES
  type Isize = n: int | ISIZE_MIN <= n <= ISIZE_MAX witness 0

  predicate FitsIsize(n: int) { ISIZE_MIN <= n <= ISIZE_MAX }

  /** Eight bytes, and the signed numbers are those of two's complement. */
  lemma MachineWidths(n: int)
    ensures USIZES == 256 * 256 * 256 * 256 * 256 * 256 * 256 * 256
    ensures FitsIsize(n) <==> 0 <= n + USIZES / 2 < USIZES
  {
  }

  // ---------------------------------------------------------------- row-major ordinals

  /** The number of cells. */
  function Product(shape: seq<Usize>): nat {
    if |shape| == 0 then 1 else Product(shape[..|shape| - 1]) * shape[|shape| - 1]
  }

  /** Coordinates within the shape. */
  ghost predicate InBox(shape: seq<Usize>, coords: seq<nat>) {
    |coords| == |shape| && forall d :: 0 <= d < |shape| ==> coords[d] < shape[d]
  }

  /** The ordinal of coordinates; the last dimension varies fastest. */
  function RowMajor(shape: seq<Usize>, coords: seq<nat>): nat
    requires |coords| == |shape|
  {
    if |shape| == 0 then 0
    else
      var k := |shape| - 1;
      RowMajor(shape[..k], coords[..k]) * shape[k] + coords[k]
  }

  /** The coordinates of an ordinal, peeled off from the last dimension inward. */
  function Coords(shape: seq<Usize>, ordinal: nat): (coords: seq<nat>)
    requires forall d :: 0 <= d < |shape| ==> shape[d] != 0
    ensures |coords| == |shape|
  {
    if |shape| == 0 then []
    else
      var k := |shape| - 1;
      Coords(shape[..k], Quotient(ordinal, shape[k])) + [Remainder(ordinal, shape[k])]
  }

  function Quotient(a: nat, n: nat): nat requires n != 0 { a / n }
  function Remainder(a: nat, n: nat): nat requires n != 0 { a % n }

  lemma MulMonotone(a: int, b: int, n: nat)
    ensures a < b ==> (a + 1) * n <= b * n
  {
    if a < b {
      assert (b - a - 1) * n >= 0;
      assert b * n == (a + 1) * n + (b - a - 1) * n;
    }
  }

  lemma DivideBack(a: nat, n: nat)
    requires n != 0
    ensures a == Quotient(a, n) * n + Remainder(a, n) && Remainder(a, n) < n
  {
  }

  lemma {:induction false} NonZero(shape: seq<Usize>)
    requires Product(shape) != 0
    ensures forall d :: 0 <= d < |shape| ==> shape[d] != 0
  {
    if |shape| != 0 {
      var k := |shape| - 1;
      NonZero(shape[..k]);
      assert forall d :: 0 <= d < k ==> shape[..k][d] == shape[d];
    }
  }

  lemma QuotientBelow(o: nat, a: nat, n: nat)
    requires o < a * n && n != 0
    ensures Quotient(o, n) < a
  {
    DivideBack(o, n);
    hide Quotient, Remainder;
    MulMonotone(a - 1, Quotient(o, n), n);
  }

  /** Decomposition, then recomposition, gives the ordinal back. */
  lemma {:induction false} CoordsRecompose(shape: seq<Usize>, ordinal: nat)
    requires forall d :: 0 <= d < |shape| ==> shape[d] != 0
    requires ordinal < Product(shape)
    ensures InBox(shape, Coords(shape, ordinal)) && RowMajor(shape, Coords(shape, ordinal)) == ordinal
  {
    if |shape| != 0 {
      hide Quotient, Remainder;
      var k := |shape| - 1;
      var q := Quotient(ordinal, shape[k]);
      QuotientBelow(ordinal, Product(shape[..k]), shape[k]);
      DivideBack(ordinal, shape[k]);
      CoordsRecompose(shape[..k], q);
      var c := Coords(shape, ordinal);
      assert c[..k] == Coords(shape[..k], q);
      assert RowMajor(shape, c) == RowMajor(shape[..k], c[..k]) * shape[k] + c[k];
      assert forall d :: 0 <= d < k ==> c[d] == c[..k][d] < shape[..k][d] == shape[d];
    }
  }

  lemma DivideOut(q: nat, n: nat, r: nat)
    requires r < n
    ensures Quotient(q * n + r, n) == q && Remainder(q * n + r, n) == r
  {
    var o := q * n + r;
    DivideBack(o, n);
    hide Quotient, Remainder;
    MulMonotone(Quotient(o, n), q, n);
    MulMonotone(q, Quotient(o, n), n);
  }

  lemma LastDimension(shape: seq<Usize>, coords: seq<nat>, ordinal: nat)
    requires |coords| == |shape| != 0
    ensures
      var k := |shape| - 1;
      && RowMajor(shape, coords) == RowMajor(shape[..k], coords[..k]) * shape[k] + coords[k]
      && Product(shape) == Product(shape[..k]) * shape[k]
      && ((forall d :: 0 <= d < |shape| ==> shape[d] != 0) ==>
            Coords(shape, ordinal) == Coords(shape[..k], Quotient(ordinal, shape[k])) + [Remainder(ordinal, shape[k])])
  {
  }

  lemma InBoxPrefix(shape: seq<Usize>, coords: seq<nat>)
    requires InBox(shape, coords) && |shape| != 0
    ensures InBox(shape[..|shape| - 1], coords[..|shape| - 1]) && coords[|shape| - 1] < shape[|shape| - 1]
    ensures forall d :: 0 <= d < |shape| ==> shape[d] != 0
  {
    assert forall d :: 0 <= d < |shape| ==> coords[d] < shape[d];
  }

  /** Recomposition, then decomposition, gives the coordinates back: they are the only ones with that ordinal. */
  lemma {:induction false} CoordsAreUnique(shape: seq<Usize>, coords: seq<nat>)
    requires InBox(shape, coords)
    ensures forall d :: 0 <= d < |shape| ==> shape[d] != 0
    ensures Coords(shape, RowMajor(shape, coords)) == coords && RowMajor(shape, coords) < Product(shape)
  {
    if |shape| == 0 { return; }
    var k := |shape| - 1;
    InBoxPrefix(shape, coords);
    LastDimension(shape, coords, RowMajor(shape, coords));
    hide Quotient, Remainder, RowMajor, Product, Coords, InBox;
    CoordsAreUnique(shape[..k], coords[..k]);
    var before := RowMajor(shape[..k], coords[..k]);
    BelowProduct(before, Product(shape[..k]), shape[k], coords[k]);
    var o := RowMajor(shape, coords);
    assert Quotient(o, shape[k]) == before && Remainder(o, shape[k]) == coords[k];
    assert coords == coords[..k] + [coords[k]];
  }

  lemma BelowProduct(before: nat, all: nat, n: nat, last: nat)
    requires before < all && last < n
    ensures before * n + last < all * n
    ensures Quotient(before * n + last, n) == before && Remainder(before * n + last, n) == last
  {
    MulMonotone(before, all, n);
    DivideOut(before, n, last);
  }

  // ---------------------------------------------------------------- the mapped index

  /** The offset plus the strides of the coordinates from dimension `from` on. */
  function Mapped(offset: int, strides: seq<Isize>, coords: seq<nat>, from: nat): int
    requires |coords| == |strides| && from <= |strides|
    decreases |strides| - from
  {
    if from == |strides| then offset else Mapped(offset, strides, coords, from + 1) + coords[from] * strides[from]
  }

  /** The coordinate, the product or the sum of one step leaves the machine's signed range. */
  predicate StepOverflows(offset: int, strides: seq<Isize>, coords: seq<nat>, d: nat)
    requires |coords| == |strides| && d < |strides|
  {
    coords[d] > ISIZE_MAX || !FitsIsize(coords[d] * strides[d]) || !FitsIsize(Mapped(offset, strides, coords, d))
  }

  datatype StridedMap = StridedMap(shape: seq<Usize>, strides: seq<Isize>, offset: Isize) {

    /** Some prefix product does not fit the machine word; a later zero does not repair that. */
    ghost predicate PrefixOverflows() {
      exists k :: 0 <= k <= |shape| && Product(shape[..k]) >= USIZES
    }

    /** `ordinal_count`: the checked fold over the shape. */
    method OrdinalCount() returns (count: Option<Usize>)
      ensures count == if PrefixOverflows() then None else Some(Product(shape))
    {
      var acc: Usize := 1;
      var k := 0;
      while k < |shape|
        invariant 0 <= k <= |shape| && acc == Product(shape[..k])
        invariant forall j :: 0 <= j <= k ==> Product(shape[..j]) < USIZES
      {
        assert shape[..k + 1][..k] == shape[..k];
        var next := acc * shape[k];
        if next >= USIZES {
          assert Product(shape[..k + 1]) >= USIZES;
          return None;
        }
        acc := next;
        k := k + 1;
      }
      assert shape[..|shape|] == shape;
      return Some(acc);
    }

    method IsWellFormed() returns (ok: bool)
      ensures ok <==> |shape| == |strides| && !PrefixOverflows()
    {
      var count := OrdinalCount();
      return |shape| == |strides| && count.Some?;
    }

    /**
     * `get`: the offset plus the strides of the ordinal's row-major coordinates, or nothing, exactly when the ranks
     * differ, a prefix product overflows, the ordinal is out of range, or a checked step overflows.
     */
    method Get(ordinal: Usize) returns (r: Option<Isize>)
      ensures r.None? <==>
        || |shape| != |strides| || PrefixOverflows() || ordinal >= Product(shape)
        || exists d :: 0 <= d < |strides| && StepOverflowsAt(ordinal, d)
      ensures r.Some? ==>
        && |shape| == |strides| && ordinal < Product(shape) && (forall d :: 0 <= d < |shape| ==> shape[d] != 0)
        && r.value == Mapped(offset, strides, Coords(shape, ordinal), 0)
    {
      if |shape| != |strides| { return None; }
      var total := OrdinalCount();
      if total.None? { return None; }
      if ordinal >= total.value { return None; }
      NonZero(shape);
      ghost var coords := Coords(shape, ordinal);
      var rem, mapped: Isize, dim := ordinal, offset, |shape|;
      assert shape[..dim] == shape && coords[..dim] == coords;
      hide Coords, Product;
      while dim > 0
        invariant 0 <= dim <= |shape| && 0 <= rem < USIZES
        invariant Coords(shape[..dim], rem) == coords[..dim]
        invariant mapped == Mapped(offset, strides, coords, dim)
        invariant forall d :: dim <= d < |strides| ==> !StepOverflowsAt(ordinal, d)
      {
        dim := dim - 1;
        var size, stride := shape[dim], strides[dim];
        CoordsPeel(shape, coords, dim, rem);
        var coord := rem % size;
        if coord > ISIZE_MAX { assert StepOverflowsAt(ordinal, dim); return None; }
        rem := rem / size;
        var product := coord * stride;
        if !FitsIsize(product) { assert StepOverflowsAt(ordinal, dim); return None; }
        if !FitsIsize(mapped + product) { assert StepOverflowsAt(ordinal, dim); return None; }
        mapped := mapped + product;
      }
      return Some(mapped);
    }

    /** The step of dimension `d` overflows on the way from the last dimension inward. */
    ghost predicate StepOverflowsAt(ordinal: nat, d: int) {
      && |shape| == |strides| && 0 <= d < |strides| && (forall i :: 0 <= i < |shape| ==> shape[i] != 0)
      && StepOverflows(offset, strides, Coords(shape, ordinal), d)
    }
  }

  lemma QuotientShrinks(a: nat, n: nat)
    requires n != 0
    ensures 0 <= a / n <= a
  {
    DivideBack(a, n);
    MulMonotone(0, n, Quotient(a, n));
  }

  lemma CoordsPeel(shape: seq<Usize>, coords: seq<nat>, dim: nat, rem: nat)
    requires (forall d :: 0 <= d < |shape| ==> shape[d] != 0) && dim < |shape| && |coords| == |shape|
    requires Coords(shape[..dim + 1], rem) == coords[..dim + 1]
    ensures coords[dim] == rem % shape[dim] && Coords(shape[..dim], rem / shape[dim]) == coords[..dim]
    ensures 0 <= rem / shape[dim] <= rem
  {
    assert shape[..dim + 1][..dim] == shape[..dim];
    assert coords[..dim + 1][dim] == coords[dim] && coords[..dim + 1][..dim] == coords[..dim];
    assert Coords(shape[..dim + 1], rem)[..dim] == Coords(shape[..dim], Quotient(rem, shape[dim]));
    QuotientShrinks(rem, shape[dim]);
  }

  // ---------------------------------------------------------------- canonical strides

  /** Each stride is the number of cells behind its dimension. */
  ghost predicate RowMajorStrides(shape: seq<Usize>, strides: seq<Isize>) {
    && |strides| == |shape|
    && (|shape| != 0 ==> strides[|shape| - 1] == 1)
    && forall d :: 0 <= d < |shape| - 1 ==> strides[d] == strides[d + 1] * shape[d + 1]
  }

  /** The ordinal of the first `from` coordinates, weighted by the stride before them, plus the mapped rest. */
  lemma {:induction false} MappedSplits(
      shape: seq<Usize>, strides: seq<Isize>, coords: seq<nat>, offset: int, from: nat)
    requires RowMajorStrides(shape, strides) && |coords| == |shape| && from < |shape|
    ensures Mapped(offset, strides, coords, from + 1) + RowMajor(shape[..from + 1], coords[..from + 1]) * strides[from]
      == offset + RowMajor(shape, coords)
    decreases |shape| - from
  {
    if from + 1 == |shape| {
      assert shape[..from + 1] == shape && coords[..from + 1] == coords;
    } else {
      MappedSplits(shape, strides, coords, offset, from + 1);
      var inner := RowMajor(shape[..from + 1], coords[..from + 1]);
      assert shape[..from + 2][..from + 1] == shape[..from + 1] && coords[..from + 2][..from + 1] == coords[..from + 1];
      assert RowMajor(shape[..from + 2], coords[..from + 2]) == inner * shape[from + 1] + coords[from + 1];
      Distribute(inner, shape[from + 1], coords[from + 1], strides[from + 1]);
    }
  }

  lemma Distribute(a: int, n: int, c: int, s: int)
    ensures (a * n + c) * s == a * (s * n) + c * s
  {
    assert (a * n + c) * s == a * n * s + c * s;
    assert a * n * s == a * (s * n);
  }

  /** On canonical strides the map is an offset: that is what row-major order means. */
  lemma CanonicalStridesAdd(shape: seq<Usize>, strides: seq<Isize>, coords: seq<nat>, offset: int)
    requires RowMajorStrides(shape, strides) && |coords| == |shape|
    ensures Mapped(offset, strides, coords, 0) == offset + RowMajor(shape, coords)
  {
    if |shape| != 0 {
      MappedSplits(shape, strides, coords, offset, 0);
      assert shape[..1][..0] == [] && coords[..1][..0] == [];
      assert RowMajor(shape[..1], coords[..1]) == coords[0];
    }
  }

  /** What `Get` finds on canonical strides is the offset plus the ordinal. */
  lemma CanonicalStridesCount(m: StridedMap, ordinal: nat)
    requires RowMajorStrides(m.shape, m.strides) && ordinal < Product(m.shape)
    ensures forall d :: 0 <= d < |m.shape| ==> m.shape[d] != 0
    ensures Mapped(m.offset, m.strides, Coords(m.shape, ordinal), 0) == m.offset + ordinal
  {
    NonZero(m.shape);
    CoordsRecompose(m.shape, ordinal);
    CanonicalStridesAdd(m.shape, m.strides, Coords(m.shape, ordinal), m.offset);
  }

  lemma {:induction false} StridesPositive(shape: seq<Usize>, strides: seq<Isize>, d: nat)
    requires RowMajorStrides(shape, strides) && d < |shape| && forall i :: 0 <= i < |shape| ==> shape[i] != 0
    ensures strides[d] >= 1
    decreases |shape| - d
  {
    if d + 1 < |shape| {
      StridesPositive(shape, strides, d + 1);
      AtLeast(strides[d + 1], shape[d + 1]);
    }
  }

  lemma AtLeast(a: nat, b: nat)
    requires b >= 1
    ensures a * b >= a
  {
  }

  /** Inward from the last dimension the mapped index only grows, up to the offset plus the ordinal. */
  lemma {:induction false} MappedGrows(shape: seq<Usize>, strides: seq<Isize>, coords: seq<nat>, offset: int, d: nat)
    requires RowMajorStrides(shape, strides) && |coords| == |shape| && d <= |shape|
    requires forall i :: 0 <= i < |shape| ==> shape[i] != 0
    ensures offset <= Mapped(offset, strides, coords, d) <= offset + RowMajor(shape, coords)
    decreases |shape| - d
  {
    if d == 0 {
      CanonicalStridesAdd(shape, strides, coords, offset);
    } else {
      MappedSplits(shape, strides, coords, offset, d - 1);
      StridesPositive(shape, strides, d - 1);
      AtLeast(RowMajor(shape[..d], coords[..d]), strides[d - 1]);
    }
    if d < |shape| {
      MappedGrows(shape, strides, coords, offset, d + 1);
      StridesPositive(shape, strides, d);
      AtLeast(coords[d], strides[d]);
    }
  }

  /** No weighted coordinate and not the result itself leave the signed range. */
  ghost predicate CanonicalFits(m: StridedMap, ordinal: nat)
    requires |m.strides| == |m.shape| && forall d :: 0 <= d < |m.shape| ==> m.shape[d] != 0
  {
    && m.offset + ordinal <= ISIZE_MAX
    && forall d :: 0 <= d < |m.shape| ==> Coords(m.shape, ordinal)[d] * m.strides[d] <= ISIZE_MAX
  }

  lemma CanonicalSteps(m: StridedMap, ordinal: nat)
    requires RowMajorStrides(m.shape, m.strides) && ordinal < Product(m.shape)
    ensures forall d :: 0 <= d < |m.shape| ==> m.shape[d] != 0
    ensures |m.shape| != 0 ==> ((exists d :: m.StepOverflowsAt(ordinal, d)) <==> !CanonicalFits(m, ordinal))
    ensures |m.shape| == 0 ==> !exists d :: m.StepOverflowsAt(ordinal, d)
  {
    NonZero(m.shape);
    CoordsRecompose(m.shape, ordinal);
    var coords := Coords(m.shape, ordinal);
    CanonicalStridesAdd(m.shape, m.strides, coords, m.offset);
    hide Coords, RowMajor, Product, Mapped, RowMajorStrides;
    forall d | 0 <= d < |m.shape|
      ensures m.offset <= Mapped(m.offset, m.strides, coords, d) <= m.offset + ordinal
      ensures 0 <= coords[d] <= coords[d] * m.strides[d]
    {
      MappedGrows(m.shape, m.strides, coords, m.offset, d);
      StridesPositive(m.shape, m.strides, d);
      AtLeast(coords[d], m.strides[d]);
    }
    if d :| 0 <= d < |m.shape| && coords[d] * m.strides[d] > ISIZE_MAX {
      assert m.StepOverflowsAt(ordinal, d);
    }
    if |m.shape| != 0 && m.offset + ordinal > ISIZE_MAX {
      assert m.StepOverflowsAt(ordinal, 0);
    }
  }

  /** A coordinate beyond the signed range is refused even where a zero stride makes the mapped index the offset. */
  lemma ZeroStrideIsStillRefused(m: StridedMap, ordinal: nat)
    requires |m.shape| == 1 && m.strides == [0] && 0x8000_0000_0000_0000 <= ordinal < m.shape[0]
    ensures m.StepOverflowsAt(ordinal, 0) && Mapped(m.offset, m.strides, Coords(m.shape, ordinal), 0) == m.offset
  {
    DivideOut(0, m.shape[0], ordinal);
    hide Quotient, Remainder;
    assert m.shape[..0] == [] && Coords([], 0) == [];
    assert Coords(m.shape, ordinal) == [ordinal];
    assert Mapped(m.offset, m.strides, [ordinal], 1) == m.offset;
  }

  /**
   * On canonical strides `get` returns the offset plus the ordinal, and it does so exactly when the metadata are
   * well-formed, the ordinal is in range, and neither a weighted coordinate nor the result leaves the signed range.
   */
  method GetCanonical(m: StridedMap, ordinal: Usize) returns (r: Option<Isize>)
    requires RowMajorStrides(m.shape, m.strides)
    ensures r.Some? ==> r.value == m.offset + ordinal
    ensures r.Some? <==>
      && !m.PrefixOverflows() && ordinal < Product(m.shape)
      && (forall d :: 0 <= d < |m.shape| ==> m.shape[d] != 0) && CanonicalFits(m, ordinal)
  {
    if ordinal < Product(m.shape) {
      CanonicalSteps(m, ordinal);
      CanonicalStridesCount(m, ordinal);
    }
    hide Coords, Product, Mapped, RowMajorStrides;
    r := m.Get(ordinal);
  }
}
