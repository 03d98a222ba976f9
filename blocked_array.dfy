// A 2-D array stored block by block: the (u, v) plane is cut into square
// blocks of side 2^log, each block stored contiguously, so that texels that
// are close in the plane are close in memory. Unsigned words are 64-bit
// (`usize`) and are modelled as naturals below 2^64.
module Blocked {
  import opened Wrappers
  import opened Bits
  import opened Grid

  function BlockSize(log: nat): (b: nat)
    ensures b >= 1
  {
    Pow2(log)
  }

  function BlockLen(log: nat): nat {
    BlockSize(log) * BlockSize(log)
  }

  /** Bitwise NOT of a 64-bit word. */
  function Not64(x: nat): nat
    requires x < UsizeLimit
  {
    UsizeLimit - 1 - x
  }

  /** `n + BLOCK_SIZE - 1` must not overflow a `usize`. */
  predicate RoundUpFits(log: nat, n: nat) {
    log < UsizeBits && n + BlockSize(log) - 1 < UsizeLimit
  }

  /** `(n + BLOCK_SIZE - 1) & !(BLOCK_SIZE - 1)` */
  function RoundUp(log: nat, n: nat): nat
    requires RoundUpFits(log, n)
  {
    BitAnd(n + BlockSize(log) - 1, Not64(BlockSize(log) - 1))
  }

  /** Clearing the low bits of x rounds it down to a multiple of b. */
  lemma RoundDown(x: nat, b: nat)
    requires b > 0
    ensures (x - x % b) % b == 0 && x - b < x - x % b <= x
  {
    assert x == b * (x / b) + x % b;
    ModUnique(x - x % b, b, x / b, 0);
  }

  /** `!(BLOCK_SIZE - 1)` masks off the low `log` bits of a `usize`. */
  lemma RoundUpMask(log: nat, n: nat)
    requires RoundUpFits(log, n)
    ensures RoundUp(log, n) == (n + BlockSize(log) - 1) - (n + BlockSize(log) - 1) % BlockSize(log)
  {
    Pow2Monotone(log, UsizeBits);
    UsizeLimitIsPow2();
    assert Not64(BlockSize(log) - 1) == Pow2(UsizeBits) - Pow2(log);
    BitAndHighMask(n + BlockSize(log) - 1, log, UsizeBits);
  }

  /** `round_up(n)` is the least multiple of the block size that is at least n. */
  lemma RoundUpIsLeastMultiple(log: nat, n: nat)
    requires RoundUpFits(log, n)
    ensures RoundUp(log, n) % BlockSize(log) == 0
    ensures n <= RoundUp(log, n) < n + BlockSize(log)
  {
    RoundUpMask(log, n);
    RoundDown(n + BlockSize(log) - 1, BlockSize(log));
  }

  /** `round_up(3) == 4` with blocks of side 4. */
  lemma RoundUpExample()
    ensures RoundUp(2, 3) == 4
  {
    RoundUpIsLeastMultiple(2, 3);
    assert Pow2(2) == 4;
  }

  /** `a >> LOG_BLOCK_SIZE` */
  function Block(log: nat, a: nat): nat {
    Shr(a, log)
  }

  /** `a & (BLOCK_SIZE - 1)` */
  function Offset(log: nat, a: nat): nat {
    BitAnd(a, BlockSize(log) - 1)
  }

  /** A coordinate splits into its block and its offset inside the block. */
  lemma BlockOffsetSplit(log: nat, a: nat)
    ensures Block(log, a) * BlockSize(log) + Offset(log, a) == a
    ensures Offset(log, a) < BlockSize(log)
  {
    BitAndLowMask(a, log);
    ShrIsDiv(a, log);
    DivMod(a, BlockSize(log));
  }

  /**
   * `get_index`: the block number counts blocks row by row (`u_blocks` per
   * row); inside a block texels are stored row by row too.
   */
  function GetIndex(log: nat, u: nat, v: nat, uBlocks: nat): nat {
    var block := Block(log, v) * uBlocks + Block(log, u);
    BlockLen(log) * block + (Offset(log, v) * BlockSize(log) + Offset(log, u))
  }

  /** The array geometry: sizes whose rounding fits a `usize`, and the allocation length. */
  predicate Fits(log: nat, uSize: nat, vSize: nat) {
    RoundUpFits(log, uSize) && RoundUpFits(log, vSize) &&
    RoundUp(log, uSize) * RoundUp(log, vSize) < UsizeLimit
  }

  function NAlloc(log: nat, uSize: nat, vSize: nat): nat
    requires Fits(log, uSize, vSize)
  {
    var a := RoundUp(log, uSize);
    var b := RoundUp(log, vSize);
    MulMono(0, a, b);
    a * b
  }

  /** `round_up(u_size) >> LOG_BLOCK_SIZE` */
  function UBlocks(log: nat, uSize: nat): nat
    requires RoundUpFits(log, uSize)
  {
    Shr(RoundUp(log, uSize), log)
  }

  /** The offset inside a block is below the block length. */
  lemma InBlockBound(b: nat, ov: nat, ou: nat)
    requires ov < b && ou < b
    ensures ov * b + ou < b * b
  {
    MulMono(ov, b - 1, b);
  }

  lemma BlockBelow(bu: nat, bv: nat, ub: nat, vb: nat)
    requires bu < ub && bv < vb
    ensures bv * ub + bu + 1 <= vb * ub
  {
    MulMono(bv + 1, vb, ub);
    assert (bv + 1) * ub == bv * ub + ub;
  }

  lemma Below(l: nat, blk: nat, inner: nat, cells: nat)
    requires inner < l && blk + 1 <= cells
    ensures l * blk + inner < l * cells
  {
    MulMono(blk + 1, cells, l);
    assert (blk + 1) * l == l * blk + l;
  }

  /** Plain-arithmetic core of the bound of `get_index`. */
  lemma IndexArith(b: nat, ub: nat, vb: nat, u: nat, v: nat)
    requires b >= 1 && u < ub * b && v < vb * b
    ensures b * b * ((v / b) * ub + u / b) + ((v % b) * b + u % b) < (ub * b) * (vb * b)
  {
    DivBelow(u, b, ub);
    DivBelow(v, b, vb);
    InBlockBound(b, v % b, u % b);
    BlockBelow(u / b, v / b, ub, vb);
    Below(b * b, (v / b) * ub + u / b, (v % b) * b + u % b, vb * ub);
    assert (ub * b) * (vb * b) == (b * b) * (vb * ub);
  }

  lemma IndexDecode(b: nat, ub: nat, u: nat, v: nat)
    requires b >= 1 && u < ub * b
    ensures u / b < ub
    ensures var i := b * b * ((v / b) * ub + u / b) + ((v % b) * b + u % b);
      i / (b * b) == (v / b) * ub + u / b && i % (b * b) == (v % b) * b + u % b
  {
    DivBelow(u, b, ub);
    InBlockBound(b, v % b, u % b);
    var i := b * b * ((v / b) * ub + u / b) + ((v % b) * b + u % b);
    ModUnique(i, b * b, (v / b) * ub + u / b, (v % b) * b + u % b);
  }

  lemma SameDivMod(x: nat, y: nat, b: nat)
    requires b >= 1 && x / b == y / b && x % b == y % b
    ensures x == y
  {
    assert x == (x / b) * b + x % b && y == (y / b) * b + y % b;
  }

  /** A block number and an in-block offset determine the coordinate pair. */
  lemma SplitDetermines(b: nat, ub: nat, u1: nat, v1: nat, u2: nat, v2: nat)
    requires b >= 1 && ub >= 1 && u1 / b < ub && u2 / b < ub
    requires (v1 / b) * ub + u1 / b == (v2 / b) * ub + u2 / b
    requires (v1 % b) * b + u1 % b == (v2 % b) * b + u2 % b
    ensures u1 == u2 && v1 == v2
  {
    var blk := (v1 / b) * ub + u1 / b;
    ModUnique(blk, ub, v1 / b, u1 / b);
    ModUnique(blk, ub, v2 / b, u2 / b);
    var inner := (v1 % b) * b + u1 % b;
    ModUnique(inner, b, v1 % b, u1 % b);
    ModUnique(inner, b, v2 % b, u2 % b);
    SameDivMod(u1, u2, b);
    SameDivMod(v1, v2, b);
  }

  /** Plain-arithmetic core of the injectivity of `get_index`. */
  lemma IndexArithInjective(b: nat, ub: nat, u1: nat, v1: nat, u2: nat, v2: nat)
    requires b >= 1 && u1 < ub * b && u2 < ub * b
    requires b * b * ((v1 / b) * ub + u1 / b) + ((v1 % b) * b + u1 % b)
          == b * b * ((v2 / b) * ub + u2 / b) + ((v2 % b) * b + u2 % b)
    ensures u1 == u2 && v1 == v2
  {
    IndexDecode(b, ub, u1, v1);
    IndexDecode(b, ub, u2, v2);
    SplitDetermines(b, ub, u1, v1, u2, v2);
  }

  /** `get_index` in the arithmetic form used by the two lemmas below. */
  lemma GetIndexArith(log: nat, u: nat, v: nat, uBlocks: nat)
    ensures var b := BlockSize(log);
      GetIndex(log, u, v, uBlocks) == b * b * ((v / b) * uBlocks + u / b) + ((v % b) * b + u % b)
  {
    BitAndLowMask(u, log);
    BitAndLowMask(v, log);
    ShrIsDiv(u, log);
    ShrIsDiv(v, log);
  }

  lemma UBlocksTimesBlock(log: nat, n: nat)
    requires RoundUpFits(log, n)
    ensures UBlocks(log, n) * BlockSize(log) == RoundUp(log, n)
  {
    RoundUpIsLeastMultiple(log, n);
    var r, b := RoundUp(log, n), BlockSize(log);
    ShrIsDiv(r, log);
    DivMod(r, b);
  }

  /** In-range coordinates land inside the allocation. */
  lemma GetIndexInAllocation(log: nat, uSize: nat, vSize: nat, u: nat, v: nat)
    requires Fits(log, uSize, vSize) && u < uSize && v < vSize
    ensures GetIndex(log, u, v, UBlocks(log, uSize)) < NAlloc(log, uSize, vSize)
  {
    var b := BlockSize(log);
    UBlocksTimesBlock(log, uSize);
    UBlocksTimesBlock(log, vSize);
    RoundUpIsLeastMultiple(log, uSize);
    RoundUpIsLeastMultiple(log, vSize);
    GetIndexArith(log, u, v, UBlocks(log, uSize));
    IndexArith(b, UBlocks(log, uSize), UBlocks(log, vSize), u, v);
  }

  /** Distinct in-range coordinates get distinct cells. */
  lemma GetIndexInjective(log: nat, uSize: nat, u1: nat, v1: nat, u2: nat, v2: nat)
    requires RoundUpFits(log, uSize) && u1 < uSize && u2 < uSize
    requires GetIndex(log, u1, v1, UBlocks(log, uSize)) == GetIndex(log, u2, v2, UBlocks(log, uSize))
    ensures u1 == u2 && v1 == v2
  {
    UBlocksTimesBlock(log, uSize);
    RoundUpIsLeastMultiple(log, uSize);
    GetIndexArith(log, u1, v1, UBlocks(log, uSize));
    GetIndexArith(log, u2, v2, UBlocks(log, uSize));
    IndexArithInjective(BlockSize(log), UBlocks(log, uSize), u1, v1, u2, v2);
  }

  /** `get_index` as a function of the coordinates alone. */
  function IndexOf(log: nat, uSize: nat): (nat, nat) -> nat
    requires RoundUpFits(log, uSize)
  {
    (u: nat, v: nat) => GetIndex(log, u, v, UBlocks(log, uSize))
  }

  /** `data[v * u_size + u]`: the row-major input image. */
  function DataAt<T>(data: seq<T>, uSize: nat, vSize: nat, u: nat, v: nat): T
    requires |data| == uSize * vSize && u < uSize && v < vSize
  {
    RowMajorBound(u, v, uSize, vSize);
    data[RowMajor(uSize)(u, v)]
  }

  /** Cells of the first v rows, and the first u cells of row v, hold their image entries. */
  ghost predicate Filled<T>(c: seq<Option<T>>, image: seq<T>, pos: (nat, nat) -> nat, idx: (nat, nat) -> nat,
                            uSize: nat, vSize: nat, v: nat, u: nat)
  {
    forall u': nat, v': nat :: u' < uSize && v' < vSize && (v' < v || (v' == v && u' < u)) ==>
      pos(u', v') < |image| && idx(u', v') < |c| && c[idx(u', v')] == Some(image[pos(u', v')])
  }

  /** Every filled cell is the cell of some in-range coordinate. */
  ghost predicate OnlyMapped<T>(c: seq<Option<T>>, idx: (nat, nat) -> nat, uSize: nat, vSize: nat) {
    forall i :: 0 <= i < |c| && c[i].Some? ==> exists u: nat, v: nat :: u < uSize && v < vSize && idx(u, v) == i
  }

  /**
   * The nested fill loop of `new` (v outer, u inner): entry `pos(u, v)` of the
   * image goes to cell `idx(u, v)`; cells no coordinate maps to stay `None`.
   */
  method Scatter<T>(image: seq<T>, pos: (nat, nat) -> nat, idx: (nat, nat) -> nat, uSize: nat, vSize: nat, n: nat)
    returns (c: seq<Option<T>>)
    requires MapsBelow(pos, uSize, vSize, |image|) && MapsBelow(idx, uSize, vSize, n) && Injective(idx, uSize, vSize)
    ensures |c| == n
    ensures forall u: nat, v: nat :: u < uSize && v < vSize ==>
      pos(u, v) < |image| && idx(u, v) < |c| && c[idx(u, v)] == Some(image[pos(u, v)])
    ensures OnlyMapped(c, idx, uSize, vSize)
  {
    c := seq(n, _ => None);
    var v := 0;
    while v < vSize
      invariant v <= vSize && |c| == n
      invariant Filled(c, image, pos, idx, uSize, vSize, v, 0)
      invariant OnlyMapped(c, idx, uSize, vSize)
    {
      var u := 0;
      while u < uSize
        invariant u <= uSize && |c| == n
        invariant Filled(c, image, pos, idx, uSize, vSize, v, u)
        invariant OnlyMapped(c, idx, uSize, vSize)
      {
        c := c[idx(u, v) := Some(image[pos(u, v)])];
        assert idx(u, v) < |c| && u < uSize && v < vSize;
        u := u + 1;
      }
      v := v + 1;
    }
  }

  /** `get_index` places every in-range coordinate inside the allocation, each in its own cell. */
  lemma GetIndexLayout(log: nat, uSize: nat, vSize: nat)
    requires Fits(log, uSize, vSize)
    ensures MapsBelow(IndexOf(log, uSize), uSize, vSize, NAlloc(log, uSize, vSize))
    ensures Injective(IndexOf(log, uSize), uSize, vSize)
  {
    var idx := IndexOf(log, uSize);
    forall u: nat, v: nat | u < uSize && v < vSize
      ensures idx(u, v) < NAlloc(log, uSize, vSize)
    {
      GetIndexInAllocation(log, uSize, vSize, u, v);
    }
    forall u1: nat, v1: nat, u2: nat, v2: nat |
      u1 < uSize && v1 < vSize && u2 < uSize && v2 < vSize && idx(u1, v1) == idx(u2, v2)
      ensures u1 == u2 && v1 == v2
    {
      GetIndexInjective(log, uSize, u1, v1, u2, v2);
    }
  }

  /** Every in-range coordinate maps to an initialised cell of `c`. */
  ghost predicate Stored<T>(c: seq<Option<T>>, idx: (nat, nat) -> nat, uSize: nat, vSize: nat) {
    forall u: nat, v: nat :: u < uSize && v < vSize ==> idx(u, v) < |c| && c[idx(u, v)].Some?
  }

  /** Appending a block of w entries after m such blocks: entry v of block u is at `u * w + v`. */
  lemma AppendBlockAt<T>(prev: seq<T>, col: seq<T>, w: nat, m: nat, u: nat, v: nat)
    requires |prev| == m * w && |col| == w && u <= m && v < w
    ensures u * w + v < |prev + col|
    ensures u < m ==> u * w + v < |prev| && (prev + col)[u * w + v] == prev[u * w + v]
    ensures u == m ==> (prev + col)[u * w + v] == col[v]
  {
    RowMajorBound(u, v, m + 1, w);
    if u < m {
      RowMajorBound(u, v, m, w);
    }
  }

  class BlockedArray<T> {
    /** `LOG_BLOCK_SIZE`, a const generic in the source. */
    const log: nat
    /** `None` stands for a `MaybeUninit` padding cell that is never read. */
    var contents: seq<Option<T>>
    var uSize: nat
    var vSize: nat
    var uBlocks: nat
    var totalElems: nat

    ghost predicate Valid()
      reads this
    {
      Fits(log, uSize, vSize) && uBlocks == UBlocks(log, uSize) &&
      |contents| == NAlloc(log, uSize, vSize) && Stored(contents, IndexOf(log, uSize), uSize, vSize)
    }

    /** `self[(u, v)]`; only initialised cells may be read. */
    function At(u: nat, v: nat): T
      reads this
      requires Valid() && u < uSize && v < vSize
    {
      contents[IndexOf(log, uSize)(u, v)].value
    }

    /** `new`: `assert_eq!(u_size * v_size, data.len())`, then the blocked fill. */
    constructor New(log: nat, data: seq<T>, uSize: nat, vSize: nat)
      requires Fits(log, uSize, vSize) && |data| == uSize * vSize
      ensures Valid() && this.log == log && this.uSize == uSize && this.vSize == vSize
      ensures totalElems == |data|
      ensures forall u: nat, v: nat :: u < uSize && v < vSize ==> At(u, v) == DataAt(data, uSize, vSize, u, v)
    {
      GetIndexLayout(log, uSize, vSize);
      RowMajorLayout(uSize, vSize);
      var c := Scatter(data, RowMajor(uSize), IndexOf(log, uSize), uSize, vSize, NAlloc(log, uSize, vSize));
      this.log := log;
      contents := c;
      this.uSize := uSize;
      this.vSize := vSize;
      uBlocks := UBlocks(log, uSize);
      totalElems := |data|;
    }

    /** `default(u_size, v_size)`: every cell holds `T::default()`, passed in as `dflt`. */
    constructor Default(log: nat, uSize: nat, vSize: nat, dflt: T)
      requires Fits(log, uSize, vSize)
      ensures Valid() && this.log == log && this.uSize == uSize && this.vSize == vSize
      ensures totalElems == uSize * vSize
      ensures forall u: nat, v: nat :: u < uSize && v < vSize ==> At(u, v) == dflt
    {
      GetIndexLayout(log, uSize, vSize);
      RowMajorLayout(uSize, vSize);
      MulMono(0, uSize, vSize);
      var image: seq<T> := seq(uSize * vSize, _ => dflt);
      var c := Scatter(image, RowMajor(uSize), IndexOf(log, uSize), uSize, vSize, NAlloc(log, uSize, vSize));
      this.log := log;
      contents := c;
      this.uSize := uSize;
      this.vSize := vSize;
      uBlocks := UBlocks(log, uSize);
      totalElems := uSize * vSize;
    }

    /** The entries (u, 0), ..., (u, n - 1): what the inner loop of `to_vec` pushes. */
    ghost function Column(u: nat, n: nat): seq<T>
      reads this
      requires Valid() && u < uSize && n <= vSize
    {
      if n == 0 then [] else Column(u, n - 1) + [At(u, n - 1)]
    }

    /** The columns 0, ..., n - 1 one after the other: what the outer loop of `to_vec` has pushed. */
    ghost function Columns(n: nat): seq<T>
      reads this
      requires Valid() && n <= uSize
    {
      if n == 0 then [] else Columns(n - 1) + Column(n - 1, vSize)
    }

    /** Entry v of column u is the element at (u, v). */
    lemma {:induction false} ColumnAt(u: nat, n: nat, v: nat)
      requires Valid() && u < uSize && n <= vSize
      ensures |Column(u, n)| == n
      ensures v < n ==> Column(u, n)[v] == At(u, v)
    {
      if n > 0 {
        ColumnAt(u, n - 1, v);
      }
    }

    /** The first n columns hold n * v_size elements. */
    lemma {:induction false} ColumnsLength(n: nat)
      requires Valid() && n <= uSize
      ensures |Columns(n)| == n * vSize
    {
      if n > 0 {
        ColumnsLength(n - 1);
        ColumnAt(n - 1, vSize, 0);
        assert (n - 1) * vSize + vSize == n * vSize;
      }
    }

    /** `to_vec` lists the elements column by column: (u, v) is at `u * v_size + v`. */
    lemma {:induction false} ColumnsAt(n: nat, u: nat, v: nat)
      requires Valid() && n <= uSize && u < n && v < vSize
      ensures u * vSize + v < |Columns(n)|
      ensures Columns(n)[u * vSize + v] == At(u, v)
    {
      var prev, col := Columns(n - 1), Column(n - 1, vSize);
      assert Columns(n) == prev + col;
      ColumnsLength(n - 1);
      ColumnAt(n - 1, vSize, v);
      AppendBlockAt(prev, col, vSize, n - 1, u, v);
      if u < n - 1 {
        ColumnsAt(n - 1, u, v);
      }
    }

    /** `to_vec`: u in the outer loop, v in the inner one. */
    method ToVec() returns (elems: seq<T>)
      requires Valid()
      ensures elems == Columns(uSize)
    {
      elems := [];
      var u := 0;
      while u < uSize
        invariant u <= uSize && elems == Columns(u)
      {
        elems := PushColumn(elems, u);
        u := u + 1;
      }
    }

    /** The inner loop of `to_vec`: pushes `self[(u, v)]` for every v. */
    method PushColumn(prefix: seq<T>, u: nat) returns (elems: seq<T>)
      requires Valid() && u < uSize
      ensures elems == prefix + Column(u, vSize)
    {
      elems := prefix;
      var v := 0;
      while v < vSize
        invariant v <= vSize && elems == prefix + Column(u, v)
      {
        elems := elems + [At(u, v)];
        v := v + 1;
      }
    }

    /** `self[(u, v)] = x` through `IndexMut`: only the cell `get_index(u, v)` changes. */
    method Set(u: nat, v: nat, x: T)
      requires Valid() && u < uSize && v < vSize
      modifies this
      ensures Valid() && uSize == old(uSize) && vSize == old(vSize)
      ensures At(u, v) == x
      ensures forall u': nat, v': nat :: u' < uSize && v' < vSize && (u' != u || v' != v) ==>
        At(u', v') == old(At(u', v'))
    {
      GetIndexLayout(log, uSize, vSize);
      contents := contents[IndexOf(log, uSize)(u, v) := Some(x)];
    }
  }

  /** The three images of the tests, with blocks of side 4: 8x8, 7x7 and 8x13. */
  lemma TestSizesFit()
    ensures Fits(2, 8, 8) && Fits(2, 7, 7) && Fits(2, 8, 13)
  {
    RoundUpIsLeastMultiple(2, 8);
    RoundUpIsLeastMultiple(2, 7);
    RoundUpIsLeastMultiple(2, 13);
    assert Pow2(2) == 4;
  }
}
