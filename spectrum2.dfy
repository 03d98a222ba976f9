// `CoefficientSpectrum<N>`: N `Float` coefficients (reals) built slot by slot
// from an initialiser, with operators defined through `zip`.
module Spectrum2 {
  import opened Spectrum

  /** The array `new_with(init)` builds: slot i holds `init(i)`. */
  function Tabulate(n: nat, init: nat --> real): (r: seq<real>)
    requires forall i :: 0 <= i < n ==> init.requires(i)
    ensures |r| == n && forall i :: 0 <= i < n ==> r[i] == init(i)
  {
    seq(n, i requires 0 <= i < n => init(i))
  }

  /** `new_with`: every slot of an uninitialised array written once, in order. */
  method NewWith(n: nat, init: nat --> real) returns (r: seq<real>)
    requires forall i :: 0 <= i < n ==> init.requires(i)
    ensures r == Tabulate(n, init)
  {
    var arr := new real[n];
    for i := 0 to n
      invariant forall j :: 0 <= j < i ==> arr[j] == init(j)
    {
      arr[i] := init(i);
    }
    r := arr[..];
  }

  /** `zip(other, f)`: `new_with(|i| f(self[i], other[i]))`. */
  function Zip(a: seq<real>, b: seq<real>, f: (real, real) --> real): (r: seq<real>)
    requires |a| == |b| && forall i :: 0 <= i < |a| ==> f.requires(a[i], b[i])
    ensures |r| == |a| && forall i :: 0 <= i < |a| ==> r[i] == f(a[i], b[i])
  {
    Tabulate(|a|, i requires 0 <= i < |a| => f(a[i], b[i]))
  }

  /** The closure passed to `zip` by each operator impl. */
  function OpFn(op: BinOp): (real, real) --> real {
    (x: real, y: real) requires op == Over ==> y != 0.0 => Apply(op, x, y)
  }

  predicate NoZeros(b: seq<real>) {
    forall i :: 0 <= i < |b| ==> b[i] != 0.0
  }

  /** `Add`, `Sub`, `Mul`, `Div`: `self.zip(&rhs, |x, y| x op y)`. */
  function Binary(op: BinOp, a: seq<real>, b: seq<real>): (r: seq<real>)
    requires |a| == |b| && (op == Over ==> NoZeros(b))
    ensures |r| == |a| && forall i :: 0 <= i < |a| ==> r[i] == Apply(op, a[i], b[i])
  {
    Zip(a, b, OpFn(op))
  }

  /**
   * `AddAssign`, `SubAssign`, `MulAssign`, `DivAssign`: `self.0[i] op= rhs.0[i]`
   * for i in `0..N`, ending where the binary operator ends.
   */
  method BinaryAssign(self: array<real>, op: BinOp, rhs: seq<real>)
    requires self.Length == |rhs| && (op == Over ==> NoZeros(rhs))
    modifies self
    ensures self[..] == Binary(op, old(self[..]), rhs)
  {
    ghost var before := self[..];
    for i := 0 to self.Length
      invariant forall j :: 0 <= j < i ==> self[j] == Apply(op, before[j], rhs[j])
      invariant forall j :: i <= j < self.Length ==> self[j] == before[j]
    {
      self[i] := Apply(op, self[i], rhs[i]);
    }
  }

  /** `AddAssign<Float>`: the scalar is added to every slot. */
  method AddScalarAssign(self: array<real>, k: real)
    modifies self
    ensures self[..] == AddScalar(old(self[..]), k)
  {
    ghost var before := self[..];
    for i := 0 to self.Length
      invariant forall j :: 0 <= j < i ==> self[j] == before[j] + k
      invariant forall j :: i <= j < self.Length ==> self[j] == before[j]
    {
      self[i] := self[i] + k;
    }
  }

  /** `Add<Float>` as written: `new_with(|i| self[i] * rhs)`, the product with the constant spectrum of k. */
  function AddScalarAsWritten(a: seq<real>, k: real): (r: seq<real>)
    ensures r == Binary(Times, a, Tabulate(|a|, i => k))
  {
    var r := Tabulate(|a|, i requires 0 <= i < |a| => a[i] * k);
    assert forall i :: 0 <= i < |a| ==> r[i] == Binary(Times, a, Tabulate(|a|, i => k))[i];
    r
  }

  /** `Add<Float>` as intended: the scalar added to every slot, as `AddAssign<Float>` does. */
  function AddScalar(a: seq<real>, k: real): (r: seq<real>)
    ensures |r| == |a| && forall i :: 0 <= i < |a| ==> r[i] == a[i] + k
  {
    Tabulate(|a|, i requires 0 <= i < |a| => a[i] + k)
  }

  /** The corrected operator agrees with `+` against a constant spectrum. */
  lemma AddScalarIsBinaryPlus(a: seq<real>, k: real)
    ensures AddScalar(a, k) == Binary(Plus, a, Tabulate(|a|, i => k))
  {
    assert forall i :: 0 <= i < |a| ==> AddScalar(a, k)[i] == Binary(Plus, a, Tabulate(|a|, i => k))[i];
  }

  /** As written, `[1.0] + 1.0` gives `[1.0]`, while `+=` gives `[2.0]`. */
  lemma AddScalarAsWrittenDiffers()
    ensures AddScalarAsWritten([1.0], 1.0) == [1.0]
    ensures AddScalar([1.0], 1.0) == [2.0]
  {
    assert AddScalarAsWritten([1.0], 1.0)[0] == 1.0;
    assert AddScalar([1.0], 1.0)[0] == 2.0;
  }

  /** The two agree exactly on the slots where adding and multiplying by k coincide. */
  lemma AddScalarAsWrittenAgrees(a: seq<real>, k: real)
    ensures AddScalarAsWritten(a, k) == AddScalar(a, k) <==> forall i :: 0 <= i < |a| ==> a[i] * k == a[i] + k
  {
    var w, c := AddScalarAsWritten(a, k), AddScalar(a, k);
    if forall i :: 0 <= i < |a| ==> a[i] * k == a[i] + k {
      assert forall i :: 0 <= i < |a| ==> w[i] == c[i];
    } else {
      var i :| 0 <= i < |a| && a[i] * k != a[i] + k;
      assert w[i] != c[i];
    }
  }

  /** `zip` with `+` and `*` is symmetric in its two spectra. */
  lemma BinaryCommutes(a: seq<real>, b: seq<real>)
    requires |a| == |b|
    ensures Binary(Plus, a, b) == Binary(Plus, b, a) && Binary(Times, a, b) == Binary(Times, b, a)
  {
    assert forall i :: 0 <= i < |a| ==> Binary(Plus, a, b)[i] == Binary(Plus, b, a)[i];
    assert forall i :: 0 <= i < |a| ==> Binary(Times, a, b)[i] == Binary(Times, b, a)[i];
  }

  /** `-=` undoes `+=` with the same right-hand side. */
  lemma MinusUndoesPlus(a: seq<real>, b: seq<real>)
    requires |a| == |b|
    ensures Binary(Minus, Binary(Plus, a, b), b) == a
  {
    assert forall i :: 0 <= i < |a| ==> Binary(Minus, Binary(Plus, a, b), b)[i] == a[i];
  }
}
