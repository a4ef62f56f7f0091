/**
 Tensor statistics: the kernel with its rerun over the finite elements.

 Mean, deviation, norm and bin edges are reductions of the numeric library; here they are any
 function of the elements, so overflow to an infinity is included.
 */
module StatsKernel {
  import opened Common
  import opened JsonSafe

  /** An array element or a reduction: any float that can be classified. */
  type Num = f: Flt | !f.Hostile? witness NaN

  datatype Field = Float(f: Flt) | Null | Opaque(text: string)

  datatype Histogram = Histogram(bins: seq<Flt>, counts: seq<int>)

  /** A stats dict. Absent keys are absent from `scalars` or `None`. */
  datatype Stats = Stats(
    scalars: map<string, Field>,
    histogram: Option<Histogram>,
    nonfinite: Option<map<string, string>>,
    nonfiniteCount: Option<int>,
    count: Option<int>,
    finite: Option<Stats>)

  const SCALARS: seq<string> := ["mean", "std", "min", "max", "norm"]

  const HISTOGRAM_BINS: nat := 16

  datatype Reductions = Reductions(mean: Num, std: Num, norm: Num, bins: seq<Num>, counts: seq<int>)

  // ---------------------------------------------------------------------------------------------
  // Extremes
  // ---------------------------------------------------------------------------------------------

  /** Order of the extended reals; NaN is related to nothing. */
  predicate Le(a: Num, b: Num) {
    a != NaN && b != NaN && (a == NegInf || b == PosInf || (a.Finite? && b.Finite? && a.r <= b.r))
  }

  function Lower(a: Num, b: Num): Num {
    if a == NaN || b == NaN then NaN else if Le(a, b) then a else b
  }

  function Upper(a: Num, b: Num): Num {
    if a == NaN || b == NaN then NaN else if Le(a, b) then b else a
  }

  function Least(xs: seq<Num>): Num
    requires xs != []
  {
    if |xs| == 1 then xs[0] else Lower(xs[0], Least(xs[1..]))
  }

  function Greatest(xs: seq<Num>): Num
    requires xs != []
  {
    if |xs| == 1 then xs[0] else Upper(xs[0], Greatest(xs[1..]))
  }

  ghost predicate AllFinite(xs: seq<Num>) { forall x | x in xs :: x.Finite? }

  /** NaN poisons an extreme and an infinity is one; otherwise the extremes are the true ones. */
  lemma {:induction false} ExtremesAre(xs: seq<Num>)
    requires xs != []
    ensures if NaN in xs then Least(xs) == NaN && Greatest(xs) == NaN
      else Least(xs) in xs && Greatest(xs) in xs && forall x | x in xs :: Le(Least(xs), x) && Le(x, Greatest(xs))
  {
    if |xs| > 1 {
      var rest := xs[1..];
      ExtremesAre(rest);
      assert forall x | x in xs :: x == xs[0] || x in rest;
      if NaN !in xs {
        var lo, hi := Least(rest), Greatest(rest);
        forall x | x in rest ensures Le(Least(xs), x) && Le(x, Greatest(xs)) {
          LeTransitive(Least(xs), lo, x);
          LeTransitive(x, hi, Greatest(xs));
        }
      }
    }
  }

  lemma LeTransitive(a: Num, b: Num, c: Num)
    requires b != NaN
    ensures Le(a, b) && Le(b, c) ==> Le(a, c)
    ensures a != NaN ==> Le(a, b) || Le(b, a)
    ensures a != NaN ==> Le(Lower(a, b), b) && Le(b, Upper(a, b))
  {}

  /** The two finiteness tests on the extremes see every non-finite element. */
  lemma ExtremesTell(xs: seq<Num>)
    requires xs != []
    ensures Least(xs).Finite? && Greatest(xs).Finite? <==> AllFinite(xs)
  {
    ExtremesAre(xs);
  }

  /** The range to bin over: none when an extreme is non-finite, widened when they coincide. */
  function HistogramRange(lo: Num, hi: Num): (range: Option<(real, real)>)
    ensures range.Some? <==> lo.Finite? && hi.Finite?
    ensures range.Some? && Le(lo, hi) ==>
      range.value.0 < range.value.1 && range.value.0 <= lo.r <= hi.r <= range.value.1
    ensures range.Some? && lo.r < hi.r ==> range.value == (lo.r, hi.r)
    ensures range.Some? && lo == hi ==> range.value.0 == lo.r && range.value.1 - range.value.0 == 1.0
  {
    if !(lo.Finite? && hi.Finite?) then None
    else if lo.r == hi.r then Some((lo.r, lo.r + 1.0))
    else Some((lo.r, hi.r))
  }

  function FiniteOf(xs: seq<Num>): seq<Num> {
    if xs == [] then [] else (if xs[0].Finite? then [xs[0]] else []) + FiniteOf(xs[1..])
  }

  lemma {:induction false} FiniteOfKeeps(xs: seq<Num>)
    ensures AllFinite(FiniteOf(xs)) && |FiniteOf(xs)| <= |xs|
    ensures |FiniteOf(xs)| == |xs| <==> AllFinite(xs)
    ensures forall x | x in xs && x.Finite? :: x in FiniteOf(xs)
  {
    if xs != [] { FiniteOfKeeps(xs[1..]); }
  }

  // ---------------------------------------------------------------------------------------------
  // The kernel
  // ---------------------------------------------------------------------------------------------

  function Record(mean: Num, std: Num, lo: Num, hi: Num, norm: Num, histogram: Option<Histogram>): Stats {
    Stats(map["mean" := Float(mean), "std" := Float(std), "min" := Float(lo),
              "max" := Float(hi), "norm" := Float(norm)],
          histogram, None, None, None, None)
  }

  function EmptyStats(): Stats {
    var zero := Finite(0.0);
    Record(zero, zero, zero, zero, zero,
           Some(Histogram(seq(HISTOGRAM_BINS + 1, _ => zero), seq(HISTOGRAM_BINS, _ => 0))))
  }

  function CountOnly(): Stats { Stats(map[], None, None, None, Some(0), None) }

  function Kernel(xs: seq<Num>, lib: seq<Num> -> Reductions): Stats
    decreases if AllFinite(xs) then 0 else 1
  {
    if xs == [] then EmptyStats()
    else
      var lo, hi := Least(xs), Greatest(xs);
      var r := lib(xs);
      match HistogramRange(lo, hi)
      case Some(_) => Record(r.mean, r.std, lo, hi, r.norm, Some(Histogram(r.bins, r.counts)))
      case None =>
        var kept := FiniteOf(xs);
        ExtremesTell(xs);
        FiniteOfKeeps(xs);
        var inner := if |kept| > 0 then Kernel(kept, lib).(count := Some(|kept|)) else CountOnly();
        Record(r.mean, r.std, lo, hi, r.norm, None).(nonfiniteCount := Some(|xs| - |kept|), finite := Some(inner))
  }

  /** The extremes reported, over the elements themselves. */
  lemma KernelExtremes(xs: seq<Num>, lib: seq<Num> -> Reductions)
    requires xs != []
    ensures var s := Kernel(xs, lib);
      && s.scalars.Keys == {"mean", "std", "min", "max", "norm"}
      && s.scalars["min"].Float? && s.scalars["max"].Float?
      && (NaN in xs ==> s.scalars["min"].f == NaN && s.scalars["max"].f == NaN)
      && (NaN !in xs ==> s.scalars["min"].f in xs && s.scalars["max"].f in xs)
      && (NaN !in xs && NegInf in xs ==> s.scalars["min"].f == NegInf)
      && (NaN !in xs && PosInf in xs ==> s.scalars["max"].f == PosInf)
      && (AllFinite(xs) ==> forall x | x in xs :: s.scalars["min"].f.r <= x.r <= s.scalars["max"].f.r)
  {
    ExtremesAre(xs);
    ExtremesTell(xs);
  }

  /** The other scalars and the bins are the library's, over the elements they are reported for. */
  lemma KernelReports(xs: seq<Num>, lib: seq<Num> -> Reductions)
    requires xs != []
    ensures var s, r := Kernel(xs, lib), lib(xs);
      && s.scalars["mean"] == Float(r.mean) && s.scalars["std"] == Float(r.std) && s.scalars["norm"] == Float(r.norm)
      && (AllFinite(xs) ==> s.histogram == Some(Histogram(r.bins, r.counts)) && s.count == None)
  {
    ExtremesTell(xs);
  }

  lemma {:induction false} FiniteOfPicks(xs: seq<Num>) returns (index: seq<nat>)
    ensures Picks(xs, FiniteOf(xs), index) && forall i | 0 <= i < |xs| :: i in index <==> xs[i].Finite?
  {
    if xs == [] {
      index := [];
    } else {
      var rest := FiniteOfPicks(xs[1..]);
      PicksTail(xs, FiniteOf(xs[1..]), rest);
      TailMembers(rest);
      assert forall i | 0 < i < |xs| :: xs[i] == xs[1..][i - 1];
      assert [] + FiniteOf(xs[1..]) == FiniteOf(xs[1..]);
      index := if xs[0].Finite? then [0] + Shift(rest) else Shift(rest);
    }
  }

  /** The finite block of a diverged tensor is the kernel's own report on just the finite elements, and their count. */
  lemma FiniteBlockIs(xs: seq<Num>, lib: seq<Num> -> Reductions) returns (finite: seq<Num>, index: seq<nat>)
    requires !AllFinite(xs)
    ensures Picks(xs, finite, index) && forall i | 0 <= i < |xs| :: i in index <==> xs[i].Finite?
    ensures var s := Kernel(xs, lib);
      && s.nonfiniteCount == Some(|xs| - |finite|) && s.finite.Some? && s.finite.value.count == Some(|finite|)
      && (finite == [] ==> s.finite.value.scalars == map[] && s.finite.value.histogram == None)
      && (finite != [] ==> s.finite.value.(count := None) == Kernel(finite, lib))
  {
    finite := FiniteOf(xs);
    index := FiniteOfPicks(xs);
    ExtremesTell(xs);
    FiniteOfKeeps(xs);
    if finite != [] { ExtremesTell(finite); }
  }

  /** An empty tensor: zeros, 17 edges and 16 counts of them. */
  lemma EmptyTensor(lib: seq<Num> -> Reductions)
    ensures var s, zero := Kernel([], lib), Float(Finite(0.0));
      && s.scalars == map["mean" := zero, "std" := zero, "min" := zero, "max" := zero, "norm" := zero]
      && s.histogram.Some? && |s.histogram.value.bins| == 17 && |s.histogram.value.counts| == 16
      && (forall e | e in s.histogram.value.bins :: e == Finite(0.0))
      && (forall c | c in s.histogram.value.counts :: c == 0)
      && s.finite == None && s.nonfiniteCount == None
  {
  }

  /** A record of finite extremes, over elements that are all finite. */
  lemma KernelOfFinite(xs: seq<Num>, lib: seq<Num> -> Reductions)
    requires AllFinite(xs)
    ensures Kernel(xs, lib).finite.None? && Kernel(xs, lib).nonfiniteCount.None? && Kernel(xs, lib).nonfinite.None?
    ensures Kernel(xs, lib).scalars["min"].f.Finite? && Kernel(xs, lib).scalars["max"].f.Finite?
  {
    if xs != [] { ExtremesTell(xs); }
  }

  /** The block appears exactly for a diverged tensor, is one level deep, and the counts add up. */
  lemma RerunsAtMostOnce(xs: seq<Num>, lib: seq<Num> -> Reductions)
    ensures var s := Kernel(xs, lib);
      && (s.finite.Some? <==> !AllFinite(xs))
      && (s.finite.Some? ==>
        && s.histogram.None?
        && s.finite.value.finite.None?
        && s.finite.value.count.Some? && s.nonfiniteCount.Some?
        && s.nonfiniteCount.value > 0
        && s.nonfiniteCount.value + s.finite.value.count.value == |xs|)
  {
    if xs != [] {
      ExtremesTell(xs);
      FiniteOfKeeps(xs);
      KernelOfFinite(FiniteOf(xs), lib);
    }
  }

  // ---------------------------------------------------------------------------------------------
  // The algebraic norm
  // ---------------------------------------------------------------------------------------------

  function Sum(xs: seq<real>): real { if xs == [] then 0.0 else xs[0] + Sum(xs[1..]) }

  function Times(a: real, b: real): real { a * b }

  function Squares(xs: seq<real>): real { if xs == [] then 0.0 else Times(xs[0], xs[0]) + Squares(xs[1..]) }

  function Deviations(xs: seq<real>, m: real): real {
    if xs == [] then 0.0 else Times(xs[0] - m, xs[0] - m) + Deviations(xs[1..], m)
  }

  function Mean(xs: seq<real>): real
    requires xs != []
  {
    Sum(xs) / (|xs| as real)
  }

  /** The population variance, a mean of squared deviations. */
  function Variance(xs: seq<real>): real
    requires xs != []
  {
    Deviations(xs, Mean(xs)) / (|xs| as real)
  }

  lemma Expand(x: real, m: real, rest: real, n: real)
    ensures Times(x - m, x - m) == Times(x, x) - 2.0 * Times(m, x) + Times(m, m)
    ensures Times(m, x + rest) == Times(m, x) + Times(m, rest)
    ensures Times(n + 1.0, Times(m, m)) == Times(m, m) + Times(n, Times(m, m))
  {}

  lemma {:induction false} DeviationsExpand(xs: seq<real>, m: real)
    ensures Deviations(xs, m) == Squares(xs) - 2.0 * Times(m, Sum(xs)) + Times(|xs| as real, Times(m, m))
  {
    if xs == [] {
    } else {
      hide Times;
      DeviationsExpand(xs[1..], m);
      Expand(xs[0], m, Sum(xs[1..]), |xs[1..]| as real);
      assert |xs| as real == |xs[1..]| as real + 1.0;
    }
  }

  lemma TimesQuotient(n: real, d: real)
    requires n != 0.0
    ensures Times(n, d / n) == d
  {}

  lemma Regroup(n: real, m: real, s: real, v: real, squares: real, deviations: real)
    requires s == Times(n, m) && deviations == Times(n, v)
    requires deviations == squares - 2.0 * Times(m, s) + Times(n, Times(m, m))
    ensures Times(n, Times(m, m) + v) == squares
  {
    assert m * (n * m) == n * (m * m);
    assert n * (m * m + v) == n * (m * m) + n * v;
  }

  /** Over exact reals the norm derived from mean and deviation is the Euclidean norm. */
  lemma NormFromMeanAndDeviation(xs: seq<real>)
    requires xs != []
    ensures Times(|xs| as real, Times(Mean(xs), Mean(xs)) + Variance(xs)) == Squares(xs)
  {
    hide Times, Sum, Squares, Deviations;
    var n, m, v := |xs| as real, Mean(xs), Variance(xs);
    DeviationsExpand(xs, m);
    TimesQuotient(n, Sum(xs));
    TimesQuotient(n, Deviations(xs, m));
    Regroup(n, m, Sum(xs), v, Squares(xs), Deviations(xs, m));
  }
}
