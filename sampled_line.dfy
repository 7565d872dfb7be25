/**
 * `Line<T>` of MetComp: a function of one real variable sampled on an
 * equally spaced grid.  The line keeps
 *  - `sPoints`, the sorted slice points that split it into regions, and
 *    `functions`, one analytical function per region (region `j` is
 *    `(sPoints[j], sPoints[j+1]]`);
 *  - `elements`, the samples `(x, y)` with `x_i = sPoints[0] + i·step`, and
 *    `step = (last slice point − first) / (n − 1)`;
 *  - `ptr`, the index of the element the cursor designates.
 *
 * The cursor is an iterator in the source; it is modelled by its index.
 */
module SampledLine {

  datatype Point<T> = Point(x: real, y: T)

  /** The `i`-th grid abscissa `x0 + i·step`. */
  function GridX(x0: real, step: real, i: nat): (x: real)
  {
    x0 + (i as real) * step
  }

  predicate Sorted(s: seq<real>)
  {
    forall i, j :: 0 <= i < j < |s| ==> s[i] <= s[j]
  }

  /** `std::lower_bound`: the first index whose value is not below `v`. */
  function LowerBound(s: seq<real>, v: real): (r: nat)
    ensures r <= |s|
    ensures forall j :: 0 <= j < r ==> s[j] < v
    ensures r < |s| ==> v <= s[r]
  {
    if s == [] || v <= s[0] then 0 else 1 + LowerBound(s[1..], v)
  }

  /** `std::upper_bound`: the first index whose value is above `v`. */
  function UpperBound(s: seq<real>, v: real): (r: nat)
    ensures r <= |s|
    ensures forall j :: 0 <= j < r ==> s[j] <= v
    ensures r < |s| ==> v < s[r]
  {
    if s == [] || v < s[0] then 0 else 1 + UpperBound(s[1..], v)
  }

  /** On a sorted sequence the lower bound splits it into the values below `v` and the rest. */
  lemma LowerBoundSorted(s: seq<real>, v: real)
    requires Sorted(s)
    ensures forall j :: LowerBound(s, v) <= j < |s| ==> v <= s[j]
  {
  }

  /** On a sorted sequence the upper bound splits it into the values up to `v` and the rest. */
  lemma UpperBoundSorted(s: seq<real>, v: real)
    requires Sorted(s)
    ensures forall j :: UpperBound(s, v) <= j < |s| ==> v < s[j]
  {
  }

  /** On a sorted sequence the lower bound is determined by any index that splits it at `v`. */
  lemma {:induction false} LowerBoundAt(s: seq<real>, v: real, k: nat)
    requires k <= |s|
    requires forall j :: 0 <= j < k ==> s[j] < v
    requires k < |s| ==> v <= s[k]
    ensures LowerBound(s, v) == k
  {
    if k > 0 {
      LowerBoundAt(s[1..], v, k - 1);
    }
  }

  /** On a sorted sequence the upper bound is determined by any index that splits it at `v`. */
  lemma {:induction false} UpperBoundAt(s: seq<real>, v: real, k: nat)
    requires k <= |s|
    requires forall j :: 0 <= j < k ==> s[j] <= v
    requires k < |s| ==> v < s[k]
    ensures UpperBound(s, v) == k
  {
    if k > 0 {
      UpperBoundAt(s[1..], v, k - 1);
    }
  }

  /** Slice points and functions fit together: sorted points spanning a non-empty interval, one function per region. */
  predicate Shape<T>(s: seq<real>, fs: seq<real -> T>)
  {
    |s| >= 2 && Sorted(s) && s[0] < s[|s| - 1] && |fs| == |s| - 1
  }

  /** The step of `n` equally spaced points from the first to the last slice point. */
  function StepOf(s: seq<real>, n: nat): (step: real)
    requires |s| >= 1 && n >= 2
  {
    (s[|s| - 1] - s[0]) / ((n - 1) as real)
  }

  /** The last grid point is `last`, whatever the number of points. */
  lemma GridLast(x0: real, last: real, n: nat)
    requires n >= 2
    ensures GridX(x0, (last - x0) / ((n - 1) as real), n - 1) == last
  {
    var m := (n - 1) as real;
    assert m * ((last - x0) / m) == last - x0;
  }

  /** Every grid point after the first lies in `(x0, last]`. */
  lemma GridWithin(x0: real, last: real, n: nat, i: nat)
    requires x0 < last && n >= 2 && 1 <= i <= n - 1
    ensures x0 < GridX(x0, (last - x0) / ((n - 1) as real), i) <= last
  {
    var m := (n - 1) as real;
    var step := (last - x0) / m;
    assert step > 0.0;
    ScaleBetween(i as real, m, step);
    GridLast(x0, last, n);
  }

  lemma ScaleBetween(a: real, m: real, step: real)
    requires 1.0 <= a <= m && step > 0.0
    ensures 0.0 < a * step <= m * step
  {
    assert (m - a) * step >= 0.0;
  }

  /** The index of the function serving `x`: the region `(s[j], s[j+1]]` holding it. */
  function Serving(s: seq<real>, x: real): (j: nat)
    requires |s| >= 2 && s[0] < x <= s[|s| - 1]
    ensures j < |s| - 1 && s[j] < x <= s[j + 1]
  {
    LowerBound(s, x) - 1
  }

  /** The `i`-th sample of the rebuilt grid: the first point uses the first function, the others the serving one. */
  function SampleAt<T>(s: seq<real>, fs: seq<real -> T>, n: nat, i: nat): (p: Point<T>)
    requires Shape(s, fs) && n >= 2 && i < n
    ensures p.x == GridX(s[0], StepOf(s, n), i)
  {
    if i == 0 then Point(s[0], fs[0](s[0]))
    else
      var x := GridX(s[0], StepOf(s, n), i);
      GridWithin(s[0], s[|s| - 1], n, i);
      Point(x, fs[Serving(s, x)](x))
  }

  /** The `n` samples the rebuild loops produce. */
  function Sample<T>(s: seq<real>, fs: seq<real -> T>, n: nat): (r: seq<Point<T>>)
    requires Shape(s, fs) && n >= 2
    ensures |r| == n
    ensures forall i :: 0 <= i < n ==> r[i] == SampleAt(s, fs, n, i)
  {
    seq(n, i requires 0 <= i < n => SampleAt(s, fs, n, i))
  }

  /**
   * The slice points after `set_function(lo, hi, g)`: `lo` and `hi` replace
   * every point of `[lo, hi]`, so sorted slice points stay sorted.
   */
  function SplicePoints(s: seq<real>, lo: real, hi: real): (r: seq<real>)
    ensures |s| >= 2 && Sorted(s) && s[0] < lo <= hi && lo <= s[|s| - 1] ==> Sorted(r)
  {
    var pos, ub := LowerBound(s, lo), UpperBound(s, hi);
    var r := s[..pos] + [lo] + [hi] + s[ub..];
    if |s| >= 2 && Sorted(s) && s[0] < lo <= hi && lo <= s[|s| - 1] then
      SpliceBounds(s, lo, hi);
      UpperBoundSorted(s, hi);
      SortedSlice(s, 0, pos);
      SortedSlice(s, ub, |s|);
      SortedConcat(s[..pos], [lo]);
      SortedConcat(s[..pos] + [lo], [hi]);
      SortedConcat(s[..pos] + [lo] + [hi], s[ub..]);
      r
    else r
  }

  /**
   * The functions after `set_function(lo, hi, g)`: `g` serves `(lo, hi]`,
   * and the function that served `hi` before keeps serving what follows it.
   */
  function SpliceFunctions<T>(s: seq<real>, fs: seq<real -> T>, lo: real, hi: real, g: real -> T): (r: seq<real -> T>)
    requires |s| >= 2 && |fs| == |s| - 1 && s[0] < lo <= hi && lo <= s[|s| - 1]
    ensures |r| == |SplicePoints(s, lo, hi)| - 1
    ensures LowerBound(s, lo) < |r| && r[LowerBound(s, lo)] == g
  {
    SpliceBounds(s, lo, hi);
    var pos, ub := LowerBound(s, lo), UpperBound(s, hi);
    fs[..pos] + [g] + fs[ub - 1..]
  }

  /** `lo` goes after the first slice point, and no later than where `hi` goes. */
  lemma SpliceBounds(s: seq<real>, lo: real, hi: real)
    requires |s| >= 2 && s[0] < lo <= hi && lo <= s[|s| - 1]
    ensures 1 <= LowerBound(s, lo) <= UpperBound(s, hi) && LowerBound(s, lo) < |s|
  {
  }

  /** The spliced points element by element: the old points below `lo`, then `lo` and `hi`, then the old points above `hi`. */
  lemma SplicePointsIndex(s: seq<real>, lo: real, hi: real, pos: nat, ub: nat)
    requires |s| >= 2 && s[0] < lo <= hi && lo <= s[|s| - 1]
    requires pos == LowerBound(s, lo) && ub == UpperBound(s, hi)
    ensures 1 <= pos <= ub && pos < |s|
    ensures |SplicePoints(s, lo, hi)| == pos + 2 + |s| - ub
    ensures forall j :: 0 <= j < pos ==> SplicePoints(s, lo, hi)[j] == s[j]
    ensures SplicePoints(s, lo, hi)[pos] == lo && SplicePoints(s, lo, hi)[pos + 1] == hi
    ensures forall j :: pos + 2 <= j < |SplicePoints(s, lo, hi)| ==> SplicePoints(s, lo, hi)[j] == s[j - pos - 2 + ub]
  {
    SpliceBounds(s, lo, hi);
    SplicePointsMiddle(s, lo, hi, pos, ub);
    SplicePointsBelow(s, lo, hi, pos, ub);
    SplicePointsAbove(s, lo, hi, pos, ub);
  }

  lemma SplicePointsMiddle(s: seq<real>, lo: real, hi: real, pos: nat, ub: nat)
    requires pos == LowerBound(s, lo) && ub == UpperBound(s, hi) && pos <= ub <= |s|
    ensures |SplicePoints(s, lo, hi)| == pos + 2 + |s| - ub
    ensures SplicePoints(s, lo, hi)[pos] == lo && SplicePoints(s, lo, hi)[pos + 1] == hi
  {
    var a := s[..pos] + [lo] + [hi];
    assert SplicePoints(s, lo, hi) == a + s[ub..];
    assert a[pos] == lo && a[pos + 1] == hi;
  }

  lemma SplicePointsBelow(s: seq<real>, lo: real, hi: real, pos: nat, ub: nat)
    requires pos == LowerBound(s, lo) && ub == UpperBound(s, hi) && pos <= ub
    ensures forall j :: 0 <= j < pos ==> SplicePoints(s, lo, hi)[j] == s[j]
  {
    var a := s[..pos] + [lo] + [hi];
    var t := SplicePoints(s, lo, hi);
    assert t == a + s[ub..];
    forall j | 0 <= j < pos
      ensures t[j] == s[j]
    {
      assert t[j] == a[j];
    }
  }

  lemma SplicePointsAbove(s: seq<real>, lo: real, hi: real, pos: nat, ub: nat)
    requires pos == LowerBound(s, lo) && ub == UpperBound(s, hi) && pos <= ub
    ensures var t := SplicePoints(s, lo, hi);
      forall j :: pos + 2 <= j < |t| ==> t[j] == s[j - pos - 2 + ub]
  {
    var b := s[ub..];
    var t := SplicePoints(s, lo, hi);
    assert t == s[..pos] + [lo] + [hi] + b;
    forall j | pos + 2 <= j < |t|
      ensures t[j] == s[j - pos - 2 + ub]
    {
      var m := j - pos - 2;
      assert t[j] == b[m];
      assert b[m] == s[ub + m];
    }
  }

  /** The spliced functions element by element: `g` takes the place of the functions of `(lo, hi]`. */
  lemma SpliceFunctionsIndex<T>(s: seq<real>, fs: seq<real -> T>, lo: real, hi: real, g: real -> T)
    requires |s| >= 2 && |fs| == |s| - 1 && s[0] < lo <= hi && lo <= s[|s| - 1]
    ensures var pos, ub, gs := LowerBound(s, lo), UpperBound(s, hi), SpliceFunctions(s, fs, lo, hi, g);
      && |gs| == pos + 1 + |s| - ub
      && (forall j :: 0 <= j < pos ==> gs[j] == fs[j])
      && gs[pos] == g
      && (forall j :: pos + 1 <= j < |gs| ==> gs[j] == fs[j - pos - 2 + ub])
  {
    SpliceBounds(s, lo, hi);
  }

  /** The splice keeps the points sorted and one function per region, and the first point stays first. */
  lemma SpliceShape<T>(s: seq<real>, fs: seq<real -> T>, lo: real, hi: real, g: real -> T)
    requires Shape(s, fs) && s[0] < lo <= hi && lo <= s[|s| - 1]
    ensures Shape(SplicePoints(s, lo, hi), SpliceFunctions(s, fs, lo, hi, g))
    ensures SplicePoints(s, lo, hi)[0] == s[0]
    ensures SplicePoints(s, lo, hi)[|SplicePoints(s, lo, hi)| - 1] == if hi < s[|s| - 1] then s[|s| - 1] else hi
  {
    SplicePointsIndex(s, lo, hi, LowerBound(s, lo), UpperBound(s, hi));
    SpliceFunctionsIndex(s, fs, lo, hi, g);
  }

  lemma SortedSlice(s: seq<real>, i: nat, j: nat)
    requires Sorted(s) && i <= j <= |s|
    ensures Sorted(s[i..j])
  {
    var t := s[i..j];
    forall a, b | 0 <= a < b < |t|
      ensures t[a] <= t[b]
    {
      assert t[a] == s[i + a] && t[b] == s[i + b];
    }
  }

  /** Two sorted sequences joined where the first ends no higher than the second starts. */
  lemma SortedConcat(a: seq<real>, b: seq<real>)
    requires Sorted(a) && Sorted(b)
    requires a != [] && b != [] ==> a[|a| - 1] <= b[0]
    ensures Sorted(a + b)
  {
    var t := a + b;
    forall i, j | 0 <= i < j < |t|
      ensures t[i] <= t[j]
    {
      if j < |a| {
        assert t[i] == a[i] && t[j] == a[j];
      } else if i >= |a| {
        assert t[i] == b[i - |a|] && t[j] == b[j - |a|];
      } else {
        assert t[i] == a[i] <= a[|a| - 1];
        assert b[0] <= b[j - |a|] == t[j];
      }
    }
  }

  /** After the splice, `g` serves every `x` in `(lo, hi]`. */
  lemma SpliceServesInside<T>(s: seq<real>, fs: seq<real -> T>, lo: real, hi: real, g: real -> T, x: real)
    requires Shape(s, fs) && s[0] < lo <= hi && lo <= s[|s| - 1]
    requires lo < x <= hi
    ensures Shape(SplicePoints(s, lo, hi), SpliceFunctions(s, fs, lo, hi, g))
    ensures SpliceFunctions(s, fs, lo, hi, g)[Serving(SplicePoints(s, lo, hi), x)] == g
  {
    SpliceShape(s, fs, lo, hi, g);
    var pos := LowerBound(s, lo);
    SplicePointsIndex(s, lo, hi, pos, UpperBound(s, hi));
    SpliceFunctionsIndex(s, fs, lo, hi, g);
    LowerBoundAt(SplicePoints(s, lo, hi), x, pos + 1);
  }

  /** After the splice, every `x` of the old line at or below `lo` is served by the same function as before. */
  lemma SpliceServesBelow<T>(s: seq<real>, fs: seq<real -> T>, lo: real, hi: real, g: real -> T, x: real)
    requires |s| >= 2 && |fs| == |s| - 1 && s[0] < lo <= hi && lo <= s[|s| - 1]
    requires s[0] < x <= lo
    ensures var t := SplicePoints(s, lo, hi);
      |t| >= 2 && t[0] < x <= t[|t| - 1] && Serving(t, x) < |SpliceFunctions(s, fs, lo, hi, g)|
    ensures SpliceFunctions(s, fs, lo, hi, g)[Serving(SplicePoints(s, lo, hi), x)] == fs[Serving(s, x)]
  {
    var pos, ub := LowerBound(s, lo), UpperBound(s, hi);
    SplicePointsIndex(s, lo, hi, pos, ub);
    SpliceFunctionsIndex(s, fs, lo, hi, g);
    SpliceLowerBoundBelow(s, lo, hi, x, pos, ub);
  }

  /** Where `x` at or below `lo` falls among the spliced points: where it fell before. */
  lemma SpliceLowerBoundBelow(s: seq<real>, lo: real, hi: real, x: real, pos: nat, ub: nat)
    requires |s| >= 2 && s[0] < lo <= hi && lo <= s[|s| - 1] && s[0] < x <= lo
    requires pos == LowerBound(s, lo) && ub == UpperBound(s, hi)
    ensures 1 <= LowerBound(s, x) <= pos
    ensures LowerBound(SplicePoints(s, lo, hi), x) == LowerBound(s, x)
  {
    SplicePointsIndex(s, lo, hi, pos, ub);
    var k := LowerBound(s, x);
    assert k <= pos;
    LowerBoundAt(SplicePoints(s, lo, hi), x, k);
  }

  /** After the splice, every `x` of the old line above `hi` is served by the same function as before. */
  lemma SpliceServesAbove<T>(s: seq<real>, fs: seq<real -> T>, lo: real, hi: real, g: real -> T, x: real)
    requires |s| >= 2 && |fs| == |s| - 1 && s[0] < lo <= hi && lo <= s[|s| - 1]
    requires hi < x <= s[|s| - 1]
    ensures var t := SplicePoints(s, lo, hi);
      |t| >= 2 && t[0] < x <= t[|t| - 1] && Serving(t, x) < |SpliceFunctions(s, fs, lo, hi, g)|
    ensures SpliceFunctions(s, fs, lo, hi, g)[Serving(SplicePoints(s, lo, hi), x)] == fs[Serving(s, x)]
  {
    var pos, ub := LowerBound(s, lo), UpperBound(s, hi);
    SpliceEnds(s, lo, hi);
    SpliceLowerBoundAbove(s, lo, hi, x, pos, ub);
    SpliceFunctionAbove(s, fs, lo, hi, g, Serving(SplicePoints(s, lo, hi), x));
  }

  /** The spliced points keep the first point, and the last one when some point lies above `hi`. */
  lemma SpliceEnds(s: seq<real>, lo: real, hi: real)
    requires |s| >= 2 && s[0] < lo <= hi && lo <= s[|s| - 1]
    ensures var t := SplicePoints(s, lo, hi);
      |t| == LowerBound(s, lo) + 2 + |s| - UpperBound(s, hi) && |t| >= 2
    ensures var t := SplicePoints(s, lo, hi);
      t[0] == s[0] && (UpperBound(s, hi) < |s| ==> t[|t| - 1] == s[|s| - 1])
  {
    SplicePointsIndex(s, lo, hi, LowerBound(s, lo), UpperBound(s, hi));
  }

  /** A spliced function after `g`: the old function shifted by the regions `g` replaced. */
  lemma SpliceFunctionAbove<T>(s: seq<real>, fs: seq<real -> T>, lo: real, hi: real, g: real -> T, k: nat)
    requires |s| >= 2 && |fs| == |s| - 1 && s[0] < lo <= hi && lo <= s[|s| - 1]
    requires LowerBound(s, lo) + 1 <= k < |SpliceFunctions(s, fs, lo, hi, g)|
    ensures 0 <= k - LowerBound(s, lo) - 2 + UpperBound(s, hi) < |fs|
    ensures SpliceFunctions(s, fs, lo, hi, g)[k] == fs[k - LowerBound(s, lo) - 2 + UpperBound(s, hi)]
  {
    SpliceFunctionsIndex(s, fs, lo, hi, g);
  }

  /** Where `x` above `hi` falls among the spliced points: shifted by the points `lo` and `hi` replaced. */
  lemma SpliceLowerBoundAbove(s: seq<real>, lo: real, hi: real, x: real, pos: nat, ub: nat)
    requires |s| >= 2 && s[0] < lo <= hi && lo <= s[|s| - 1] && hi < x <= s[|s| - 1]
    requires pos == LowerBound(s, lo) && ub == UpperBound(s, hi)
    ensures ub <= LowerBound(s, x) < |s| && ub < |s|
    ensures LowerBound(SplicePoints(s, lo, hi), x) == pos + 2 + LowerBound(s, x) - ub
  {
    SplicePointsIndex(s, lo, hi, pos, ub);
    var t := SplicePoints(s, lo, hi);
    var k := LowerBound(s, x);
    assert ub <= k;
    forall j | 0 <= j < pos + 2 + k - ub
      ensures t[j] < x
    {
      if j >= pos + 2 {
        assert t[j] == s[j - pos - 2 + ub];
      }
    }
    LowerBoundAt(t, x, pos + 2 + k - ub);
  }

  lemma {:induction false} UpperBoundAfterPrefix(a: seq<real>, b: seq<real>, v: real)
    requires forall i :: 0 <= i < |a| ==> a[i] <= v
    ensures UpperBound(a + b, v) == |a| + UpperBound(b, v)
  {
    if a != [] {
      assert (a + b)[1..] == a[1..] + b;
      UpperBoundAfterPrefix(a[1..], b, v);
    } else {
      assert a + b == b;
    }
  }

  /**
   * The erase loop of `set_function`: once `e` of the first `k` points
   * after the prefix `p` are erased, `hi` would go `k − e` places after it.
   */
  lemma EraseBound(p: seq<real>, t: seq<real>, hi: real, k: nat, e: nat)
    requires e <= k <= |t|
    requires forall j :: 0 <= j < |p| ==> p[j] <= hi
    requires forall j :: 0 <= j < k ==> t[j] <= hi
    requires k < |t| ==> hi < t[k]
    ensures UpperBound(p + t[e..], hi) == |p| + k - e
  {
    UpperBoundAfterPrefix(p, t[e..], hi);
    UpperBoundAt(t[e..], hi, k - e);
  }

  /** The second insertion of `set_function`: the function before `g` is copied after it. */
  lemma DuplicateSplit<F>(fs: seq<F>, pos: nat, g: F)
    requires 1 <= pos <= |fs|
    ensures var f1 := fs[..pos] + [g] + fs[pos..];
      f1[..pos + 1] + [f1[pos - 1]] + f1[pos + 1..] == fs[..pos] + [g] + fs[pos - 1..]
  {
    var f1 := fs[..pos] + [g] + fs[pos..];
    assert f1[pos - 1] == fs[pos - 1];
    assert f1[..pos + 1] == fs[..pos] + [g];
    assert f1[pos + 1..] == fs[pos..];
    assert fs[pos - 1..] == [fs[pos - 1]] + fs[pos..];
  }

  /** Erasing the element right after the prefix `p` from `p + t[e..]` leaves `p + t[e + 1..]`. */
  lemma DropAfter<X>(p: seq<X>, t: seq<X>, e: nat)
    requires e < |t|
    ensures (p + t[e..])[..|p|] + (p + t[e..])[|p| + 1..] == p + t[e + 1..]
  {
    assert (p + t[e..])[..|p|] == p;
    assert (p + t[e..])[|p| + 1..] == t[e + 1..];
  }

  /** Inserting `v` right after the prefix `p`. */
  lemma InsertAfter<X>(p: seq<X>, t: seq<X>, v: X)
    ensures (p + t)[..|p|] + [v] + (p + t)[|p|..] == p + [v] + t
  {
    assert (p + t)[..|p|] == p;
    assert (p + t)[|p|..] == t;
  }

  /**
   * The `while` loop of `set_function(lo, hi, g)`: the point right after the
   * prefix `p`, with its function, is erased until `hi` would go right after
   * `p`, which takes `k` erasures when `k` points after `p` are at most `hi`.
   */
  method EraseThrough<T>(p: seq<real>, t: seq<real>, q: seq<real -> T>, u: seq<real -> T>, hi: real, ghost k: nat)
    returns (pts: seq<real>, fns: seq<real -> T>)
    requires |q| == |p| && k <= |t| && k <= |u|
    requires forall j :: 0 <= j < |p| ==> p[j] <= hi
    requires forall j :: 0 <= j < k ==> t[j] <= hi
    requires k < |t| ==> hi < t[k]
    ensures pts == p + t[k..] && fns == q + u[k..]
  {
    var it := |p|;
    pts, fns := p + t, q + u;
    ghost var e := 0;
    assert t[0..] == t && u[0..] == u;
    EraseBound(p, t, hi, k, 0);
    while it != UpperBound(pts, hi)
      invariant e <= k
      invariant pts == p + t[e..] && fns == q + u[e..]
      invariant UpperBound(pts, hi) == |p| + k - e
      decreases k - e
    {
      DropAfter(p, t, e);
      DropAfter(q, u, e);
      pts := pts[..it] + pts[it + 1..];
      fns := fns[..it] + fns[it + 1..];
      e := e + 1;
      EraseBound(p, t, hi, k, e);
    }
  }

  /**
   * The insertions and erasures of `set_function(lo, hi, g)` on the slice
   * points and the functions: `lo` goes in at its lower bound with `g` and a
   * copy of the function it splits; then the point after `lo`, with its
   * function, is erased until `hi` would go right after `lo`; then `hi` goes
   * in.
   */
  method Splice<T>(s: seq<real>, fs: seq<real -> T>, lo: real, hi: real, g: real -> T)
    returns (pts: seq<real>, fns: seq<real -> T>)
    requires |s| >= 2 && |fs| == |s| - 1 && s[0] < lo <= hi && lo <= s[|s| - 1]
    ensures pts == SplicePoints(s, lo, hi)
    ensures fns == SpliceFunctions(s, fs, lo, hi, g)
    ensures Shape(s, fs) ==> Shape(pts, fns)
  {
    if Shape(s, fs) {
      SpliceShape(s, fs, lo, hi, g);
    }
    SpliceBounds(s, lo, hi);
    ghost var ub := UpperBound(s, hi);
    var pos := LowerBound(s, lo);
    pts, fns := InsertLo(s, fs, lo, g, pos);
    var p, q := s[..pos] + [lo], fs[..pos] + [g];
    EraseReady(s, lo, hi, pos, ub);
    AssembleFunctions(s, fs, lo, hi, g, pos, ub);
    pts, fns := EraseThrough(p, s[pos..], q, fs[pos - 1..], hi, ub - pos);
    AssemblePoints(s, lo, hi, pos, ub);
    pts := pts[..pos + 1] + [hi] + pts[pos + 1..];
  }

  /**
   * The insertions before the erase loop of `set_function`: `lo` at `pos`
   * with `g`, then a copy of the function `lo` splits right after `g`.
   */
  method InsertLo<T>(s: seq<real>, fs: seq<real -> T>, lo: real, g: real -> T, pos: nat)
    returns (pts: seq<real>, fns: seq<real -> T>)
    requires 1 <= pos <= |fs| && pos <= |s|
    ensures pts == (s[..pos] + [lo]) + s[pos..]
    ensures fns == (fs[..pos] + [g]) + fs[pos - 1..]
  {
    pts := s[..pos] + [lo] + s[pos..];
    fns := fs[..pos] + [g] + fs[pos..];
    fns := fns[..pos + 1] + [fns[pos - 1]] + fns[pos + 1..];
    DuplicateSplit(fs, pos, g);
  }

  /** The state `set_function` reaches before its erase loop satisfies what the loop needs. */
  lemma EraseReady(s: seq<real>, lo: real, hi: real, pos: nat, ub: nat)
    requires |s| >= 2 && s[0] < lo <= hi && lo <= s[|s| - 1]
    requires pos == LowerBound(s, lo) && ub == UpperBound(s, hi)
    ensures 1 <= pos <= ub <= |s|
    ensures forall j :: 0 <= j < |s[..pos] + [lo]| ==> (s[..pos] + [lo])[j] <= hi
    ensures forall j :: 0 <= j < ub - pos ==> s[pos..][j] <= hi
    ensures ub - pos < |s[pos..]| ==> hi < s[pos..][ub - pos]
  {
    SpliceBounds(s, lo, hi);
    var p := s[..pos] + [lo];
    forall j | 0 <= j < |p|
      ensures p[j] <= hi
    {
      if j < pos {
        assert p[j] == s[j];
      }
    }
    forall j | 0 <= j < ub - pos
      ensures s[pos..][j] <= hi
    {
      assert s[pos..][j] == s[pos + j];
    }
    if ub < |s| {
      assert s[pos..][ub - pos] == s[ub];
    }
  }

  /** After the erase loop, inserting `hi` right after `lo` completes the spliced points. */
  lemma AssemblePoints(s: seq<real>, lo: real, hi: real, pos: nat, ub: nat)
    requires pos == LowerBound(s, lo) && ub == UpperBound(s, hi) && pos <= ub <= |s|
    ensures var t := (s[..pos] + [lo]) + s[pos..][ub - pos..];
      t[..pos + 1] + [hi] + t[pos + 1..] == SplicePoints(s, lo, hi)
  {
    assert s[pos..][ub - pos..] == s[ub..];
    InsertAfter(s[..pos] + [lo], s[ub..], hi);
  }

  /** After the erase loop, the functions are the spliced functions. */
  lemma AssembleFunctions<T>(s: seq<real>, fs: seq<real -> T>, lo: real, hi: real, g: real -> T, pos: nat, ub: nat)
    requires |s| >= 2 && |fs| == |s| - 1 && s[0] < lo <= hi && lo <= s[|s| - 1]
    requires pos == LowerBound(s, lo) && ub == UpperBound(s, hi)
    ensures 1 <= pos <= ub && ub - pos <= |fs[pos - 1..]|
    ensures (fs[..pos] + [g]) + fs[pos - 1..][ub - pos..] == SpliceFunctions(s, fs, lo, hi, g)
  {
    SpliceBounds(s, lo, hi);
    assert fs[pos - 1..][ub - pos..] == fs[ub - 1..];
    assert SpliceFunctions(s, fs, lo, hi, g) == fs[..pos] + [g] + fs[ub - 1..];
  }

  class Line<T> {
    var functions: seq<real -> T>
    var sPoints: seq<real>
    var step: real
    var elements: seq<Point<T>>
    var ptr: nat

    /** The grid, the regions and the cursor fit together. */
    ghost predicate Valid()
      reads this
    {
      && Shape(sPoints, functions)
      && |elements| >= 2 && ptr < |elements|
      && step == StepOf(sPoints, |elements|)
      && forall i :: 0 <= i < |elements| ==> elements[i].x == GridX(sPoints[0], step, i)
    }

    /**
     * `Line(v1, v2, n, f)`: `n` equally spaced samples of `f` from the
     * smaller to the larger endpoint, one region served by `f`, the cursor
     * on the first sample.  Equal endpoints are reported and leave the line
     * empty.
     */
    constructor (v1: real, v2: real, n: nat, f: real -> T)
      requires n >= 2
      ensures v1 != v2 ==> Valid()
      ensures v1 != v2 ==> sPoints == [if v1 < v2 then v1 else v2, if v1 < v2 then v2 else v1]
      ensures v1 != v2 ==> functions == [f] && ptr == 0 && |elements| == n
      ensures v1 != v2 ==> forall i :: 0 <= i < n ==> elements[i].y == f(elements[i].x)
      ensures v1 == v2 ==> elements == [] && functions == [] && sPoints == []
    {
      if v1 == v2 {
        functions, sPoints, elements, step, ptr := [], [], [], 0.0, 0;
      } else {
        var lo, hi := v1, v2;
        if lo > hi {
          lo, hi := hi, lo;
        }
        var fs := [f];
        var s := [lo, hi];
        var st := (hi - lo) / ((n - 1) as real);
        var els: seq<Point<T>> := [];
        var i := 0;
        while i < n
          invariant 0 <= i <= n && |els| == i
          invariant forall j :: 0 <= j < i ==> els[j].x == GridX(lo, st, j) && els[j].y == f(els[j].x)
        {
          var x := GridX(lo, st, i);
          els := els + [Point(x, fs[0](x))];
          i := i + 1;
        }
        functions, sPoints, step, elements, ptr := fs, s, st, els, 0;
      }
    }

    /** The implicit copy constructor: a distinct line with the same fields. */
    constructor Copy(other: Line<T>)
      ensures functions == other.functions && sPoints == other.sPoints && step == other.step
      ensures elements == other.elements && ptr == other.ptr
      ensures other.Valid() ==> Valid()
    {
      functions, sPoints, step := other.functions, other.sPoints, other.step;
      elements, ptr := other.elements, other.ptr;
    }

    /** `x()`: the abscissa under the cursor, which lies on the line. */
    function X(): (x: real)
      reads this
      requires Valid()
      ensures x == elements[ptr].x
      ensures sPoints[0] <= x <= sPoints[|sPoints| - 1]
    {
      if ptr == 0 then elements[ptr].x
      else
        GridWithin(sPoints[0], sPoints[|sPoints| - 1], |elements|, ptr);
        elements[ptr].x
    }

    /** `y()`: the value under the cursor. */
    function Y(): (y: T)
      reads this
      requires Valid()
      ensures y == At(ptr).y
    {
      elements[ptr].y
    }

    /** `operator[](i)`: the `i`-th sample, or the sample under the cursor when `i` is out of range. */
    function At(i: nat): (p: Point<T>)
      reads this
      requires Valid()
      ensures i < |elements| ==> p == elements[i]
      ensures i >= |elements| ==> p == elements[ptr]
    {
      if i >= |elements| then elements[ptr] else elements[i]
    }

    /** `x(i)`: the `i`-th abscissa, with the same fallback to the cursor. */
    function XAt(i: nat): (x: real)
      reads this
      requires Valid()
      ensures i < |elements| ==> x == GridX(sPoints[0], step, i)
      ensures i >= |elements| ==> x == X()
    {
      At(i).x
    }

    /** `y(i)`: the `i`-th value, with the same fallback to the cursor. */
    function YAt(i: nat): (y: T)
      reads this
      requires Valid()
      ensures i < |elements| ==> y == elements[i].y
      ensures i >= |elements| ==> y == Y()
    {
      At(i).y
    }

    /** `++`: moves the cursor one sample right, except on the last sample. */
    method Next()
      requires Valid()
      modifies this
      ensures Valid()
      ensures ptr == if old(ptr) + 1 < |elements| then old(ptr) + 1 else old(ptr)
      ensures elements == old(elements) && sPoints == old(sPoints) && functions == old(functions) && step == old(step)
    {
      if ptr != |elements| - 1 {
        ptr := ptr + 1;
      }
    }

    /** `--`: moves the cursor one sample left, except on the first sample. */
    method Prev()
      requires Valid()
      modifies this
      ensures Valid()
      ensures ptr == if old(ptr) > 0 then old(ptr) - 1 else 0
      ensures elements == old(elements) && sPoints == old(sPoints) && functions == old(functions) && step == old(step)
    {
      if ptr != 0 {
        ptr := ptr - 1;
      }
    }

    /** `operator()(i)`: moves the cursor to sample `i`; an out-of-range index is reported and ignored. */
    method Jump(i: nat)
      requires Valid()
      modifies this
      ensures Valid()
      ensures ptr == if i < |elements| then i else old(ptr)
      ensures elements == old(elements) && sPoints == old(sPoints) && functions == old(functions) && step == old(step)
    {
      if i < |elements| {
        ptr := i;
      }
    }

    /**
     * `set_function(f)`: `f` serves the whole line, the slice points shrink
     * to the first and last abscissa, and every value becomes `f(x)`; the
     * abscissas, the step and the cursor are kept.
     */
    method SetFunction(f: real -> T)
      requires Valid()
      modifies this
      ensures Valid()
      ensures functions == [f]
      ensures sPoints == [old(elements[0].x), old(elements[|elements| - 1].x)]
      ensures sPoints == [old(sPoints[0]), old(sPoints[|sPoints| - 1])]
      ensures |elements| == old(|elements|) && step == old(step) && ptr == old(ptr)
      ensures forall i :: 0 <= i < |elements| ==> elements[i].x == old(elements[i].x) && elements[i].y == f(elements[i].x)
    {
      GridLast(sPoints[0], sPoints[|sPoints| - 1], |elements|);
      functions := [f];
      sPoints := [elements[0].x, elements[|elements| - 1].x];
      var els := elements;
      var i := 0;
      while i < |els|
        invariant 0 <= i <= |els| == |elements|
        invariant forall j :: 0 <= j < |els| ==> els[j].x == elements[j].x
        invariant forall j :: 0 <= j < i ==> els[j].y == f(els[j].x)
      {
        els := els[i := Point(els[i].x, f(els[i].x))];
        i := i + 1;
      }
      elements := els;
    }

    /**
     * The rebuild loop shared by `set_function(v1, v2, g)` and
     * `set_n_points`: `n` samples from the first slice point, each value
     * taken from the function serving its abscissa.
     */
    method Resample(n: nat)
      requires Shape(sPoints, functions) && n >= 2 && step == StepOf(sPoints, n)
      modifies this
      ensures sPoints == old(sPoints) && functions == old(functions) && step == old(step) && ptr == old(ptr)
      ensures elements == Sample(sPoints, functions, n)
      ensures |elements| == n && forall i :: 0 <= i < n ==> elements[i].x == GridX(sPoints[0], step, i)
    {
      var s, fs, h := sPoints, functions, step;
      var x0 := s[0];
      var els := [Point(x0, fs[0](x0))];
      var i := 1;
      while i < n
        invariant 1 <= i <= n && |els| == i
        invariant forall j :: 0 <= j < i ==> els[j] == SampleAt(s, fs, n, j)
        invariant sPoints == s && functions == fs && step == h && ptr == old(ptr)
      {
        var x := GridX(x0, h, i);
        GridWithin(s[0], s[|s| - 1], n, i);
        var j := LowerBound(s, x);
        els := els + [Point(x, fs[j - 1](x))];
        i := i + 1;
      }
      elements := els;
    }

    /**
     * `set_function(v1, v2, g)`: `lo = min(v1, v2)` is inserted at its
     * lower bound together with `g` and a copy of the function it splits,
     * every slice point up to `hi = max(v1, v2)` is erased with its function,
     * `hi` is inserted, and the grid is rebuilt with the same number of
     * points from the first slice point.
     */
    method SetFunctionOn(v1: real, v2: real, g: real -> T)
      requires Valid()
      requires sPoints[0] < (if v1 < v2 then v1 else v2) <= sPoints[|sPoints| - 1]
      modifies this
      ensures Valid()
      ensures sPoints == SplicePoints(old(sPoints), if v1 < v2 then v1 else v2, if v1 < v2 then v2 else v1)
      ensures functions == SpliceFunctions(old(sPoints), old(functions), if v1 < v2 then v1 else v2, if v1 < v2 then v2 else v1, g)
      ensures |elements| == old(|elements|) && ptr == old(ptr)
      ensures elements == Sample(sPoints, functions, |elements|)
    {
      var lo, hi := v1, v2;
      if lo > hi {
        lo, hi := hi, lo;
      }
      assert lo == (if v1 < v2 then v1 else v2) && hi == (if v1 < v2 then v2 else v1);
      var n := |elements|;
      Reslice(lo, hi, g);
      step := StepOf(sPoints, n);
      Resample(n);
    }

    /** The insertions and erasures of `set_function` on the slice points and the functions; the grid waits for the rebuild. */
    method Reslice(lo: real, hi: real, g: real -> T)
      requires Shape(sPoints, functions) && sPoints[0] < lo <= hi && lo <= sPoints[|sPoints| - 1]
      modifies this
      ensures Shape(sPoints, functions)
      ensures sPoints == SplicePoints(old(sPoints), lo, hi)
      ensures functions == SpliceFunctions(old(sPoints), old(functions), lo, hi, g)
      ensures elements == old(elements) && ptr == old(ptr)
    {
      sPoints, functions := Splice(sPoints, functions, lo, hi, g);
    }

    /**
     * `set_n_points(n)`: fewer than two points are reported and ignored;
     * otherwise the grid is rebuilt with `n` points over the same slice
     * points.  The cursor is kept when still on the grid, else moved to the
     * last sample.
     */
    method SetNPoints(n: nat)
      requires Valid()
      modifies this
      ensures Valid()
      ensures n < 2 ==> elements == old(elements) && step == old(step) && ptr == old(ptr)
      ensures n >= 2 ==> elements == Sample(sPoints, functions, n) && step == StepOf(sPoints, n)
      ensures n >= 2 ==> ptr == if old(ptr) < n then old(ptr) else n - 1
      ensures sPoints == old(sPoints) && functions == old(functions)
    {
      if n >= 2 {
        step := (sPoints[|sPoints| - 1] - sPoints[0]) / ((n - 1) as real);
        elements := [];
        if ptr >= n {
          ptr := n - 1;
        }
        Resample(n);
      }
    }

    /** `set_y(i, value)`: overwrites the value of sample `i` only. */
    method SetY(i: nat, value: T)
      requires Valid() && i < |elements|
      modifies this
      ensures Valid()
      ensures elements == old(elements)[i := Point(old(elements[i].x), value)]
      ensures sPoints == old(sPoints) && functions == old(functions) && step == old(step) && ptr == old(ptr)
    {
      elements := elements[i := Point(elements[i].x, value)];
    }

    /** `start()`: the first abscissa, which is the first slice point. */
    function Start(): (x: real)
      reads this
      requires Valid()
      ensures x == sPoints[0]
    {
      elements[0].x
    }

    /** `end()`: the last abscissa, which is the last slice point. */
    function End(): (x: real)
      reads this
      requires Valid()
      ensures x == sPoints[|sPoints| - 1]
    {
      GridLast(sPoints[0], sPoints[|sPoints| - 1], |elements|);
      elements[|elements| - 1].x
    }

    /** `length()`: the extent of the line, positive. */
    function Length(): (len: real)
      reads this
      requires Valid()
      ensures len == End() - Start() && len > 0.0
    {
      End() - Start()
    }

    /** `step()`: the grid spacing, positive, and `n − 1` steps span the line. */
    function Step(): (h: real)
      reads this
      requires Valid()
      ensures h > 0.0
      ensures GridX(Start(), h, |elements| - 1) == End()
    {
      GridWithin(sPoints[0], sPoints[|sPoints| - 1], |elements|, 1);
      GridLast(sPoints[0], sPoints[|sPoints| - 1], |elements|);
      step
    }

    /** `n_points()`: the number of samples, at least two. */
    function NPoints(): (n: nat)
      reads this
      requires Valid()
      ensures n == |elements| && n >= 2
    {
      |elements|
    }

    /** `n_func()`: one function per region between consecutive slice points. */
    function NFunc(): (n: nat)
      reads this
      requires Valid()
      ensures n == |sPoints| - 1 && n >= 1
    {
      |functions|
    }
  }
}
