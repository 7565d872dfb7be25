/**
 * The one-dimensional domain of mylib: a `Line` with integer endpoints and
 * an optional list of slice points strictly inside it, and a `Domain` that
 * holds one such line.  The header and the source file of mylib hold the
 * same code; both are modelled here.
 *
 * `endpoints` is a `vector<int>`: the real arguments are converted on
 * insertion, which truncates toward zero.
 */
module Interval {

  /** The conversion of a `double` to `int`: truncation toward zero. */
  function Trunc(x: real): (n: int)
    ensures x >= 0.0 ==> n as real <= x < n as real + 1.0
    ensures x < 0.0 ==> n as real - 1.0 < x <= n as real
  {
    if x >= 0.0 then x.Floor else -((-x).Floor)
  }

  /** Truncation toward zero is monotone. */
  lemma TruncMonotone(x: real, y: real)
    requires x <= y
    ensures Trunc(x) <= Trunc(y)
  {
  }

  /**
   * What one `set_endpoints(v1, v2)` call appends: nothing for equal
   * arguments (reported as an empty line), otherwise the smaller argument
   * and then the larger, truncated.
   */
  function EndpointPair(v1: real, v2: real): (p: seq<int>)
    ensures v1 == v2 <==> p == []
    ensures p != [] ==> |p| == 2 && p[0] <= p[1]
    ensures p != [] ==> p[0] == Trunc(if v1 < v2 then v1 else v2) && p[1] == Trunc(if v1 < v2 then v2 else v1)
  {
    if v1 == v2 then []
    else if v1 < v2 then
      TruncMonotone(v1, v2);
      [Trunc(v1), Trunc(v2)]
    else
      TruncMonotone(v2, v1);
      [Trunc(v2), Trunc(v1)]
  }

  /** Distinct arguments can still give a line of length zero: both truncate to the same integer. */
  lemma ZeroLengthForDistinctArguments()
    ensures EndpointPair(0.2, 0.7) == [0, 0]
  {
    assert Trunc(0.2) == 0 && Trunc(0.7) == 0;
  }

  /** Every appended pair is in order. */
  ghost predicate SortedPairs(e: seq<int>)
  {
    |e| % 2 == 0 && (|e| >= 2 ==> e[0] <= e[1] && SortedPairs(e[2..]))
  }

  lemma {:induction false} SortedPairsAppend(e: seq<int>, p: seq<int>)
    requires SortedPairs(e)
    requires p == [] || (|p| == 2 && p[0] <= p[1])
    ensures SortedPairs(e + p)
  {
    if |e| >= 2 {
      assert (e + p)[2..] == e[2..] + p;
      SortedPairsAppend(e[2..], p);
    } else if p != [] {
      assert e + p == p;
      assert p[2..] == [];
    } else {
      assert e + p == e;
    }
  }

  /** `point` lies strictly between the endpoints (the `int` endpoints compared as reals). */
  predicate Inside(point: real, lo: int, hi: int)
    ensures Inside(point, lo, hi) ==> lo < hi
  {
    lo as real < point < hi as real
  }

  /** The points of `points` strictly between `lo` and `hi`, in their original order. */
  function Filter(points: seq<real>, lo: int, hi: int): (r: seq<real>)
    ensures |r| <= |points|
    ensures forall i :: 0 <= i < |r| ==> Inside(r[i], lo, hi)
  {
    if points == [] then []
    else
      var rest := Filter(points[1..], lo, hi);
      if Inside(points[0], lo, hi) then [points[0]] + rest else rest
  }

  /** The filter keeps exactly the input's points that lie inside. */
  lemma {:induction false} FilterMembers(points: seq<real>, lo: int, hi: int, x: real)
    ensures x in Filter(points, lo, hi) <==> x in points && Inside(x, lo, hi)
  {
    if points != [] {
      FilterMembers(points[1..], lo, hi, x);
      assert x in points <==> x == points[0] || x in points[1..];
    }
  }

  /** Filtering a concatenation filters each part. */
  lemma {:induction false} FilterAppend(xs: seq<real>, ys: seq<real>, lo: int, hi: int)
    ensures Filter(xs + ys, lo, hi) == Filter(xs, lo, hi) + Filter(ys, lo, hi)
  {
    if xs == [] {
      assert xs + ys == ys;
    } else {
      assert (xs + ys)[1..] == xs[1..] + ys;
      FilterAppend(xs[1..], ys, lo, hi);
    }
  }

  /** One more point of the input extends the filter by at most that point. */
  lemma FilterStep(points: seq<real>, i: int, lo: int, hi: int)
    requires 0 <= i < |points|
    ensures Filter(points[..i + 1], lo, hi) == Filter(points[..i], lo, hi) + Filter([points[i]], lo, hi)
    ensures Filter([points[i]], lo, hi) == if Inside(points[i], lo, hi) then [points[i]] else []
  {
    assert points[..i + 1] == points[..i] + [points[i]];
    FilterAppend(points[..i], [points[i]], lo, hi);
    assert [points[i]][1..] == [];
  }

  class Line {
    var endpoints: seq<int>
    var sliced: bool
    var nslices: nat
    var spoints: seq<real>

    /**
     * The slice count matches the slice list, and `sliced` says whether it
     * is non-empty; the endpoints come in ordered pairs, and every slice
     * point lies strictly inside the first pair.
     */
    ghost predicate Valid()
      reads this
    {
      && (sliced <==> nslices > 0)
      && nslices == |spoints|
      && SortedPairs(endpoints)
      && (|endpoints| < 2 ==> spoints == [])
      && (|endpoints| >= 2 ==> forall i :: 0 <= i < |spoints| ==> Inside(spoints[i], endpoints[0], endpoints[1]))
    }

    /** `Line(v1, v2)`: no slices, and the endpoints of one `set_endpoints(v1, v2)` call. */
    constructor (v1: real, v2: real)
      ensures Valid()
      ensures endpoints == EndpointPair(v1, v2)
      ensures !sliced && nslices == 0 && spoints == []
    {
      sliced := false;
      nslices := 0;
      spoints := [];
      endpoints := [];
      new;
      SetEndpoints(v1, v2);
    }

    /**
     * `set_endpoints(v1, v2)`: appends the ordered, truncated pair, or
     * nothing when `v1 == v2`.  The endpoints already present keep their
     * place, so after a first pair the length never changes again.
     */
    method SetEndpoints(v1: real, v2: real)
      requires Valid()
      modifies this
      ensures Valid()
      ensures endpoints == old(endpoints) + EndpointPair(v1, v2)
      ensures old(|endpoints|) >= 2 ==> endpoints[0] == old(endpoints[0]) && endpoints[1] == old(endpoints[1])
      ensures sliced == old(sliced) && nslices == old(nslices) && spoints == old(spoints)
    {
      var p := EndpointPair(v1, v2);
      SortedPairsAppend(endpoints, p);
      endpoints := endpoints + p;
    }

    /** `set_spoint(point)`: appends a point strictly inside the endpoints and counts it; ignores any other. */
    method SetSpoint(point: real)
      requires Valid() && |endpoints| >= 2
      modifies this
      ensures Valid()
      ensures endpoints == old(endpoints)
      ensures Inside(point, endpoints[0], endpoints[1]) ==>
                spoints == old(spoints) + [point] && nslices == old(nslices) + 1 && sliced
      ensures !Inside(point, endpoints[0], endpoints[1]) ==>
                spoints == old(spoints) && nslices == old(nslices) && sliced == old(sliced)
    {
      if Inside(point, endpoints[0], endpoints[1]) {
        spoints := spoints + [point];
        sliced := true;
        nslices := nslices + 1;
      }
    }

    /**
     * The vector form of `set_spoints`: every point, in order, through
     * `set_spoint`.  An empty vector changes nothing, even on a line
     * without endpoints.
     */
    method SetSpoints(points: seq<real>)
      requires Valid() && (|endpoints| >= 2 || points == [])
      modifies this
      ensures Valid()
      ensures endpoints == old(endpoints)
      ensures points == [] ==> spoints == old(spoints) && nslices == old(nslices) && sliced == old(sliced)
      ensures |endpoints| >= 2 ==> spoints == old(spoints) + Filter(points, endpoints[0], endpoints[1])
      ensures |endpoints| >= 2 ==> nslices == old(nslices) + |Filter(points, endpoints[0], endpoints[1])|
    {
      ghost var start := spoints;
      var i := 0;
      while i < |points|
        invariant 0 <= i <= |points|
        invariant Valid() && endpoints == old(endpoints)
        invariant i == 0 ==> spoints == start
        invariant |endpoints| >= 2 ==> spoints == start + Filter(points[..i], endpoints[0], endpoints[1])
      {
        var lo, hi := endpoints[0], endpoints[1];
        ghost var before := spoints;
        SetSpoint(points[i]);
        FilterStep(points, i, lo, hi);
        assert spoints == before + Filter([points[i]], lo, hi);
        assert start + Filter(points[..i + 1], lo, hi) == before + Filter([points[i]], lo, hi);
        i := i + 1;
      }
      assert points[..i] == points;
    }

    /** `get_length()`: the difference of the first pair, never negative. */
    function GetLength(): (len: real)
      reads this
      requires Valid() && |endpoints| >= 2
      ensures len >= 0.0
      ensures len == (endpoints[1] - endpoints[0]) as real
    {
      (endpoints[1] - endpoints[0]) as real
    }
  }

  class Domain {
    var dim: nat
    var lines: seq<Line>

    ghost predicate Valid()
      reads this, lines
    {
      |lines| >= 1 && lines[0].Valid()
    }

    /** `Domain(v1, v2)`: dimension one and the single line `Line(v1, v2)`. */
    constructor (v1: real, v2: real)
      ensures Valid()
      ensures dim == 1 && |lines| == 1 && fresh(lines[0])
      ensures lines[0].endpoints == EndpointPair(v1, v2) && lines[0].spoints == []
    {
      var l := new Line(v1, v2);
      dim := 1;
      lines := [l];
    }

    /** `set_endpoint(v1, v2)`: delegates to the line when the dimension is one; otherwise only reports. */
    method SetEndpoint(v1: real, v2: real)
      requires Valid()
      modifies lines[0]
      ensures Valid()
      ensures dim == 1 ==> lines[0].endpoints == old(lines[0].endpoints) + EndpointPair(v1, v2)
      ensures dim != 1 ==> lines[0].endpoints == old(lines[0].endpoints)
      ensures lines[0].spoints == old(lines[0].spoints)
    {
      if dim == 1 {
        lines[0].SetEndpoints(v1, v2);
      }
    }
  }
}
