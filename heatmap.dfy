/**
 * `GET /heatmap/{session_id}` (get_heatmap_data in backend/main.py): the stored mouse points of
 * a session are snapped to a 10-pixel grid and their counts summed per grid cell. The rows the
 * database query returns are the input `points`, in the order the query yields them.
 */
module Heatmap {
  import opened Schemas
  import opened Access

  const BUCKET_SIZE: int := 10

  /** The two coordinates and the count of one stored `mouse_heatmap` row. */
  datatype Point = Point(x: int, y: int, count: int)

  /** One entry of the response's `heatmap` list. */
  datatype Cell = Cell(x: int, y: int, count: int)

  datatype HeatmapResponse = HeatmapResponse(
    sessionId: string, siteId: string, pageUrl: Option<string>, totalPoints: nat, heatmap: seq<Cell>)

  /**
   * `(v // 10) * 10`. Python's `//` floors, and for the positive divisor 10 so does Dafny's `/`,
   * so negative coordinates land in the cell below them too.
   */
  function Snap(v: int): (b: int)
    ensures b % BUCKET_SIZE == 0
    ensures b <= v < b + BUCKET_SIZE
  {
    (v / BUCKET_SIZE) * BUCKET_SIZE
  }

  function BucketOf(p: Point): (int, int) {
    (Snap(p.x), Snap(p.y))
  }

  /** The grid cells hit by some point. */
  function Buckets(points: seq<Point>): set<(int, int)> {
    set i | 0 <= i < |points| :: BucketOf(points[i])
  }

  /** The summed counts of the points that fall in cell `key`. */
  function BucketSum(points: seq<Point>, key: (int, int)): int
    decreases |points|
  {
    if points == [] then 0
    else BucketSum(points[..|points| - 1], key) +
         (if BucketOf(points[|points| - 1]) == key then points[|points| - 1].count else 0)
  }

  /** The summed counts of all points. */
  function TotalCount(points: seq<Point>): int
    decreases |points|
  {
    if points == [] then 0 else TotalCount(points[..|points| - 1]) + points[|points| - 1].count
  }

  function SumCells(cells: seq<Cell>): int
    decreases |cells|
  {
    if cells == [] then 0 else SumCells(cells[..|cells| - 1]) + cells[|cells| - 1].count
  }

  /** A Python dict keyed by cell: its keys in insertion order and its values. */
  datatype Tally = Tally(keys: seq<(int, int)>, counts: map<(int, int), int>)

  /** `aggregated[key] += c` on a `defaultdict(int)`: a new key goes to the end of the order. */
  function Add(t: Tally, key: (int, int), c: int): Tally {
    if key in t.counts then Tally(t.keys, t.counts[key := t.counts[key] + c])
    else Tally(t.keys + [key], t.counts[key := c])
  }

  /** The dict after the loop over `points`. */
  function Aggregate(points: seq<Point>): Tally
    decreases |points|
  {
    if points == [] then Tally([], map[])
    else
      var last := points[|points| - 1];
      Add(Aggregate(points[..|points| - 1]), BucketOf(last), last.count)
  }

  /** `[{"x": x, "y": y, "count": count} for (x, y), count in aggregated.items()]`. */
  function Cells(t: Tally): seq<Cell> {
    seq(|t.keys|, i requires 0 <= i < |t.keys| =>
      Cell(t.keys[i].0, t.keys[i].1, if t.keys[i] in t.counts then t.counts[t.keys[i]] else 0))
  }

  function KeyOf(c: Cell): (int, int) {
    (c.x, c.y)
  }

  lemma BucketsLast(points: seq<Point>)
    requires points != []
    ensures Buckets(points) == Buckets(points[..|points| - 1]) + {BucketOf(points[|points| - 1])}
  {
    var p := points[..|points| - 1];
    forall k | k in Buckets(points) ensures k in Buckets(p) + {BucketOf(points[|points| - 1])} {
      var i :| 0 <= i < |points| && BucketOf(points[i]) == k;
      if i < |p| { assert BucketOf(p[i]) == k; }
    }
    forall k | k in Buckets(p) ensures k in Buckets(points) {
      var i :| 0 <= i < |p| && BucketOf(p[i]) == k;
      assert points[i] == p[i];
    }
  }

  predicate Distinct(keys: seq<(int, int)>) {
    forall i, j :: 0 <= i < j < |keys| ==> keys[i] != keys[j]
  }

  /** The key order lists each key of the dict exactly once. */
  predicate Listed(t: Tally) {
    && Distinct(t.keys)
    && (forall i :: 0 <= i < |t.keys| ==> t.keys[i] in t.counts)
    && (forall k :: k in t.counts ==> k in t.keys)
  }

  /** The dict's key order lists each of its keys exactly once. */
  lemma {:induction false} AggregateKeys(points: seq<Point>)
    ensures Listed(Aggregate(points))
    decreases |points|
  {
    if points != [] {
      var p, last := points[..|points| - 1], points[|points| - 1];
      AggregateKeys(p);
      var t, key := Aggregate(p), BucketOf(last);
      if key !in t.counts {
        var t' := Tally(t.keys + [key], t.counts[key := last.count]);
        assert Aggregate(points) == t';
        forall i | 0 <= i < |t.keys| ensures t.keys[i] != key {
          assert t.keys[i] in t.counts;
        }
        assert Listed(t');
      } else {
        assert Aggregate(points) == Tally(t.keys, t.counts[key := t.counts[key] + last.count]);
      }
    }
  }

  /** The dict's keys are exactly the cells some point falls in. */
  lemma {:induction false} AggregateDomain(points: seq<Point>)
    ensures Aggregate(points).counts.Keys == Buckets(points)
    decreases |points|
  {
    if points != [] {
      AggregateDomain(points[..|points| - 1]);
      BucketsLast(points);
    } else {
      assert Buckets(points) == {};
    }
  }

  /** Each key of the dict holds the summed counts of the points in its cell. */
  lemma {:induction false} AggregateCounts(points: seq<Point>)
    ensures forall k :: k in Aggregate(points).counts ==> Aggregate(points).counts[k] == BucketSum(points, k)
    decreases |points|
  {
    if points != [] {
      var p, last := points[..|points| - 1], points[|points| - 1];
      AggregateCounts(p);
      AggregateDomain(p);
      var t := Aggregate(p);
      forall k | k in Aggregate(points).counts ensures Aggregate(points).counts[k] == BucketSum(points, k) {
        if k !in t.counts && BucketSum(p, k) != 0 {
          NonZeroSumHit(p, k);
        }
      }
    }
  }

  /** A cell with a non-zero sum is hit by some point. */
  lemma {:induction false} NonZeroSumHit(points: seq<Point>, k: (int, int))
    requires BucketSum(points, k) != 0
    ensures k in Buckets(points)
    decreases |points|
  {
    var p, last := points[..|points| - 1], points[|points| - 1];
    if BucketOf(last) == k {
      assert BucketOf(points[|points| - 1]) == k;
    } else {
      NonZeroSumHit(p, k);
      var i :| 0 <= i < |p| && BucketOf(p[i]) == k;
      assert points[i] == p[i];
    }
  }

  /** The sum of the values of distinct keys `keys` in `m`. */
  function SumOver(keys: seq<(int, int)>, m: map<(int, int), int>): int
    decreases |keys|
  {
    if keys == [] then 0
    else SumOver(keys[..|keys| - 1], m) + (if keys[|keys| - 1] in m then m[keys[|keys| - 1]] else 0)
  }

  /** Changing the value of a key that appears at most once changes the sum by the difference. */
  lemma {:induction false} SumOverUpdate(keys: seq<(int, int)>, m: map<(int, int), int>, k: (int, int), v: int)
    requires Distinct(keys)
    ensures SumOver(keys, m[k := v]) ==
            SumOver(keys, m) + (if k in keys then v - (if k in m then m[k] else 0) else 0)
    decreases |keys|
  {
    if keys != [] {
      var p := keys[..|keys| - 1];
      SumOverUpdate(p, m, k, v);
      assert keys == p + [keys[|keys| - 1]];
      if keys[|keys| - 1] == k {
        assert k !in p;
      }
    }
  }

  lemma SumOverAppend(keys: seq<(int, int)>, m: map<(int, int), int>, key: (int, int))
    ensures SumOver(keys + [key], m) == SumOver(keys, m) + (if key in m then m[key] else 0)
  {
    assert (keys + [key])[..|keys|] == keys;
  }

  /** What `AggregateKeys` says about one key, in a form that keeps quantifiers out of callers. */
  lemma AggregateKeyAt(points: seq<Point>, key: (int, int))
    ensures Distinct(Aggregate(points).keys)
    ensures key in Aggregate(points).counts <==> key in Aggregate(points).keys
  {
    AggregateKeys(points);
    var t := Aggregate(points);
    if key in t.keys {
      var i :| 0 <= i < |t.keys| && t.keys[i] == key;
    }
  }

  /** All counts are kept: the dict's values sum to the points' counts. */
  lemma {:induction false} AggregateSum(points: seq<Point>)
    ensures SumOver(Aggregate(points).keys, Aggregate(points).counts) == TotalCount(points)
    decreases |points|
  {
    if points != [] {
      var p, last := points[..|points| - 1], points[|points| - 1];
      AggregateSum(p);
      var t, key := Aggregate(p), BucketOf(last);
      AggregateKeyAt(p, key);
      assert TotalCount(points) == TotalCount(p) + last.count;
      if key in t.counts {
        var m := t.counts[key := t.counts[key] + last.count];
        assert Aggregate(points) == Tally(t.keys, m);
        SumOverUpdate(t.keys, t.counts, key, t.counts[key] + last.count);
      } else {
        var m := t.counts[key := last.count];
        assert Aggregate(points) == Tally(t.keys + [key], m);
        SumOverUpdate(t.keys, t.counts, key, last.count);
        SumOverAppend(t.keys, m, key);
      }
    }
  }

  /** The response's counts sum to the points' counts. */
  lemma {:induction false} CellsSum(t: Tally)
    ensures SumCells(Cells(t)) == SumOver(t.keys, t.counts)
    decreases |t.keys|
  {
    if t.keys != [] {
      var p := Tally(t.keys[..|t.keys| - 1], t.counts);
      CellsSum(p);
      assert Cells(t)[..|t.keys| - 1] == Cells(p);
    }
  }

  /**
   * What the response list says about the points: pairwise distinct grid coordinates, all
   * multiples of 10; exactly the cells some point falls in; each with the summed counts of its
   * points; together keeping every count.
   */
  lemma CellsOfPoints(points: seq<Point>)
    ensures var heatmap := Cells(Aggregate(points));
      && (forall i, j :: 0 <= i < j < |heatmap| ==> KeyOf(heatmap[i]) != KeyOf(heatmap[j]))
      && (forall i :: 0 <= i < |heatmap| ==> heatmap[i].x % BUCKET_SIZE == 0 && heatmap[i].y % BUCKET_SIZE == 0)
      && (set i | 0 <= i < |heatmap| :: KeyOf(heatmap[i])) == Buckets(points)
      && (forall i :: 0 <= i < |heatmap| ==> heatmap[i].count == BucketSum(points, KeyOf(heatmap[i])))
      && SumCells(heatmap) == TotalCount(points)
  {
    AggregateKeys(points);
    CellsDistinct(Aggregate(points));
    CellsOnGrid(points);
    CellsCover(points);
    CellsCount(points);
    AggregateSum(points);
    CellsSum(Aggregate(points));
  }

  lemma CellsDistinct(t: Tally)
    requires Distinct(t.keys)
    ensures forall i, j :: 0 <= i < j < |Cells(t)| ==> KeyOf(Cells(t)[i]) != KeyOf(Cells(t)[j])
  {
    forall i, j | 0 <= i < j < |Cells(t)| ensures KeyOf(Cells(t)[i]) != KeyOf(Cells(t)[j]) {
      assert KeyOf(Cells(t)[i]) == t.keys[i] && KeyOf(Cells(t)[j]) == t.keys[j];
    }
  }

  lemma CellsOnGrid(points: seq<Point>)
    ensures forall i :: 0 <= i < |Cells(Aggregate(points))| ==>
      Cells(Aggregate(points))[i].x % BUCKET_SIZE == 0 && Cells(Aggregate(points))[i].y % BUCKET_SIZE == 0
  {
    var t := Aggregate(points);
    AggregateKeys(points);
    AggregateDomain(points);
    forall i | 0 <= i < |Cells(t)| ensures Cells(t)[i].x % BUCKET_SIZE == 0 && Cells(t)[i].y % BUCKET_SIZE == 0 {
      assert t.keys[i] in Buckets(points);
      var j :| 0 <= j < |points| && BucketOf(points[j]) == t.keys[i];
    }
  }

  lemma CellsCover(points: seq<Point>)
    ensures (set i | 0 <= i < |Cells(Aggregate(points))| :: KeyOf(Cells(Aggregate(points))[i])) == Buckets(points)
  {
    var t := Aggregate(points);
    var heatmap := Cells(t);
    AggregateKeys(points);
    AggregateDomain(points);
    forall k | k in Buckets(points) ensures k in (set i | 0 <= i < |heatmap| :: KeyOf(heatmap[i])) {
      assert k in t.counts;
      var i :| 0 <= i < |t.keys| && t.keys[i] == k;
      assert KeyOf(heatmap[i]) == k;
    }
    forall i | 0 <= i < |heatmap| ensures KeyOf(heatmap[i]) in Buckets(points) {
      assert KeyOf(heatmap[i]) == t.keys[i];
    }
  }

  lemma CellsCount(points: seq<Point>)
    ensures forall i :: 0 <= i < |Cells(Aggregate(points))| ==>
      Cells(Aggregate(points))[i].count == BucketSum(points, KeyOf(Cells(Aggregate(points))[i]))
  {
    var t := Aggregate(points);
    AggregateKeys(points);
    AggregateCounts(points);
    forall i | 0 <= i < |Cells(t)| ensures Cells(t)[i].count == BucketSum(points, KeyOf(Cells(t)[i])) {
      assert KeyOf(Cells(t)[i]) == t.keys[i];
    }
  }

  /**
   * The bucketing loop of get_heatmap_data followed by the response list, in the dict's
   * insertion order (first appearance of each cell); `total_points` is the number of stored
   * points. What the cells mean is `CellsOfPoints`, restated here for callers.
   */
  method BucketPoints(points: seq<Point>) returns (heatmap: seq<Cell>, totalPoints: nat)
    ensures totalPoints == |points|
    ensures heatmap == Cells(Aggregate(points))
    ensures forall i, j :: 0 <= i < j < |heatmap| ==> KeyOf(heatmap[i]) != KeyOf(heatmap[j])
    ensures (set i | 0 <= i < |heatmap| :: KeyOf(heatmap[i])) == Buckets(points)
    ensures forall i :: 0 <= i < |heatmap| ==> heatmap[i].count == BucketSum(points, KeyOf(heatmap[i]))
    ensures SumCells(heatmap) == TotalCount(points)
  {
    var keys: seq<(int, int)> := [];
    var aggregated: map<(int, int), int> := map[];
    for i := 0 to |points|
      invariant Tally(keys, aggregated) == Aggregate(points[..i])
    {
      assert points[..i + 1][..i] == points[..i];
      var point := points[i];
      var bucketX := (point.x / BUCKET_SIZE) * BUCKET_SIZE;
      var bucketY := (point.y / BUCKET_SIZE) * BUCKET_SIZE;
      var key := (bucketX, bucketY);
      if key !in aggregated {
        keys := keys + [key];
        aggregated := aggregated[key := 0];
      }
      aggregated := aggregated[key := aggregated[key] + point.count];
    }
    assert points[..|points|] == points;
    totalPoints := |points|;
    heatmap := Cells(Tally(keys, aggregated));
    CellsOfPoints(points);
  }

  /**
   * The endpoint: the site guard, then the bucketing. `pageUrl` is echoed back as given.
   */
  method GetHeatmapData(sessionId: string, siteId: Option<string>, pageUrl: Option<string>,
                        owned: set<string>, points: seq<Point>)
    returns (r: Result<HeatmapResponse>)
    ensures RequireOwnedSite(siteId, owned).Err? ==> r == Err(RequireOwnedSite(siteId, owned).failure)
    ensures RequireOwnedSite(siteId, owned).Ok? ==>
      r.Ok? && r.value.siteId == siteId.value && r.value.sessionId == sessionId && r.value.pageUrl == pageUrl &&
      r.value.totalPoints == |points| && r.value.heatmap == Cells(Aggregate(points))
  {
    var access := RequireOwnedSite(siteId, owned);
    if access.Err? {
      return Err(access.failure);
    }
    var heatmap, totalPoints := BucketPoints(points);
    r := Ok(HeatmapResponse(sessionId, access.value, pageUrl, totalPoints, heatmap));
  }
}
