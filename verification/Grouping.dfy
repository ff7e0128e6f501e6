/** Points grouped by the bucket of their timestamps, for any assignment of buckets. */
module Grouping {
  import opened Common

  datatype Point = Point(ts: I64, value: int)

  /** The bucket a timestamp falls into. */
  type Bucketing = int -> int

  ghost predicate Sorted(points: seq<Point>) {
    forall i, j :: 0 <= i <= j < |points| ==> points[i].ts <= points[j].ts
  }

  ghost predicate Monotone(bucket: Bucketing) {
    forall a, b :: a <= b ==> bucket(a) <= bucket(b)
  }

  /** How many of the first points lie in bucket `b`. */
  function RunLength(points: seq<Point>, b: int, bucket: Bucketing): (n: nat)
    ensures n <= |points| && forall i :: 0 <= i < n ==> bucket(points[i].ts) == b
    ensures n < |points| ==> bucket(points[n].ts) != b
  {
    if points == [] || bucket(points[0].ts) != b then 0 else 1 + RunLength(points[1..], b, bucket)
  }

  /** Consecutive points of the same bucket together. */
  function Groups(points: seq<Point>, bucket: Bucketing): seq<seq<Point>>
    decreases |points|
  {
    if points == [] then []
    else
      var n := RunLength(points, bucket(points[0].ts), bucket);
      [points[..n]] + Groups(points[n..], bucket)
  }

  function Flatten(groups: seq<seq<Point>>): seq<Point> {
    if groups == [] then [] else groups[0] + Flatten(groups[1..])
  }

  /** The first group of some points and what is left. */
  lemma SplitOff(points: seq<Point>, bucket: Bucketing) returns (n: nat)
    requires points != []
    ensures 1 <= n <= |points| && points == points[..n] + points[n..]
    ensures Groups(points, bucket) == [points[..n]] + Groups(points[n..], bucket)
    ensures forall i :: 0 <= i < n ==> bucket(points[i].ts) == bucket(points[0].ts)
    ensures n < |points| ==> bucket(points[n].ts) != bucket(points[0].ts)
  {
    n := RunLength(points, bucket(points[0].ts), bucket);
  }

  lemma FirstRun(points: seq<Point>, bucket: Bucketing) returns (n: nat)
    requires points != []
    ensures 1 <= n <= |points| && Groups(points, bucket) == [points[..n]] + Groups(points[n..], bucket)
    ensures n < |points| ==> bucket(points[n].ts) != bucket(points[0].ts)
  {
    n := SplitOff(points, bucket);
  }

  ghost predicate OneBucket(group: seq<Point>, bucket: Bucketing) {
    group != [] && forall i :: 0 <= i < |group| ==> bucket(group[i].ts) == bucket(group[0].ts)
  }

  /** Concatenated, the groups are the points again, and each group lies in one bucket. */
  lemma {:induction false} GroupsCover(points: seq<Point>, bucket: Bucketing)
    ensures Flatten(Groups(points, bucket)) == points
    ensures forall g :: g in Groups(points, bucket) ==> OneBucket(g, bucket)
    decreases |points|
  {
    if points != [] {
      var n := SplitOff(points, bucket);
      var rest := Groups(points[n..], bucket);
      GroupsCover(points[n..], bucket);
      assert ([points[..n]] + rest)[1..] == rest;
      assert OneBucket(points[..n], bucket);
    }
  }

  /** Buckets never fall along the points. */
  ghost predicate NonFalling(points: seq<Point>, bucket: Bucketing) {
    |points| <= 1 || (bucket(points[0].ts) <= bucket(points[1].ts) && NonFalling(points[1..], bucket))
  }

  lemma {:induction false} SortedNonFalling(points: seq<Point>, bucket: Bucketing)
    requires Sorted(points) && Monotone(bucket)
    ensures NonFalling(points, bucket)
    decreases |points|
  {
    if |points| > 1 {
      SortedNonFalling(points[1..], bucket);
    }
  }

  lemma {:induction false} NonFallingAt(points: seq<Point>, bucket: Bucketing, k: nat)
    requires NonFalling(points, bucket) && k < |points|
    ensures bucket(points[0].ts) <= bucket(points[k].ts) && NonFalling(points[k..], bucket)
    decreases k
  {
    if k > 0 {
      NonFallingAt(points[1..], bucket, k - 1);
      assert points[1..][k - 1..] == points[k..];
    } else {
      assert points[0..] == points;
    }
  }

  lemma {:induction false} GroupsRiseAt(points: seq<Point>, bucket: Bucketing, i: nat, j: nat)
    requires NonFalling(points, bucket) && i < j < |Groups(points, bucket)|
    ensures
      var groups := Groups(points, bucket);
      groups[i] != [] && groups[j] != [] && bucket(groups[i][0].ts) < bucket(groups[j][0].ts)
    decreases |points|
  {
    if i == 0 {
      FirstGroupLowest(points, bucket, j);
    } else {
      var n := FirstRun(points, bucket);
      NonFallingAt(points, bucket, n);
      GroupsRiseAt(points[n..], bucket, i - 1, j - 1);
    }
  }

  lemma FirstGroupLowest(points: seq<Point>, bucket: Bucketing, j: nat)
    requires NonFalling(points, bucket) && 0 < j < |Groups(points, bucket)|
    ensures
      var groups := Groups(points, bucket);
      groups[0] != [] && groups[j] != [] && bucket(groups[0][0].ts) < bucket(groups[j][0].ts)
  {
    var n := FirstRun(points, bucket);
    var rest := points[n..];
    var later := Groups(rest, bucket);
    GroupIsOfPoints(rest, bucket, j - 1);
    AllHigher(points, bucket, n, rest, later[j - 1][0]);
  }

  lemma AllHigher(points: seq<Point>, bucket: Bucketing, n: nat, rest: seq<Point>, p: Point)
    requires NonFalling(points, bucket) && n < |points| && bucket(points[n].ts) != bucket(points[0].ts)
    requires rest == points[n..] && p in rest
    ensures bucket(p.ts) > bucket(points[0].ts)
  {
    NonFallingAt(points, bucket, n);
    var k :| 0 <= k < |rest| && rest[k] == p;
    NonFallingAt(rest, bucket, k);
  }

  /** Of sorted points, different groups lie in different buckets, in rising order. */
  lemma GroupsRise(points: seq<Point>, bucket: Bucketing, i: nat, j: nat)
    requires Sorted(points) && Monotone(bucket) && i < j < |Groups(points, bucket)|
    ensures
      var groups := Groups(points, bucket);
      groups[i] != [] && groups[j] != [] && bucket(groups[i][0].ts) < bucket(groups[j][0].ts)
  {
    SortedNonFalling(points, bucket);
    GroupsRiseAt(points, bucket, i, j);
  }

  lemma {:induction false} GroupIsOfPoints(points: seq<Point>, bucket: Bucketing, k: nat)
    requires k < |Groups(points, bucket)|
    ensures Groups(points, bucket)[k] != [] && Groups(points, bucket)[k][0] in points
    decreases |points|
  {
    var n := FirstRun(points, bucket);
    if k > 0 {
      GroupIsOfPoints(points[n..], bucket, k - 1);
      assert Groups(points, bucket)[k] == Groups(points[n..], bucket)[k - 1];
    }
  }

  lemma SplitAt(points: seq<Point>, n: nat, bucket: Bucketing)
    requires 1 <= n <= |points|
    requires forall i :: 0 <= i < n ==> bucket(points[i].ts) == bucket(points[0].ts)
    requires n < |points| ==> bucket(points[n].ts) != bucket(points[0].ts)
    ensures Groups(points, bucket) == [points[..n]] + Groups(points[n..], bucket)
  {
    var m := SplitOff(points, bucket);
  }
}
