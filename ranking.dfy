/** The target ranking of exp.py: the first five detected points paired with
    their distance to the reference marker and ordered nearest first. The
    distance is kept squared, in integers; the square root Python takes is
    increasing, so it orders the points the same way. */
module Ranking {
  import opened Results

  /** The reference marker `x_0, y_0`. */
  const X0: int := 300
  const Y0: int := 300

  /** How many points the ranking considers. */
  const RANKED: nat := 5

  datatype Point = Point(x: int, y: int)

  /** A `[point, distance]` entry of the ranking, with the distance squared. */
  datatype Ranked = Ranked(point: Point, d2: nat)

  /** The squared Euclidean distance of p to the marker. */
  function SqDist(p: Point): nat {
    (p.x - X0) * (p.x - X0) + (p.y - Y0) * (p.y - Y0)
  }

  /** The entries before sorting: each point with its own distance. */
  function Pairs(points: seq<Point>): seq<Ranked> {
    seq(|points|, i requires 0 <= i < |points| => Ranked(points[i], SqDist(points[i])))
  }

  predicate SortedByDistance(s: seq<Ranked>) {
    forall i, j :: 0 <= i < j < |s| ==> s[i].d2 <= s[j].d2
  }

  /** The entries of s at distance k, in their order in s. */
  function AtDistance(s: seq<Ranked>, k: nat): seq<Ranked> {
    if |s| == 0 then [] else (if s[0].d2 == k then [s[0]] else []) + AtDistance(s[1..], k)
  }

  /** Places e in front of the first entry that is not nearer than e. */
  function Insert(e: Ranked, s: seq<Ranked>): seq<Ranked> {
    if |s| == 0 || e.d2 <= s[0].d2 then [e] + s
    else [s[0]] + Insert(e, s[1..])
  }

  /** A stable sort by distance, as Python's `list.sort` with the distance as
      key. */
  function SortByDistance(s: seq<Ranked>): seq<Ranked> {
    if |s| == 0 then [] else Insert(s[0], SortByDistance(s[1..]))
  }

  /** The result of `sorting` on the first five points. */
  function Ranking(points: seq<Point>): seq<Ranked> {
    SortByDistance(Pairs(points))
  }

  lemma {:induction false} InsertSorted(e: Ranked, s: seq<Ranked>)
    requires SortedByDistance(s)
    ensures SortedByDistance(Insert(e, s))
    ensures |Insert(e, s)| > 0 && Insert(e, s)[0].d2 == if |s| == 0 || e.d2 <= s[0].d2 then e.d2 else s[0].d2
  {
    if |s| > 0 && e.d2 > s[0].d2 {
      InsertSorted(e, s[1..]);
    }
  }

  lemma {:induction false} InsertPermutes(e: Ranked, s: seq<Ranked>)
    ensures multiset(Insert(e, s)) == multiset{e} + multiset(s)
  {
    if |s| > 0 && e.d2 > s[0].d2 {
      InsertPermutes(e, s[1..]);
      assert s == [s[0]] + s[1..];
    }
  }

  /** The sort keeps exactly the entries it is given. */
  lemma {:induction false} SortPermutes(s: seq<Ranked>)
    ensures multiset(SortByDistance(s)) == multiset(s)
  {
    if |s| > 0 {
      SortPermutes(s[1..]);
      InsertPermutes(s[0], SortByDistance(s[1..]));
      assert s == [s[0]] + s[1..];
    }
  }

  /** The sort orders its entries nearest first. */
  lemma {:induction false} SortSorted(s: seq<Ranked>)
    ensures SortedByDistance(SortByDistance(s))
  {
    if |s| > 0 {
      SortSorted(s[1..]);
      InsertSorted(s[0], SortByDistance(s[1..]));
    }
  }

  lemma {:induction false} AtDistanceAppend(a: seq<Ranked>, b: seq<Ranked>, k: nat)
    ensures AtDistance(a + b, k) == AtDistance(a, k) + AtDistance(b, k)
  {
    if |a| > 0 {
      assert (a + b)[0] == a[0] && (a + b)[1..] == a[1..] + b;
      AtDistanceAppend(a[1..], b, k);
    } else {
      assert a + b == b;
    }
  }

  /** Inserting e adds it in front of every entry at its own distance. */
  lemma {:induction false} InsertAtDistance(e: Ranked, s: seq<Ranked>, k: nat)
    ensures AtDistance(Insert(e, s), k) == (if e.d2 == k then [e] else []) + AtDistance(s, k)
  {
    if |s| == 0 || e.d2 <= s[0].d2 {
      AtDistanceAppend([e], s, k);
    } else {
      InsertAtDistance(e, s[1..], k);
      AtDistanceAppend([s[0]], Insert(e, s[1..]), k);
      AtDistanceAppend([s[0]], s[1..], k);
      assert [s[0]] + s[1..] == s;
    }
  }

  /** The sort is stable: entries at the same distance keep their order. */
  lemma {:induction false} SortStable(s: seq<Ranked>, k: nat)
    ensures AtDistance(SortByDistance(s), k) == AtDistance(s, k)
  {
    if |s| > 0 {
      SortStable(s[1..], k);
      InsertAtDistance(s[0], SortByDistance(s[1..]), k);
    }
  }

  /** Sorting an already ordered sequence leaves it as it is. */
  lemma {:induction false} SortOfSorted(s: seq<Ranked>)
    requires SortedByDistance(s)
    ensures SortByDistance(s) == s
  {
    if |s| > 0 {
      SortOfSorted(s[1..]);
      assert SortByDistance(s) == Insert(s[0], s[1..]);
    }
  }

  /** `sorting(data)`: the distance of every point, the first five points
      paired with their distances, then sorted by distance. With fewer than
      five points `data[i]` raises IndexError. */
  method Sorting(data: seq<Point>) returns (r: Result<seq<Ranked>>)
    ensures r.Err? <==> |data| < RANKED
    ensures r.Err? ==> r.error == IndexError
    ensures r.Ok? ==> r.value == Ranking(data[..RANKED])
    ensures r.Ok? ==> |r.value| == RANKED
    ensures r.Ok? ==> SortedByDistance(r.value)
    ensures r.Ok? ==> multiset(r.value) == multiset(Pairs(data[..RANKED]))
    ensures r.Ok? ==> forall e :: e in r.value ==> e.point in data[..RANKED] && e.d2 == SqDist(e.point)
    ensures r.Ok? ==> forall k: nat :: AtDistance(r.value, k) == AtDistance(Pairs(data[..RANKED]), k)
  {
    var dist: seq<nat> := [];
    for i := 0 to |data|
      invariant |dist| == i
      invariant forall k :: 0 <= k < i ==> dist[k] == SqDist(data[k])
    {
      dist := dist + [SqDist(data[i])];
    }
    var hardStr: seq<Ranked> := [];
    for i := 0 to RANKED
      invariant i <= |data|
      invariant hardStr == Pairs(data[..i])
    {
      if i >= |data| {
        return Err(IndexError);
      }
      hardStr := hardStr + [Ranked(data[i], dist[i])];
    }
    assert data[..RANKED][..RANKED] == data[..RANKED];
    var unsorted := hardStr;
    hardStr := SortByDistance(hardStr);
    SortSorted(unsorted);
    SortPermutes(unsorted);
    forall k: nat ensures AtDistance(hardStr, k) == AtDistance(unsorted, k) {
      SortStable(unsorted, k);
    }
    forall e | e in hardStr ensures e.point in data[..RANKED] && e.d2 == SqDist(e.point) {
      assert e in multiset(unsorted);
    }
    return Ok(hardStr);
  }

  /** The sample of exp.py paired with the squared distances. */
  lemma SamplePairs()
    ensures Pairs([Point(0, 0), Point(100, 200), Point(343, 757), Point(300, 200), Point(0, 200)]) ==
            [Ranked(Point(0, 0), 180000), Ranked(Point(100, 200), 50000), Ranked(Point(343, 757), 210698),
             Ranked(Point(300, 200), 10000), Ranked(Point(0, 200), 100000)]
  {
    assert SqDist(Point(343, 757)) == 43 * 43 + 457 * 457;
  }

  /** The sample of exp.py ranks as (300,200), (100,200), (0,200), (0,0),
      (343,757). */
  lemma SampleRanking()
    ensures Ranking([Point(0, 0), Point(100, 200), Point(343, 757), Point(300, 200), Point(0, 200)]) ==
            [Ranked(Point(300, 200), 10000), Ranked(Point(100, 200), 50000), Ranked(Point(0, 200), 100000),
             Ranked(Point(0, 0), 180000), Ranked(Point(343, 757), 210698)]
  {
    var a := Ranked(Point(0, 0), 180000);
    var b := Ranked(Point(100, 200), 50000);
    var c := Ranked(Point(343, 757), 210698);
    var d := Ranked(Point(300, 200), 10000);
    var e := Ranked(Point(0, 200), 100000);
    SamplePairs();
    SortSteps(a, b, c, d, e);
  }

  lemma InsertFront(e: Ranked, s: seq<Ranked>)
    requires |s| == 0 || e.d2 <= s[0].d2
    ensures Insert(e, s) == [e] + s
  {
  }

  lemma InsertPast(e: Ranked, x: Ranked, s: seq<Ranked>)
    requires x.d2 < e.d2
    ensures Insert(e, [x] + s) == [x] + Insert(e, s)
  {
    assert ([x] + s)[1..] == s;
  }

  lemma SortCons(x: Ranked, s: seq<Ranked>)
    ensures SortByDistance([x] + s) == Insert(x, SortByDistance(s))
  {
    assert ([x] + s)[1..] == s;
  }

  lemma SortInsertC(c: Ranked, d: Ranked, e: Ranked)
    requires d.d2 < e.d2 < c.d2
    ensures Insert(c, [d, e]) == [d, e, c]
  {
    assert [d, e] == [d] + [e] && [e] == [e] + [];
    InsertPast(c, d, [e]);
    InsertPast(c, e, []);
    InsertFront(c, []);
  }

  lemma SortInsertB(b: Ranked, c: Ranked, d: Ranked, e: Ranked)
    requires d.d2 < b.d2 < e.d2 < c.d2
    ensures Insert(b, [d, e, c]) == [d, b, e, c]
  {
    assert [d, e, c] == [d] + [e, c];
    InsertPast(b, d, [e, c]);
    InsertFront(b, [e, c]);
  }

  lemma SortInsertA(a: Ranked, b: Ranked, c: Ranked, d: Ranked, e: Ranked)
    requires d.d2 < b.d2 < e.d2 < a.d2 < c.d2
    ensures Insert(a, [d, b, e, c]) == [d, b, e, a, c]
  {
    InsertFront(a, [c]);
    assert [e, c] == [e] + [c];
    InsertPast(a, e, [c]);
    var t := Insert(a, [e, c]);
    assert t == [e, a, c];
    assert [b, e, c] == [b] + [e, c];
    InsertPast(a, b, [e, c]);
    var u := Insert(a, [b, e, c]);
    assert u == [b] + t;
    assert u == [b, e, a, c];
    assert [d, b, e, c] == [d] + [b, e, c];
    InsertPast(a, d, [b, e, c]);
    assert Insert(a, [d, b, e, c]) == [d] + u;
  }

  /** Five entries with distinct distances, sorted one insertion at a time. */
  lemma SortSteps(a: Ranked, b: Ranked, c: Ranked, d: Ranked, e: Ranked)
    requires d.d2 < b.d2 < e.d2 < a.d2 < c.d2
    ensures SortByDistance([a, b, c, d, e]) == [d, b, e, a, c]
  {
    assert [e] == [e] + [];
    SortCons(e, []);
    InsertFront(e, []);
    assert SortByDistance([e]) == [e];
    assert [d, e] == [d] + [e];
    SortCons(d, [e]);
    InsertFront(d, [e]);
    assert SortByDistance([d, e]) == [d, e];
    assert [c, d, e] == [c] + [d, e];
    SortCons(c, [d, e]);
    SortInsertC(c, d, e);
    assert SortByDistance([c, d, e]) == [d, e, c];
    assert [b, c, d, e] == [b] + [c, d, e];
    SortCons(b, [c, d, e]);
    SortInsertB(b, c, d, e);
    assert SortByDistance([b, c, d, e]) == [d, b, e, c];
    assert [a, b, c, d, e] == [a] + [b, c, d, e];
    SortCons(a, [b, c, d, e]);
    SortInsertA(a, b, c, d, e);
  }
}
