/**
 * The site-to-site reference table: every ordered pair of distinct cell
 * sites, the distance of each pair, its "min" rank among the pairs leaving
 * the same origin, and the pairs whose rank is at most k.
 *
 * The distance between two sites is a parameter `dist`; only its values
 * and their order matter here.
 */
module NeighbourTable {
  import opened Common

  /** A row of the pair table before ranking: columns site1, site2, distance. */
  datatype Row = Row(site1: SiteId, site2: SiteId, distance: real)

  /** A ranked row: the pair table with its rank_nearest column. */
  datatype Edge = Edge(site1: SiteId, site2: SiteId, distance: real, rankNearest: nat)

  // ---------------------------------------------------------------------
  // Ordered pairs, in the order of permutations(sites, 2)
  // ---------------------------------------------------------------------

  /** The pairs (sites[i], sites[j]) for j from `j` upwards, skipping j == i. */
  function PairsWith(sites: seq<SiteId>, i: nat, j: nat): seq<(SiteId, SiteId)>
    requires i < |sites|
    decreases |sites| - j
  {
    if j >= |sites| then []
    else (if j == i then [] else [(sites[i], sites[j])]) + PairsWith(sites, i, j + 1)
  }

  /** The pairs whose first component is sites[i], sites[i+1], ... */
  function PairsFrom(sites: seq<SiteId>, i: nat): seq<(SiteId, SiteId)>
    decreases |sites| - i
  {
    if i >= |sites| then [] else PairsWith(sites, i, 0) + PairsFrom(sites, i + 1)
  }

  /** All ordered pairs of two different positions of `sites`. */
  function Permutations2(sites: seq<SiteId>): seq<(SiteId, SiteId)> {
    PairsFrom(sites, 0)
  }

  lemma InSuffix(sites: seq<SiteId>, i: nat, x: SiteId)
    requires i < |sites|
    ensures x in sites[i..] <==> x == sites[i] || x in sites[i + 1..]
  {
    assert sites[i..] == [sites[i]] + sites[i + 1..];
  }

  lemma NotLater(sites: seq<SiteId>, i: nat)
    requires Distinct(sites) && i < |sites|
    ensures sites[i] !in sites[i + 1..]
  {
    forall m | i + 1 <= m < |sites| ensures sites[m] != sites[i] { }
  }

  lemma {:induction false} PairsWithCount(sites: seq<SiteId>, i: nat, j: nat, a: SiteId, b: SiteId)
    requires Distinct(sites) && i < |sites| && j <= |sites|
    ensures multiset(PairsWith(sites, i, j))[(a, b)]
            == if a == sites[i] && b in sites[j..] && b != a then 1 else 0
    decreases |sites| - j
  {
    if j < |sites| {
      PairsWithCount(sites, i, j + 1, a, b);
      InSuffix(sites, j, b);
      if b == sites[j] {
        NotLater(sites, j);
      }
    }
  }

  lemma {:induction false} PairsFromCount(sites: seq<SiteId>, i: nat, a: SiteId, b: SiteId)
    requires Distinct(sites) && i <= |sites|
    ensures multiset(PairsFrom(sites, i))[(a, b)]
            == if a in sites[i..] && b in sites && a != b then 1 else 0
    decreases |sites| - i
  {
    if i < |sites| {
      PairsWithCount(sites, i, 0, a, b);
      PairsFromCount(sites, i + 1, a, b);
      InSuffix(sites, i, a);
      assert sites[0..] == sites;
      if a == sites[i] {
        NotLater(sites, i);
      }
    }
  }

  /** With distinct site ids, every ordered pair of two different sites occurs
      exactly once in the pair table, and nothing else occurs; in particular
      there is no pair (s, s). */
  lemma PermutationsExactlyOnce(sites: seq<SiteId>, a: SiteId, b: SiteId)
    requires Distinct(sites)
    ensures multiset(Permutations2(sites))[(a, b)]
            == if a in sites && b in sites && a != b then 1 else 0
    ensures (a, b) in Permutations2(sites) <==> a in sites && b in sites && a != b
  {
    PairsFromCount(sites, 0, a, b);
    assert sites[0..] == sites;
  }

  lemma {:induction false} PairsWithLength(sites: seq<SiteId>, i: nat, j: nat)
    requires i < |sites| && j <= |sites|
    ensures |PairsWith(sites, i, j)| == |sites| - j - (if j <= i then 1 else 0)
    decreases |sites| - j
  {
    if j < |sites| {
      PairsWithLength(sites, i, j + 1);
    }
  }

  lemma {:induction false} PairsFromLength(sites: seq<SiteId>, i: nat)
    requires i <= |sites|
    ensures |PairsFrom(sites, i)| == (|sites| - i) * (|sites| - 1)
    decreases |sites| - i
  {
    if i < |sites| {
      PairsWithLength(sites, i, 0);
      PairsFromLength(sites, i + 1);
      calc {
        (|sites| - i) * (|sites| - 1);
        (|sites| - 1) + (|sites| - (i + 1)) * (|sites| - 1);
      }
    }
  }

  /** n sites give n * (n - 1) ordered pairs. */
  lemma PermutationsLength(sites: seq<SiteId>)
    ensures |Permutations2(sites)| == |sites| * (|sites| - 1)
  {
    PairsFromLength(sites, 0);
  }

  // ---------------------------------------------------------------------
  // Distances and the "min" rank
  // ---------------------------------------------------------------------

  /** The pair table with its distance column (one `dist` call per row). */
  function Measure(pairs: seq<(SiteId, SiteId)>, dist: (SiteId, SiteId) -> real): seq<Row> {
    if pairs == [] then []
    else [Row(pairs[0].0, pairs[0].1, dist(pairs[0].0, pairs[0].1))] + Measure(pairs[1..], dist)
  }

  /** The unranked pair table built from the cell sites. */
  function Rows(sites: seq<SiteId>, dist: (SiteId, SiteId) -> real): seq<Row> {
    Measure(Permutations2(sites), dist)
  }

  /** Number of rows leaving `origin` whose distance is strictly below `x`. */
  function Closer(rows: seq<Row>, origin: SiteId, x: real): nat {
    if rows == [] then 0
    else (if rows[0].site1 == origin && rows[0].distance < x then 1 else 0) + Closer(rows[1..], origin, x)
  }

  /** Number of rows leaving `origin`. */
  function CountOrigin(rows: seq<Row>, origin: SiteId): nat {
    if rows == [] then 0
    else (if rows[0].site1 == origin then 1 else 0) + CountOrigin(rows[1..], origin)
  }

  /** The "min" rank of distance `x` within the group of `origin`: ties share
      the lowest rank of the tied values. */
  function MinRank(rows: seq<Row>, origin: SiteId, x: real): nat {
    1 + Closer(rows, origin, x)
  }

  /** The rows of `part`, each ranked within its origin group of `all`. */
  function RankWithin(all: seq<Row>, part: seq<Row>): seq<Edge> {
    if part == [] then []
    else [Edge(part[0].site1, part[0].site2, part[0].distance, MinRank(all, part[0].site1, part[0].distance))]
         + RankWithin(all, part[1..])
  }

  /** groupby("site1")["distance"].rank("min") added as a column. */
  function RankNearest(rows: seq<Row>): seq<Edge> {
    RankWithin(rows, rows)
  }

  /** The rows whose rank is at most k, in table order. */
  function TopK(edges: seq<Edge>, k: int): seq<Edge> {
    if edges == [] then []
    else (if edges[0].rankNearest <= k then [edges[0]] else []) + TopK(edges[1..], k)
  }

  /** The retained neighbour table built from the cell sites. */
  function Matrix(sites: seq<SiteId>, dist: (SiteId, SiteId) -> real, k: int): seq<Edge> {
    TopK(RankNearest(Rows(sites, dist)), k)
  }

  /** The site2 column of the rows whose site1 is `origin`, in table order:
      the candidates of one hop from `origin`. */
  function Destinations(matrix: seq<Edge>, origin: SiteId): seq<SiteId> {
    if matrix == [] then []
    else (if matrix[0].site1 == origin then [matrix[0].site2] else []) + Destinations(matrix[1..], origin)
  }

  /** The pair (origin, d) is a row of the table. */
  predicate Retained(matrix: seq<Edge>, origin: SiteId, d: SiteId) {
    exists e :: e in matrix && e.site1 == origin && e.site2 == d
  }

  /** A row survives the filter iff its rank is at most k. */
  lemma {:induction false} TopKMembership(edges: seq<Edge>, k: int, e: Edge)
    ensures e in TopK(edges, k) <==> e in edges && e.rankNearest <= k
  {
    if edges != [] {
      TopKMembership(edges[1..], k, e);
      assert e in edges <==> e == edges[0] || e in edges[1..];
    }
  }

  /** The hop candidates of `origin` are exactly the site2 values of its rows. */
  lemma {:induction false} DestinationsMembership(matrix: seq<Edge>, origin: SiteId, d: SiteId)
    ensures d in Destinations(matrix, origin) <==> exists e :: e in matrix && e.site1 == origin && e.site2 == d
  {
    if matrix != [] {
      DestinationsMembership(matrix[1..], origin, d);
      assert forall e :: e in matrix <==> e == matrix[0] || e in matrix[1..];
    }
  }

  // ---------------------------------------------------------------------
  // Facts about rows and ranks
  // ---------------------------------------------------------------------

  lemma {:induction false} MeasureMembership(pairs: seq<(SiteId, SiteId)>, dist: (SiteId, SiteId) -> real, r: Row)
    ensures r in Measure(pairs, dist) <==> (r.site1, r.site2) in pairs && r.distance == dist(r.site1, r.site2)
  {
    if pairs != [] {
      MeasureMembership(pairs[1..], dist, r);
      assert forall p :: p in pairs <==> p == pairs[0] || p in pairs[1..];
    }
  }

  lemma {:induction false} RankWithinMembership(all: seq<Row>, part: seq<Row>, e: Edge)
    ensures e in RankWithin(all, part)
            <==> Row(e.site1, e.site2, e.distance) in part && e.rankNearest == MinRank(all, e.site1, e.distance)
  {
    if part != [] {
      RankWithinMembership(all, part[1..], e);
      assert forall p :: p in part <==> p == part[0] || p in part[1..];
    }
  }

  /** A row of `rows` at distance x leaving `origin` is counted below every
      larger distance, so a smaller distance has a strictly smaller rank. */
  lemma {:induction false} CloserStrict(rows: seq<Row>, origin: SiteId, dest: SiteId, x: real, y: real)
    requires Row(origin, dest, x) in rows && x < y
    ensures Closer(rows, origin, x) < Closer(rows, origin, y)
  {
    if rows[0] == Row(origin, dest, x) {
      CloserMonotone(rows[1..], origin, x, y);
    } else {
      CloserStrict(rows[1..], origin, dest, x, y);
    }
  }

  lemma {:induction false} CloserMonotone(rows: seq<Row>, origin: SiteId, x: real, y: real)
    requires x <= y
    ensures Closer(rows, origin, x) <= Closer(rows, origin, y)
  {
    if rows != [] {
      CloserMonotone(rows[1..], origin, x, y);
    }
  }

  /** Competition ranking: within one origin, rank order is distance order,
      and two rows share a rank exactly when they share a distance. */
  lemma RankOrder(rows: seq<Row>, e1: Edge, e2: Edge)
    requires e1 in RankNearest(rows) && e2 in RankNearest(rows) && e1.site1 == e2.site1
    ensures e1.rankNearest >= 1
    ensures e1.rankNearest < e2.rankNearest <==> e1.distance < e2.distance
    ensures e1.rankNearest == e2.rankNearest <==> e1.distance == e2.distance
  {
    RankWithinMembership(rows, rows, e1);
    RankWithinMembership(rows, rows, e2);
    if e1.distance < e2.distance {
      CloserStrict(rows, e1.site1, e1.site2, e1.distance, e2.distance);
    } else if e2.distance < e1.distance {
      CloserStrict(rows, e2.site1, e2.site2, e2.distance, e1.distance);
    }
  }

  // ---------------------------------------------------------------------
  // Rank expressed over the destinations
  // ---------------------------------------------------------------------

  /** Number of sites other than `origin` that are strictly nearer to
      `origin` than `x`. */
  function CloserSites(sites: seq<SiteId>, origin: SiteId, x: real, dist: (SiteId, SiteId) -> real): nat {
    if sites == [] then 0
    else (if sites[0] != origin && dist(origin, sites[0]) < x then 1 else 0)
         + CloserSites(sites[1..], origin, x, dist)
  }

  lemma {:induction false} MeasureAppend(p: seq<(SiteId, SiteId)>, q: seq<(SiteId, SiteId)>, dist: (SiteId, SiteId) -> real)
    ensures Measure(p + q, dist) == Measure(p, dist) + Measure(q, dist)
  {
    if p == [] {
      assert p + q == q;
    } else {
      assert (p + q)[1..] == p[1..] + q;
      MeasureAppend(p[1..], q, dist);
    }
  }

  lemma {:induction false} CloserAppend(a: seq<Row>, b: seq<Row>, origin: SiteId, x: real)
    ensures Closer(a + b, origin, x) == Closer(a, origin, x) + Closer(b, origin, x)
  {
    if a == [] {
      assert a + b == b;
    } else {
      assert (a + b)[1..] == a[1..] + b;
      CloserAppend(a[1..], b, origin, x);
    }
  }

  lemma {:induction false} CountOriginAppend(a: seq<Row>, b: seq<Row>, origin: SiteId)
    ensures CountOrigin(a + b, origin) == CountOrigin(a, origin) + CountOrigin(b, origin)
  {
    if a == [] {
      assert a + b == b;
    } else {
      assert (a + b)[1..] == a[1..] + b;
      CountOriginAppend(a[1..], b, origin);
    }
  }

  /** The rows built from sites[i]'s pairs from position j on: the count of
      nearer rows is the count of nearer sites among sites[j..], when sites[i]
      is the origin, and zero otherwise. */
  lemma {:induction false} PairsWithCounts(sites: seq<SiteId>, i: nat, j: nat, origin: SiteId,
                                           x: real, dist: (SiteId, SiteId) -> real)
    requires Distinct(sites) && i < |sites| && j <= |sites|
    ensures Closer(Measure(PairsWith(sites, i, j), dist), origin, x)
            == if sites[i] == origin then CloserSites(sites[j..], origin, x, dist) else 0
    ensures CountOrigin(Measure(PairsWith(sites, i, j), dist), origin)
            == if sites[i] == origin then |sites| - j - (if j <= i then 1 else 0) else 0
    decreases |sites| - j
  {
    if j < |sites| {
      PairsWithCounts(sites, i, j + 1, origin, x, dist);
      var head := if j == i then [] else [(sites[i], sites[j])];
      MeasureAppend(head, PairsWith(sites, i, j + 1), dist);
      CloserAppend(Measure(head, dist), Measure(PairsWith(sites, i, j + 1), dist), origin, x);
      CountOriginAppend(Measure(head, dist), Measure(PairsWith(sites, i, j + 1), dist), origin);
      assert sites[j..][1..] == sites[j + 1..];
      if sites[i] == origin && j != i {
        assert sites[j] != origin;
      }
    }
  }

  lemma {:induction false} PairsFromCounts(sites: seq<SiteId>, i: nat, origin: SiteId,
                                           x: real, dist: (SiteId, SiteId) -> real)
    requires Distinct(sites) && i <= |sites|
    ensures Closer(Measure(PairsFrom(sites, i), dist), origin, x)
            == if origin in sites[i..] then CloserSites(sites, origin, x, dist) else 0
    ensures CountOrigin(Measure(PairsFrom(sites, i), dist), origin)
            == if origin in sites[i..] then |sites| - 1 else 0
    decreases |sites| - i
  {
    if i < |sites| {
      PairsWithCounts(sites, i, 0, origin, x, dist);
      PairsFromCounts(sites, i + 1, origin, x, dist);
      MeasureAppend(PairsWith(sites, i, 0), PairsFrom(sites, i + 1), dist);
      CloserAppend(Measure(PairsWith(sites, i, 0), dist), Measure(PairsFrom(sites, i + 1), dist), origin, x);
      CountOriginAppend(Measure(PairsWith(sites, i, 0), dist), Measure(PairsFrom(sites, i + 1), dist), origin);
      assert sites[i..] == [sites[i]] + sites[i + 1..];
      assert sites[0..] == sites;
      if sites[i] == origin {
        assert origin !in sites[i + 1..] by {
          forall m | i + 1 <= m < |sites| ensures sites[m] != origin { }
        }
      }
    }
  }

  /** The rank of a destination is one plus the number of other sites that
      are strictly nearer to the origin; each origin has n - 1 rows. */
  lemma RankIsCompetition(sites: seq<SiteId>, dist: (SiteId, SiteId) -> real, origin: SiteId, x: real)
    requires Distinct(sites) && origin in sites
    ensures MinRank(Rows(sites, dist), origin, x) == 1 + CloserSites(sites, origin, x, dist)
    ensures CountOrigin(Rows(sites, dist), origin) == |sites| - 1
  {
    PairsFromCounts(sites, 0, origin, x, dist);
    assert sites[0..] == sites;
  }

  // ---------------------------------------------------------------------
  // Retention
  // ---------------------------------------------------------------------

  /** A row is retained iff it is a pair of two different sites carrying
      their distance and its rank is at most k. */
  lemma MatrixMembership(sites: seq<SiteId>, dist: (SiteId, SiteId) -> real, k: int, e: Edge)
    requires Distinct(sites)
    ensures e in Matrix(sites, dist, k)
            <==> && e.site1 in sites && e.site2 in sites && e.site1 != e.site2
                 && e.distance == dist(e.site1, e.site2)
                 && e.rankNearest == MinRank(Rows(sites, dist), e.site1, e.distance)
                 && e.rankNearest <= k
  {
    TopKMembership(RankNearest(Rows(sites, dist)), k, e);
    RankWithinMembership(Rows(sites, dist), Rows(sites, dist), e);
    MeasureMembership(Permutations2(sites), dist, Row(e.site1, e.site2, e.distance));
    PermutationsExactlyOnce(sites, e.site1, e.site2);
  }

  /** Every candidate of a hop is another cell site: there is no self-hop. */
  lemma DestinationsAreOtherSites(sites: seq<SiteId>, dist: (SiteId, SiteId) -> real, k: int, origin: SiteId, d: SiteId)
    requires Distinct(sites) && d in Destinations(Matrix(sites, dist, k), origin)
    ensures d in sites && d != origin
  {
    DestinationsMembership(Matrix(sites, dist, k), origin, d);
    var e :| e in Matrix(sites, dist, k) && e.site1 == origin && e.site2 == d;
    MatrixMembership(sites, dist, k, e);
  }

  /** Ties at the cut are all kept: when a destination is retained, so is
      every other destination at most as far from the same origin. */
  lemma TiesKept(sites: seq<SiteId>, dist: (SiteId, SiteId) -> real, k: int, e: Edge, b: SiteId)
    requires Distinct(sites) && e in Matrix(sites, dist, k)
    requires b in sites && b != e.site1 && dist(e.site1, b) <= e.distance
    ensures b in Destinations(Matrix(sites, dist, k), e.site1)
  {
    MatrixMembership(sites, dist, k, e);
    var rows := Rows(sites, dist);
    var x := dist(e.site1, b);
    CloserMonotone(rows, e.site1, x, e.distance);
    var e' := Edge(e.site1, b, x, MinRank(rows, e.site1, x));
    MatrixMembership(sites, dist, k, e');
    DestinationsMembership(Matrix(sites, dist, k), e.site1, b);
  }

  /** Number of rows of `part` leaving `origin` whose rank within `all` is at
      most k. */
  function CountKept(all: seq<Row>, part: seq<Row>, origin: SiteId, k: int): nat {
    if part == [] then 0
    else (if part[0].site1 == origin && MinRank(all, origin, part[0].distance) <= k then 1 else 0)
         + CountKept(all, part[1..], origin, k)
  }

  lemma {:induction false} DestinationsCount(all: seq<Row>, part: seq<Row>, origin: SiteId, k: int)
    ensures |Destinations(TopK(RankWithin(all, part), k), origin)| == CountKept(all, part, origin, k)
  {
    if part != [] {
      DestinationsCount(all, part[1..], origin, k);
      var e := Edge(part[0].site1, part[0].site2, part[0].distance, MinRank(all, part[0].site1, part[0].distance));
      assert RankWithin(all, part) == [e] + RankWithin(all, part[1..]);
      var t := TopK(RankWithin(all, part[1..]), k);
      if e.rankNearest <= k {
        assert TopK(RankWithin(all, part), k) == [e] + t;
        assert ([e] + t)[1..] == t;
      } else {
        assert TopK(RankWithin(all, part), k) == [] + t == t;
      }
    }
  }

  lemma {:induction false} AllKept(all: seq<Row>, part: seq<Row>, origin: SiteId, k: int)
    requires forall r :: r in part && r.site1 == origin ==> MinRank(all, origin, r.distance) <= k
    ensures CountKept(all, part, origin, k) == CountOrigin(part, origin)
  {
    if part != [] {
      assert part[0] in part;
      AllKept(all, part[1..], origin, k);
    }
  }

  lemma {:induction false} NearerKept(all: seq<Row>, part: seq<Row>, origin: SiteId, k: int, x: real)
    requires forall r :: r in part && r.site1 == origin && r.distance < x ==> MinRank(all, origin, r.distance) <= k
    ensures Closer(part, origin, x) <= CountKept(all, part, origin, k)
  {
    if part != [] {
      assert part[0] in part;
      NearerKept(all, part[1..], origin, k, x);
    }
  }

  /** The nearest of the rows of `origin` that are cut by the rank filter. */
  lemma {:induction false} NearestCut(all: seq<Row>, part: seq<Row>, origin: SiteId, k: int) returns (m: Row)
    requires exists r :: r in part && r.site1 == origin && MinRank(all, origin, r.distance) > k
    ensures m in part && m.site1 == origin && MinRank(all, origin, m.distance) > k
    ensures forall r :: r in part && r.site1 == origin && MinRank(all, origin, r.distance) > k ==> m.distance <= r.distance
  {
    assert forall r :: r in part <==> r == part[0] || r in part[1..];
    if exists r :: r in part[1..] && r.site1 == origin && MinRank(all, origin, r.distance) > k {
      var m' := NearestCut(all, part[1..], origin, k);
      if part[0].site1 == origin && MinRank(all, origin, part[0].distance) > k && part[0].distance < m'.distance {
        m := part[0];
      } else {
        m := m';
      }
    } else {
      m := part[0];
    }
  }

  /** At least min(k, rows of the origin) rows of an origin survive the filter. */
  lemma KeptAtLeast(rows: seq<Row>, origin: SiteId, k: int)
    ensures CountKept(rows, rows, origin, k) >= Min(k, CountOrigin(rows, origin))
  {
    if forall r :: r in rows && r.site1 == origin ==> MinRank(rows, origin, r.distance) <= k {
      AllKept(rows, rows, origin, k);
    } else {
      var m := NearestCut(rows, rows, origin, k);
      NearerKept(rows, rows, origin, k, m.distance);
    }
  }

  /** Every cell site keeps at least min(k, n - 1) candidate hops, so with
      k >= 1 and two or more sites the hop lookup is never empty. */
  lemma NeighbourCount(sites: seq<SiteId>, dist: (SiteId, SiteId) -> real, k: int, origin: SiteId)
    requires Distinct(sites) && origin in sites
    ensures |Destinations(Matrix(sites, dist, k), origin)| >= Min(k, |sites| - 1)
    ensures k >= 1 && |sites| >= 2 ==> |Destinations(Matrix(sites, dist, k), origin)| >= 1
  {
    var rows := Rows(sites, dist);
    RankIsCompetition(sites, dist, origin, 0.0);
    DestinationsCount(rows, rows, origin, k);
    KeptAtLeast(rows, origin, k);
  }
}
