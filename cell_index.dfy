/**
 * Point-to-cell resolution. A bounding-box index proposes candidate rows
 * (the coarse filter); the exact polygon test keeps those that contain the
 * point (the fine filter); the first one kept, in candidate order, is the hit.
 *
 * The two geometric tests are floating-point library calls; here they are the
 * parameters `envelopeHit` (the point meets the polygon's bounding box) and
 * `contains` (the polygon contains the point).
 */
module CellIndex {
  import opened Wrappers
  import opened Coords
  import opened Roles

  /** Every candidate is a row of the table. */
  predicate InRange(cells: seq<Cell>, candidates: seq<int>)
  {
    forall k :: 0 <= k < |candidates| ==> 0 <= candidates[k] < |cells|
  }

  /**
   * What the bounding-box index promises for point `p`: its answer lists rows
   * of the table, each one whose envelope meets `p`, and misses none of them.
   */
  ghost predicate IsCandidateList(cells: seq<Cell>, p: Coord, envelopeHit: (Polygon, Coord) -> bool, candidates: seq<int>)
  {
    && InRange(cells, candidates)
    && (forall k :: 0 <= k < |candidates| ==> envelopeHit(cells[candidates[k]].geometry, p))
    && (forall i :: 0 <= i < |cells| && envelopeHit(cells[i].geometry, p) ==> i in candidates)
  }

  /** A polygon that contains a point also has that point in its bounding box. */
  ghost predicate EnvelopeSound(contains: (Polygon, Coord) -> bool, envelopeHit: (Polygon, Coord) -> bool)
  {
    forall g, p :: contains(g, p) ==> envelopeHit(g, p)
  }

  /** The first position `k >= from` of `candidates` whose row contains `p`. */
  function FirstHitFrom(cells: seq<Cell>, candidates: seq<int>, p: Coord, contains: (Polygon, Coord) -> bool, from: nat): (r: Option<nat>)
    requires InRange(cells, candidates)
    requires from <= |candidates|
    ensures r.Some? ==> from <= r.value < |candidates| && contains(cells[candidates[r.value]].geometry, p)
    ensures r.Some? ==> forall j :: from <= j < r.value ==> !contains(cells[candidates[j]].geometry, p)
    ensures r.None? ==> forall j :: from <= j < |candidates| ==> !contains(cells[candidates[j]].geometry, p)
    decreases |candidates| - from
  {
    if from == |candidates| then None
    else if contains(cells[candidates[from]].geometry, p) then Some(from)
    else FirstHitFrom(cells, candidates, p, contains, from + 1)
  }

  /** The id of the first candidate row whose polygon contains `p`, or nothing when no candidate does. */
  function Resolve(cells: seq<Cell>, candidates: seq<int>, p: Coord, contains: (Polygon, Coord) -> bool): (r: Option<CellId>)
    requires InRange(cells, candidates)
    ensures r.Some? ==> exists k :: 0 <= k < |candidates| && cells[candidates[k]].id == r.value && contains(cells[candidates[k]].geometry, p)
    ensures r.None? <==> forall k :: 0 <= k < |candidates| ==> !contains(cells[candidates[k]].geometry, p)
  {
    match FirstHitFrom(cells, candidates, p, contains, 0)
    case None => None
    case Some(k) => Some(cells[candidates[k]].id)
  }

  /** The hit is the first candidate, in candidate order, whose polygon contains the point. */
  lemma ResolveFirst(cells: seq<Cell>, candidates: seq<int>, p: Coord, contains: (Polygon, Coord) -> bool, k: int)
    requires InRange(cells, candidates)
    requires 0 <= k < |candidates| && contains(cells[candidates[k]].geometry, p)
    requires forall j :: 0 <= j < k ==> !contains(cells[candidates[j]].geometry, p)
    ensures Resolve(cells, candidates, p, contains) == Some(cells[candidates[k]].id)
  {
    var r := FirstHitFrom(cells, candidates, p, contains, 0);
    assert r.Some? && r.value <= k;
  }

  /**
   * The coarse filter loses no hits: when the index answers correctly and
   * containment implies envelope intersection, the click resolves to nothing
   * exactly when no cell of the whole table contains the point.
   */
  lemma ResolveNoneIff(cells: seq<Cell>, candidates: seq<int>, p: Coord,
                       contains: (Polygon, Coord) -> bool, envelopeHit: (Polygon, Coord) -> bool)
    requires IsCandidateList(cells, p, envelopeHit, candidates)
    requires EnvelopeSound(contains, envelopeHit)
    ensures Resolve(cells, candidates, p, contains).None? <==> forall i :: 0 <= i < |cells| ==> !contains(cells[i].geometry, p)
  {
    forall i | 0 <= i < |cells| && contains(cells[i].geometry, p)
      ensures exists k :: 0 <= k < |candidates| && contains(cells[candidates[k]].geometry, p)
    {
      var k :| 0 <= k < |candidates| && candidates[k] == i;
    }
  }

  /** A point inside exactly one cell's polygon resolves to that cell, whatever the candidate order. */
  lemma ResolveUnique(cells: seq<Cell>, candidates: seq<int>, p: Coord,
                      contains: (Polygon, Coord) -> bool, envelopeHit: (Polygon, Coord) -> bool, i: int)
    requires IsCandidateList(cells, p, envelopeHit, candidates)
    requires EnvelopeSound(contains, envelopeHit)
    requires 0 <= i < |cells| && contains(cells[i].geometry, p)
    requires forall j :: 0 <= j < |cells| && j != i ==> !contains(cells[j].geometry, p)
    ensures Resolve(cells, candidates, p, contains) == Some(cells[i].id)
  {
    ResolveNoneIff(cells, candidates, p, contains, envelopeHit);
    var r := FirstHitFrom(cells, candidates, p, contains, 0);
    assert r.Some?;
    assert candidates[r.value] == i;
  }
}
