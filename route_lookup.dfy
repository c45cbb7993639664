/**
 * The route table indexed by the ordered pair (departure cell, destination
 * cell), and the lookup of the route for the current selection.
 */
module RouteLookup {
  import opened Wrappers
  import opened Coords
  import opened Roles

  /** One precomputed route: its endpoints, its path as (lat, lon) pairs and its other columns. */
  datatype Route = Route(departure: CellId, destination: CellId, path: seq<Coord>, metrics: map<string, real>)

  /** The index key of the route table. */
  type Key = (CellId, CellId)

  function KeyOf(r: Route): Key
  {
    (r.departure, r.destination)
  }

  /** No two rows share a (departure, destination) key. */
  predicate UniqueKeys(routes: seq<Route>)
  {
    forall i, j :: 0 <= i < j < |routes| ==> KeyOf(routes[i]) != KeyOf(routes[j])
  }

  /** Every entry of an index is stored under its own route's key. */
  predicate WellKeyed(index: map<Key, Route>)
  {
    forall k :: k in index ==> KeyOf(index[k]) == k
  }

  /** The keys of the table's rows. */
  function Keys(routes: seq<Route>): set<Key>
  {
    set i | 0 <= i < |routes| :: KeyOf(routes[i])
  }

  /** The route table indexed by each row's (departure, destination) pair. */
  function BuildIndex(routes: seq<Route>): (index: map<Key, Route>)
    requires UniqueKeys(routes)
    ensures WellKeyed(index)
    ensures index.Keys == Keys(routes)
    ensures forall i :: 0 <= i < |routes| ==> index[KeyOf(routes[i])] == routes[i]
  {
    if routes == [] then map[]
    else
      var n := |routes| - 1;
      var prefix := routes[..n];
      var last := routes[n];
      assert Keys(routes) == Keys(prefix) + {KeyOf(last)} by {
        assert forall i :: 0 <= i < n ==> prefix[i] == routes[i];
      }
      BuildIndex(prefix)[KeyOf(last) := last]
  }

  /** The route stored under the exact ordered pair (origin, target); an absent key is no route, not an error. */
  function Lookup(index: map<Key, Route>, origin: CellId, target: CellId): (r: Option<Route>)
    requires WellKeyed(index)
    ensures r.Some? ==> r.value.departure == origin && r.value.destination == target
    ensures r.None? <==> (origin, target) !in index
  {
    if (origin, target) in index then Some(index[(origin, target)]) else None
  }

  /** The route shown for a selection: only when both slots are set. */
  function RouteFor(index: map<Key, Route>, origin: Option<CellId>, target: Option<CellId>): (r: Option<Route>)
    requires WellKeyed(index)
    ensures r.Some? ==> origin.Some? && target.Some?
    ensures r.Some? ==> r.value.departure == origin.value && r.value.destination == target.value
  {
    if origin.Some? && target.Some? then Lookup(index, origin.value, target.value) else None
  }

  /**
   * Round trip: the route found for (o, t) is exactly the table row with that
   * ordered key, and there is none when the table has no such row.
   */
  lemma LookupBuilt(routes: seq<Route>, origin: CellId, target: CellId)
    requires UniqueKeys(routes)
    ensures Lookup(BuildIndex(routes), origin, target).Some? <==>
            exists i :: 0 <= i < |routes| && routes[i].departure == origin && routes[i].destination == target
    ensures forall i :: 0 <= i < |routes| && routes[i].departure == origin && routes[i].destination == target ==>
            Lookup(BuildIndex(routes), origin, target) == Some(routes[i])
  {
    var index := BuildIndex(routes);
    if (origin, target) in index {
      assert (origin, target) in Keys(routes);
      var i :| 0 <= i < |routes| && KeyOf(routes[i]) == (origin, target);
      assert routes[i].departure == origin && routes[i].destination == target;
    }
    forall i | 0 <= i < |routes| && routes[i].departure == origin && routes[i].destination == target
      ensures Lookup(index, origin, target) == Some(routes[i])
    {
      assert KeyOf(routes[i]) == (origin, target);
    }
  }

  /** There is no fallback to the reversed pair: a table holding only A -> B has no route B -> A. */
  lemma NoReverseFallback(r: Route)
    requires r.departure != r.destination
    ensures Lookup(BuildIndex([r]), r.destination, r.departure).None?
    ensures Lookup(BuildIndex([r]), r.departure, r.destination) == Some(r)
  {
    LookupBuilt([r], r.destination, r.departure);
    LookupBuilt([r], r.departure, r.destination);
  }
}
