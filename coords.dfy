/**
 * Coordinate pairs and the latitude/longitude swap.
 *
 * Raw coordinates (route paths, barrier outlines, map clicks) are written
 * latitude first; geometry operations expect longitude first. `SwapCoords`
 * converts a whole list between the two orders.
 */
module Coords {

  /** A coordinate pair; which component is the latitude depends on the caller. */
  type Coord = (real, real)

  /** Exchanges the two components of one pair. */
  function Swap(c: Coord): (r: Coord)
  {
    (c.1, c.0)
  }

  /** Converts every pair of a list between latitude-first and longitude-first order. */
  function SwapCoords(coords: seq<Coord>): (r: seq<Coord>)
    ensures |r| == |coords|
    ensures forall i :: 0 <= i < |coords| ==> r[i].0 == coords[i].1 && r[i].1 == coords[i].0
  {
    if coords == [] then [] else [Swap(coords[0])] + SwapCoords(coords[1..])
  }

  /** Swapping twice gives back the original list. */
  lemma SwapCoordsInvolution(coords: seq<Coord>)
    ensures SwapCoords(SwapCoords(coords)) == coords
  {
    var twice := SwapCoords(SwapCoords(coords));
    assert forall i | 0 <= i < |coords| :: twice[i] == coords[i];
  }

  /** The geometric point, longitude first, of a click reported as (lat, lng). */
  function ClickPoint(lat: real, lng: real): (p: Coord)
    ensures SwapCoords([p]) == [(lat, lng)]
  {
    Swap((lat, lng))
  }
}
