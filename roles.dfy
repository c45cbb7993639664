/**
 * The cell table and the two role sets derived from it: cells that may be
 * chosen as a departure (positive wintering abundance) and cells that may be
 * chosen as a destination (positive breeding abundance).
 */
module Roles {
  import opened Coords

  /** A hexagonal grid cell identifier (an H3 index string). */
  type CellId = string

  /** A closed polygon ring, longitude first. */
  type Polygon = seq<Coord>

  /** One row of the abundance table, restricted to the columns the core reads. */
  datatype Cell = Cell(id: CellId, geometry: Polygon, valueWintering: real, valueBreeding: real)

  /** Cell identifiers are unique across the table. */
  predicate UniqueIds(cells: seq<Cell>)
  {
    forall i, j :: 0 <= i < j < |cells| ==> cells[i].id != cells[j].id
  }

  /** The ids of the rows whose wintering value is positive. */
  function DepartureCells(cells: seq<Cell>): (r: set<CellId>)
    ensures forall id :: id in r ==> exists i :: 0 <= i < |cells| && cells[i].id == id && cells[i].valueWintering > 0.0
  {
    set i | 0 <= i < |cells| && cells[i].valueWintering > 0.0 :: cells[i].id
  }

  /** The ids of the rows whose breeding value is positive. */
  function DestinationCells(cells: seq<Cell>): (r: set<CellId>)
    ensures forall id :: id in r ==> exists i :: 0 <= i < |cells| && cells[i].id == id && cells[i].valueBreeding > 0.0
  {
    set i | 0 <= i < |cells| && cells[i].valueBreeding > 0.0 :: cells[i].id
  }

  /** With unique ids, a cell is a departure cell exactly when its wintering value is positive. */
  lemma DepartureIff(cells: seq<Cell>, i: int)
    requires UniqueIds(cells)
    requires 0 <= i < |cells|
    ensures cells[i].id in DepartureCells(cells) <==> cells[i].valueWintering > 0.0
  {
    if cells[i].id in DepartureCells(cells) {
      var j :| 0 <= j < |cells| && cells[j].id == cells[i].id && cells[j].valueWintering > 0.0;
      assert j == i;
    }
  }

  /** With unique ids, a cell is a destination cell exactly when its breeding value is positive. */
  lemma DestinationIff(cells: seq<Cell>, i: int)
    requires UniqueIds(cells)
    requires 0 <= i < |cells|
    ensures cells[i].id in DestinationCells(cells) <==> cells[i].valueBreeding > 0.0
  {
    if cells[i].id in DestinationCells(cells) {
      var j :| 0 <= j < |cells| && cells[j].id == cells[i].id && cells[j].valueBreeding > 0.0;
      assert j == i;
    }
  }

  /** The roles are not exclusive: a cell with both values positive is in both sets. */
  lemma BothRoles(cells: seq<Cell>, i: int)
    requires 0 <= i < |cells|
    requires cells[i].valueWintering > 0.0 && cells[i].valueBreeding > 0.0
    ensures cells[i].id in DepartureCells(cells) * DestinationCells(cells)
  {
  }
}
