# H3 Route Explorer: selection and route lookup core

A Dafny model of the decision logic inside the route explorer page
(`routes_visualization.py`) of the bird-migration project. The page shows a
hexagonal (H3) grid of cells; the user clicks a departure cell and then a
destination cell, and the page draws the precomputed migration route between
them. The model covers:

- `swap_coords`, the (lat, lon) to (lon, lat) conversion (module `Coords`);
- the departure and destination cell sets derived from the abundance table
  (module `Roles`): a cell may be an origin when its wintering value is
  positive and a target when its breeding value is positive, and it may be both;
- resolution of a clicked point to a cell: the bounding-box index proposes
  candidate rows, the exact polygon test filters them, and the first survivor
  wins (module `CellIndex`);
- the route table indexed by the ordered pair (departure cell, destination
  cell) and the route lookup for the current selection (module `RouteLookup`);
- the two session slots `origin` and `target`, their initialisation, the
  Reset button and the click handler, as the class `Session`, specified by
  the pure transition `Next` and the run function `Run` (module `Selection`).

Geometry is abstract. The polygon containment test and the bounding-box test
are function parameters (`contains`, `envelopeHit`). The spatial index's
answer is a parameter `candidates`, and `IsCandidateList` states what the
index promises about it. The one assumption about geometry, that a polygon
containing a point also has the point inside its bounding box, is
`EnvelopeSound`. It is a precondition only of the lemmas showing that the
coarse filter loses no hits.

Three behaviours of the code shape the model:

- A click on a cell with the wrong role only shows a warning and leaves the
  state unchanged. The model returns the warning as a `ClickOutcome` value
  (`NotDeparture`, `NotDestination`).
- Nothing checks that the cell table is non-empty or that its polygons are
  geometrically valid (not self-intersecting, non-zero area). Unparsable
  geometry text fails while the table is loaded, which is outside the model.
- For a duplicated (departure, destination) key, pandas returns several rows
  rather than one, so unique route keys are a precondition of `BuildIndex`.

## Model

| member | source | states |
|---|---|---|
| Coords.SwapCoords | routes_visualization.py:22-23 | the output has the input's length, and element i is element i of the input with its two components exchanged |
| Coords.SwapCoordsInvolution | routes_visualization.py:22-23 | applying the swap twice returns the original list |
| Coords.ClickPoint | routes_visualization.py:170-172 | the geometric point built from a click's (lat, lng) is that pair in swapped, longitude-first order |
| Roles.DepartureCells | routes_visualization.py:61 | every departure id belongs to a table row whose wintering value is positive |
| Roles.DestinationCells | routes_visualization.py:62 | every destination id belongs to a table row whose breeding value is positive |
| Roles.DepartureIff | routes_visualization.py:61 | with unique ids, a cell is a departure cell if and only if its wintering value is positive |
| Roles.DestinationIff | routes_visualization.py:62 | with unique ids, a cell is a destination cell if and only if its breeding value is positive |
| Roles.BothRoles | routes_visualization.py:61-62 | the roles are not disjoint: a cell with both values positive is in both sets |
| CellIndex.FirstHitFrom | routes_visualization.py:176-179 | returns the first candidate position whose polygon contains the point, or nothing when none does |
| CellIndex.Resolve | routes_visualization.py:174-179 | a returned id is that of a candidate containing the point; nothing is returned exactly when no candidate contains it |
| CellIndex.ResolveFirst | routes_visualization.py:176-179 | the result is the first candidate, in the index's order, that contains the point |
| CellIndex.ResolveNoneIff | routes_visualization.py:174-178 | when the index is correct and containment implies envelope intersection, resolution returns nothing exactly when no cell of the table contains the point |
| CellIndex.ResolveUnique | routes_visualization.py:174-179 | a point inside exactly one cell resolves to that cell, whatever order the index returns candidates in |
| RouteLookup.BuildIndex | routes_visualization.py:45-51 | with unique keys, the index's keys are exactly the rows' (departure, destination) pairs, each row is stored under its own key, and every entry's key matches its route |
| RouteLookup.Lookup | routes_visualization.py:155-157 | a found route has exactly the requested departure and destination; an absent key gives no route, not an error |
| RouteLookup.RouteFor | routes_visualization.py:153-158 | a route is produced only when both slots are set, and it runs from the origin to the target |
| RouteLookup.LookupBuilt | routes_visualization.py:155-157 | round trip: a lookup after building finds a route if and only if the table has a row with that ordered key, and then it is that row |
| RouteLookup.NoReverseFallback | routes_visualization.py:155-156 | a table holding only A to B yields that route for (A, B) and none for (B, A) |
| Selection.NextPreserves | routes_visualization.py:181-193 | a click keeps "origin is a departure cell; target set implies origin set and target is a destination cell", and never changes an origin already set |
| Selection.NextChangesOnlyOnChoice | routes_visualization.py:178-193 | the state changes exactly when an origin or target is chosen; an origin is chosen if and only if the origin slot is empty and the hit is a departure cell, and the origin then becomes the clicked cell; a target is chosen if and only if the origin is set, the target is empty and the hit is a destination cell, and the target then becomes the clicked cell |
| Selection.RunConsistent | routes_visualization.py:67-98 | every state reachable by clicks and resets from a consistent state is consistent |
| Selection.OriginStable | routes_visualization.py:181-193 | without a Reset, no sequence of clicks changes an origin once it is set |
| Selection.CompleteAbsorbsClicks | routes_visualization.py:181-193 | once both slots are set, any sequence of clicks leaves the state unchanged |
| Selection.ResetForgets | routes_visualization.py:95-97 | after a Reset the run continues from the empty state, whatever happened before |
| Selection.Scenario | routes_visualization.py:153-193 | clicking A (departure only), B (destination only), then A again selects (A, B) and shows the A to B route; a Reset empties the state; clicking B first is rejected |
| Selection.Session.constructor | routes_visualization.py:57-70 | the tables are built once from the parsed inputs, and both slots start as None |
| Selection.Session.Reset | routes_visualization.py:95-97 | both slots become None and the session stays consistent |
| Selection.Session.Click | routes_visualization.py:178-193 | the new slots and the reported outcome are those of the transition `Next` from the old slots |
| Selection.Session.ClickAt | routes_visualization.py:169-193 | a click at (lat, lng) resolves the point (lng, lat) and then makes the `Next` transition on the cell found |
| Selection.Session.CurrentRoute | routes_visualization.py:153-158 | a route is returned if and only if both slots are set and their ordered pair is a key of the table; it is the entry stored under that key and runs from origin to target |

## Left out

- Page configuration, titles, CSS, columns, buttons, the grid checkbox, warnings, info boxes, the details table and `st.rerun` (routes_visualization.py:17, 76-100, 186, 193, 198-206): these are interface plumbing. Only the resulting state change, or its absence, is modelled, and warnings appear as `ClickOutcome` values.
- Map building and drawing: the grid layer, barrier polygons, `draw_h3`, the route polyline and the map widget (routes_visualization.py:28-32, 105-164). These only render output.
- Loading the CSV, parsing WKT, reading the pickle, the GeoJSON export and the caching decorators (routes_visualization.py:37-59). The model takes the already-parsed cell and route rows as input.
- The geometric tests themselves (shapely's `contains`, the R-tree's envelope query, `Point` on floats, routes_visualization.py:172-176). These are floating-point library calls. They are parameters, and the index's answer is characterised by `IsCandidateList`.
- The order in which the R-tree returns candidates is the library's own. `Resolve` takes it as given and proves results for any order.
- Duplicate (departure, destination) keys in the route table: pandas returns several rows there, so unique keys are a precondition of `BuildIndex`.
- The map centre, the mean of the `lat`/`lng` columns (routes_visualization.py:105). It only positions the map.
- The drawing and lookup code test the slots by truthiness, while the click handler tests them against None. The model uses `Option` throughout and treats every cell id as non-empty.
