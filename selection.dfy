/**
 * The origin/target selection of one session. A click fills the origin slot
 * with a departure cell, then the target slot with a destination cell; once
 * both are set further clicks are ignored until Reset clears both slots.
 */
module Selection {
  import opened Wrappers
  import opened Coords
  import opened Roles
  import opened CellIndex
  import opened RouteLookup

  /** The two nullable session slots. */
  datatype State = State(origin: Option<CellId>, target: Option<CellId>)

  /** What a click did; the two rejections are the warnings shown to the user. */
  datatype ClickOutcome =
    | NoCell          // the click resolved to no cell
    | Ignored         // both slots were already set
    | OriginChosen
    | TargetChosen
    | NotDeparture    // "Not a valid departure cell"
    | NotDestination  // "Not a valid destination cell"

  /** The state before any selection and after Reset. */
  const Empty := State(None, None)

  /** Reachable states: the origin is a departure cell, and a target is set only after an origin, and is a destination cell. */
  predicate Consistent(s: State, departure: set<CellId>, destination: set<CellId>)
  {
    && (s.origin.Some? ==> s.origin.value in departure)
    && (s.target.Some? ==> s.origin.Some? && s.target.value in destination)
  }

  /** The click handler's transition for a click that resolved to `hit`. */
  function Next(s: State, hit: Option<CellId>, departure: set<CellId>, destination: set<CellId>): (r: (State, ClickOutcome))
  {
    match hit
    case None => (s, NoCell)
    case Some(cell) =>
      if s.origin.None? then
        if cell in departure then (State(Some(cell), s.target), OriginChosen) else (s, NotDeparture)
      else if s.target.None? then
        if cell in destination then (State(s.origin, Some(cell)), TargetChosen) else (s, NotDestination)
      else (s, Ignored)
  }

  /** A click keeps a consistent state consistent, and never changes an origin that is already set. */
  lemma NextPreserves(s: State, hit: Option<CellId>, departure: set<CellId>, destination: set<CellId>)
    requires Consistent(s, departure, destination)
    ensures Consistent(Next(s, hit, departure, destination).0, departure, destination)
    ensures s.origin.Some? ==> Next(s, hit, departure, destination).0.origin == s.origin
  {
  }

  /**
   * The state changes exactly when the click chose an origin or a target, and
   * the chosen slot then holds the clicked cell; every other outcome leaves the
   * state as it was.
   */
  lemma NextChangesOnlyOnChoice(s: State, hit: Option<CellId>, departure: set<CellId>, destination: set<CellId>)
    ensures var (s', o) := Next(s, hit, departure, destination);
            s' != s <==> o == OriginChosen || o == TargetChosen
    ensures var (s', o) := Next(s, hit, departure, destination);
            o == OriginChosen <==> s.origin.None? && hit.Some? && hit.value in departure
    ensures var (s', o) := Next(s, hit, departure, destination);
            o == TargetChosen <==> s.origin.Some? && s.target.None? && hit.Some? && hit.value in destination
    ensures var (s', o) := Next(s, hit, departure, destination);
            o == OriginChosen ==> s' == State(hit, s.target)
    ensures var (s', o) := Next(s, hit, departure, destination);
            o == TargetChosen ==> s' == State(s.origin, hit)
  {
  }

  /** A user interaction: a click on the map (resolved to a cell or not) or the Reset button. */
  datatype Event = Click(hit: Option<CellId>) | ResetPressed

  /** The state after a sequence of interactions. */
  function Run(s: State, events: seq<Event>, departure: set<CellId>, destination: set<CellId>): (r: State)
    decreases |events|
  {
    if events == [] then s
    else
      var s' := match events[0]
        case ResetPressed => Empty
        case Click(hit) => Next(s, hit, departure, destination).0;
      Run(s', events[1..], departure, destination)
  }

  /** Every state reachable from a consistent one (in particular from Empty) is consistent. */
  lemma {:induction false} RunConsistent(s: State, events: seq<Event>, departure: set<CellId>, destination: set<CellId>)
    requires Consistent(s, departure, destination)
    ensures Consistent(Run(s, events, departure, destination), departure, destination)
    decreases |events|
  {
    if events != [] {
      match events[0]
      case ResetPressed =>
        RunConsistent(Empty, events[1..], departure, destination);
      case Click(hit) =>
        NextPreserves(s, hit, departure, destination);
        RunConsistent(Next(s, hit, departure, destination).0, events[1..], departure, destination);
    }
  }

  /** Without a Reset, clicks never change an origin once it is set. */
  lemma {:induction false} OriginStable(s: State, events: seq<Event>, departure: set<CellId>, destination: set<CellId>)
    requires s.origin.Some?
    requires forall k :: 0 <= k < |events| ==> events[k].Click?
    ensures Run(s, events, departure, destination).origin == s.origin
    decreases |events|
  {
    if events != [] {
      assert events[0].Click?;
      OriginStable(Next(s, events[0].hit, departure, destination).0, events[1..], departure, destination);
    }
  }

  /** Once both slots are set, no sequence of clicks changes the state. */
  lemma {:induction false} CompleteAbsorbsClicks(s: State, events: seq<Event>, departure: set<CellId>, destination: set<CellId>)
    requires s.origin.Some? && s.target.Some?
    requires forall k :: 0 <= k < |events| ==> events[k].Click?
    ensures Run(s, events, departure, destination) == s
    decreases |events|
  {
    if events != [] {
      assert events[0].Click?;
      CompleteAbsorbsClicks(s, events[1..], departure, destination);
    }
  }

  /** A Reset anywhere in a run forgets everything before it. */
  lemma {:induction false} ResetForgets(s: State, before: seq<Event>, after: seq<Event>, departure: set<CellId>, destination: set<CellId>)
    ensures Run(s, before + [ResetPressed] + after, departure, destination) == Run(Empty, after, departure, destination)
    decreases |before|
  {
    if before == [] {
      assert before + [ResetPressed] + after == [ResetPressed] + after;
      assert ([ResetPressed] + after)[1..] == after;
    } else {
      var s' := match before[0]
        case ResetPressed => Empty
        case Click(hit) => Next(s, hit, departure, destination).0;
      assert (before + [ResetPressed] + after)[1..] == before[1..] + [ResetPressed] + after;
      ResetForgets(s', before[1..], after, departure, destination);
    }
  }

  /**
   * A worked session: A may only depart, B may only be a destination, and the
   * table holds the route A -> B. Clicking A, then B, then A again selects
   * (A, B) and shows that route; Reset then shows none.
   */
  lemma Scenario(path: seq<Coord>)
    ensures var cells := [Cell("A", [], 5.0, 0.0), Cell("B", [], 0.0, 3.0)];
            var routes := BuildIndex([Route("A", "B", path, map[])]);
            var dep, dest := DepartureCells(cells), DestinationCells(cells);
            var s := Run(Empty, [Click(Some("A")), Click(Some("B")), Click(Some("A"))], dep, dest);
            && s == State(Some("A"), Some("B"))
            && RouteFor(routes, s.origin, s.target) == Some(Route("A", "B", path, map[]))
            && Run(s, [ResetPressed], dep, dest) == Empty
            && Run(Empty, [Click(Some("B"))], dep, dest) == Empty
  {
    var cells := [Cell("A", [], 5.0, 0.0), Cell("B", [], 0.0, 3.0)];
    assert "A" != "B" by { assert "A"[0] != "B"[0]; }
    DepartureIff(cells, 0);
    DepartureIff(cells, 1);
    DestinationIff(cells, 1);
  }

  /**
   * One session: the data tables built once at start-up, and the two
   * selection slots that clicks and Reset update.
   */
  class Session {
    const cells: seq<Cell>
    const departure: set<CellId>
    const destination: set<CellId>
    const routes: map<Key, Route>
    var origin: Option<CellId>
    var target: Option<CellId>

    ghost predicate Valid()
      reads this
    {
      Consistent(State(origin, target), departure, destination) && WellKeyed(routes)
    }

    /** Loading the tables and initialising both slots to None. */
    constructor (cellTable: seq<Cell>, routeTable: seq<Route>)
      requires UniqueKeys(routeTable)
      ensures Valid()
      ensures origin == None && target == None
      ensures cells == cellTable
      ensures departure == DepartureCells(cellTable) && destination == DestinationCells(cellTable)
      ensures routes == BuildIndex(routeTable)
    {
      cells := cellTable;
      departure := DepartureCells(cellTable);
      destination := DestinationCells(cellTable);
      routes := BuildIndex(routeTable);
      origin := None;
      target := None;
    }

    /** The Reset button: both slots back to None. */
    method Reset()
      requires Valid()
      modifies this
      ensures Valid()
      ensures origin == None && target == None
    {
      origin := None;
      target := None;
    }

    /** The click handler, given the cell the click resolved to (if any). */
    method Click(hit: Option<CellId>) returns (outcome: ClickOutcome)
      requires Valid()
      modifies this
      ensures Valid()
      ensures (State(origin, target), outcome) == Next(State(old(origin), old(target)), hit, departure, destination)
    {
      outcome := NoCell;
      if hit.Some? {
        var cell := hit.value;
        if origin.None? {
          if cell in departure {
            origin := Some(cell);
            outcome := OriginChosen;
          } else {
            outcome := NotDeparture;
          }
        } else if target.None? {
          if cell in destination {
            target := Some(cell);
            outcome := TargetChosen;
          } else {
            outcome := NotDestination;
          }
        } else {
          outcome := Ignored;
        }
      }
    }

    /**
     * A click at (lat, lng): the point (lng, lat) is resolved against the
     * candidates the bounding-box index returned, then handled as above.
     */
    method ClickAt(lat: real, lng: real, candidates: seq<int>, contains: (Polygon, Coord) -> bool) returns (outcome: ClickOutcome)
      requires Valid()
      requires InRange(cells, candidates)
      modifies this
      ensures Valid()
      ensures (State(origin, target), outcome) ==
              Next(State(old(origin), old(target)), Resolve(cells, candidates, ClickPoint(lat, lng), contains), departure, destination)
    {
      var hit := Resolve(cells, candidates, ClickPoint(lat, lng), contains);
      outcome := Click(hit);
    }

    /** The route drawn and detailed for the current selection. */
    method CurrentRoute() returns (r: Option<Route>)
      requires Valid()
      ensures r.Some? <==> origin.Some? && target.Some? && (origin.value, target.value) in routes
      ensures r.Some? ==> r.value.departure == origin.value && r.value.destination == target.value
      ensures r.Some? ==> r.value == routes[(origin.value, target.value)]
    {
      r := RouteFor(routes, origin, target);
    }
  }
}
