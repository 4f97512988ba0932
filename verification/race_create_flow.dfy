/**
 * The race creation form and the createRace handler together: what the
 * form sends, the backend accepts, and the grid editor is the only place
 * where repeated racers are kept out of a starting grid.
 */
module RaceCreateFlow {
  import opened Common
  import opened RaceRecords
  import opened RaceController
  import opened GridEditor

  /** Every body the form sends passes the handler's checks, so the race is created. */
  lemma SubmittedRaceAccepted(s: State, venue: string, totalLaps: Option<int>, grid: seq<Id>, tyre: Tyre,
                              newId: Id, now: Millis)
    requires newId !in s.races
    requires Submit(venue, totalLaps, grid, tyre).Sent?
    ensures var req := Submit(venue, totalLaps, grid, tyre).request;
            var r := CreateRace(s, req.venue, Some(req.totalLaps), List(req.startingGrid), req.defaultTyreType, newId, now);
            r.Ok? && r.value.races[newId].venue == Trim(venue)
            && r.value.events[|s.events|] == Event(newId, RaceCreated(Trim(venue), req.totalLaps, |grid|), now)
  {
    var req := Submit(venue, totalLaps, grid, tyre).request;
    TrimIdempotent(venue);
    ParseTyreName(tyre);
    assert DefaultTyre(req.defaultTyreType) == Some(tyre);
  }

  /** The positions 1, 2, ..., n in order. */
  function OneTo(n: nat): (r: seq<int>)
    ensures |r| == n && forall i :: 0 <= i < n ==> r[i] == i + 1
  {
    if n == 0 then [] else OneTo(n - 1) + [n]
  }

  function PositionsOf(es: seq<RaceEntry>): seq<int> {
    seq(|es|, i requires 0 <= i < |es| => es[i].position)
  }

  /** A grid of n slots yields entries whose positions, in grid order, are exactly 1 through n. */
  lemma CreatedPositions(race: Id, grid: seq<Id>, tyre: Tyre)
    ensures PositionsOf(GridEntries(race, grid, tyre)) == OneTo(|grid|)
  {
  }

  /** The entries created from a grid name pairwise distinct racers exactly when the grid has no repeats. */
  lemma CreatedRacersDistinct(race: Id, grid: seq<Id>, tyre: Tyre)
    ensures var es := GridEntries(race, grid, tyre);
            (forall i, j :: 0 <= i < j < |es| ==> es[i].racer != es[j].racer) <==> NoDuplicates(grid)
  {
  }

  /** A grid edited in the form from an empty one and sent gives a race whose entries name distinct racers. */
  lemma EditedGridHasDistinctRacers(s: State, venue: string, totalLaps: Option<int>, actions: seq<EditAction>,
                                    tyre: Tyre, newId: Id, now: Millis)
    requires newId !in s.races
    requires Submit(venue, totalLaps, EditAll([], actions), tyre).Sent?
    ensures var req := Submit(venue, totalLaps, EditAll([], actions), tyre).request;
            var r := CreateRace(s, req.venue, Some(req.totalLaps), List(req.startingGrid), req.defaultTyreType, newId, now);
            r.Ok? && forall i, j :: |s.entries| <= i < j < |r.value.entries| ==> r.value.entries[i].racer != r.value.entries[j].racer
  {
    var grid := EditAll([], actions);
    EditingKeepsNoDuplicates([], actions);
    SubmittedRaceAccepted(s, venue, totalLaps, grid, tyre, newId, now);
    var req := Submit(venue, totalLaps, grid, tyre).request;
    var r := CreateRace(s, req.venue, Some(req.totalLaps), List(req.startingGrid), req.defaultTyreType, newId, now);
    forall i, j | |s.entries| <= i < j < |r.value.entries| ensures r.value.entries[i].racer != r.value.entries[j].racer {
      assert r.value.entries[i].racer == grid[i - |s.entries|];
      assert r.value.entries[j].racer == grid[j - |s.entries|];
    }
  }

  /** The handler itself accepts a grid that names the same racer twice, and creates two entries for it. */
  lemma BackendAcceptsRepeatedRacer()
    ensures var r := CreateRace(Empty, "Monza", Some(50), List(["a", "a"]), "", "r1", 0);
            r.Ok? && |r.value.entries| == 2 && r.value.entries[0].racer == r.value.entries[1].racer
  {
  }

  /** A venue of only spaces passes the handler's 400 checks but fails the required venue (500); the form blocks it. */
  lemma BlankVenueRefusedDifferently(grid: seq<Id>, tyre: Tyre)
    requires |grid| >= 2
    ensures CreateRace(Empty, "  ", Some(10), List(grid), "", "r1", 0) == Err(ServerError)
    ensures Submit("  ", Some(10), grid, tyre) == Blocked(VenueRequired)
  {
    assert Trim("  ") == "" by { TrimEmptyIffBlank("  "); }
  }
}
