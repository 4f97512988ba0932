/**
 * Worked race-day examples: a race created at Monza, a retirement, and two
 * position changes in a row.
 */
module Scenarios {
  import opened Common
  import opened RaceRecords
  import opened RaceController

  /** Entries of a race still running. */
  function ActiveCount(es: seq<RaceEntry>, raceId: Id): (n: nat)
    ensures n <= |es|
  {
    if |es| == 0 then 0
    else (if es[0].race == raceId && es[0].status == Active then 1 else 0) + ActiveCount(es[1..], raceId)
  }

  const Grid := [RaceEntry("m", "A", 1, Soft, Active), RaceEntry("m", "B", 2, Soft, Active),
                 RaceEntry("m", "C", 3, Soft, Active)]
  const Created := Event("m", RaceCreated("Monza", 50, 3), 1)
  const AfterCreate := State(map["m" := Race("Monza", 50, Pending, 1)], Grid, [], [], [Created])

  /** Creating "Monza", 50 laps, grid [A, B, C] on soft tyres: a pending race, three entries, one event. */
  lemma MonzaCreated()
    ensures CreateRace(Empty, "Monza", Some(50), List(["A", "B", "C"]), "soft", "m", 1) == Ok(AfterCreate)
    ensures ActiveCount(AfterCreate.entries, "m") == 3
  {
    assert !IsJsSpace('M') && !IsJsSpace('a');
    assert Trim("Monza") == "Monza" by { TrimKeepsTrimmed("Monza"); }
    assert DefaultTyre("soft") == Some(Soft);
    assert GridEntries("m", ["A", "B", "C"], Soft) == Grid;
    var r := CreateRace(Empty, "Monza", Some(50), List(["A", "B", "C"]), "soft", "m", 1);
    assert r.Ok?;
    assert r.value.races == AfterCreate.races;
    assert r.value.entries == [] + Grid;
    assert r.value.events == [] + [Created];
    assert r.value.laps == [] && r.value.pits == [];
    assert r.value == AfterCreate;
    assert ActiveCount(Grid[2..], "m") == 1;
    assert ActiveCount(Grid[1..], "m") == 2;
  }

  const AfterDnf := AfterCreate.(entries := Grid[1 := RaceEntry("m", "B", 2, Soft, Dnf)],
                                 events := [Created, Event("m", DnfMarked("B"), 2)])

  /** B retires: its entry keeps position and tyre, the active count drops from 3 to 2. */
  lemma MonzaRetirement()
    ensures MarkDnf(AfterCreate, "m", "B", 2) == Ok(AfterDnf)
    ensures ActiveCount(AfterDnf.entries, "m") == 2
  {
    assert FindEntry(Grid, "m", "B") == Some(1);
    var r := MarkDnf(AfterCreate, "m", "B", 2);
    assert r.value.entries == AfterDnf.entries;
    assert r.value.events == AfterDnf.events;
    var es := AfterDnf.entries;
    assert ActiveCount(es[2..], "m") == 1;
    assert ActiveCount(es[1..], "m") == 1;
  }

  /** A moved to 2 and then to 5: the last write wins and the second event records 2 -> 5. */
  lemma MonzaPositionChanges()
    ensures var r3 := UpdatePosition(AfterDnf, "m", "A", Some(2), 3);
            && r3.Ok?
            && var r4 := UpdatePosition(r3.value, "m", "A", Some(5), 4);
               && r4.Ok?
               && r4.value.entries[0] == RaceEntry("m", "A", 5, Soft, Active)
               && r4.value.events == AfterDnf.events + [Event("m", PositionChange("A", 1, 2), 3),
                                                        Event("m", PositionChange("A", 2, 5), 4)]
  {
    assert FindEntry(AfterDnf.entries, "m", "A") == Some(0);
    var r3 := UpdatePosition(AfterDnf, "m", "A", Some(2), 3);
    assert FindEntry(r3.value.entries, "m", "A") == Some(0);
  }
}
