/**
 * The race command handlers over one in-memory race-day state. Each
 * command validates its body, then either answers with an error and
 * changes nothing, or returns the new state with exactly one event
 * appended to the log. The clock reading `now` is a parameter.
 */
module RaceController {
  import opened Common
  import opened RaceRecords

  /** Everything the race handlers read and write. */
  datatype State = State(
    races: map<Id, Race>,
    entries: seq<RaceEntry>,
    laps: seq<LapTime>,
    pits: seq<PitStop>,
    events: seq<Event>)

  const Empty := State(map[], [], [], [], [])

  /** The `startingGrid` body field: anything that is not a list, or a list of racer ids. */
  datatype GridInput = NotAList | List(ids: seq<Id>)

  predicate Matches(e: RaceEntry, race: Id, racer: Id) {
    e.race == race && e.racer == racer
  }

  /** `RaceEntry.findOne({ race, racer })`: the first entry, in storage order, for that race and racer. */
  function FindEntry(entries: seq<RaceEntry>, race: Id, racer: Id): (r: Option<nat>)
    ensures r.Some? ==> r.value < |entries| && Matches(entries[r.value], race, racer)
    ensures r.Some? ==> forall j :: 0 <= j < r.value ==> !Matches(entries[j], race, racer)
    ensures r.None? <==> forall j :: 0 <= j < |entries| ==> !Matches(entries[j], race, racer)
  {
    FindFrom(entries, race, racer, 0)
  }

  function FindFrom(entries: seq<RaceEntry>, race: Id, racer: Id, from: nat): (r: Option<nat>)
    requires from <= |entries|
    requires forall j :: 0 <= j < from ==> !Matches(entries[j], race, racer)
    ensures r.Some? ==> from <= r.value < |entries| && Matches(entries[r.value], race, racer)
    ensures r.Some? ==> forall j :: 0 <= j < r.value ==> !Matches(entries[j], race, racer)
    ensures r.None? <==> forall j :: 0 <= j < |entries| ==> !Matches(entries[j], race, racer)
    decreases |entries| - from
  {
    if from == |entries| then None
    else if Matches(entries[from], race, racer) then Some(from)
    else FindFrom(entries, race, racer, from + 1)
  }

  predicate HasEntry(s: State, race: Id, racer: Id) {
    exists j :: 0 <= j < |s.entries| && Matches(s.entries[j], race, racer)
  }

  // ---------------------------------------------------------------- createRace

  /** The entries created from a starting grid: slot i holds grid[i] at position i + 1. */
  function GridEntries(race: Id, grid: seq<Id>, tyre: Tyre): (es: seq<RaceEntry>)
    ensures |es| == |grid|
    ensures forall i :: 0 <= i < |es| ==>
              es[i].race == race && es[i].racer == grid[i] && es[i].position == i + 1
              && es[i].tyre == tyre && es[i].status == Active
  {
    seq(|grid|, i requires 0 <= i < |grid| => NewEntry(race, grid[i], i + 1, tyre, None))
  }

  /** `defaultTyreType || 'medium'`, read against the schema enum when the entries are inserted. */
  function DefaultTyre(defaultTyreType: string): (t: Option<Tyre>)
    ensures defaultTyreType == "" ==> t == Some(Medium)
    ensures defaultTyreType != "" ==> t == ParseTyre(defaultTyreType)
  {
    if defaultTyreType == "" then Some(Medium) else ParseTyre(defaultTyreType)
  }

  /** The body checks of createRace that answer 400. */
  predicate CreateRaceBodyOk(venue: string, totalLaps: Option<int>, grid: GridInput) {
    && venue != "" && TruthyInt(totalLaps) && grid.List?
    && 1 <= totalLaps.value <= 200
    && |grid.ids| >= 2
  }

  /**
   * createRace. A venue that is only white space passes the body checks but
   * trims to the empty string, which the schema's `required` venue rejects
   * (500). A non-empty `defaultTyreType` outside the enum is rejected when
   * the entries are inserted (500). The grid is not checked for repeated or
   * unknown racers. `newId` is the id the store assigns to the new race.
   */
  function CreateRace(s: State, venue: string, totalLaps: Option<int>, grid: GridInput,
                      defaultTyreType: string, newId: Id, now: Millis): (r: Result<State>)
    requires newId !in s.races
    ensures !CreateRaceBodyOk(venue, totalLaps, grid) ==> r == Err(BadRequest)
    ensures CreateRaceBodyOk(venue, totalLaps, grid) && Trim(venue) == "" ==> r == Err(ServerError)
    ensures CreateRaceBodyOk(venue, totalLaps, grid) && DefaultTyre(defaultTyreType).None? ==> r == Err(ServerError)
    ensures r.Ok? <==> CreateRaceBodyOk(venue, totalLaps, grid) && Trim(venue) != ""
                       && DefaultTyre(defaultTyreType).Some?
    ensures r.Ok? ==>
              var s', n := r.value, |grid.ids|;
              && s'.races == s.races[newId := Race(Trim(venue), totalLaps.value, Pending, now)]
              && |s'.entries| == |s.entries| + n
              && s'.entries[..|s.entries|] == s.entries
              && (forall i :: 0 <= i < n ==>
                    var e := s'.entries[|s.entries| + i];
                    e.race == newId && e.racer == grid.ids[i] && e.position == i + 1
                    && e.tyre == DefaultTyre(defaultTyreType).value && e.status == Active)
              && s'.laps == s.laps && s'.pits == s.pits
              && s'.events == s.events + [Event(newId, RaceCreated(venue, totalLaps.value, n), now)]
  {
    if venue == "" || !TruthyInt(totalLaps) || grid.NotAList? then Err(BadRequest)
    else if totalLaps.value < 1 || totalLaps.value > 200 then Err(BadRequest)
    else if |grid.ids| < 2 then Err(BadRequest)
    else if Trim(venue) == "" then Err(ServerError)
    else
      var tyre := DefaultTyre(defaultTyreType);
      if tyre.None? then Err(ServerError)
      else
        var race := NewRace(Trim(venue), totalLaps.value, Some(Pending), now);
        var created := GridEntries(newId, grid.ids, tyre.value);
        assert (s.entries + created)[..|s.entries|] == s.entries;
        Ok(State(
          s.races[newId := race],
          s.entries + created,
          s.laps,
          s.pits,
          s.events + [Event(newId, RaceCreated(venue, totalLaps.value, |grid.ids|), now)]))
  }

  // ---------------------------------------------------------------- updatePosition

  /**
   * updatePosition: any non-zero integer is accepted as the new position,
   * negative ones included. The race itself is not looked up.
   */
  function UpdatePosition(s: State, raceId: Id, racerId: Id, newPosition: Option<int>, now: Millis): (r: Result<State>)
    ensures raceId == "" || racerId == "" || !TruthyInt(newPosition) ==> r == Err(BadRequest)
    ensures (raceId != "" && racerId != "" && TruthyInt(newPosition) && !HasEntry(s, raceId, racerId))
              ==> r == Err(NotFound)
    ensures r.Ok? <==> raceId != "" && racerId != "" && TruthyInt(newPosition) && HasEntry(s, raceId, racerId)
    ensures r.Ok? ==>
              var s', i := r.value, FindEntry(s.entries, raceId, racerId).value;
              && |s'.entries| == |s.entries|
              && s'.entries[i].position == newPosition.value
              && s'.entries[i].race == s.entries[i].race && s'.entries[i].racer == s.entries[i].racer
              && s'.entries[i].tyre == s.entries[i].tyre && s'.entries[i].status == s.entries[i].status
              && (forall j :: 0 <= j < |s.entries| && j != i ==> s'.entries[j] == s.entries[j])
              && s'.races == s.races && s'.laps == s.laps && s'.pits == s.pits
              && s'.events == s.events + [Event(raceId, PositionChange(racerId, s.entries[i].position, newPosition.value), now)]
  {
    if raceId == "" || racerId == "" || !TruthyInt(newPosition) then Err(BadRequest)
    else
      match FindEntry(s.entries, raceId, racerId)
      case None => Err(NotFound)
      case Some(i) =>
        var e := s.entries[i];
        Ok(s.(entries := s.entries[i := e.(position := newPosition.value)],
              events := s.events + [Event(raceId, PositionChange(racerId, e.position, newPosition.value), now)]))
  }

  // ---------------------------------------------------------------- markLap

  /** The lap-time range check: more than 0, at most 300 seconds. */
  predicate ValidLapTime(t: real) {
    0.0 < t <= 300.0
  }

  /** markLap: records the lap and its event; no race or entry is looked up, no entry changes. */
  function MarkLap(s: State, raceId: Id, racerId: Id, lapTime: Option<real>, now: Millis): (r: Result<State>)
    ensures r.Err? ==> r.error == BadRequest
    ensures r.Ok? <==> raceId != "" && racerId != "" && lapTime.Some? && ValidLapTime(lapTime.value)
    ensures r.Ok? ==>
              var s' := r.value;
              && s'.laps == s.laps + [LapTime(raceId, racerId, lapTime.value, now)]
              && s'.events == s.events + [Event(raceId, LapCompleted(racerId, lapTime.value), now)]
              && s'.races == s.races && s'.entries == s.entries && s'.pits == s.pits
  {
    if raceId == "" || racerId == "" || !TruthyReal(lapTime) then Err(BadRequest)
    else if lapTime.value <= 0.0 || lapTime.value > 300.0 then Err(BadRequest)
    else
      var t := lapTime.value;
      Ok(s.(laps := s.laps + [LapTime(raceId, racerId, t, now)],
            events := s.events + [Event(raceId, LapCompleted(racerId, t), now)]))
  }

  // ---------------------------------------------------------------- markPitStop

  predicate ValidPitTime(t: real) {
    0.0 < t <= 60.0
  }

  /**
   * markPitStop: records the stop and its event, and sets the tyre of the
   * first matching entry when there is one; a missing entry is tolerated.
   */
  function MarkPitStop(s: State, raceId: Id, racerId: Id, tyreType: string, pitTime: Option<real>, now: Millis): (r: Result<State>)
    ensures r.Err? ==> r.error == BadRequest
    ensures r.Ok? <==> raceId != "" && racerId != "" && ParseTyre(tyreType).Some?
                       && pitTime.Some? && ValidPitTime(pitTime.value)
    ensures r.Ok? ==>
              var s', t := r.value, ParseTyre(tyreType).value;
              && s'.pits == s.pits + [PitStop(raceId, racerId, t, pitTime.value, now)]
              && s'.events == s.events + [Event(raceId, PitStopped(racerId, t, pitTime.value), now)]
              && s'.races == s.races && s'.laps == s.laps
              && |s'.entries| == |s.entries|
              && (!HasEntry(s, raceId, racerId) ==> s'.entries == s.entries)
              && (HasEntry(s, raceId, racerId) ==>
                    var i := FindEntry(s.entries, raceId, racerId).value;
                    && s'.entries[i] == s.entries[i].(tyre := t)
                    && forall j :: 0 <= j < |s.entries| && j != i ==> s'.entries[j] == s.entries[j])
  {
    if raceId == "" || racerId == "" || tyreType == "" || !TruthyReal(pitTime) then Err(BadRequest)
    else if ParseTyre(tyreType).None? then Err(BadRequest)
    else if pitTime.value <= 0.0 || pitTime.value > 60.0 then Err(BadRequest)
    else
      var t := ParseTyre(tyreType).value;
      var entries' := match FindEntry(s.entries, raceId, racerId)
        case None => s.entries
        case Some(i) => s.entries[i := s.entries[i].(tyre := t)];
      Ok(s.(pits := s.pits + [PitStop(raceId, racerId, t, pitTime.value, now)],
            entries := entries',
            events := s.events + [Event(raceId, PitStopped(racerId, t, pitTime.value), now)]))
  }

  // ---------------------------------------------------------------- markDNF

  /** markDNF: sets only the entry's status; an entry already out is accepted again and logged again. */
  function MarkDnf(s: State, raceId: Id, racerId: Id, now: Millis): (r: Result<State>)
    ensures raceId == "" || racerId == "" ==> r == Err(BadRequest)
    ensures raceId != "" && racerId != "" && !HasEntry(s, raceId, racerId) ==> r == Err(NotFound)
    ensures r.Ok? <==> raceId != "" && racerId != "" && HasEntry(s, raceId, racerId)
    ensures r.Ok? ==>
              var s', i := r.value, FindEntry(s.entries, raceId, racerId).value;
              && |s'.entries| == |s.entries|
              && s'.entries[i] == s.entries[i].(status := Dnf)
              && (forall j :: 0 <= j < |s.entries| && j != i ==> s'.entries[j] == s.entries[j])
              && s'.races == s.races && s'.laps == s.laps && s'.pits == s.pits
              && s'.events == s.events + [Event(raceId, DnfMarked(racerId), now)]
  {
    if raceId == "" || racerId == "" then Err(BadRequest)
    else
      match FindEntry(s.entries, raceId, racerId)
      case None => Err(NotFound)
      case Some(i) =>
        Ok(s.(entries := s.entries[i := s.entries[i].(status := Dnf)],
              events := s.events + [Event(raceId, DnfMarked(racerId), now)]))
  }

  // ---------------------------------------------------------------- finalizeRace

  /** finalizeRace: completes the race from whatever status it had; each call logs once more. */
  function FinalizeRace(s: State, raceId: Id, now: Millis): (r: Result<State>)
    ensures raceId == "" ==> r == Err(BadRequest)
    ensures raceId != "" && raceId !in s.races ==> r == Err(NotFound)
    ensures r.Ok? <==> raceId != "" && raceId in s.races
    ensures r.Ok? ==>
              var s' := r.value;
              && s'.races.Keys == s.races.Keys
              && s'.races[raceId] == s.races[raceId].(status := Completed)
              && (forall id :: id in s.races && id != raceId ==> s'.races[id] == s.races[id])
              && s'.entries == s.entries && s'.laps == s.laps && s'.pits == s.pits
              && s'.events == s.events + [Event(raceId, RaceCompletedData, now)]
  {
    if raceId == "" then Err(BadRequest)
    else if raceId !in s.races then Err(NotFound)
    else
      Ok(s.(races := s.races[raceId := s.races[raceId].(status := Completed)],
            events := s.events + [Event(raceId, RaceCompletedData, now)]))
  }

  // ---------------------------------------------------------------- reads

  predicate SortedByPosition(es: seq<RaceEntry>) {
    forall i, j :: 0 <= i < j < |es| ==> es[i].position <= es[j].position
  }

  lemma ConsSorted(h: RaceEntry, rest: seq<RaceEntry>)
    requires SortedByPosition(rest)
    requires rest == [] || h.position <= rest[0].position
    ensures SortedByPosition([h] + rest)
  {
    var r := [h] + rest;
    forall i, j | 0 <= i < j < |r| ensures r[i].position <= r[j].position {
      assert r[j] == rest[j - 1];
      if i > 0 { assert r[i] == rest[i - 1]; } else { assert rest[0].position <= rest[j - 1].position; }
    }
  }

  function InsertByPosition(e: RaceEntry, es: seq<RaceEntry>): (r: seq<RaceEntry>)
    requires SortedByPosition(es)
    ensures SortedByPosition(r)
    ensures multiset(r) == multiset(es) + multiset{e}
    ensures |r| > 0 && (r[0] == e || (|es| > 0 && r[0] == es[0]))
  {
    if |es| == 0 then [e]
    else if e.position < es[0].position then
      ConsSorted(e, es);
      [e] + es
    else
      assert es == [es[0]] + es[1..];
      var rest := InsertByPosition(e, es[1..]);
      ConsSorted(es[0], rest);
      [es[0]] + rest
  }

  function SortByPosition(es: seq<RaceEntry>): (r: seq<RaceEntry>)
    ensures SortedByPosition(r)
    ensures multiset(r) == multiset(es)
  {
    if |es| == 0 then []
    else
      assert es == [es[0]] + es[1..];
      InsertByPosition(es[0], SortByPosition(es[1..]))
  }

  /** getRaceEntries: every copy of the race's entries and nothing else, ordered by position ascending. */
  function GetRaceEntries(s: State, raceId: Id): (r: seq<RaceEntry>)
    ensures SortedByPosition(r)
    ensures forall e :: multiset(r)[e] == if e.race == raceId then multiset(s.entries)[e] else 0
    ensures forall e :: e in r <==> e in s.entries && e.race == raceId
  {
    var mine := Filter(s.entries, (e: RaceEntry) => e.race == raceId);
    FilterCounts(s.entries, (e: RaceEntry) => e.race == raceId);
    var r := SortByPosition(mine);
    assert forall e :: e in r <==> e in multiset(r);
    r
  }

  /** The filter test of the event history: the event is filed under the race. */
  function FiledUnder(raceId: Id): Event -> bool {
    (e: Event) => e.race == raceId
  }

  /** getEvents: every copy of the race's events and nothing else, in log order (EventsOfConcat). */
  function EventsOf(es: seq<Event>, raceId: Id): (r: seq<Event>)
    ensures forall e :: multiset(r)[e] == if e.race == raceId then multiset(es)[e] else 0
    ensures forall e :: e in r <==> e in es && e.race == raceId
    ensures |r| <= |es|
  {
    FilterCounts(es, FiledUnder(raceId));
    Filter(es, FiledUnder(raceId))
  }

  /** The history of a log made of two parts is the history of the first part followed by that of the second. */
  lemma EventsOfConcat(a: seq<Event>, b: seq<Event>, raceId: Id)
    ensures EventsOf(a + b, raceId) == EventsOf(a, raceId) + EventsOf(b, raceId)
  {
    FilterConcat(a, b, FiledUnder(raceId));
  }

  /** A one-event log contributes its event exactly to the history of its own race. */
  lemma EventsOfSingle(e: Event, raceId: Id)
    ensures EventsOf([e], raceId) == if e.race == raceId then [e] else []
  {
    assert [e][1..] == [];
  }

  /** Appending an event to the log extends its race's history by that event, and no other history. */
  lemma EventsOfAppend(es: seq<Event>, e: Event, raceId: Id)
    ensures EventsOf(es + [e], raceId) == EventsOf(es, raceId) + (if e.race == raceId then [e] else [])
  {
    EventsOfConcat(es, [e], raceId);
    EventsOfSingle(e, raceId);
  }
}
