/**
 * The persisted records of race day: races, race entries, lap times, pit
 * stops and events, with their enumerations and schema defaults.
 * Identifiers are opaque strings; timestamps are milliseconds.
 */
module RaceRecords {
  import opened Common

  /** Clock readings, in milliseconds. */
  type Millis = int

  /** Race lifecycle status (`status` enum of the Race schema). */
  datatype RaceStatus = Pending | Ongoing | Completed

  /** Tyre compounds (`tyreType` enum of RaceEntry and PitStop). */
  datatype Tyre = Soft | Medium | Hard

  /** Run status of one entry (`status` enum of RaceEntry). */
  datatype EntryStatus = Active | Dnf

  function TyreName(t: Tyre): string {
    match t
    case Soft => "soft"
    case Medium => "medium"
    case Hard => "hard"
  }

  /** Reads a tyre name as the schema enum does: exactly one of the three spellings. */
  function ParseTyre(s: string): (r: Option<Tyre>)
    ensures r.Some? <==> s in {"soft", "medium", "hard"}
  {
    if s == "soft" then Some(Soft)
    else if s == "medium" then Some(Medium)
    else if s == "hard" then Some(Hard)
    else None
  }

  lemma ParseTyreName(t: Tyre)
    ensures ParseTyre(TyreName(t)) == Some(t)
  {
  }

  /** Every accepted tyre string is the stored name of the compound it parses to. */
  lemma TyreNameParse(s: string)
    ensures ParseTyre(s).Some? ==> TyreName(ParseTyre(s).value) == s
  {
  }

  datatype Race = Race(venue: string, totalLaps: int, status: RaceStatus, createdAt: Millis)

  /** The schema default of Race.status. */
  const DefaultRaceStatus := Pending

  /**
   * `new Race({...})`: the status falls back to the schema default when not
   * given, and the creation time is the clock reading at construction.
   */
  function NewRace(venue: string, totalLaps: int, status: Option<RaceStatus>, now: Millis): (r: Race)
    ensures r.venue == venue && r.totalLaps == totalLaps && r.createdAt == now
    ensures status.None? ==> r.status == Pending
    ensures status.Some? ==> r.status == status.value
  {
    Race(venue, totalLaps, if status.Some? then status.value else DefaultRaceStatus, now)
  }

  /** One racer's participation in one race. Positions carry no range constraint. */
  datatype RaceEntry = RaceEntry(race: Id, racer: Id, position: int, tyre: Tyre, status: EntryStatus)

  const DefaultEntryStatus := Active

  function NewEntry(race: Id, racer: Id, position: int, tyre: Tyre, status: Option<EntryStatus>): (e: RaceEntry)
    ensures e.race == race && e.racer == racer && e.position == position && e.tyre == tyre
    ensures status.None? ==> e.status == Active
    ensures status.Some? ==> e.status == status.value
  {
    RaceEntry(race, racer, position, tyre, if status.Some? then status.value else DefaultEntryStatus)
  }

  datatype LapTime = LapTime(race: Id, racer: Id, lapTime: real, createdAt: Millis)

  datatype PitStop = PitStop(race: Id, racer: Id, tyre: Tyre, pitTime: real, createdAt: Millis)

  /**
   * The seven event tags of the Event schema, stored as "position_change",
   * "lap_completed", "pit_stop", "dnf", "race_completed", "race_created"
   * and "race_started".
   */
  datatype EventType =
    | PositionChangeType | LapCompletedType | PitStopType | DnfType
    | RaceCompletedType | RaceCreatedType | RaceStartedType

  /**
   * The payload of an event, one variant per tag. `race_started` has no
   * producer in the handlers; its payload is left empty.
   */
  datatype EventData =
    | RaceCreated(venue: string, totalLaps: int, racerCount: nat)
    | RaceStarted
    | PositionChange(racerId: Id, oldPosition: int, newPosition: int)
    | LapCompleted(racerId: Id, lapTime: real)
    | PitStopped(racerId: Id, tyre: Tyre, pitTime: real)
    | DnfMarked(racerId: Id)
    | RaceCompletedData

  function TypeOf(d: EventData): EventType {
    match d
    case RaceCreated(_, _, _) => RaceCreatedType
    case RaceStarted => RaceStartedType
    case PositionChange(_, _, _) => PositionChangeType
    case LapCompleted(_, _) => LapCompletedType
    case PitStopped(_, _, _) => PitStopType
    case DnfMarked(_) => DnfType
    case RaceCompletedData => RaceCompletedType
  }

  /** An event references exactly one race; its type is the tag of its payload. */
  datatype Event = Event(race: Id, data: EventData, createdAt: Millis)
  {
    function Type(): EventType { TypeOf(data) }
  }
}
