/**
 * The race commands as one dispatcher, run in sequence against a state,
 * and the properties of the event log and race statuses that every
 * command keeps.
 */
module RaceLog {
  import opened Common
  import opened RaceRecords
  import opened RaceController

  /** One inbound administrative request with its body. */
  datatype Command =
    | CreateRaceCmd(venue: string, totalLaps: Option<int>, grid: GridInput, defaultTyreType: string, newId: Id)
    | UpdatePositionCmd(raceId: Id, racerId: Id, newPosition: Option<int>)
    | MarkLapCmd(raceId: Id, racerId: Id, lapTime: Option<real>)
    | MarkPitStopCmd(raceId: Id, racerId: Id, tyreType: string, pitTime: Option<real>)
    | MarkDnfCmd(raceId: Id, racerId: Id)
    | FinalizeRaceCmd(raceId: Id)

  /** The race a command's event is filed under. */
  function CmdRace(c: Command): Id {
    if c.CreateRaceCmd? then c.newId else c.raceId
  }

  /** The event tag each command logs. */
  function CmdEventType(c: Command): EventType {
    match c
    case CreateRaceCmd(_, _, _, _, _) => RaceCreatedType
    case UpdatePositionCmd(_, _, _) => PositionChangeType
    case MarkLapCmd(_, _, _) => LapCompletedType
    case MarkPitStopCmd(_, _, _, _) => PitStopType
    case MarkDnfCmd(_, _) => DnfType
    case FinalizeRaceCmd(_) => RaceCompletedType
  }

  /**
   * Dispatches a command to its handler. The id a createRace command
   * carries stands for the one the store generates; an id already in use
   * is answered as the store's duplicate-key failure.
   */
  function Apply(s: State, c: Command, now: Millis): Result<State> {
    match c
    case CreateRaceCmd(venue, laps, grid, tyre, newId) =>
      if newId in s.races then Err(ServerError)
      else CreateRace(s, venue, laps, grid, tyre, newId, now)
    case UpdatePositionCmd(raceId, racerId, p) => UpdatePosition(s, raceId, racerId, p, now)
    case MarkLapCmd(raceId, racerId, t) => MarkLap(s, raceId, racerId, t, now)
    case MarkPitStopCmd(raceId, racerId, tyre, t) => MarkPitStop(s, raceId, racerId, tyre, t, now)
    case MarkDnfCmd(raceId, racerId) => MarkDnf(s, raceId, racerId, now)
    case FinalizeRaceCmd(raceId) => FinalizeRace(s, raceId, now)
  }

  /** A successful command appends exactly one event, of its own tag, filed under its race, stamped now. */
  lemma ApplyAppendsOneEvent(s: State, c: Command, now: Millis)
    ensures Apply(s, c, now).Ok? ==>
              var s' := Apply(s, c, now).value;
              && |s'.events| == |s.events| + 1
              && s'.events[..|s.events|] == s.events
              && s'.events[|s.events|].race == CmdRace(c)
              && s'.events[|s.events|].Type() == CmdEventType(c)
              && s'.events[|s.events|].createdAt == now
  {
    var r := Apply(s, c, now);
    if r.Ok? {
      assert r.value.events[..|s.events|] == s.events;
    }
  }

  /** Laps and pit stops are append-only ledgers: no command rewrites a recorded fact. */
  lemma ApplyKeepsLedgers(s: State, c: Command, now: Millis)
    ensures Apply(s, c, now).Ok? ==>
              var s' := Apply(s, c, now).value;
              && |s.laps| <= |s'.laps| <= |s.laps| + 1 && s'.laps[..|s.laps|] == s.laps
              && |s.pits| <= |s'.pits| <= |s.pits| + 1 && s'.pits[..|s.pits|] == s.pits
              && (|s'.laps| == |s.laps| + 1 <==> c.MarkLapCmd?)
              && (|s'.pits| == |s.pits| + 1 <==> c.MarkPitStopCmd?)
  {
    var r := Apply(s, c, now);
    if r.Ok? {
      assert r.value.laps[..|s.laps|] == s.laps;
      assert r.value.pits[..|s.pits|] == s.pits;
    }
  }

  /**
   * Entries are never removed or reassigned: the race and racer of every
   * existing entry survive every command, and only createRace adds entries.
   */
  lemma ApplyKeepsEntryIdentity(s: State, c: Command, now: Millis)
    ensures Apply(s, c, now).Ok? ==>
              var s' := Apply(s, c, now).value;
              && |s.entries| <= |s'.entries|
              && (forall i :: 0 <= i < |s.entries| ==>
                    s'.entries[i].race == s.entries[i].race && s'.entries[i].racer == s.entries[i].racer)
              && (!c.CreateRaceCmd? ==> |s'.entries| == |s.entries|)
  {
    var r := Apply(s, c, now);
    if r.Ok? && c.CreateRaceCmd? {
      assert r.value.entries[..|s.entries|] == s.entries;
      forall i | 0 <= i < |s.entries| ensures r.value.entries[i] == s.entries[i] {
        assert r.value.entries[..|s.entries|][i] == r.value.entries[i];
      }
    }
  }

  predicate NoOngoing(s: State) {
    forall id :: id in s.races ==> s.races[id].status != Ongoing
  }

  /**
   * No handler starts a race: the start command is routed but has no
   * handler, so a state without ongoing races never acquires one.
   */
  lemma NothingStartsRace(s: State, c: Command, now: Millis)
    requires NoOngoing(s)
    ensures Apply(s, c, now).Ok? ==> NoOngoing(Apply(s, c, now).value)
  {
  }

  /**
   * How a race's status can move in one command: existing races keep their
   * status or become completed (from any status, completed included), and
   * new races start pending.
   */
  lemma StatusMoves(s: State, c: Command, now: Millis)
    ensures Apply(s, c, now).Ok? ==>
              var s' := Apply(s, c, now).value;
              && s.races.Keys <= s'.races.Keys
              && (forall id :: id in s.races ==>
                    s'.races[id].status == s.races[id].status || s'.races[id].status == Completed)
              && (forall id :: id in s'.races && id !in s.races ==> s'.races[id].status == Pending)
              && (c.FinalizeRaceCmd? ==> s'.races[c.raceId].status == Completed)
  {
  }

  /** Finalizing an already completed race is accepted and logs a second race_completed event. */
  lemma FinalizeTwiceAccepted(s: State, raceId: Id, t1: Millis, t2: Millis)
    requires raceId != "" && raceId in s.races
    ensures FinalizeRace(s, raceId, t1).Ok?
    ensures var s1 := FinalizeRace(s, raceId, t1).value;
            && FinalizeRace(s1, raceId, t2).Ok?
            && FinalizeRace(s1, raceId, t2).value.events
               == s.events + [Event(raceId, RaceCompletedData, t1), Event(raceId, RaceCompletedData, t2)]
  {
  }

  /** A successful command adds its event to the history of its own race and of no other. */
  lemma ApplyExtendsHistory(s: State, c: Command, now: Millis, raceId: Id)
    ensures Apply(s, c, now).Ok? ==>
              var es' := Apply(s, c, now).value.events;
              EventsOf(es', raceId)
              == EventsOf(s.events, raceId) + (if CmdRace(c) == raceId then [es'[|s.events|]] else [])
  {
    ApplyAppendsOneEvent(s, c, now);
    var r := Apply(s, c, now);
    if r.Ok? {
      var e := r.value.events[|s.events|];
      assert r.value.events == s.events + [e];
      EventsOfAppend(s.events, e, raceId);
    }
  }

  // ---------------------------------------------------------------- ordering

  predicate OrderedByTime(es: seq<Event>) {
    forall i, j :: 0 <= i < j < |es| ==> es[i].createdAt <= es[j].createdAt
  }

  predicate NotBefore(es: seq<Event>, now: Millis) {
    forall i :: 0 <= i < |es| ==> es[i].createdAt <= now
  }

  lemma AppendKeepsOrder(es: seq<Event>, e: Event)
    requires OrderedByTime(es) && NotBefore(es, e.createdAt)
    ensures OrderedByTime(es + [e])
  {
    var es' := es + [e];
    forall i, j | 0 <= i < j < |es'| ensures es'[i].createdAt <= es'[j].createdAt {
      assert es'[i] == es[i];
      if j < |es| { assert es'[j] == es[j]; }
    }
  }

  /** With a clock that does not run backwards, the log stays in creation-time order. */
  lemma ApplyKeepsOrder(s: State, c: Command, now: Millis)
    requires OrderedByTime(s.events) && NotBefore(s.events, now)
    ensures Apply(s, c, now).Ok? ==> OrderedByTime(Apply(s, c, now).value.events)
  {
    ApplyAppendsOneEvent(s, c, now);
    if Apply(s, c, now).Ok? {
      var es' := Apply(s, c, now).value.events;
      assert es' == s.events + [es'[|s.events|]];
      AppendKeepsOrder(s.events, es'[|s.events|]);
    }
  }

  lemma OrderedPrefix(es: seq<Event>, n: nat)
    requires OrderedByTime(es) && n <= |es|
    ensures OrderedByTime(es[..n])
  {
    var p := es[..n];
    forall i, j | 0 <= i < j < |p| ensures p[i].createdAt <= p[j].createdAt {
      assert p[i] == es[i] && p[j] == es[j];
    }
  }

  /** A race's history holds only events of the log, so it is no later than the log. */
  lemma HistoryNotAfter(es: seq<Event>, raceId: Id, t: Millis)
    requires NotBefore(es, t)
    ensures NotBefore(EventsOf(es, raceId), t)
  {
    var h := EventsOf(es, raceId);
    forall i | 0 <= i < |h| ensures h[i].createdAt <= t {
      assert h[i] in es;
    }
  }

  /**
   * The history read filters the log by race and sorts it by creation time;
   * on an ordered log the filter alone is already in that order.
   */
  lemma {:induction false} HistoryOrdered(es: seq<Event>, raceId: Id)
    requires OrderedByTime(es)
    ensures OrderedByTime(EventsOf(es, raceId))
    decreases |es|
  {
    if |es| > 0 {
      var prefix, e := es[..|es| - 1], es[|es| - 1];
      assert es == prefix + [e];
      OrderedPrefix(es, |es| - 1);
      HistoryOrdered(prefix, raceId);
      EventsOfAppend(prefix, e, raceId);
      if e.race == raceId {
        assert NotBefore(prefix, e.createdAt) by {
          forall i | 0 <= i < |prefix| ensures prefix[i].createdAt <= e.createdAt {
            assert prefix[i] == es[i];
          }
        }
        HistoryNotAfter(prefix, raceId, e.createdAt);
        AppendKeepsOrder(EventsOf(prefix, raceId), e);
      }
    }
  }

  // ---------------------------------------------------------------- runs

  /** A timed request: the command and the clock reading when it is handled. */
  datatype Request = Request(cmd: Command, at: Millis)

  /** Handles requests one after another; failed ones leave the state as it was. Also counts the successes. */
  function Run(s: State, reqs: seq<Request>): (State, nat)
    decreases |reqs|
  {
    if |reqs| == 0 then (s, 0)
    else
      match Apply(s, reqs[0].cmd, reqs[0].at)
      case Err(_) => Run(s, reqs[1..])
      case Ok(s1) =>
        var (t, n) := Run(s1, reqs[1..]);
        (t, n + 1)
  }

  /** After any run, the log holds the old log followed by exactly one event per successful command. */
  lemma {:induction false} RunLogsEachSuccess(s: State, reqs: seq<Request>)
    ensures var (t, n) := Run(s, reqs);
            |t.events| == |s.events| + n && t.events[..|s.events|] == s.events
    decreases |reqs|
  {
    if |reqs| > 0 {
      var r := Apply(s, reqs[0].cmd, reqs[0].at);
      ApplyAppendsOneEvent(s, reqs[0].cmd, reqs[0].at);
      if r.Ok? {
        RunLogsEachSuccess(r.value, reqs[1..]);
        var (t, n) := Run(r.value, reqs[1..]);
        assert t.events[..|s.events|] == t.events[..|r.value.events|][..|s.events|];
      } else {
        RunLogsEachSuccess(s, reqs[1..]);
      }
    }
  }

  predicate ClockMonotone(reqs: seq<Request>) {
    forall i, j :: 0 <= i < j < |reqs| ==> reqs[i].at <= reqs[j].at
  }

  /** A run whose clock does not go backwards keeps no ongoing race and an ordered log. */
  lemma {:induction false} RunKeepsInvariants(s: State, reqs: seq<Request>)
    requires NoOngoing(s) && OrderedByTime(s.events)
    requires ClockMonotone(reqs)
    requires |reqs| > 0 ==> NotBefore(s.events, reqs[0].at)
    ensures NoOngoing(Run(s, reqs).0) && OrderedByTime(Run(s, reqs).0.events)
    decreases |reqs|
  {
    if |reqs| > 0 {
      var c, now := reqs[0].cmd, reqs[0].at;
      var r := Apply(s, c, now);
      var rest := reqs[1..];
      assert ClockMonotone(rest) by {
        forall i, j | 0 <= i < j < |rest| ensures rest[i].at <= rest[j].at {
          assert rest[i] == reqs[i + 1] && rest[j] == reqs[j + 1];
        }
      }
      if r.Ok? {
        NothingStartsRace(s, c, now);
        ApplyKeepsOrder(s, c, now);
        ApplyAppendsOneEvent(s, c, now);
        var es' := r.value.events;
        if |rest| > 0 {
          assert now <= rest[0].at by { assert reqs[1] == rest[0]; }
          forall i | 0 <= i < |es'| ensures es'[i].createdAt <= rest[0].at {
            if i < |s.events| { assert es'[i] == es'[..|s.events|][i]; }
          }
        }
        RunKeepsInvariants(r.value, rest);
      } else {
        if |rest| > 0 {
          assert reqs[0].at <= rest[0].at by { assert reqs[1] == rest[0]; }
        }
        RunKeepsInvariants(s, rest);
      }
    }
  }
}
