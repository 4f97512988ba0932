/**
 * The gap calculator: each racer's cumulative lap time in a race, and how
 * far it trails the smallest cumulative time. Times are exact reals.
 */
module Gaps {
  import opened Common
  import opened RaceRecords

  /** `LapTime.find({ race })`: every copy of the race's laps and nothing else, in storage order. */
  function LapsOf(laps: seq<LapTime>, raceId: Id): (r: seq<LapTime>)
    ensures forall l :: multiset(r)[l] == if l.race == raceId then multiset(laps)[l] else 0
    ensures forall l :: l in r <==> l in laps && l.race == raceId
  {
    FilterCounts(laps, (l: LapTime) => l.race == raceId);
    Filter(laps, (l: LapTime) => l.race == raceId)
  }

  predicate Raced(laps: seq<LapTime>, racer: Id) {
    exists i :: 0 <= i < |laps| && laps[i].racer == racer
  }

  /** Reference definition: the sum of one racer's lap times. */
  function TotalFor(laps: seq<LapTime>, racer: Id): real
    decreases |laps|
  {
    if |laps| == 0 then 0.0
    else TotalFor(laps[..|laps| - 1], racer)
         + (if laps[|laps| - 1].racer == racer then laps[|laps| - 1].lapTime else 0.0)
  }

  /**
   * The `forEach` accumulation into `racerTimes`: a falsy running total
   * (absent or 0) is first set to 0, then the lap time is added.
   */
  function Accumulate(laps: seq<LapTime>): map<Id, real>
    decreases |laps|
  {
    if |laps| == 0 then map[]
    else
      var m := Accumulate(laps[..|laps| - 1]);
      var l := laps[|laps| - 1];
      var prev := if l.racer in m && m[l.racer] != 0.0 then m[l.racer] else 0.0;
      m[l.racer := prev + l.lapTime]
  }

  lemma {:induction false} NoLapsZeroTotal(laps: seq<LapTime>, racer: Id)
    requires !Raced(laps, racer)
    ensures TotalFor(laps, racer) == 0.0
    decreases |laps|
  {
    if |laps| > 0 {
      var p := laps[..|laps| - 1];
      assert forall i :: 0 <= i < |p| ==> p[i] == laps[i];
      NoLapsZeroTotal(p, racer);
    }
  }

  /** The accumulation has a key for exactly the racers with a lap, holding the sum of their lap times. */
  lemma {:induction false} AccumulateIsTotals(laps: seq<LapTime>)
    ensures forall r :: r in Accumulate(laps) <==> Raced(laps, r)
    ensures forall r :: r in Accumulate(laps) ==> Accumulate(laps)[r] == TotalFor(laps, r)
    decreases |laps|
  {
    if |laps| > 0 {
      var p := laps[..|laps| - 1];
      var l := laps[|laps| - 1];
      AccumulateIsTotals(p);
      forall r ensures Raced(laps, r) <==> Raced(p, r) || l.racer == r {
        if Raced(p, r) {
          var i :| 0 <= i < |p| && p[i].racer == r;
          assert laps[i] == p[i];
        }
        if Raced(laps, r) && l.racer != r {
          var i :| 0 <= i < |laps| && laps[i].racer == r;
          assert p[i] == laps[i];
        }
      }
      if l.racer !in Accumulate(p) {
        NoLapsZeroTotal(p, l.racer);
      }
    }
  }

  /** `Math.min(...Object.values(racerTimes))`: the smallest total among the first n laps' racers. */
  function MinTotal(laps: seq<LapTime>, totals: map<Id, real>, n: nat): (m: real)
    requires 0 < n <= |laps|
    requires forall i :: 0 <= i < |laps| ==> laps[i].racer in totals
    ensures exists i :: 0 <= i < n && m == totals[laps[i].racer]
    ensures forall i :: 0 <= i < n ==> m <= totals[laps[i].racer]
  {
    if n == 1 then totals[laps[0].racer]
    else
      var m := MinTotal(laps, totals, n - 1);
      var t := totals[laps[n - 1].racer];
      if t < m then t else m
  }

  /** The racers with at least one lap in the race. */
  function RacersOf(laps: seq<LapTime>, raceId: Id): set<Id> {
    set l | l in laps && l.race == raceId :: l.racer
  }

  /** The racers keyed in the accumulation over a race's laps are those with a lap in it. */
  lemma TotalsKeys(allLaps: seq<LapTime>, raceId: Id)
    ensures Accumulate(LapsOf(allLaps, raceId)).Keys == RacersOf(allLaps, raceId)
  {
    var laps := LapsOf(allLaps, raceId);
    AccumulateIsTotals(laps);
    forall r | r in RacersOf(allLaps, raceId) ensures Raced(laps, r) {
      var l :| l in allLaps && l.race == raceId && l.racer == r;
      assert l in laps;
      var i :| 0 <= i < |laps| && laps[i] == l;
    }
  }

  /**
   * calculateGaps(raceId): a key for exactly the racers with a lap in the
   * race, each mapped to its total minus the smallest total.
   */
  function CalculateGaps(allLaps: seq<LapTime>, raceId: Id): (g: map<Id, real>)
    ensures g.Keys == RacersOf(allLaps, raceId)
  {
    var laps := LapsOf(allLaps, raceId);
    var totals := Accumulate(laps);
    TotalsKeys(allLaps, raceId);
    AccumulateIsTotals(laps);
    if |laps| == 0 then map[]
    else
      Shift(totals, MinTotal(laps, totals, |laps|))
  }

  /** Each total minus the leader's. */
  function Shift(totals: map<Id, real>, leader: real): (g: map<Id, real>)
    ensures g.Keys == totals.Keys
    ensures forall r :: r in g ==> g[r] == totals[r] - leader
  {
    map r | r in totals :: totals[r] - leader
  }

  /**
   * Every gap is the racer's lap-time sum minus the sum of a leader whose
   * sum is the smallest; the leader is returned.
   */
  lemma GapIsTotalMinusLeader(allLaps: seq<LapTime>, raceId: Id) returns (lead: Id)
    ensures var g, laps := CalculateGaps(allLaps, raceId), LapsOf(allLaps, raceId);
            g != map[] ==>
              && lead in g
              && (forall r :: r in g ==> TotalFor(laps, lead) <= TotalFor(laps, r))
              && (forall r :: r in g ==> g[r] == TotalFor(laps, r) - TotalFor(laps, lead))
  {
    var laps := LapsOf(allLaps, raceId);
    var totals := Accumulate(laps);
    TotalsKeys(allLaps, raceId);
    AccumulateIsTotals(laps);
    lead := "";
    if |laps| > 0 {
      var leader := MinTotal(laps, totals, |laps|);
      var g := Shift(totals, leader);
      assert g == CalculateGaps(allLaps, raceId);
      var i :| 0 <= i < |laps| && leader == totals[laps[i].racer];
      lead := laps[i].racer;
      assert TotalFor(laps, lead) == leader;
      forall r | r in g ensures leader <= TotalFor(laps, r) {
        var j :| 0 <= j < |laps| && laps[j].racer == r;
        assert leader <= totals[laps[j].racer];
      }
    } else {
      assert CalculateGaps(allLaps, raceId) == map[];
    }
  }

  /** Gaps are never negative, the leader's is zero, and a smaller total never has a larger gap. */
  lemma GapsRankRacers(allLaps: seq<LapTime>, raceId: Id)
    ensures var g, laps := CalculateGaps(allLaps, raceId), LapsOf(allLaps, raceId);
            && (forall r :: r in g ==> g[r] >= 0.0)
            && (RacersOf(allLaps, raceId) != {} ==> exists r :: r in g && g[r] == 0.0)
            && (forall a, b :: a in g && b in g && TotalFor(laps, a) <= TotalFor(laps, b) ==> g[a] <= g[b])
  {
    var g, laps := CalculateGaps(allLaps, raceId), LapsOf(allLaps, raceId);
    var lead := GapIsTotalMinusLeader(allLaps, raceId);
    if g != map[] {
      assert g[lead] == 0.0;
    }
  }

  /** A race without laps has no gaps. */
  lemma NoLapsNoGaps(allLaps: seq<LapTime>, raceId: Id)
    requires forall l :: l in allLaps ==> l.race != raceId
    ensures CalculateGaps(allLaps, raceId) == map[]
  {
    assert RacersOf(allLaps, raceId) == {};
  }
}
