/** The scheduling and parsing rules of the live monitor (live_monitor.py): the active-hours window,
    when a fixture's statistics are due, the per-minute request budget, the 1X2 market test, the
    safe conversions and the all-zero team used when the API returns only one side. Clock readings
    are parameters. */
module LiveMonitor {
  import opened Wrappers
  import opened TextUtil
  import opened PyValues
  import Orchestrator

  // ---------------------------------------------------------------------------------------------
  // safe_i, safe_f
  // ---------------------------------------------------------------------------------------------

  /** `safe_i(x)`: `int(float(x))`, 0 where `float` raises. */
  function SafeI(floatOf: string -> Option<real>, x: PyValue): (r: int)
    ensures PyFloat(floatOf, x).None? ==> r == 0
    ensures PyFloat(floatOf, x).Some? && PyFloat(floatOf, x).value >= 0.0 ==> 0 <= r && r as real <= PyFloat(floatOf, x).value
    ensures PyFloat(floatOf, x).Some? && PyFloat(floatOf, x).value < 0.0 ==> r <= 0 && PyFloat(floatOf, x).value <= r as real
    ensures PyFloat(floatOf, x).Some? ==> -1.0 < PyFloat(floatOf, x).value - r as real < 1.0
  {
    var f := PyFloat(floatOf, x);
    if f.None? then 0 else Trunc(f.value)
  }

  /** `safe_f(x)`: `float(x)`, 0.0 where it raises. */
  function SafeF(floatOf: string -> Option<real>, x: PyValue): (r: real)
    ensures PyFloat(floatOf, x).None? ==> r == 0.0
    ensures PyFloat(floatOf, x).Some? ==> r == PyFloat(floatOf, x).value
  {
    var f := PyFloat(floatOf, x);
    if f.None? then 0.0 else f.value
  }

  /** The value `get_val` hands to `safe_i` / `safe_f`: its float, or None. */
  function OfReading(r: Option<real>): PyValue {
    if r.Some? then PFloat(r.value) else PNone
  }

  // ---------------------------------------------------------------------------------------------
  // Active hours
  // ---------------------------------------------------------------------------------------------

  /** ACTIVE_START_HOUR / ACTIVE_END_HOUR from the environment: an unset or empty variable gives
      None, and when either value is not an integer both are None. */
  function ActiveHours(startEnv: Option<string>, endEnv: Option<string>): (r: (Option<int>, Option<int>))
    ensures !ParsesOrUnset(startEnv) || !ParsesOrUnset(endEnv) ==> r == (None, None)
    ensures ParsesOrUnset(startEnv) && ParsesOrUnset(endEnv) ==>
      && (IsSet(startEnv) ==> r.0 == PyInt(startEnv.value))
      && (IsSet(endEnv) ==> r.1 == PyInt(endEnv.value))
    ensures !IsSet(startEnv) ==> r.0.None?
    ensures !IsSet(endEnv) ==> r.1.None?
  {
    if startEnv.Some? && startEnv.value != "" && PyInt(startEnv.value).None? then (None, None)
    else if endEnv.Some? && endEnv.value != "" && PyInt(endEnv.value).None? then (None, None)
    else (if startEnv.Some? && startEnv.value != "" then PyInt(startEnv.value) else None,
          if endEnv.Some? && endEnv.value != "" then PyInt(endEnv.value) else None)
  }

  /** An environment variable is set when it is present and not empty (Python's truthiness). */
  predicate IsSet(env: Option<string>) {
    env.Some? && env.value != ""
  }

  /** `int(v) if v else None` does not raise. */
  predicate ParsesOrUnset(env: Option<string>) {
    IsSet(env) ==> PyInt(env.value).Some?
  }

  /** `in_active_window` for the local hour `h`. */
  function InActiveWindow(start: Option<int>, end: Option<int>, h: int): (r: bool)
    ensures start.None? || end.None? ==> r
    ensures start.Some? && end.Some? && start.value <= end.value ==> (r <==> start.value <= h < end.value)
  {
    if start.None? || end.None? then true
    else if start.value <= end.value then start.value <= h < end.value
    else h >= start.value || h < end.value
  }

  /** A window that wraps past midnight is the complement of the hours from its end to its start:
      a monitor set to 22..6 runs outside 6..22. */
  lemma WrappedWindow(start: int, end: int, h: int)
    requires start > end
    ensures InActiveWindow(Some(start), Some(end), h) == !InActiveWindow(Some(end), Some(start), h)
  {
  }

  // ---------------------------------------------------------------------------------------------
  // stats_due
  // ---------------------------------------------------------------------------------------------

  const StatsMinMinute: int := 3
  const StatsMaxMinute: int := 100
  const StatsIntervalSec: real := 120.0

  /** `stats_due(fid, minute, now)` given the last fetch times: never for an unknown minute or one
      outside 3..100, otherwise once the interval has passed since the last fetch (time 0 when
      there was none). */
  function StatsDue<K>(lastFetch: map<K, real>, fid: K, minute: Option<int>, now: real): (due: bool)
    ensures minute.None? ==> !due
    ensures minute.Some? && (minute.value < StatsMinMinute || minute.value > StatsMaxMinute) ==> !due
    ensures minute.Some? && StatsMinMinute <= minute.value <= StatsMaxMinute && fid !in lastFetch ==>
              (due <==> now >= StatsIntervalSec)
    ensures minute.Some? && StatsMinMinute <= minute.value <= StatsMaxMinute && fid in lastFetch ==>
              (due <==> now >= lastFetch[fid] + StatsIntervalSec)
  {
    if minute.None? then false
    else if minute.value < StatsMinMinute || minute.value > StatsMaxMinute then false
    else
      var last := if fid in lastFetch then lastFetch[fid] else 0.0;
      now - last >= StatsIntervalSec
  }

  /** A fixture fetched at `t` is not due again before `t` plus the interval, and is due at any
      minute of 3..100 from then on. */
  lemma DueAfterFetch<K>(lastFetch: map<K, real>, fid: K, minute: int, t: real, now: real)
    requires StatsMinMinute <= minute <= StatsMaxMinute
    ensures StatsDue(lastFetch[fid := t], fid, Some(minute), now) <==> now >= t + StatsIntervalSec
  {
  }

  // ---------------------------------------------------------------------------------------------
  // MinuteBudget
  // ---------------------------------------------------------------------------------------------

  /** The limiter in front of every API request. Monotonic clock readings are passed in: `now` at
      the call, `afterGap` after sleeping out the minimum gap, `afterWait` after sleeping out the
      rest of a full minute. */
  class MinuteBudget {
    const perMinute: int
    const minGap: real
    var minuteStart: real
    var usedMinute: int
    var lastReq: real

    /** The requests of the current window never exceed the cap, which admits at least one. */
    predicate Valid()
      reads this
    {
      1 <= perMinute && 0 <= usedMinute <= perMinute
    }

    constructor(perMinute: int, minGap: real, now: real)
      requires perMinute >= 1
      ensures Valid()
      ensures this.perMinute == perMinute && this.minGap == minGap
      ensures minuteStart == now && usedMinute == 0 && lastReq == 0.0
    {
      this.perMinute := perMinute;
      this.minGap := minGap;
      minuteStart := now;
      usedMinute := 0;
      lastReq := 0.0;
    }

    /** `_reset_if_needed`: a new window once 60 seconds have passed. */
    method ResetIfNeeded(now: real)
      requires Valid()
      modifies this
      ensures Valid()
      ensures now - old(minuteStart) >= 60.0 ==> minuteStart == now && usedMinute == 0
      ensures now - old(minuteStart) < 60.0 ==> minuteStart == old(minuteStart) && usedMinute == old(usedMinute)
      ensures lastReq == old(lastReq)
    {
      if now - minuteStart >= 60.0 {
        minuteStart := now;
        usedMinute := 0;
      }
    }

    /** The window as `_reset_if_needed` leaves it at `now`. */
    function StartAt(now: real): real
      reads this
    {
      if now - minuteStart >= 60.0 then now else minuteStart
    }

    function UsedAt(now: real): int
      reads this
    {
      if now - minuteStart >= 60.0 then 0 else usedMinute
    }

    /** `acquire`: reset the window if due, keep the minimum gap, and when the cap is reached wait
        for the window to end and start a new one; then count the request. */
    method Acquire(now: real, afterGap: real, afterWait: real)
      requires Valid()
      requires now <= afterGap <= afterWait
      modifies this
      ensures Valid()
      ensures var capped := old(UsedAt(now)) >= perMinute;
        && usedMinute == (if capped then 0 else old(UsedAt(now))) + 1
        && (capped ==> minuteStart == lastReq)
        && (!capped ==> minuteStart == old(StartAt(now)))
      ensures var t1 := if minGap - (now - old(lastReq)) > 0.0 then afterGap else now;
        lastReq == if old(UsedAt(now)) >= perMinute && 60.0 - (t1 - old(StartAt(now))) > 0.0 then afterWait else t1
      ensures afterGap - old(lastReq) >= minGap ==> lastReq - old(lastReq) >= minGap
      ensures old(UsedAt(now)) >= perMinute && afterWait - old(StartAt(now)) >= 60.0 ==> minuteStart - old(StartAt(now)) >= 60.0
    {
      ResetIfNeeded(now);
      var clock := now;
      var gap := minGap - (clock - lastReq);
      if gap > 0.0 {
        clock := afterGap;
      }
      if usedMinute >= perMinute {
        var wait := 60.0 - (clock - minuteStart);
        if wait > 0.0 {
          clock := afterWait;
        }
        minuteStart := clock;
        usedMinute := 0;
      }
      usedMinute := usedMinute + 1;
      lastReq := clock;
    }

    /** `stats()`: the requests counted in the current window and the cap. */
    method Stats(now: real) returns (used: int, cap: int)
      requires Valid()
      modifies this
      ensures Valid() && used == usedMinute && cap == perMinute
      ensures used == old(UsedAt(now)) && used <= cap
      ensures minuteStart == old(StartAt(now)) && lastReq == old(lastReq)
    {
      ResetIfNeeded(now);
      used, cap := usedMinute, perMinute;
    }
  }

  // ---------------------------------------------------------------------------------------------
  // Markets, statistics, the zero team
  // ---------------------------------------------------------------------------------------------

  const MonitorMarketKeys: seq<string> := ["1x2", "match winner", "match result", "full time"]

  /** `_is_1x2_market(name)`. */
  function Is1x2Market(name: Option<string>): (r: bool)
    ensures r <==> exists i :: 0 <= i < |MonitorMarketKeys| && Contains(Lower(if name.Some? then name.value else ""), MonitorMarketKeys[i])
  {
    ContainsAny(Lower(if name.Some? then name.value else ""), MonitorMarketKeys)
  }

  /** Every market the monitor takes as 1X2 is one the orchestrator takes too. */
  lemma MonitorMarketIsOrchestratorMarket(m: Orchestrator.Market)
    requires Is1x2Market(m.name)
    ensures Orchestrator.NamedLike(m, Orchestrator.MarketKeys)
  {
    var n := Lower(if m.name.Some? then m.name.value else "");
    var i :| 0 <= i < |MonitorMarketKeys| && Contains(n, MonitorMarketKeys[i]);
    var j := if i == 0 then 0 else if i == 1 then 2 else if i == 2 then 1 else 3;
    assert Orchestrator.MarketKeys[j] == MonitorMarketKeys[i] by {
      if i == 0 {
        assert Orchestrator.MarketKeys[0] == "1x2" == MonitorMarketKeys[0];
      } else if i == 1 {
        assert Orchestrator.MarketKeys[2] == "match winner" == MonitorMarketKeys[1];
      } else if i == 2 {
        assert Orchestrator.MarketKeys[1] == "match result" == MonitorMarketKeys[2];
      } else {
        assert Orchestrator.MarketKeys[3] == "full time" == MonitorMarketKeys[3];
      }
    }
    assert Contains(n, Orchestrator.MarketKeys[j]);
  }

  /** The statistic types the snapshot reads. */
  const SnapshotTypes: seq<string> := ["Shots on Goal", "Total Shots", "Corner Kicks", "Ball Possession", "Goalkeeper Saves"]

  /** `_zero_team()["statistics"]`. */
  function ZeroTeam(): (stats: seq<StatEntry>)
    ensures |stats| == 5
    ensures forall i :: 0 <= i < 5 ==> stats[i] == StatEntry(PStr(SnapshotTypes[i]), PInt(0))
  {
    seq(5, i requires 0 <= i < 5 => StatEntry(PStr(SnapshotTypes[i]), PInt(0)))
  }

  /** Every statistic the snapshot reads from the zero team is 0. */
  lemma ZeroTeamReadsZero(floatOf: string -> Option<real>, k: nat)
    requires k < 5
    ensures GetStat(floatOf, ZeroTeam(), SnapshotTypes[k]) == Some(0.0)
    ensures SafeI(floatOf, OfReading(GetStat(floatOf, ZeroTeam(), SnapshotTypes[k]))) == 0
    ensures SafeF(floatOf, OfReading(GetStat(floatOf, ZeroTeam(), SnapshotTypes[k]))) == 0.0
  {
    var z := ZeroTeam();
    assert forall j :: 0 <= j < k ==> z[j].typ != PStr(SnapshotTypes[k]);
  }

  /** The two sides a statistics response gives the snapshot: the first two teams, or the one team
      and the zero team; None (an empty response, skipped) otherwise. */
  function SnapshotTeams(response: seq<seq<StatEntry>>): (r: Option<(seq<StatEntry>, seq<StatEntry>)>)
    ensures r.None? <==> response == []
    ensures |response| >= 2 ==> r == Some((response[0], response[1]))
    ensures |response| == 1 ==> r == Some((response[0], ZeroTeam()))
  {
    if |response| >= 2 then Some((response[0], response[1]))
    else if |response| == 1 then Some((response[0], ZeroTeam()))
    else None
  }
}
