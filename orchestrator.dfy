/** The decision rules of the BetBot orchestrator (betbot.py): which status codes count as live, which
    odds market is the 1X2 market, when the fallback worker of a fixture is told to stop, how the
    live flags follow a fixtures refresh and how often a fixture's statistics are requested. The
    monotonic clock is a parameter. */
module Orchestrator {
  import opened Wrappers
  import opened TextUtil
  import opened PyValues
  import opened AiScorePool
  import DashboardFixtures

  // ---------------------------------------------------------------------------------------------
  // is_live_short
  // ---------------------------------------------------------------------------------------------

  /** The short status codes of a match that is over or will not be played. */
  const EndedCodes: set<string> := {"FT", "AET", "PEN", "PST", "CANC", "ABD", "AWD", "WO"}

  /** `is_live_short(s)`: a missing or empty code counts as live, as does every code that is not an
      end code. */
  function IsLiveShort(s: Option<string>): (live: bool)
    ensures !live <==> s.Some? && s.value in EndedCodes
  {
    if s.None? || s.value == "" then true
    else s.value !in EndedCodes
  }

  /** The codes the dashboard shows as live are live here too, and so is "NS" (not started): only
      the end codes count as not live. */
  lemma DashboardLiveCodesAreLive(c: string)
    requires c in DashboardFixtures.LiveCodes || c == DashboardFixtures.NsCode
    ensures IsLiveShort(Some(c))
  {
  }

  // ---------------------------------------------------------------------------------------------
  // _pick_1x2_market
  // ---------------------------------------------------------------------------------------------

  /** An odds market: its name (None when missing or null) and an identifier standing for the rest
      of the record. */
  datatype Market = Market(name: Option<string>, id: int)

  const MarketKeys: seq<string> := ["1x2", "match result", "match winner", "full time", "winner",
                                    "regular time", "win-draw-win", "resultado final", "ergebnis (3-weg)"]

  /** `(o.get("name") or "").lower()` contains one of `keys`. */
  predicate NamedLike(m: Market, keys: seq<string>) {
    ContainsAny(Lower(if m.name.Some? then m.name.value else ""), keys)
  }

  /** The test `_pick_1x2_market` applies to one market. */
  function NamedLikeAny(keys: seq<string>): Market -> bool {
    (m: Market) => NamedLike(m, keys)
  }

  /** The first market whose name matches one of `keys`; None when no market does. */
  function FirstMarket(odds: seq<Market>, keys: seq<string>): (r: Option<Market>)
    ensures r.None? <==> forall i :: 0 <= i < |odds| ==> !NamedLike(odds[i], keys)
    ensures r.Some? ==> exists i :: 0 <= i < |odds| && odds[i] == r.value && NamedLike(odds[i], keys)
                                    && forall j :: 0 <= j < i ==> !NamedLike(odds[j], keys)
  {
    var k := FirstWhere(odds, NamedLikeAny(keys), 0);
    if k == |odds| then None else Some(odds[k])
  }

  /** `_pick_1x2_market(odds_list)`. */
  function Pick1x2Market(odds: seq<Market>): (r: Option<Market>)
    ensures r.Some? ==> r.value in odds && NamedLike(r.value, MarketKeys)
    ensures r.None? <==> forall i :: 0 <= i < |odds| ==> !NamedLike(odds[i], MarketKeys)
  {
    FirstMarket(odds, MarketKeys)
  }

  // ---------------------------------------------------------------------------------------------
  // The orchestrator state
  // ---------------------------------------------------------------------------------------------

  /** Seconds between two statistics requests for one fixture (STATS_INTERVAL_SEC's default). */
  const StatsIntervalSec: real := 60.0

  /** The dictionaries `run` keeps per fixture id. */
  class Orchestrator<K(==)> {
    var apiHasStats: map<K, bool>
    var stillLive: map<K, bool>
    var lastStatsReq: map<K, real>

    constructor()
      ensures apiHasStats == map[] && stillLive == map[] && lastStatsReq == map[]
    {
      apiHasStats, stillLive, lastStatsReq := map[], map[], map[];
    }

    /** `_should_stop(task)`: no id never stops; API statistics stop the worker; so does a fixture
        no longer live (an unknown fixture counts as live). */
    function ShouldStop(fid: Option<K>): (stop: bool)
      reads this
      ensures fid.None? ==> !stop
      ensures fid.Some? ==> (stop <==> (fid.value in apiHasStats && apiHasStats[fid.value])
                                       || (fid.value in stillLive && !stillLive[fid.value]))
    {
      if fid.None? then false
      else if fid.value in apiHasStats && apiHasStats[fid.value] then true
      else
        var live := if fid.value in stillLive then stillLive[fid.value] else true;
        !live
    }

    /** The flag update after a fixtures refresh: every tracked fixture missing from the active set
        is no longer live, and every active fixture is live as its status code says. `active` maps
        the active ids to their status codes. */
    method RefreshStillLive(active: map<K, Option<string>>)
      modifies this
      ensures stillLive.Keys == old(stillLive).Keys + active.Keys
      ensures forall k :: k in active ==> stillLive[k] == IsLiveShort(active[k])
      ensures forall k :: k in old(stillLive) && k !in active ==> !stillLive[k]
      ensures apiHasStats == old(apiHasStats) && lastStatsReq == old(lastStatsReq)
    {
      var tracked := stillLive.Keys;
      var pending := tracked;
      while pending != {}
        invariant pending <= tracked && stillLive.Keys == tracked
        invariant forall k :: k in tracked - pending && k !in active ==> !stillLive[k]
        invariant apiHasStats == old(apiHasStats) && lastStatsReq == old(lastStatsReq) && tracked == old(stillLive).Keys
        decreases pending
      {
        var fid :| fid in pending;
        if fid !in active {
          stillLive := stillLive[fid := false];
        }
        pending := pending - {fid};
      }
      var todo := active.Keys;
      while todo != {}
        invariant todo <= active.Keys
        invariant stillLive.Keys == tracked + (active.Keys - todo)
        invariant forall k :: k in active.Keys - todo ==> stillLive[k] == IsLiveShort(active[k])
        invariant forall k :: k in tracked && k !in active ==> !stillLive[k]
        invariant apiHasStats == old(apiHasStats) && lastStatsReq == old(lastStatsReq) && tracked == old(stillLive).Keys
        decreases todo
      {
        var fid :| fid in todo;
        stillLive := stillLive[fid := IsLiveShort(active[fid])];
        todo := todo - {fid};
      }
    }

    /** The statistics step for one fixture at monotonic time `mono`: skipped when the last request
        is less than the interval ago (never requested counts as time 0); otherwise the request time
        is recorded before the request. */
    method StatsDue(fid: K, mono: real) returns (request: bool)
      modifies this
      ensures var last := if fid in old(lastStatsReq) then old(lastStatsReq)[fid] else 0.0;
        request <==> mono - last >= StatsIntervalSec
      ensures request ==> lastStatsReq == old(lastStatsReq)[fid := mono]
      ensures !request ==> lastStatsReq == old(lastStatsReq)
      ensures apiHasStats == old(apiHasStats) && stillLive == old(stillLive)
    {
      var last := if fid in lastStatsReq then lastStatsReq[fid] else 0.0;
      if mono - last < StatsIntervalSec {
        return false;
      }
      lastStatsReq := lastStatsReq[fid := mono];
      request := true;
    }

    /** `last_stats_req.get(fid, 0.0)`. */
    function LastRequest(fid: K): real
      reads this
    {
      if fid in lastStatsReq then lastStatsReq[fid] else 0.0
    }

    /** The statistics step of one fixture on successive passes of the main loop, at the monotonic
        times `times`: the requests made are exactly the granted times, so GrantedSpaced applies to
        them. */
    method StatsRun(fid: K, times: seq<real>) returns (requested: seq<real>)
      modifies this
      ensures requested == Granted(old(LastRequest(fid)), times)
      ensures |times| > 0 ==> LastRequest(fid) == (if requested == [] then old(LastRequest(fid)) else requested[|requested| - 1])
      ensures apiHasStats == old(apiHasStats) && stillLive == old(stillLive)
    {
      requested := [];
      var i := 0;
      while i < |times|
        invariant 0 <= i <= |times|
        invariant requested + Granted(LastRequest(fid), times[i..]) == Granted(old(LastRequest(fid)), times)
        invariant requested == [] ==> LastRequest(fid) == old(LastRequest(fid))
        invariant requested != [] ==> LastRequest(fid) == requested[|requested| - 1]
        invariant apiHasStats == old(apiHasStats) && stillLive == old(stillLive)
      {
        ghost var last := LastRequest(fid);
        assert times[i..][1..] == times[i + 1..];
        var due := StatsDue(fid, times[i]);
        if due {
          assert Granted(last, times[i..]) == [times[i]] + Granted(times[i], times[i + 1..]);
          requested := requested + [times[i]];
        }
        i := i + 1;
      }
    }

    /** The answer to a statistics request with `teams` team blocks: two or more mean the API has
        statistics; fewer mean it has none, and the fallback worker is submitted unless it runs. */
    method HandleStats(fid: K, teams: nat, pool: WorkerPool<K>) returns (started: Option<nat>)
      requires pool.Valid()
      modifies this, pool
      ensures apiHasStats == old(apiHasStats)[fid := teams >= 2]
      ensures stillLive == old(stillLive) && lastStatsReq == old(lastStatsReq)
      ensures pool.Valid()
      ensures teams >= 2 ==> started == None && pool.running == old(pool.running) && pool.created == old(pool.created)
      ensures teams < 2 ==> pool.IsRunning(fid)
      ensures teams < 2 && old(pool.IsRunning(fid)) ==>
        started == None && pool.running == old(pool.running) && pool.created == old(pool.created)
      ensures teams < 2 && !old(pool.IsRunning(fid)) ==>
        && started == Some(|old(pool.created)|)
        && pool.running == old(pool.running)[fid := |old(pool.created)|]
        && pool.created == old(pool.created) + [fid]
      ensures pool.done == old(pool.done)
    {
      if teams >= 2 {
        apiHasStats := apiHasStats[fid := true];
        return None;
      }
      apiHasStats := apiHasStats[fid := false];
      started := None;
      if !pool.IsRunning(fid) {
        started := pool.Submit(fid);
      }
    }
  }

  /** After a refresh, a fixture that dropped out of the active set stops its worker, and an active
      fixture stops it exactly when its status code is an end code or the API has statistics. */
  lemma RefreshStops<K>(apiHasStats: map<K, bool>, stillLive: map<K, bool>, active: map<K, Option<string>>, fid: K)
    requires forall k :: k in active ==> k in stillLive && stillLive[k] == IsLiveShort(active[k])
    ensures fid in active ==>
      ((fid in apiHasStats && apiHasStats[fid]) || (fid in stillLive && !stillLive[fid])
       <==> (fid in apiHasStats && apiHasStats[fid]) || (active[fid].Some? && active[fid].value in EndedCodes))
  {
  }

  /** Granted requests for one fixture at times `times` (non-decreasing), starting from the last
      request time `last`. */
  function Granted(last: real, times: seq<real>): seq<real>
    decreases |times|
  {
    if times == [] then []
    else if times[0] - last < StatsIntervalSec then Granted(last, times[1..])
    else [times[0]] + Granted(times[0], times[1..])
  }

  /** Statistics of one fixture are requested at most once per interval: granted times are at
      least the interval apart, and the first at least the interval after the previous request. */
  lemma {:induction false} GrantedSpaced(last: real, times: seq<real>)
    ensures var g := Granted(last, times);
      (|g| > 0 ==> g[0] - last >= StatsIntervalSec)
      && forall i :: 0 <= i < |g| - 1 ==> g[i + 1] - g[i] >= StatsIntervalSec
    decreases |times|
  {
    if times != [] {
      if times[0] - last < StatsIntervalSec {
        GrantedSpaced(last, times[1..]);
      } else {
        GrantedSpaced(times[0], times[1..]);
        var g := [times[0]] + Granted(times[0], times[1..]);
        assert forall i :: 1 <= i < |g| ==> g[i] == Granted(times[0], times[1..])[i - 1];
      }
    }
  }
}
