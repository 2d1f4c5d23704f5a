/** The in-memory cache of the dashboard server (BetbotOhneLive/server.js): a map from key to value
    and expiry instant, read lazily, and the quarter-hour expiry of the fixture status entries.
    `Date.now()` and the wall clock are parameters. */
module DashboardCache {
  import opened Wrappers

  /** A cached value and the instant (milliseconds) after which it is stale. */
  datatype Entry<V> = Entry(v: V, e: int)

  /** What `getCache` answers for `k` at time `now` given the stored entries. */
  function Lookup<K, V>(entries: map<K, Entry<V>>, k: K, now: int): Option<V> {
    if k !in entries then None
    else if now > entries[k].e then None
    else Some(entries[k].v)
  }

  /** The `cache` Map with `setCache` and `getCache`. */
  class TtlCache<K(==), V> {
    var entries: map<K, Entry<V>>

    constructor()
      ensures entries == map[]
    {
      entries := map[];
    }

    /** `setCache(k, v, ttlMs)`: store `v` until `now + ttlMs`, replacing any earlier entry. */
    method SetCache(k: K, v: V, ttlMs: int, now: int)
      modifies this
      ensures entries == old(entries)[k := Entry(v, now + ttlMs)]
    {
      entries := entries[k := Entry(v, now + ttlMs)];
    }

    /** `getCache(k)`: None for a missing key; None for a stale entry, which is deleted; the stored
        value otherwise. Only the stale entry is removed. */
    method GetCache(k: K, now: int) returns (r: Option<V>)
      modifies this
      ensures r == Lookup(old(entries), k, now)
      ensures entries == if k in old(entries) && now > old(entries)[k].e then old(entries) - {k} else old(entries)
    {
      if k !in entries {
        return None;
      }
      var it := entries[k];
      if now > it.e {
        entries := entries - {k};
        return None;
      }
      r := Some(it.v);
    }
  }

  /** A value stored with a time-to-live is found until the expiry instant, inclusive, and not
      after it; other keys are answered as before. */
  lemma LookupAfterSet<K, V>(entries: map<K, Entry<V>>, k: K, v: V, ttlMs: int, setAt: int, now: int, other: K)
    requires other != k
    ensures Lookup(entries[k := Entry(v, setAt + ttlMs)], k, now) == if now <= setAt + ttlMs then Some(v) else None
    ensures Lookup(entries[k := Entry(v, setAt + ttlMs)], other, now) == Lookup(entries, other, now)
  {
  }

  /** Deleting a stale entry does not change any answer: a stale key answers None either way. */
  lemma StaleDeleteInvisible<K, V>(entries: map<K, Entry<V>>, k: K, now: int, later: int, other: K)
    requires k in entries && now > entries[k].e && later >= now
    ensures Lookup(entries - {k}, k, later) == Lookup(entries, k, later) == None
    ensures Lookup(entries - {k}, other, later) == Lookup(entries, other, later)
  {
  }

  // ---------------------------------------------------------------------------------------------
  // ttlToNextQuarter
  // ---------------------------------------------------------------------------------------------

  /** The quarter-hour marks `[0, 15, 30, 45]`. */
  const Quarters: seq<int> := [0, 15, 30, 45]

  /** `[0, 15, 30, 45].find(mm => mm > m)`. */
  function FindQuarter(qs: seq<int>, m: int): (r: Option<int>)
    ensures r.Some? ==> r.value in qs && r.value > m
    ensures r.None? <==> forall i :: 0 <= i < |qs| ==> qs[i] <= m
  {
    if qs == [] then None
    else if qs[0] > m then Some(qs[0])
    else
      var r := FindQuarter(qs[1..], m);
      assert forall i :: 1 <= i < |qs| ==> qs[i] == qs[1..][i - 1];
      r
  }

  /** The minute `ttlToNextQuarter` aims at: the first quarter mark strictly after `m`, where the
      next full hour counts as minute 60. */
  function NextMark(m: int): (r: int)
    requires 0 <= m < 60
    ensures r % 15 == 0 && m < r <= 60 && r - m <= 15
    ensures forall t :: m < t < r ==> t % 15 != 0
  {
    QuarterAfter(m);
    var q := FindQuarter(Quarters, m);
    if q.None? then 60 else q.value
  }

  /** The mark `find` picks for a minute of the hour. */
  lemma QuarterAfter(m: int)
    requires 0 <= m < 60
    ensures FindQuarter(Quarters, m) == if m < 15 then Some(15) else if m < 30 then Some(30) else if m < 45 then Some(45) else None
  {
    assert FindQuarter(Quarters, m) == FindQuarter([15, 30, 45], m) by { assert Quarters[1..] == [15, 30, 45]; }
    if m >= 15 {
      assert FindQuarter([15, 30, 45], m) == FindQuarter([30, 45], m) by { assert [15, 30, 45][1..] == [30, 45]; }
      if m >= 30 {
        assert FindQuarter([30, 45], m) == FindQuarter([45], m) by { assert [30, 45][1..] == [45]; }
        if m >= 45 {
          assert FindQuarter([45], m) == FindQuarter([], m) by { assert [45][1..] == []; }
        }
      }
    }
  }

  /** `ttlToNextQuarter` for a local clock reading `minute:second.millis`: the milliseconds from
      now until the target mark at second 0, which is positive and at most a quarter hour. */
  function TtlToNextQuarter(minute: int, second: int, millis: int): (ttl: int)
    requires 0 <= minute < 60 && 0 <= second < 60 && 0 <= millis < 1000
    ensures 0 < ttl <= 15 * 60000
    ensures minute * 60000 + second * 1000 + millis + ttl == NextMark(minute) * 60000
  {
    (NextMark(minute) - minute) * 60000 - second * 1000 - millis
  }
}
