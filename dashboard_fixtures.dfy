/** The fixture-list rules of the dashboard server (BetbotOhneLive/server.js): which leagues count
    as top leagues, the table ranks read from a prediction's standings, the live / upcoming / past
    buckets of the `/api/fixtures` handler and the order of the top picks. */
module DashboardFixtures {
  import opened Wrappers
  import opened TextUtil
  import opened DashboardPredictions

  // ---------------------------------------------------------------------------------------------
  // matchLeagueToRules
  // ---------------------------------------------------------------------------------------------

  /** One entry of TOP_RULES; absent fields are None. */
  datatype LeagueRule = LeagueRule(country: Option<string>, countryAnyOf: Option<seq<string>>,
                                   nameIncludes: seq<string>, notIncludes: Option<seq<string>>)

  function AnyOf(cs: seq<string>): LeagueRule { LeagueRule(None, Some(cs), [], None) }

  const TopRules: seq<LeagueRule> := [
    AnyOf(["world", "europe"]).(nameIncludes := ["uefa champions league"]),
    AnyOf(["world", "europe"]).(nameIncludes := ["uefa europa league"]),
    AnyOf(["world", "europe"]).(nameIncludes := ["uefa europa conference league"]),
    AnyOf(["world", "europe"]).(nameIncludes := ["euro championship", "uefa euro"]),
    AnyOf(["world", "europe"]).(nameIncludes := ["uefa nations league"]),
    AnyOf(["world", "south america"]).(nameIncludes := ["copa america"]),
    AnyOf(["world"]).(nameIncludes := ["world cup"]),
    LeagueRule(Some("england"), None, ["premier league"], None),
    LeagueRule(Some("spain"), None, ["la liga", "laliga"], None),
    LeagueRule(Some("italy"), None, ["serie a"], None),
    LeagueRule(Some("germany"), None, ["bundesliga"], Some(["2."])),
    LeagueRule(Some("germany"), None, ["2. bundesliga", "2 bundesliga", "2-bundesliga"], None),
    LeagueRule(Some("france"), None, ["ligue 1"], None),
    LeagueRule(Some("netherlands"), None, ["eredivisie"], None),
    LeagueRule(Some("portugal"), None, ["primeira liga", "liga portugal"], None),
    LeagueRule(Some("germany"), None, ["dfb-pokal", "dfb pokal"], None),
    LeagueRule(Some("england"), None, ["fa cup"], None),
    LeagueRule(Some("england"), None, ["efl cup", "league cup", "carabao cup"], None),
    LeagueRule(Some("spain"), None, ["copa del rey"], None),
    LeagueRule(Some("italy"), None, ["coppa italia"], None),
    LeagueRule(Some("france"), None, ["coupe de france"], None),
    LeagueRule(Some("portugal"), None, ["ta\U{E7}a de portugal", "taca de portugal", "taca portugal"], None),
    LeagueRule(Some("netherlands"), None, ["knvb beker"], None)
  ]

  /** `safe(s)`: `(s || "").toString().trim().toLowerCase()`. */
  function Safe(s: Option<string>): string {
    Lower(JsTrim(NameText(s)))
  }

  /** A rule accepts a league: a name hit, no excluded substring, and the country listed or equal
      to the rule's (non-empty) country. */
  predicate RuleAccepts(r: LeagueRule, name: string, country: string) {
    && ContainsAny(name, r.nameIncludes)
    && !(r.notIncludes.Some? && ContainsAny(name, r.notIncludes.value))
    && ((r.countryAnyOf.Some? && country in r.countryAnyOf.value)
        || (r.country.Some? && r.country.value != "" && r.country.value == country))
  }

  /** The loop of `matchLeagueToRules` over the remaining rules: a rule without a name hit or with
      an excluded substring is passed over, and the first rule whose country test holds answers true. */
  function RulesMatch(rules: seq<LeagueRule>, name: string, country: string): (b: bool)
    ensures b <==> exists i :: 0 <= i < |rules| && RuleAccepts(rules[i], name, country)
  {
    if rules == [] then false
    else
      var r := rules[0];
      var hit :=
        if !ContainsAny(name, r.nameIncludes) then false
        else if r.notIncludes.Some? && ContainsAny(name, r.notIncludes.value) then false
        else (r.countryAnyOf.Some? && country in r.countryAnyOf.value)
             || (r.country.Some? && r.country.value != "" && r.country.value == country);
      assert forall i :: 1 <= i < |rules| ==> rules[i] == rules[1..][i - 1];
      hit || RulesMatch(rules[1..], name, country)
  }

  /** `matchLeagueToRules(entry)` for the entry's league name and country name. */
  function MatchLeagueToRules(leagueName: Option<string>, countryName: Option<string>): (b: bool)
    ensures b <==> exists i :: 0 <= i < |TopRules| && RuleAccepts(TopRules[i], Safe(leagueName), Safe(countryName))
  {
    RulesMatch(TopRules, Safe(leagueName), Safe(countryName))
  }

  /** The Portugal cup, spelt with its cedilla, is a top league: every league whose trimmed,
      lower-cased name holds "taça de portugal" counts when its country reads "portugal". */
  lemma TacaDePortugalIsTop(league: Option<string>, country: Option<string>)
    requires Contains(Safe(league), "ta\U{E7}a de portugal") && Safe(country) == "portugal"
    ensures MatchLeagueToRules(league, country)
  {
    assert TopRules[21].nameIncludes[0] == "ta\U{E7}a de portugal";
    assert RuleAccepts(TopRules[21], Safe(league), Safe(country));
  }

  /** The Bundesliga rule passes over every name holding "2.", whatever the country: the second
      division is caught by the rule after it. */
  lemma BundesligaRuleSkipsSecondDivision(name: string, country: string)
    requires Contains(name, "2.")
    ensures !RuleAccepts(TopRules[10], name, country)
    ensures Contains(name, "2. bundesliga") && country == "germany" ==> RuleAccepts(TopRules[11], name, country)
  {
    assert TopRules[10].notIncludes.value[0] == "2.";
    assert TopRules[11].nameIncludes[0] == "2. bundesliga";
  }

  // ---------------------------------------------------------------------------------------------
  // extractRanks
  // ---------------------------------------------------------------------------------------------

  /** A standings row: the team's name and its rank (None for null or undefined). */
  datatype StandingRow = StandingRow(teamName: Option<string>, rank: Option<int>)

  /** `standings.flat()` of an array of groups. */
  function Flatten(groups: seq<seq<StandingRow>>): (rows: seq<StandingRow>)
    ensures |groups| > 0 ==> rows == groups[0] + Flatten(groups[1..])
  {
    if groups == [] then [] else groups[0] + Flatten(groups[1..])
  }

  /** How a standings row or a fixture side is keyed: `normalizeName` of the team name. The rank
      rules below take the key function as a parameter and are used with `NormalizeName`. */
  type NameKey = Option<string> -> string

  /** Row `i` assigns a rank to the side whose key is `side`. */
  predicate RanksSide(key: NameKey, rows: seq<StandingRow>, i: int, side: string)
    requires 0 <= i < |rows|
  {
    var n := key(rows[i].teamName);
    n != "" && n == side && rows[i].rank.Some?
  }

  /** The rank a side ends with after the loop over `rows`. */
  function FirstRank(key: NameKey, rows: seq<StandingRow>, side: string): Option<int> {
    if rows == [] then None
    else if RanksSide(key, rows, 0, side) then rows[0].rank
    else FirstRank(key, rows[1..], side)
  }

  /** A side gets a rank exactly when some row names it with a rank, and it is the rank of the
      first such row: later rows never overwrite it, and a row without a rank leaves it open. */
  lemma {:induction false} FirstRankIsFirst(key: NameKey, rows: seq<StandingRow>, side: string)
    ensures FirstRank(key, rows, side).Some? <==> exists i :: 0 <= i < |rows| && RanksSide(key, rows, i, side)
    ensures FirstRank(key, rows, side).Some? ==>
              exists i :: 0 <= i < |rows| && RanksSide(key, rows, i, side) && rows[i].rank == FirstRank(key, rows, side)
                          && forall j :: 0 <= j < i ==> !RanksSide(key, rows, j, side)
  {
    if rows != [] && !RanksSide(key, rows, 0, side) {
      FirstRankIsFirst(key, rows[1..], side);
      assert forall i :: 1 <= i < |rows| ==> (RanksSide(key, rows, i, side) <==> RanksSide(key, rows[1..], i - 1, side)) && rows[i] == rows[1..][i - 1];
      if FirstRank(key, rows, side).Some? {
        var k :| 0 <= k < |rows| - 1 && RanksSide(key, rows[1..], k, side) && rows[1..][k].rank == FirstRank(key, rows, side)
                 && forall j :: 0 <= j < k ==> !RanksSide(key, rows[1..], j, side);
        assert RanksSide(key, rows, k + 1, side);
      }
    } else if rows != [] {
      assert RanksSide(key, rows, 0, side);
    }
  }

  lemma {:induction false} FirstRankAppend(key: NameKey, a: seq<StandingRow>, b: seq<StandingRow>, side: string)
    ensures FirstRank(key, a + b, side) == if FirstRank(key, a, side).Some? then FirstRank(key, a, side) else FirstRank(key, b, side)
    decreases |a|
  {
    if a == [] {
      assert a + b == b;
    } else {
      assert (a + b)[0] == a[0] && (a + b)[1..] == a[1..] + b;
      assert RanksSide(key, a + b, 0, side) == RanksSide(key, a, 0, side);
      FirstRankAppend(key, a[1..], b, side);
    }
  }

  /** The loop of `extractRanks` over the flattened rows: skip rows with an empty key, take a rank
      for a side still without one, stop once both sides have one. */
  method ScanStandings(key: NameKey, flat: seq<StandingRow>, hn: string, an: string)
    returns (homeRank: Option<int>, awayRank: Option<int>)
    ensures homeRank == FirstRank(key, flat, hn) && awayRank == FirstRank(key, flat, an)
  {
    homeRank, awayRank := None, None;
    var i := 0;
    while i < |flat|
      invariant 0 <= i <= |flat|
      invariant homeRank == FirstRank(key, flat[..i], hn) && awayRank == FirstRank(key, flat[..i], an)
    {
      assert flat[..i + 1] == flat[..i] + [flat[i]];
      FirstRankAppend(key, flat[..i], [flat[i]], hn);
      FirstRankAppend(key, flat[..i], [flat[i]], an);
      var n := key(flat[i].teamName);
      if n == "" {
        i := i + 1;
        continue;
      }
      if homeRank.None? && n == hn {
        homeRank := flat[i].rank;
      }
      if awayRank.None? && n == an {
        awayRank := flat[i].rank;
      }
      i := i + 1;
      if homeRank.Some? && awayRank.Some? {
        break;
      }
    }
    assert flat == flat[..i] + flat[i..];
    FirstRankAppend(key, flat[..i], flat[i..], hn);
    FirstRankAppend(key, flat[..i], flat[i..], an);
  }

  /** `extractRanks`: None for both sides when the standings are not an array; otherwise each side's
      first rank in the flattened standings, keyed by `normalizeName`. */
  method ExtractRanks(standings: Option<seq<seq<StandingRow>>>, homeName: Option<string>, awayName: Option<string>)
    returns (homeRank: Option<int>, awayRank: Option<int>)
    ensures standings.None? ==> homeRank == None && awayRank == None
    ensures standings.Some? ==>
              homeRank == FirstRank(NormalizeName, Flatten(standings.value), NormalizeName(homeName))
              && awayRank == FirstRank(NormalizeName, Flatten(standings.value), NormalizeName(awayName))
  {
    if standings.None? {
      return None, None;
    }
    homeRank, awayRank := ScanStandings(NormalizeName, Flatten(standings.value), NormalizeName(homeName), NormalizeName(awayName));
  }

  // ---------------------------------------------------------------------------------------------
  // The buckets of /api/fixtures and the order of the picks
  // ---------------------------------------------------------------------------------------------

  /** What `computeTopPick` returned for an item (its rounding is not modelled): the total score and
      the prediction score. */
  datatype Pick = Pick(score: int, predictionScore: int)

  /** A fixture item with a valid prediction: status code (`""` when missing), kickoff timestamp in
      seconds (None when missing), whether its league is a top league, and its computed pick. */
  datatype Item = Item(short: string, timestamp: Option<int>, isTop: bool, pick: Option<Pick>)

  datatype Bucket = Live | Upcoming | Past

  const LiveCodes: set<string> := {"1H", "2H", "ET", "BT", "HT", "P", "LIVE"}
  const NsCode: string := "NS"
  const UseLiveForPicks: bool := false

  /** `it.fixture.fixture?.timestamp || 0`. */
  function Kickoff(it: Item): int {
    if it.timestamp.Some? then it.timestamp.value else 0
  }

  /** The bucket rule: live for a live code, else upcoming for NS or a kickoff not before `now`
      (seconds, `Date.now() / 1000`), else past. */
  function BucketOf(it: Item, now: real): (b: Bucket)
    ensures b == Live <==> it.short in LiveCodes
    ensures b == Past <==> it.short !in LiveCodes && it.short != NsCode
                           && (it.timestamp.Some? ==> it.timestamp.value as real < now)
                           && (it.timestamp.None? ==> 0.0 < now)
  {
    if it.short in LiveCodes then Live
    else if it.short == NsCode || Kickoff(it) as real >= now then Upcoming
    else Past
  }

  /** An item goes to the picks when its bucket allows picks and it has a pick. */
  predicate IsPick(it: Item, now: real) {
    var b := BucketOf(it, now);
    (b == Upcoming || (UseLiveForPicks && b == Live)) && it.pick.Some?
  }

  /** The items of `items`, in order, that `keep` accepts. */
  function Keep(items: seq<Item>, keep: Item -> bool): seq<Item> {
    if items == [] then [] else (if keep(items[0]) then [items[0]] else []) + Keep(items[1..], keep)
  }

  lemma {:induction false} KeepAppend(a: seq<Item>, b: seq<Item>, keep: Item -> bool)
    ensures Keep(a + b, keep) == Keep(a, keep) + Keep(b, keep)
    decreases |a|
  {
    if a == [] {
      assert a + b == b;
    } else {
      var head := if keep(a[0]) then [a[0]] else [];
      calc {
        Keep(a + b, keep);
      == { assert (a + b)[0] == a[0] && (a + b)[1..] == a[1..] + b; }
        head + Keep(a[1..] + b, keep);
      == { KeepAppend(a[1..], b, keep); }
        head + (Keep(a[1..], keep) + Keep(b, keep));
      ==
        Keep(a, keep) + Keep(b, keep);
      }
    }
  }

  lemma KeepSnoc(items: seq<Item>, it: Item, keep: Item -> bool)
    ensures Keep(items + [it], keep) == Keep(items, keep) + if keep(it) then [it] else []
  {
    KeepAppend(items, [it], keep);
    assert [it][1..] == [];
  }

  function InBucket(b: Bucket, now: real): Item -> bool {
    (x: Item) => BucketOf(x, now) == b
  }

  function InTopBucket(b: Bucket, now: real): Item -> bool {
    (x: Item) => x.isTop && BucketOf(x, now) == b
  }

  function InPicks(now: real): Item -> bool {
    (x: Item) => IsPick(x, now)
  }

  function OnTop(): Item -> bool {
    (x: Item) => x.isTop
  }

  function WithPick(): Item -> bool {
    (x: Item) => x.pick.Some?
  }

  /** The six section lists and the picks, before sorting. */
  datatype Sections = Sections(live: seq<Item>, upcoming: seq<Item>, past: seq<Item>,
                               liveTop: seq<Item>, upcomingTop: seq<Item>, pastTop: seq<Item>,
                               picks: seq<Item>)

  function SectionsOf(items: seq<Item>, now: real): Sections {
    Sections(Keep(items, InBucket(Live, now)), Keep(items, InBucket(Upcoming, now)), Keep(items, InBucket(Past, now)),
             Keep(items, InTopBucket(Live, now)), Keep(items, InTopBucket(Upcoming, now)), Keep(items, InTopBucket(Past, now)),
             Keep(items, InPicks(now)))
  }

  /** The lists one more item extends: each list it belongs to gains it at the end. */
  function Push(s: Sections, it: Item, now: real): Sections {
    var b := BucketOf(it, now);
    Sections(s.live + (if b == Live then [it] else []),
             s.upcoming + (if b == Upcoming then [it] else []),
             s.past + (if b == Past then [it] else []),
             s.liveTop + (if it.isTop && b == Live then [it] else []),
             s.upcomingTop + (if it.isTop && b == Upcoming then [it] else []),
             s.pastTop + (if it.isTop && b == Past then [it] else []),
             s.picks + (if IsPick(it, now) then [it] else []))
  }

  lemma SectionsSnoc(items: seq<Item>, it: Item, now: real)
    ensures SectionsOf(items + [it], now) == Push(SectionsOf(items, now), it, now)
  {
    KeepSnoc(items, it, InBucket(Live, now));
    KeepSnoc(items, it, InBucket(Upcoming, now));
    KeepSnoc(items, it, InBucket(Past, now));
    KeepSnoc(items, it, InTopBucket(Live, now));
    KeepSnoc(items, it, InTopBucket(Upcoming, now));
    KeepSnoc(items, it, InTopBucket(Past, now));
    KeepSnoc(items, it, InPicks(now));
  }

  /** The loop over the valid items that pushes each into its bucket, its top bucket and the picks.
      Every list keeps the order of `items`. */
  method SortIntoBuckets(items: seq<Item>, now: real) returns (s: Sections)
    ensures s == SectionsOf(items, now)
  {
    var live, upcoming, past, liveTop, upcomingTop, pastTop, picks := [], [], [], [], [], [], [];
    var i := 0;
    while i < |items|
      invariant 0 <= i <= |items|
      invariant Sections(live, upcoming, past, liveTop, upcomingTop, pastTop, picks) == SectionsOf(items[..i], now)
    {
      var it := items[i];
      assert items[..i + 1] == items[..i] + [it];
      SectionsSnoc(items[..i], it, now);
      var bucket := if it.short in LiveCodes then Live
                    else if it.short == NsCode || Kickoff(it) as real >= now then Upcoming
                    else Past;
      if bucket == Live { live := live + [it]; }
      if bucket == Upcoming { upcoming := upcoming + [it]; }
      if bucket == Past { past := past + [it]; }
      if it.isTop {
        if bucket == Live { liveTop := liveTop + [it]; }
        if bucket == Upcoming { upcomingTop := upcomingTop + [it]; }
        if bucket == Past { pastTop := pastTop + [it]; }
      }
      var allow := bucket == Upcoming || (UseLiveForPicks && bucket == Live);
      if allow && it.pick.Some? {
        picks := picks + [it];
      }
      i := i + 1;
    }
    assert items[..i] == items;
    s := Sections(live, upcoming, past, liveTop, upcomingTop, pastTop, picks);
  }

  /** Each item lands in exactly one of live, upcoming and past: the three lists together are a
      rearrangement of the items. */
  lemma {:induction false} BucketsPartition(items: seq<Item>, now: real)
    ensures var s := SectionsOf(items, now);
      multiset(s.live) + multiset(s.upcoming) + multiset(s.past) == multiset(items)
    decreases |items|
  {
    if items != [] {
      BucketsPartition(items[1..], now);
      assert items == [items[0]] + items[1..];
    }
  }

  /** Keeping by `q` what `p` kept is keeping by `r` when `r` is `p` and `q`. */
  lemma {:induction false} KeepKeep(items: seq<Item>, p: Item -> bool, q: Item -> bool, r: Item -> bool)
    requires forall x :: r(x) == (p(x) && q(x))
    ensures Keep(Keep(items, p), q) == Keep(items, r)
    decreases |items|
  {
    if items != [] {
      KeepKeep(items[1..], p, q, r);
      var head := if p(items[0]) then [items[0]] else [];
      KeepAppend(head, Keep(items[1..], p), q);
    }
  }

  /** The top lists are the top-league items of the matching bucket, and the picks are upcoming
      items with a pick (picks from live matches are switched off). */
  lemma TopAndPicksAreSubLists(items: seq<Item>, now: real)
    ensures var s := SectionsOf(items, now);
      && s.liveTop == Keep(s.live, OnTop())
      && s.upcomingTop == Keep(s.upcoming, OnTop())
      && s.pastTop == Keep(s.past, OnTop())
      && s.picks == Keep(s.upcoming, WithPick())
  {
    KeepKeep(items, InBucket(Live, now), OnTop(), InTopBucket(Live, now));
    KeepKeep(items, InBucket(Upcoming, now), OnTop(), InTopBucket(Upcoming, now));
    KeepKeep(items, InBucket(Past, now), OnTop(), InTopBucket(Past, now));
    KeepKeep(items, InBucket(Upcoming, now), WithPick(), InPicks(now));
  }

  /** The comparator of `picks.sort`: score descending, then prediction score descending, then
      kickoff ascending. A missing pick counts as score 0; a missing kickoff makes the difference
      NaN, which the sort reads as "equal". */
  function ComparePicks(a: Item, b: Item): (r: int)
    ensures a.pick == b.pick && (a.timestamp == b.timestamp || a.timestamp.None?) ==> r == 0
    ensures a.pick.Some? && b.pick.Some? && a.pick.value.score != b.pick.value.score ==>
              (r < 0 <==> a.pick.value.score > b.pick.value.score)
  {
    var sa := if a.pick.Some? then a.pick.value.score else 0;
    var sb := if b.pick.Some? then b.pick.value.score else 0;
    var pa := if a.pick.Some? then a.pick.value.predictionScore else 0;
    var pb := if b.pick.Some? then b.pick.value.predictionScore else 0;
    if sb != sa then sb - sa
    else if pb != pa then pb - pa
    else if a.timestamp.None? || b.timestamp.None? then 0
    else a.timestamp.value - b.timestamp.value
  }

  /** The key the picks are ordered by: larger scores first, then larger prediction scores, then
      earlier kickoffs. */
  predicate PickBefore(a: Pick, ta: int, b: Pick, tb: int) {
    || a.score > b.score
    || (a.score == b.score && a.predictionScore > b.predictionScore)
    || (a.score == b.score && a.predictionScore == b.predictionScore && ta < tb)
  }

  /** For two picks with kickoffs the comparator puts `a` first exactly when it comes first in the
      key order, and it is antisymmetric. */
  lemma ComparePicksOrder(a: Item, b: Item)
    requires a.pick.Some? && b.pick.Some? && a.timestamp.Some? && b.timestamp.Some?
    ensures ComparePicks(a, b) < 0 <==> PickBefore(a.pick.value, a.timestamp.value, b.pick.value, b.timestamp.value)
    ensures ComparePicks(a, b) > 0 <==> PickBefore(b.pick.value, b.timestamp.value, a.pick.value, a.timestamp.value)
    ensures ComparePicks(a, b) == -ComparePicks(b, a)
  {
  }

  /** The key order is a strict order, so the comparator is consistent. */
  lemma PickBeforeTransitive(a: Pick, ta: int, b: Pick, tb: int, c: Pick, tc: int)
    requires PickBefore(a, ta, b, tb) && PickBefore(b, tb, c, tc)
    ensures PickBefore(a, ta, c, tc) && !PickBefore(c, tc, a, ta)
  {
  }
}
