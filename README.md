# BetBro team-name resolution and live-statistics rules, in Dafny

BetBro collects live football statistics. When the statistics API has nothing for a fixture,
a fallback worker opens the AiScore live page in a browser and looks for the fixture's card:

- it canonicalises team names (lower-casing, accent folding, an alias table, stop-words);
- it scores every card on screen with a fuzzy similarity;
- it opens the first card whose home/away pair scores high enough, or else the best single-team
  candidate;
- it then streams statistics snapshots until the match ends or the orchestrator says stop.

Around this engine the project has several smaller rule sets, all modelled here:

- the orchestrator `betbot.py`: which fixtures are live, when a worker must stop, when
  statistics are requested;
- the API statistics normaliser, which turns a response into fixed-shape rows;
- `live_monitor.py`: the active-hour window, the statistics schedule and the per-minute request
  budget;
- the dashboard server `server.js`: a TTL cache, the quarter-hour TTL, prediction validity and
  outcome, league rules, table ranks, the live/upcoming/past buckets and the order of the top
  picks.

Modules follow the source files:

| module | file |
|---|---|
| `AiScoreMatcher` | the pure matcher of `Betbot/aiscore_worker.py` (identical in `Betbot/aiscore_test_scrape.py`) |
| `AiScoreScan` | card extraction, the `scan_once` policy and the scrolling loop, for both copies, through a `ScanConfig` |
| `AiScorePool` | the worker pool, the streaming loop and `_run_task` |
| `AiScoreStatus` | the minute and ended rules of the in-page script, in both orders |
| `AiScoreTestScrape` | the retry-once search of the test scraper |
| `DashboardCache`, `DashboardPredictions`, `DashboardFixtures` | `BetbotOhneLive/server.js` |
| `StatisticsNormalizer` | `Betbot/normalizers_statistics.py` |
| `Orchestrator` | `Betbot/betbot.py` |
| `LiveMonitor` | `Betbot/live_monitor.py` |
| `TextUtil`, `PyValues`, `Wrappers` | shared string helpers, Python `int()`/JSON values, `Option` |

Some things are parameters of the model rather than definitions:

- the character-sequence similarity (`SequenceMatcher.ratio`) is a function parameter `ratio`;
- Python's `float(str)` is a parameter `floatOf`;
- clock readings are explicit arguments;
- the cards on screen at each polling round and the snapshots of the streaming loop are input
  sequences.

Stateful parts are classes whose methods carry `modifies` clauses:

- `AiScoreScan.Scanner` holds the idle counters of `scan_once`;
- `AiScorePool.WorkerPool` holds the `_running` map;
- `DashboardCache.TtlCache` holds the cache `Map`;
- `Orchestrator.Orchestrator` holds `api_has_stats`, `still_live` and `last_stats_req`;
- `LiveMonitor.MinuteBudget` holds the rate counter.

Most loops of the source are methods, each proved equal to a specification function. The
search loops of `_pick_1x2_market` and `get_stat` are modelled directly as the recursive
functions `Wrappers.FirstWhere` and `PyValues.GetStat`. The properties are lemmas about those
functions. `get_val` in live_monitor.py is the same loop as `get_stat`, including its final
`return None`, so `PyValues.GetStat` models both.

## Model

| member | source | states |
|---|---|---|
| `Wrappers.FirstWhere` | Betbot/betbot.py:72-76 | the index of the first element satisfying a predicate; every earlier element fails it |
| `TextUtil.Lower` | Betbot/aiscore_worker.py:62 | `lower()` maps every character and keeps the length |
| `TextUtil.PyStrip` | Betbot/aiscore_worker.py:64 | `strip()` removes exactly the leading and the trailing whitespace: the result is the slice between them, every dropped character on either side is whitespace, and the result neither starts nor ends with whitespace |
| `TextUtil.JsTrim` | BetbotOhneLive/server.js:178 | `trim()` removes exactly the leading and the trailing JavaScript whitespace: the result is the slice between them and every dropped character is whitespace |
| `TextUtil.Words` | Betbot/aiscore_worker.py:68 | `split()` yields non-empty tokens without whitespace; `WordsSkipSpace` and `WordsLeadingToken` give the rest of its meaning |
| `TextUtil.WordsSkipSpace` | Betbot/aiscore_worker.py:68 | leading whitespace contributes no token to `split()` |
| `TextUtil.WordsLeadingToken` | Betbot/aiscore_worker.py:68 | a maximal run of non-space characters at the front is the first token and the split continues after it, so the tokens are the maximal runs in order |
| `TextUtil.PyStripIdempotent` | Betbot/aiscore_worker.py:64 | stripping twice is stripping once |
| `TextUtil.WordsOfJoin` | Betbot/aiscore_worker.py:68-71 | splitting a single-space join of well-formed tokens gives the tokens back |
| `TextUtil.JoinSingleSpaced` | Betbot/aiscore_worker.py:71 | a join of tokens has no leading, trailing or doubled space |
| `TextUtil.StripSingleSpaced` | Betbot/aiscore_worker.py:71 | the final `.strip()` of `canonical_team` changes nothing on a join |
| `TextUtil.ContainsAny` | Betbot/betbot.py:74 | `any(k in name for k in keys)` holds exactly when some key is a substring |
| `PyValues.IntOfDecimal` | Betbot/normalizers_statistics.py:40 | `int(str(i)) == i` for every integer |
| `PyValues.IntOfDigits` | Betbot/normalizers_statistics.py:40 | `int` of a digit string is its decimal value |
| `PyValues.IntOfNegative` | Betbot/normalizers_statistics.py:40 | `int("-" + digits)` is the negated value |
| `PyValues.IntOfUnspaced` | Betbot/normalizers_statistics.py:40 | `int` of an unpadded string is the signed parse of it |
| `PyValues.PyIntEndsInDigit` | Betbot/normalizers_statistics.py:40 | any text `int()` accepts ends, after stripping, in a digit |
| `PyValues.Trunc` | Betbot/live_monitor.py:65 | `int(float)` truncates toward zero: it lies between 0 and the value, less than 1 away |
| `PyValues.GetStat` | Betbot/betbot.py:132-141 | the first entry with the wanted type decides; with none, the result is None |
| `AiScoreMatcher.FoldChar` | Betbot/aiscore_worker.py:58-60 | NFKD folding of a character leaves no decomposable or combining character; a combining mark is dropped and any other character that does not decompose is kept as it is |
| `AiScoreMatcher.FoldAccentedLetters` | Betbot/aiscore_worker.py:58-60 | each accented lower-case Latin-1 letter folds to its base letter (à…å to a, ç to c, è…ë to e, ì…ï to i, ñ to n, ò…ö to o, ù…ü to u, ý and ÿ to y) |
| `AiScoreMatcher.StripAccents` | Betbot/aiscore_worker.py:58-60 | `_strip_accents` output has no accented or combining character |
| `AiScoreMatcher.StripAccentsAppend` | Betbot/aiscore_worker.py:58-60 | accent stripping works character by character: it distributes over concatenation, so it keeps the order of the text |
| `AiScoreMatcher.StripAccentsSample` | Betbot/aiscore_worker.py:58-60 | "café" becomes "cafe" |
| `AiScoreMatcher.BlankPunctuation` | Betbot/aiscore_worker.py:63 | every non-word, non-space character becomes a space; nothing else changes |
| `AiScoreMatcher.CollapseWhitespaceShape` | Betbot/aiscore_worker.py:64 | after collapsing, only word characters and single spaces remain |
| `AiScoreMatcher.StripKeeps` | Betbot/aiscore_worker.py:64 | stripping collapsed text leaves it single-spaced with the same characters |
| `AiScoreMatcher.Clean` | Betbot/aiscore_worker.py:61-65 | `_clean` output has no punctuation, no run of spaces and no leading or trailing space |
| `AiScoreMatcher.CleanOfPlain` | Betbot/aiscore_worker.py:61-65 | a name already lower-case, unaccented and single-spaced is its own `_clean` |
| `AiScoreMatcher.StripAccentsPlain` | Betbot/aiscore_worker.py:58-60 | plain text has no accents to strip |
| `AiScoreMatcher.CollapseSingleSpaced` | Betbot/aiscore_worker.py:64 | text with single spaces only is unchanged by the collapse |
| `AiScoreMatcher.DropStopwords` | Betbot/aiscore_worker.py:68 | no kept token is a stop-word, and every other token is kept as often as it occurs in the input |
| `AiScoreMatcher.DropStopwordsAppend` | Betbot/aiscore_worker.py:68 | the stop-word filter distributes over concatenation, so it keeps the order of the tokens |
| `AiScoreMatcher.CanonicalTeamShape` | Betbot/aiscore_worker.py:66-71 | splitting `canonical_team` gives back the non-stop-word tokens of the aliased cleaned name; it has no leading, trailing or doubled space; no token is a stop-word or a reserve marker |
| `AiScoreMatcher.CanonicalTeam` | Betbot/aiscore_worker.py:66-71 | `canonical_team` is the single-space join of the tokens of the aliased cleaned name that are not stop-words |
| `AiScoreMatcher.UnreachableAliasKeys` | Betbot/aiscore_worker.py:47-57 | the alias keys with punctuation or accents ("cote-d-ivoire", "côte d ivoire", "u.s.a", "u.a.e") can never equal a cleaned name |
| `AiScoreMatcher.CleanedNotPunctuated` | Betbot/aiscore_worker.py:61-67 | no cleaned string equals one of those alias keys |
| `AiScoreMatcher.Jaccard` | Betbot/aiscore_worker.py:76-77 | the Jaccard part lies in [0,1], is 0 for two empty sets and is otherwise the intersection over the union |
| `AiScoreMatcher.JaccardSymmetric` | Betbot/aiscore_worker.py:76-77 | the Jaccard part does not depend on argument order |
| `AiScoreMatcher.JaccardOne` | Betbot/aiscore_worker.py:76-77 | the Jaccard part is 1 exactly when both token sets are equal and non-empty |
| `AiScoreMatcher.FuzzyScore` | Betbot/aiscore_worker.py:72-78 | with a ratio in [0,1] the score lies in [0,1]; two empty canonical names score 0.6 times the ratio |
| `AiScoreMatcher.FuzzyScoreIdentical` | Betbot/aiscore_worker.py:72-78 | names with the same non-empty canonical form score 1 when the ratio of equal strings is 1 |
| `AiScoreMatcher.FuzzyScoreSymmetric` | Betbot/aiscore_worker.py:72-78 | the score is symmetric when the ratio is |
| `AiScoreMatcher.EmptyCanonicalScore` | Betbot/aiscore_worker.py:72-78 | two all-stop-word names score `0.6*ratio("","")`, at most 0.6 |
| `AiScoreMatcher.PairScores` | Betbot/aiscore_worker.py:79-84 | each pair score is at most both of its side scores and at most the single score; the single score is the maximum of the four side scores |
| `AiScoreMatcher.Combine` | Betbot/aiscore_worker.py:82-83 | min of the same-order scores, min of the swapped scores, max of all four |
| `AiScoreMatcher.CombineSwap` | Betbot/aiscore_worker.py:79-84 | exchanging the same-order and swapped side scores exchanges the two pair scores and keeps the single score and the best pair score |
| `AiScoreMatcher.PairScoresSwap` | Betbot/aiscore_worker.py:79-84 | swapping the candidate's home and away exchanges the pair scores and keeps the single score |
| `AiScoreMatcher.PairScoresBounded` | Betbot/aiscore_worker.py:79-84 | with a ratio in [0,1], all three scores lie in [0,1] |
| `AiScoreScan.FirstSelectorPair` | Betbot/aiscore_worker.py:422-432 | the first selector pair with both names non-empty is used; None when no pair qualifies |
| `AiScoreScan.ExtractCardTeams` | Betbot/aiscore_worker.py:415-440 | the strategies in order: an `itemprop` pair with both names wins and is stripped; else the first accepted selector pair; else the split of the raw card text; with none of them the result is ("", "") |
| `AiScoreScan.ExtractCardTeamsStripped` | Betbot/aiscore_worker.py:415-440 | both names returned for a card are stripped, whichever rule produced them |
| `AiScoreScan.FindSeparator` | Betbot/aiscore_worker.py:436 | the leftmost match of the separator pattern (whitespace, vs/-/—/v, whitespace), or None when none occurs |
| `AiScoreScan.SplitTeams` | Betbot/aiscore_worker.py:433-437 | both parts of the split are stripped; text with no separator gives ("", "") |
| `AiScoreScan.SplitTeamsJoined` | Betbot/aiscore_worker.py:433-437 | text `home SEP away` splits into (home, away) for every separator word and single-spaced names of any number of words, provided no separator match starts inside the home name and the away name holds none |
| `AiScoreScan.SplitTeamsOneWord` | Betbot/aiscore_worker.py:433-437 | one-word names always meet those conditions: "Home vs Away" splits into ("Home", "Away") |
| `AiScoreScan.SplitCollapsedJoined` | Betbot/aiscore_test_scrape.py:250-254 | on collapsed text `home SEP away` with multi-word names, the split takes the part before the leftmost separator and the part after it, under the same conditions |
| `AiScoreScan.LeftmostSeparator` | Betbot/aiscore_worker.py:436 | the split is at the first position where the pattern matches |
| `AiScoreScan.NoSeparatorWithoutSpace` | Betbot/aiscore_test_scrape.py:253-257 | text without whitespace has no separator, so the split gives ("", "") |
| `AiScoreScan.AbsoluteHref` | Betbot/aiscore_worker.py:483 | a relative link gets the site origin; any other link, or a missing one, is returned unchanged |
| `AiScoreScan.ScanFromStep` | Betbot/aiscore_worker.py:474-492 | the policy over the cards is one card's decision followed by the policy over the rest |
| `AiScoreScan.ScanFromSound` | Betbot/aiscore_worker.py:472-496 | the scan returns only the link held at the start or one card's link; a falsy link comes back only from a pair hit, because the fallback is returned only when truthy |
| `AiScoreScan.NoHitUsesFallback` | Betbot/aiscore_worker.py:493-496 | without a pair hit the scan returns the fallback's link when it is truthy, otherwise None |
| `AiScoreScan.SkippedCardNeutral` | Betbot/aiscore_worker.py:476-477 | a skipped card changes nothing |
| `AiScoreScan.EmptyNamesSkipped` | Betbot/aiscore_worker.py:476-477 | a card with an empty home or away name has no effect on the result |
| `AiScoreScan.FirstHitWins` | Betbot/aiscore_worker.py:481-485 | the first card whose best pair score reaches the threshold decides; later cards are not examined |
| `AiScoreScan.FirstPairHitReturned` | Betbot/aiscore_test_scrape.py:286-290 | the scan returns the absolute link of the first pair hit |
| `AiScoreScan.FallbackSound` | Betbot/aiscore_worker.py:487-491 | the fallback is either the starting value or the record of one card: a single-team candidate that is no pair hit and reaches the single-team threshold, with single-team mode on |
| `AiScoreScan.SingleModeOff` | Betbot/aiscore_worker.py:487 | with single-team mode off and no pair hit the scan returns None |
| `AiScoreScan.ClearWinner` | Betbot/aiscore_test_scrape.py:292-300 | with no pair hit, a candidate whose single score leads every other candidate's by at least 1e-6 is the fallback that is returned |
| `AiScoreScan.FallbackSplit` | Betbot/aiscore_worker.py:487-491 | the fallback over two runs of cards is the fallback of the second run started from the first |
| `AiScoreScan.BelowWinner` | Betbot/aiscore_worker.py:489 | candidates more than 1e-6 below a bound keep the fallback below that bound |
| `AiScoreScan.StaysWithWinner` | Betbot/aiscore_worker.py:489 | candidates that cannot beat the held best leave it in place |
| `AiScoreScan.WalkCards` | Betbot/aiscore_worker.py:472-496 | the loop over the cards returns what the scan policy returns |
| `AiScoreScan.Scanner.ScanOnce` | Betbot/aiscore_worker.py:464-496 | the idle counter grows when the card count repeats and resets otherwise; the last count is recorded; the link is the policy's |
| `AiScoreScan.ActiveScan` | Betbot/aiscore_worker.py:500-516 | for any way of reading a card (the query's reader in `FindAndOpenMatch`), the polling loop returns what the specification of the loop returns, with the same numbers of scans and scrolls |
| `AiScoreScan.ActiveScanFrom` | Betbot/aiscore_worker.py:500-516 | the specification of the polling loop never scrolls more often than it scans |
| `AiScoreScan.ActiveScanSound` | Betbot/aiscore_worker.py:500-516 | the loop returns only a truthy link that a scan inside the time budget produced; it scans at most once per round and at least once when the budget is not spent |
| `AiScoreScan.StableCountFrom` | Betbot/aiscore_worker.py:468-470 | with a constant card count, the scans left are bounded by the idle limit |
| `AiScoreScan.ScanStep` | Betbot/aiscore_worker.py:500-516 | one round is one scan plus what the following rounds do with the updated counters |
| `AiScoreScan.StableCountStops` | Betbot/aiscore_worker.py:468-470 | when the card count never changes the loop stops after at most idle-limit + 1 scans, whatever the clock |
| `AiScoreScan.EveryTickScrolls` | Betbot/aiscore_worker.py:510-513 | with a scroll period of 1, every scan that does not return a link is followed by a scroll |
| `AiScoreScan.DefaultsScrollEveryTick` | Betbot/aiscore_worker.py:13-32 | both default configurations scroll after every unsuccessful scan |
| `AiScoreScan.FindAndOpenMatch` | Betbot/aiscore_worker.py:518-526 | the match is found exactly when the scan returns a link, and that link came from a scan in the time budget |
| `AiScorePool.WorkerPool.IsRunning` | Betbot/aiscore_worker.py:279-281 | a match runs exactly when it is in the running map |
| `AiScorePool.WorkerPool.CountRunning` | Betbot/aiscore_worker.py:283-284 | the count of running tasks is the size of the running map |
| `AiScorePool.WorkerPool.UnfinishedFor` | Betbot/aiscore_worker.py:283-284 | the created tasks of a match that have not finished |
| `AiScorePool.WorkerPool.constructor` | Betbot/aiscore_worker.py:250 | the pool starts empty |
| `AiScorePool.WorkerPool.Submit` | Betbot/aiscore_worker.py:286-293 | submitting a running match changes nothing; otherwise a new task is created and mapped to the match |
| `AiScorePool.WorkerPool.TaskFinished` | Betbot/aiscore_worker.py:295-304 | a finished task is marked done and its match is popped from the map |
| `AiScorePool.WorkerPool.Close` | Betbot/aiscore_worker.py:267-277 | closing empties the map, so nothing counts as running |
| `AiScorePool.Unfinished` | Betbot/aiscore_worker.py:283-284 | a task is unfinished exactly when it was created for the match and is not done |
| `AiScorePool.TwoOfThreeUnfinished` | Betbot/aiscore_worker.py:295-304 | three tasks for one match with one finished leave two unfinished |
| `AiScorePool.StaleFinishAfterClose` | Betbot/aiscore_worker.py:267-304 | after close and resubmit, the first task's finally-pop removes the new task's entry: the match is no longer tracked while two of its tasks are unfinished |
| `AiScorePool.RunStream` | Betbot/aiscore_worker.py:361-373 | the streaming loop emits exactly the rows, and ends for the reason, that the stream specification gives |
| `AiScorePool.StreamFrom` | Betbot/aiscore_worker.py:361-373 | the stream emits at most one row per poll |
| `AiScorePool.StreamEndReasons` | Betbot/aiscore_worker.py:361-373 | a stream ends by a stop request only after some poll asked to stop, by the match finishing only after a final snapshot (`ended == 1` or minute at least 100), and by running out of polls only when no poll stopped and none was final |
| `AiScorePool.StreamCutAt` | Betbot/aiscore_worker.py:361-373 | after a stop request, or a snapshot with `ended == 1` or minute at least 100, no further poll matters |
| `AiScorePool.OnlyLastRowFinal` | Betbot/aiscore_worker.py:366-373 | every row before the last has a minute below 100; a stream ended by the match finishing has at least one row; every row carries the match id |
| `AiScorePool.RunTask` | Betbot/aiscore_worker.py:307-376 | a task without names is skipped; otherwise the scan result decides between not found and streaming |
| `AiScoreTestScrape.FindAndOpenMatch` | Betbot/aiscore_test_scrape.py:330-345 | one attempt when the first scan returns a link and two otherwise; the result is the retry target; found exactly when a truthy link came back |
| `AiScoreStatus.AsciiFold` | Betbot/aiscore_worker.py:107 | case folding maps every character and keeps the length |
| `AiScoreStatus.FindGroup` | Betbot/aiscore_worker.py:104-110 | the first digit group matched by a minute pattern, below the pattern's power of ten; None when no match |
| `AiScoreStatus.Mmss` | Betbot/aiscore_worker.py:108 | an `mm:ss` minute is below 100 |
| `AiScoreStatus.ApostropheMinute` | Betbot/aiscore_worker.py:109 | an apostrophe minute is below 1000 |
| `AiScoreStatus.WorkerMinuteOf` | Betbot/aiscore_worker.py:104-110 | the worker's order: the finished keyword gives 100; without it an `mm:ss` clock wins; without either, the minute with an apostrophe |
| `AiScoreStatus.TestScrapeMinuteOf` | Betbot/aiscore_test_scrape.py:107-111 | the test scraper's order: an `mm:ss` clock wins; without one, a minute with an apostrophe; without either, the finished keyword gives 100; a minute is found exactly when one of the three rules fires |
| `AiScoreStatus.GetMinute` | Betbot/aiscore_worker.py:101-112 | the minute comes from a label that yields one and every earlier label is missing or yields none; None when no label does |
| `AiScoreStatus.WorkerGetMinute` | Betbot/aiscore_worker.py:101-112 | the worker's minute is below 1000; a first label holding a finished keyword reads 100 |
| `AiScoreStatus.TestScrapeGetMinute` | Betbot/aiscore_test_scrape.py:101-114 | the test scraper's minute is below 1000 and comes from the first label that yields one under the test scraper's order (`GetMinute` and `TestScrapeMinuteOf`); a first label with an `mm:ss` time reads that minute |
| `AiScoreStatus.EndedFlag` | Betbot/aiscore_worker.py:190-194 | the flag is 1 exactly when the trimmed status text holds a finished keyword, else 0 |
| `AiScoreStatus.GetMinuteAgrees` | Betbot/aiscore_test_scrape.py:101-114 | two minute rules that agree on every label give the same minute |
| `AiScoreStatus.OrdersAgreeWithoutKeyword` | Betbot/aiscore_test_scrape.py:107-111 | without a finished keyword the two pattern orders read the same minute |
| `AiScoreStatus.KeywordOrderMatters` | Betbot/aiscore_test_scrape.py:107-111 | a label holding both a keyword and an `mm:ss` reads 100 in the worker and the `mm:ss` minute in the test scraper |
| `AiScoreStatus.KeywordOrderMattersApostrophe` | Betbot/aiscore_test_scrape.py:107-111 | a label holding a keyword and an apostrophe minute but no `mm:ss` reads 100 in the worker and the apostrophe minute in the test scraper |
| `AiScoreStatus.HalftimeReadsAsFinished` | Betbot/aiscore_worker.py:107 | "Halftime" contains "ft", so the worker reads minute 100 and the ended flag 1 |
| `DashboardCache.TtlCache.constructor` | BetbotOhneLive/server.js:30 | the cache starts empty |
| `DashboardCache.TtlCache.SetCache` | BetbotOhneLive/server.js:31 | the entry is stored with expiry now + ttl |
| `DashboardCache.TtlCache.GetCache` | BetbotOhneLive/server.js:32-37 | null for a missing key; null and the entry deleted once now is past expiry; the stored value otherwise |
| `DashboardCache.LookupAfterSet` | BetbotOhneLive/server.js:31-37 | a value set with a ttl is read back until its expiry and not after; other keys are unaffected |
| `DashboardCache.StaleDeleteInvisible` | BetbotOhneLive/server.js:35 | deleting an expired entry changes no later read |
| `DashboardCache.FindQuarter` | BetbotOhneLive/server.js:43 | the first quarter strictly after the minute, or none when all are not after it |
| `DashboardCache.NextMark` | BetbotOhneLive/server.js:43-45 | the next quarter mark is a multiple of 15 after the minute, at most 15 away, with no other multiple between |
| `DashboardCache.QuarterAfter` | BetbotOhneLive/server.js:43 | the quarter found is 15, 30 or 45 by the minute's range, and none from minute 45 |
| `DashboardCache.TtlToNextQuarter` | BetbotOhneLive/server.js:39-47 | the ttl is positive, at most 15 minutes, and the current time plus the ttl is the next quarter mark (the full hour from minute 45) |
| `DashboardPredictions.ClubWordAtMeaning` | BetbotOhneLive/server.js:212 | the match at a position is an alternative found there with a word boundary after it; no match means no alternative found there is followed by a boundary |
| `DashboardPredictions.Filter` | BetbotOhneLive/server.js:213-214 | every kept character satisfies the filter, and every character that satisfies it is kept as often as it occurs |
| `DashboardPredictions.FilterAppend` | BetbotOhneLive/server.js:213-214 | the filter distributes over concatenation, so the kept characters stay in order |
| `DashboardPredictions.FilterKeepsAll` | BetbotOhneLive/server.js:213-214 | a text whose characters all pass the filter is unchanged |
| `DashboardPredictions.StripClubWordsSplit` | BetbotOhneLive/server.js:212 | the global replace works word by word: on two parts joined by a space it removes the club words of each part on its own and keeps the space |
| `DashboardPredictions.StripLeadingClubWord` | BetbotOhneLive/server.js:212 | a leading club word is removed and the next word kept: "fc porto" becomes " porto" |
| `DashboardPredictions.NormalizeName` | BetbotOhneLive/server.js:209-215 | the output has only characters in [a-z0-9] |
| `DashboardPredictions.NormalizePlain` | BetbotOhneLive/server.js:209-215 | a plain lower-case alphanumeric name normalises to itself, or to "" when it is a club word |
| `DashboardPredictions.StripPlain` | BetbotOhneLive/server.js:212 | a plain `[a-z0-9]` word is removed when it is exactly one of the alternatives and kept whole otherwise: no alternative is removed from inside a word |
| `DashboardPredictions.JsParseIntHasDigit` | BetbotOhneLive/server.js:220 | `parseInt` gives a number only when the text has a digit; `JsParseIntOf` and `JsParseIntNaN` state its value |
| `DashboardPredictions.JsParseIntOf` | BetbotOhneLive/server.js:220 | after leading whitespace, an optional sign and an optional `0x` prefix, the maximal digit run is read in base 10 or 16 and negated after a minus |
| `DashboardPredictions.JsParseIntNaN` | BetbotOhneLive/server.js:220 | text whose first character after whitespace and an optional sign is not a digit gives NaN |
| `DashboardPredictions.JsParseIntHexSample` | BetbotOhneLive/server.js:220 | " -0x1A" reads as -26 |
| `DashboardPredictions.JsParseIntDecimalSample` | BetbotOhneLive/server.js:220 | "+42.5" reads as 42: the digit run stops at the point |
| `DashboardPredictions.JsParseIntDigits` | BetbotOhneLive/server.js:220 | `parseInt` of a digit string is its decimal value |
| `DashboardPredictions.PercentOfDigits` | BetbotOhneLive/server.js:220-222 | "62%" and "62" both read as 62 |
| `DashboardPredictions.RemovePercentAfterDigits` | BetbotOhneLive/server.js:220 | `.replace("%", "")` drops the trailing percent sign of a number |
| `DashboardPredictions.PercentOf` | BetbotOhneLive/server.js:220-222 | a missing or empty percentage reads as 0 |
| `DashboardPredictions.Max3` | BetbotOhneLive/server.js:223 | the maximum is at least each value and equal to one |
| `DashboardPredictions.HasValidPrediction` | BetbotOhneLive/server.js:216-226 | false without a prediction; true with a winner name; otherwise true exactly when the maximum is positive and held by one value |
| `DashboardPredictions.PercentOutcomeIsUniqueArgmax` | BetbotOhneLive/server.js:240-245 | the percent path returns H, D or A exactly when that value is strictly the largest |
| `DashboardPredictions.PercentOutcome` | BetbotOhneLive/server.js:240-245 | an outcome exists exactly when the maximum is held by one value; a tie gives null |
| `DashboardPredictions.OutcomeFromPrediction` | BetbotOhneLive/server.js:227-246 | an outcome exists only for a valid prediction |
| `DashboardPredictions.ValidIffOutcomeWithoutWinner` | BetbotOhneLive/server.js:227-246 | without a winner name a prediction is valid exactly when it has an outcome, the unique argmax |
| `DashboardPredictions.EmptyHomeNameTakesWinner` | BetbotOhneLive/server.js:233-234 | an empty normalised home name is contained in every winner name, so the outcome is H |
| `DashboardPredictions.ValidWithoutOutcome` | BetbotOhneLive/server.js:230-245 | a winner name matching neither side with tied percentages is valid but yields no outcome |
| `DashboardFixtures.RulesMatch` | BetbotOhneLive/server.js:182-189 | true exactly when some rule accepts the name and country |
| `DashboardFixtures.MatchLeagueToRules` | BetbotOhneLive/server.js:179-190 | true exactly when some top rule has a name hit, no excluded word and a matching country |
| `DashboardFixtures.TacaDePortugalIsTop` | BetbotOhneLive/server.js:175-190 | a Portuguese league whose name contains "taça de portugal" is a top league |
| `DashboardFixtures.BundesligaRuleSkipsSecondDivision` | BetbotOhneLive/server.js:162-163 | the first Bundesliga rule rejects every name containing "2."; the second-division rule accepts "2. bundesliga" in Germany |
| `DashboardFixtures.Flatten` | BetbotOhneLive/server.js:259 | `flat()` concatenates the groups in order |
| `DashboardFixtures.FirstRankIsFirst` | BetbotOhneLive/server.js:263-269 | a side gets a rank exactly when some row names it with a rank, and it is that of the first such row |
| `DashboardFixtures.FirstRankAppend` | BetbotOhneLive/server.js:263-269 | a rank found in a prefix is never overwritten by later rows |
| `DashboardFixtures.ScanStandings` | BetbotOhneLive/server.js:263-269 | the loop, with its early break, gives each side its first rank |
| `DashboardFixtures.ExtractRanks` | BetbotOhneLive/server.js:256-271 | no ranks when the standings are not an array; otherwise each side's first rank in the flattened standings |
| `DashboardFixtures.KeepAppend` | BetbotOhneLive/server.js:392-413 | filtering distributes over concatenation |
| `DashboardFixtures.SectionsSnoc` | BetbotOhneLive/server.js:392-413 | one more item extends exactly the lists it belongs to |
| `DashboardFixtures.SortIntoBuckets` | BetbotOhneLive/server.js:392-413 | the loop produces the six section lists and the picks as order-preserving filters of the items |
| `DashboardFixtures.BucketsPartition` | BetbotOhneLive/server.js:393-395 | every item lands in exactly one of live, upcoming and past |
| `DashboardFixtures.BucketOf` | BetbotOhneLive/server.js:393-395 | live exactly for a live status code; past exactly for an item that is not live, not NS and whose kickoff is before now, a missing kickoff counting as 0 |
| `DashboardFixtures.KeepKeep` | BetbotOhneLive/server.js:392-413 | filtering twice is filtering by the conjunction |
| `DashboardFixtures.TopAndPicksAreSubLists` | BetbotOhneLive/server.js:392-413 | the top lists are the top-league items of each bucket; the picks are the upcoming items with a pick |
| `DashboardFixtures.ComparePicksOrder` | BetbotOhneLive/server.js:421-427 | the comparator puts a pick first exactly when it has a higher score, then a higher prediction score, then an earlier kickoff; it is antisymmetric |
| `DashboardFixtures.ComparePicks` | BetbotOhneLive/server.js:421-427 | equal picks with equal kickoffs compare as 0; with two picks of different score, the higher score sorts first |
| `DashboardFixtures.PickBeforeTransitive` | BetbotOhneLive/server.js:421-427 | that order is a strict order |
| `StatisticsNormalizer.AsNumber` | Betbot/normalizers_statistics.py:31-46 | None gives the default; a float is kept; otherwise, on the stripped text less one trailing "%", an `int()` parse wins, else a `float()` parse, else the default |
| `StatisticsNormalizer.ParseText` | Betbot/normalizers_statistics.py:38-46 | text that `int()` accepts is read as that integer, whatever `float()` would give |
| `StatisticsNormalizer.DropPercent` | Betbot/normalizers_statistics.py:36-37 | one trailing "%" is removed; text without one is unchanged |
| `StatisticsNormalizer.DropPercentOnce` | Betbot/normalizers_statistics.py:36-37 | only one "%" is removed: "…%%" reaches the parsers as "…%" |
| `StatisticsNormalizer.AsNumberOfDoublePercent` | Betbot/normalizers_statistics.py:31-46 | "62%%" is not an integer; it reads as the `float()` of "62%" when there is one, else as the default |
| `StatisticsNormalizer.AsNumberOfInt` | Betbot/normalizers_statistics.py:31-46 | an integer value is returned as that integer |
| `StatisticsNormalizer.AsNumberOfPercent` | Betbot/normalizers_statistics.py:36-41 | "62%" is read as the integer 62 |
| `StatisticsNormalizer.StripDecimal` | Betbot/normalizers_statistics.py:35-36 | the decimal text of an integer is unpadded and has no percent sign |
| `StatisticsNormalizer.EmptyRow` | Betbot/normalizers_statistics.py:48-72 | identity fields None; exactly the sixteen metric columns, 0 each and 0.0 for the two percentages |
| `StatisticsNormalizer.EmptyHasAllTargets` | Betbot/normalizers_statistics.py:12-29 | every column of the label map is already a column of the empty row |
| `StatisticsNormalizer.ApplyEntry` | Betbot/normalizers_statistics.py:90-98 | one entry never adds or removes a column |
| `StatisticsNormalizer.FillFrom` | Betbot/normalizers_statistics.py:90-98 | the filled row has exactly the columns it started with |
| `StatisticsNormalizer.FillMetrics` | Betbot/normalizers_statistics.py:84-98 | the loop over a team's entries computes the fill of the empty row |
| `StatisticsNormalizer.NormalizeStatisticsResponse` | Betbot/normalizers_statistics.py:79-102 | one row per team block, in order, each the fill of that block; no rows without a response |
| `StatisticsNormalizer.FillSnoc` | Betbot/normalizers_statistics.py:90-98 | the fill processes entries in order |
| `StatisticsNormalizer.FilledValue` | Betbot/normalizers_statistics.py:98 | each column holds the last readable value for it, or its previous value: an unparseable value keeps the old one, and a later duplicate overwrites |
| `StatisticsNormalizer.UnknownEntriesIgnored` | Betbot/normalizers_statistics.py:91-97 | entries with a falsy or unknown type leave the row unchanged |
| `StatisticsNormalizer.RowShape` | Betbot/normalizers_statistics.py:84-87 | each row carries the fixture id given and the team's id and name, and exactly the columns of the empty row |
| `Orchestrator.IsLiveShort` | Betbot/betbot.py:63-67 | not live exactly when the code is one of FT, AET, PEN, PST, CANC, ABD, AWD, WO; None and "" are live |
| `Orchestrator.DashboardLiveCodesAreLive` | Betbot/betbot.py:63-67 | every code the dashboard treats as live or not started is live here too |
| `Orchestrator.FirstMarket` | Betbot/betbot.py:69-76 | the first market whose lower-cased name contains a key; None exactly when none does |
| `Orchestrator.Pick1x2Market` | Betbot/betbot.py:69-76 | the market returned is one of the odds whose lower-cased name contains a key; None exactly when no name does |
| `Orchestrator.Orchestrator.ShouldStop` | Betbot/betbot.py:327-336 | no id never stops; a fixture stops exactly when the API has its statistics or it is known not to be live |
| `Orchestrator.Orchestrator.RefreshStillLive` | Betbot/betbot.py:240-245 | tracked fixtures missing from the active set become not live; active ones get their status's liveness; nothing else changes |
| `Orchestrator.Orchestrator.StatsDue` | Betbot/betbot.py:254-256 | a request is made exactly when the interval has passed since the last one (0 when none), and its time is recorded first |
| `Orchestrator.Orchestrator.HandleStats` | Betbot/betbot.py:264-280 | two team blocks mark API statistics and leave the pool alone; fewer clear the mark and submit the worker: a running worker leaves the pool unchanged and starts nothing, otherwise a new task is created and registered for the fixture |
| `Orchestrator.RefreshStops` | Betbot/betbot.py:240-245 | after a refresh, an active fixture stops exactly when the API has its statistics or its status is an end code |
| `Orchestrator.GrantedSpaced` | Betbot/betbot.py:254-256 | requests for one fixture are at least the statistics interval apart |
| `Orchestrator.Orchestrator.StatsRun` | Betbot/betbot.py:254-256 | over successive passes of the main loop, the statistics requests of one fixture are exactly the `Granted` times from its last request, which leaves the last granted time recorded |
| `LiveMonitor.SafeI` | Betbot/live_monitor.py:64-66 | 0 when `float` fails; otherwise the value truncated toward zero |
| `LiveMonitor.SafeF` | Betbot/live_monitor.py:68-70 | 0.0 when `float` fails; otherwise the value |
| `LiveMonitor.ActiveHours` | Betbot/live_monitor.py:49-55 | an unset or empty bound is None; when both bounds are unset or parse, each set bound is its `int()` value; a set bound that does not parse disables both |
| `LiveMonitor.InActiveWindow` | Betbot/live_monitor.py:83-90 | always active when a bound is unset; start ≤ h < end when start ≤ end |
| `LiveMonitor.WrappedWindow` | Betbot/live_monitor.py:88-90 | a wrapped window is the complement of the window with the bounds swapped |
| `LiveMonitor.StatsDue` | Betbot/live_monitor.py:260-264 | never for no minute or one outside 3..100; otherwise once 120 s have passed since the last fetch, which defaults to 0 |
| `LiveMonitor.DueAfterFetch` | Betbot/live_monitor.py:260-264 | a fixture fetched at t is due again exactly from t + 120 s |
| `LiveMonitor.MinuteBudget.constructor` | Betbot/live_monitor.py:94-99 | a fresh budget has an empty window starting now |
| `LiveMonitor.MinuteBudget.ResetIfNeeded` | Betbot/live_monitor.py:101-104 | after 60 s a new window starts with no requests; before, nothing changes |
| `LiveMonitor.MinuteBudget.Acquire` | Betbot/live_monitor.py:106-119 | the count grows by one after any reset, restarting from 0 at the cap, so it never exceeds the cap; requests are at least the minimum gap apart, and a capped request waits out the window |
| `LiveMonitor.MinuteBudget.Stats` | Betbot/live_monitor.py:121-123 | the requests of the current window, at most the cap, and the cap; the window is reset as `_reset_if_needed` does and the last request time is unchanged |
| `LiveMonitor.Is1x2Market` | Betbot/live_monitor.py:155-157 | true exactly when the lower-cased name contains 1x2, match winner, match result or full time |
| `LiveMonitor.MonitorMarketIsOrchestratorMarket` | Betbot/live_monitor.py:155-157 | every market the monitor accepts is also accepted by the orchestrator's market rule |
| `LiveMonitor.ZeroTeam` | Betbot/live_monitor.py:218-227 | exactly five statistics, each with value 0 |
| `LiveMonitor.ZeroTeamReadsZero` | Betbot/live_monitor.py:218-241 | every snapshot field read from the zero team is 0 |
| `LiveMonitor.SnapshotTeams` | Betbot/live_monitor.py:342-352 | two or more blocks give the first two; one block is paired with the zero team; an empty response is skipped |

## Left out

- The browser. Playwright navigation, `_goto_live`, `_scroll_to_load_all`, banner dismissal, the
  readiness wait of `_wait_stats_ready` and the in-page MutationObserver are not modelled. The
  cards on screen at each polling round and the snapshots of the streaming loop are inputs. Of
  the in-page script, only the minute and ended rules are modelled.
- `SequenceMatcher.ratio` is a parameter. Lemmas that need it bounded or symmetric say so in
  their requires.
- Python `float()` is the parameter `floatOf`, because floating-point parsing is not modelled.
  `int()` is modelled for ASCII digits with sign, surrounding whitespace and underscores.
- Unicode is covered only in part. Lower-casing and NFKD accent folding are modelled for ASCII
  and Latin-1 letters, and the combining marks U+0300..U+036F are dropped.
- IsPyWordChar: Python's `\w` is exact up to U+00FF only. Above that, every character except
  whitespace, combining marks and the punctuation blocks U+2000..U+206F and U+3000..U+303F counts
  as a word character. So `_clean` blanks symbols such as '€', '™', '№', arrows and emoji, but the
  model keeps them: `_clean("Team €")` is "team" in Python and "team €" in the model.
- Python and JavaScript floats are modelled as exact `real` numbers. This covers fuzzy scores,
  the 1e-6 tolerance, `safe_f`, `get_stat` and statistic values. Rounding, NaN and infinities are
  not modelled.
- TtlToNextQuarter: the clock is a plain minute and millisecond reading with 60-minute hours.
  `setHours(getHours() + 1, 0, 0, 0)` works in local time, so on a daylight-saving change the
  source's ttl can exceed 15 minutes (70 minutes at 01:50 on a fall-back night). The model's
  bound of 15 minutes does not cover that case.
- asyncio is not modelled: the pool is a sequential map, and sleeps, jitter and task
  cancellation are left out. Clock readings are arguments.
- HTTP clients, retries, the database writes and `fetch_odds_live` are not modelled. Only the
  market-selection rules are kept.
- `AiScoreScan.ActiveScan`: the rounds are a finite sequence. When they run out, the loop ends as
  though the time budget were spent.
- `AiScorePool.RunStream`: the polls are a finite sequence. When they run out, the loop ends with
  `PollsExhausted`.
- Environment overrides of the configuration are not modelled. The defaults are constants.
- `_emit_row`'s timestamp and the `on_insert` mapping of a row into the database are not modelled.
- `server.js` sorts the live, upcoming and past lists by kickoff. Those sorts are not modelled,
  but the picks comparator is. `computeTopPick` is an input: each item carries its pick.
- `canonical_team` is not idempotent. "FC Inter" becomes "inter", and a second pass gives
  "inter milan". No idempotence is claimed.
- The reserve-suffix drop in `canonical_team` never fires, because every reserve marker is also
  a stop-word. `AiScoreMatcher.CanonicalTeamShape` states the outcome.
- The 1e-6 tie tolerance of the fallback makes "best" depend on card order, so the fallback is
  not a true argmax. `AiScoreScan.ClearWinner` proves the case of a winner that leads by at
  least the tolerance.
