/** Reading the two team names off a match card, the acceptance policy of `scan_once` and the
    polling loop of `_active_scan_with_scroll` (aiscore_worker.py, duplicated in
    aiscore_test_scrape.py). The browser is not modelled: each card is the list of what its
    selectors yielded, and each poll of the loop is a clock reading and the cards on screen. */
module AiScoreScan {
  import opened Wrappers
  import opened TextUtil
  import opened AiScoreMatcher

  // ---------------------------------------------------------------------------------------------
  // Cards and their team names
  // ---------------------------------------------------------------------------------------------

  datatype NamePair = NamePair(home: string, away: string)

  /** What the page yields for one card. A selector pair is None when reading either of its two
      elements raised (no such element, or a timeout); `raw` is None when reading the card's own
      text raised; `href` is the link attribute, None when absent. */
  datatype Card = Card(itemprop: Option<NamePair>, selectorPairs: seq<Option<NamePair>>,
                       raw: Option<string>, href: Option<string>)

  /** A pair is accepted when both names are non-empty before stripping (Python truthiness). */
  predicate Accepts(p: Option<NamePair>) {
    p.Some? && p.value.home != "" && p.value.away != ""
  }

  function Stripped(p: NamePair): (r: NamePair)
    ensures IsStripped(r)
  {
    PyStripIdempotent(p.home);
    PyStripIdempotent(p.away);
    NamePair(PyStrip(p.home), PyStrip(p.away))
  }

  /** Both names are already stripped: neither has whitespace at either end. */
  predicate IsStripped(p: NamePair) {
    PyStrip(p.home) == p.home && PyStrip(p.away) == p.away
  }

  /** Index of the first accepted pair, |ps| when there is none. */
  function FirstAccepted(ps: seq<Option<NamePair>>): (i: nat)
    ensures i <= |ps|
    ensures forall j :: 0 <= j < i ==> !Accepts(ps[j])
    ensures i < |ps| ==> Accepts(ps[i])
  {
    if ps == [] || Accepts(ps[0]) then 0 else 1 + FirstAccepted(ps[1..])
  }

  /** The class-selector strategies, tried in order; None when none of them is accepted. */
  function FirstSelectorPair(ps: seq<Option<NamePair>>): (r: Option<NamePair>)
    ensures r.None? <==> forall i :: 0 <= i < |ps| ==> !Accepts(ps[i])
    ensures r.Some? ==> IsStripped(r.value)
  {
    var i := FirstAccepted(ps);
    if i < |ps| then Some(Stripped(ps[i].value)) else None
  }

  /** `_extract_card_teams`: the itemprop spans, then the selector pairs, then the free-text split
      of the card text, each stripped; ("", "") when nothing yields two names. */
  function ExtractCardTeams(c: Card): (r: NamePair)
    ensures Accepts(c.itemprop) ==> r == Stripped(c.itemprop.value)
    ensures !Accepts(c.itemprop) && FirstSelectorPair(c.selectorPairs).Some?
      ==> r == FirstSelectorPair(c.selectorPairs).value
    ensures !Accepts(c.itemprop) && FirstSelectorPair(c.selectorPairs).None? && c.raw.Some?
      ==> r == SplitTeams(c.raw.value)
    ensures !Accepts(c.itemprop) && FirstSelectorPair(c.selectorPairs).None? && c.raw.None?
      ==> r == NamePair("", "")
  {
    if Accepts(c.itemprop) then Stripped(c.itemprop.value)
    else if FirstSelectorPair(c.selectorPairs).Some? then FirstSelectorPair(c.selectorPairs).value
    else if c.raw.Some? then SplitTeams(c.raw.value)
    else NamePair("", "")
  }

  /** Whichever strategy yields them, the names come back stripped. */
  lemma ExtractCardTeamsStripped(c: Card)
    ensures IsStripped(ExtractCardTeams(c))
  {
    if !Accepts(c.itemprop) && FirstSelectorPair(c.selectorPairs).None? && c.raw.None? {
      assert PyStrip("") == "";
    }
  }

  // ---------------------------------------------------------------------------------------------
  // The free-text split: re.split(r"\s+vs\s+|\s+-\s+|\s+—\s+|\s+v\s+", raw, flags=re.I)
  // ---------------------------------------------------------------------------------------------

  /** Length of the whitespace run of `s` starting at `k`. */
  function SpaceRun(s: string, k: nat): (n: nat)
    requires k <= |s|
    ensures k + n <= |s|
    ensures forall i :: k <= i < k + n ==> IsPySpace(s[i])
    ensures k + n == |s| || !IsPySpace(s[k + n])
    decreases |s| - k
  {
    if k < |s| && IsPySpace(s[k]) then 1 + SpaceRun(s, k + 1) else 0
  }

  /** Case-insensitive matching of the separator letters: Python folds 'S' and the long s
      U+017F onto 's', and 'V' onto 'v'. */
  predicate MatchesV(c: char) { c == 'v' || c == 'V' }
  predicate MatchesS(c: char) { c == 's' || c == 'S' || c == '\U{17F}' }

  /** The length of the middle part of a separator when `s[j..]` starts with one of "vs", "-",
      "—" or "v" (in the pattern's order), and 0 otherwise. */
  function SeparatorWordAt(s: string, j: nat): (n: nat)
    requires j <= |s|
    ensures j + n <= |s|
  {
    if j + 1 < |s| && MatchesV(s[j]) && MatchesS(s[j + 1]) then 2
    else if j < |s| && (s[j] == '-' || s[j] == '\U{2014}') then 1
    else if j < |s| && MatchesV(s[j]) then 1
    else 0
  }

  /** Length of the separator match starting at `k`, or 0 when none starts there. A run of
      whitespace, a separator word and another run are needed; the greedy `\s+` takes the whole
      first run because the word does not start with whitespace. */
  function SeparatorAt(s: string, k: nat): (n: nat)
    requires k <= |s|
    ensures k + n <= |s|
  {
    var r1 := SpaceRun(s, k);
    if r1 == 0 then 0
    else
      var w := SeparatorWordAt(s, k + r1);
      if w == 0 then 0
      else
        var r2 := SpaceRun(s, k + r1 + w);
        if r2 == 0 then 0 else r1 + w + r2
  }

  /** The separator length at each position of `s` (0 past its end). */
  function SeparatorLen(s: string): nat -> nat {
    (i: nat) => if i <= |s| then SeparatorAt(s, i) else 0
  }

  /** The first position in `k..n-1` where `g` is positive; `n` when there is none. */
  function FirstPositive(g: nat -> nat, k: nat, n: nat): (r: nat)
    requires k <= n
    ensures k <= r <= n
    ensures r < n ==> g(r) > 0
    ensures forall i :: k <= i < r ==> g(i) == 0
    decreases n - k
  {
    if k == n || g(k) > 0 then k else FirstPositive(g, k + 1, n)
  }

  /** The leftmost separator match at or after position `k`: its start and length. */
  function FindSeparator(s: string, k: nat): (r: Option<(nat, nat)>)
    requires k <= |s|
    ensures r.None? ==> forall i :: k <= i <= |s| ==> SeparatorAt(s, i) == 0
    ensures r.Some? ==> k <= r.value.0 && r.value.0 + r.value.1 <= |s| && r.value.1 > 0
                        && SeparatorAt(s, r.value.0) == r.value.1
                        && forall i :: k <= i < r.value.0 ==> SeparatorAt(s, i) == 0
  {
    var g := SeparatorLen(s);
    var p := FirstPositive(g, k, |s| + 1);
    assert forall i :: k <= i < p ==> g(i) == SeparatorAt(s, i);
    if p == |s| + 1 then None else Some((p, SeparatorAt(s, p)))
  }

  /** The free-text strategy: collapse whitespace in the stripped text, split on the separators
      and keep the first two parts, stripped; ("", "") when the text holds no separator. */
  function SplitTeams(raw: string): (r: NamePair)
    ensures IsStripped(r)
    ensures FindSeparator(CollapseWhitespace(PyStrip(raw)), 0).None? ==> r == NamePair("", "")
  {
    SplitCollapsed(CollapseWhitespace(PyStrip(raw)))
  }

  /** The split proper, on the collapsed text. */
  function SplitCollapsed(t: string): (r: NamePair)
    ensures IsStripped(r)
  {
    var first := FindSeparator(t, 0);
    if first.None? then NamePair("", "")
    else
      var rest := t[first.value.0 + first.value.1..];
      Stripped(NamePair(t[..first.value.0], UpToSeparator(rest)))
  }

  /** The second part of the split: `rest` up to its first separator, or all of it. */
  function UpToSeparator(rest: string): string {
    var next := FindSeparator(rest, 0);
    if next.None? then rest else rest[..next.value.0]
  }

  /** The separator words of the pattern, in one spelling each. */
  predicate IsSeparatorWord(w: string) {
    w == "vs" || w == "-" || w == "\U{2014}" || w == "v"
  }

  /** The text "home SEP away" with single spaces around the separator word. */
  function Joined(h: string, w: string, a: string): string {
    h + " " + w + " " + a
  }

  /** Names of any number of single-spaced words come back apart around a separator: "Real
      Madrid vs Bayern Munich" splits into ("Real Madrid", "Bayern Munich"). The split is at the
      leftmost separator match, so none may start inside the home name (a home name ending in
      " v", say, would start one) and the away name must hold none, since the split keeps only
      the text before the next one. */
  lemma SplitTeamsJoined(h: string, w: string, a: string)
    requires h != "" && a != "" && SingleSpaced(h) && SingleSpaced(a)
    requires IsSeparatorWord(w)
    requires forall i :: 0 <= i < |h| ==> SeparatorAt(Joined(h, w, a), i) == 0
    requires FindSeparator(a, 0).None?
    ensures SplitTeams(Joined(h, w, a)) == NamePair(h, a)
  {
    JoinedIsCollapsed(h, w, a);
    SplitCollapsedJoined(h, w, a);
  }

  lemma SplitCollapsedJoined(h: string, w: string, a: string)
    requires h != "" && a != "" && SingleSpaced(h) && SingleSpaced(a)
    requires IsSeparatorWord(w)
    requires forall i :: 0 <= i < |h| ==> SeparatorAt(Joined(h, w, a), i) == 0
    requires FindSeparator(a, 0).None?
    ensures SplitCollapsed(Joined(h, w, a)) == NamePair(h, a)
  {
    var t := Joined(h, w, a);
    SeparatorAtJoint(h, w, a);
    LeftmostSeparator(t, |h|);
    JoinedParts(h, w, a);
    assert SplitCollapsed(t) == Stripped(NamePair(h, UpToSeparator(a)));
    StripSingleSpaced(h);
    StripSingleSpaced(a);
  }

  /** The names are the text before and after the separator and its two spaces. */
  lemma JoinedParts(h: string, w: string, a: string)
    ensures Joined(h, w, a)[..|h|] == h && Joined(h, w, a)[|h| + |w| + 2..] == a
  {
    var t := Joined(h, w, a);
    assert t == h + (" " + w + " " + a);
    assert t == (h + " " + w + " ") + a;
  }

  /** One-word names meet the conditions of SplitTeamsJoined: "Home vs Away" splits into
      ("Home", "Away") for every separator word. */
  lemma SplitTeamsOneWord(h: string, w: string, a: string)
    requires h != "" && a != "" && NoPySpace(h) && NoPySpace(a)
    requires IsSeparatorWord(w)
    ensures SplitTeams(Joined(h, w, a)) == NamePair(h, a)
  {
    var t := Joined(h, w, a);
    assert forall i :: 0 <= i < |h| ==> t[i] == h[i];
    NoSeparatorBefore(t, |h|);
    NoSeparatorWithoutSpace(a);
    SplitTeamsJoined(h, w, a);
  }

  lemma JoinedIsCollapsed(h: string, w: string, a: string)
    requires h != "" && a != "" && SingleSpaced(h) && SingleSpaced(a)
    requires IsSeparatorWord(w)
    ensures var t := Joined(h, w, a); CollapseWhitespace(PyStrip(t)) == t
  {
    var t := Joined(h, w, a);
    JoinedSingleSpaced(h, w, a);
    StripSingleSpaced(t);
    CollapseSingleSpaced(t);
  }

  /** Two single-spaced names joined by a separator word with one space on each side give a
      single-spaced text. */
  lemma JoinedSingleSpaced(h: string, w: string, a: string)
    requires h != "" && a != "" && SingleSpaced(h) && SingleSpaced(a)
    requires IsSeparatorWord(w)
    ensures SingleSpaced(Joined(h, w, a))
  {
    assert NoPySpace(w);
    SingleSpacedGlue(h, w);
    SingleSpacedGlue(h + " " + w, a);
  }

  /** Gluing two non-empty single-spaced strings with one space gives a single-spaced string. */
  lemma SingleSpacedGlue(x: string, y: string)
    requires x != "" && y != "" && SingleSpaced(x) && SingleSpaced(y)
    ensures SingleSpaced(x + " " + y)
  {
    var t := x + " " + y;
    var n := |x|;
    assert forall i :: 0 <= i < n ==> t[i] == x[i];
    assert forall j :: 0 <= j < |y| ==> t[n + 1 + j] == y[j];
    forall i | 0 <= i < |t| - 1 ensures !(t[i] == ' ' && t[i + 1] == ' ') {
      if i < n - 1 {
        assert t[i] == x[i] && t[i + 1] == x[i + 1];
      } else if i == n - 1 {
        assert t[i] == x[n - 1];
      } else if i == n {
        assert t[i + 1] == y[0];
      } else {
        assert t[i] == y[i - n - 1] && t[i + 1] == y[i - n];
      }
    }
    forall i | 0 <= i < |t| && IsPySpace(t[i]) ensures t[i] == ' ' {
      if i > n {
        assert t[i] == y[i - n - 1];
      }
    }
    assert t[|t| - 1] == y[|y| - 1];
  }

  /** No separator starts inside a prefix free of whitespace. */
  lemma NoSeparatorBefore(t: string, n: nat)
    requires n <= |t| && forall i :: 0 <= i < n ==> !IsPySpace(t[i])
    ensures forall i :: 0 <= i < n ==> SeparatorAt(t, i) == 0
  {
    forall i | 0 <= i < n ensures SeparatorAt(t, i) == 0 {
      assert SpaceRun(t, i) == 0;
    }
  }

  /** A separator at `p` with none before it is the one FindSeparator finds. */
  lemma LeftmostSeparator(t: string, p: nat)
    requires p <= |t| && SeparatorAt(t, p) > 0
    requires forall i :: 0 <= i < p ==> SeparatorAt(t, i) == 0
    ensures FindSeparator(t, 0) == Some((p, SeparatorAt(t, p)))
  {
    var r := FindSeparator(t, 0);
    assert r.Some?;
    assert !(r.value.0 < p) && !(r.value.0 > p);
  }

  lemma SeparatorAtJoint(h: string, w: string, a: string)
    requires a != "" && !IsPySpace(a[0])
    requires IsSeparatorWord(w)
    ensures SeparatorAt(Joined(h, w, a), |h|) == |w| + 2
  {
    var t := Joined(h, w, a);
    var k := |h| + 1 + |w| + 1;
    assert t[|h|] == ' ' && t[k - 1] == ' ' && t[k] == a[0];
    assert t[|h| + 1] == w[0];
    assert |w| == 2 ==> t[|h| + 2] == w[1];
    assert SeparatorWordAt(t, |h| + 1) == |w|;
    SeparatorOfChars(t, |h|, |w|);
  }

  /** A single space, a separator word of `n` characters and a single space match as a separator
      of `n + 2` characters. */
  lemma SeparatorOfChars(t: string, k: nat, n: nat)
    requires k + n + 2 < |t| && n > 0
    requires t[k] == ' ' && !IsPySpace(t[k + 1]) && SeparatorWordAt(t, k + 1) == n
    requires t[k + n + 1] == ' ' && !IsPySpace(t[k + n + 2])
    ensures SeparatorAt(t, k) == n + 2
  {
    assert SpaceRun(t, k + 1) == 0;
    assert SpaceRun(t, k) == 1;
    assert SpaceRun(t, k + n + 2) == 0;
    assert SpaceRun(t, k + n + 1) == 1;
  }

  lemma NoSeparatorWithoutSpace(s: string)
    requires NoPySpace(s)
    ensures FindSeparator(s, 0).None?
  {
    NoSeparatorBefore(s, |s|);
    assert SpaceRun(s, |s|) == 0;
  }

  lemma StripNoSpace(s: string)
    requires NoPySpace(s)
    ensures PyStrip(s) == s
  {
  }

  // ---------------------------------------------------------------------------------------------
  // The acceptance policy of scan_once
  // ---------------------------------------------------------------------------------------------

  /** The scanner's constants: the pair threshold, whether single-team matches are accepted and
      their threshold, the idle-round limit and the time budget of one active scan in seconds. */
  type Pos = n: int | n > 0 witness 1

  datatype ScanConfig = ScanConfig(pairThreshold: real, singleMode: bool, singleThreshold: real,
                                   idleLimit: nat, maxSec: real, pollMs: Pos, pauseMs: nat)

  /** aiscore_worker.py: DEF_FUZZY_THRESHOLD, DEF_SINGLE_TEAM_MATCH, DEF_SINGLE_TEAM_THRESH,
      DEF_SCROLL_IDLE_ROUNDS, DEF_MATCH_TIMEOUT_SEC, DEF_SCAN_POLL_MS and DEF_SCROLL_PAUSE_MS,
      without environment overrides. */
  const WorkerConfig := ScanConfig(0.72, true, 0.85, 8, 120.0, 250, 450)

  /** aiscore_test_scrape.py: FUZZY_THRESHOLD, SINGLE_TEAM_MATCH, SINGLE_TEAM_THRESHOLD,
      SCROLL_IDLE_ROUNDS, SCAN_MAX_SEC, SCAN_POLL_MS and SCROLL_PAUSE_MS. */
  const TestScrapeConfig := ScanConfig(0.72, true, 0.85, 6, 120.0, 300, 420)

  /** The polling loop scrolls on ticks that are multiples of max(1, pause // poll). */
  function ScrollPeriod(cfg: ScanConfig): Pos {
    if cfg.pauseMs / cfg.pollMs >= 1 then cfg.pauseMs / cfg.pollMs else 1
  }

  const SiteOrigin := "https://www.aiscore.com"

  /** A link is usable when it is present and non-empty (Python truthiness). */
  predicate Truthy(href: Option<string>) {
    href.Some? && href.value != ""
  }

  /** Relative links (starting with "/") get the site origin in front. */
  function AbsoluteHref(href: Option<string>): (r: Option<string>)
    ensures Truthy(r) <==> Truthy(href)
    ensures Truthy(href) && href.value[0] == '/' ==> r == Some(SiteOrigin + href.value)
    ensures !(Truthy(href) && href.value[0] == '/') ==> r == href
  {
    if Truthy(href) && StartsWith(href.value, "/") then Some(SiteOrigin + href.value) else href
  }

  /** The query fixture being searched for, and the similarity ratio used to score names. */
  datatype Query = Query(ratio: (string, string) -> real, home: string, away: string)

  /** The scores of a card, None when its home or away name is empty (the card is skipped). */
  function CardScore(q: Query, c: Card): Option<MatchScore> {
    var names := ExtractCardTeams(c);
    if names.home == "" || names.away == "" then None
    else Some(PairScores(q.ratio, q.home, q.away, names.home, names.away))
  }

  /** What the policy looks at for one card: its scores and its absolute link. */
  datatype CardOutcome = CardOutcome(score: Option<MatchScore>, href: Option<string>)

  /** Reading one card: extract the names, score them against the query, absolutise the link. */
  function Outcome(q: Query, c: Card): CardOutcome {
    CardOutcome(CardScore(q, c), AbsoluteHref(c.href))
  }

  /** The card reader of a query, as a function value. */
  function Reader(q: Query): Card -> CardOutcome {
    c => Outcome(q, c)
  }

  function Outcomes(read: Card -> CardOutcome, cards: seq<Card>): (r: seq<CardOutcome>)
    ensures |r| == |cards| && forall i :: 0 <= i < |cards| ==> r[i] == read(cards[i])
  {
    seq(|cards|, i requires 0 <= i < |cards| => read(cards[i]))
  }

  /** A card that is accepted at once: max(normal, swapped) reaches the pair threshold. */
  predicate IsPairHit(cfg: ScanConfig, o: CardOutcome) {
    o.score.Some? && o.score.value.PairBest() >= cfg.pairThreshold
  }

  /** A card that competes for the single-team fallback. */
  predicate IsSingleCandidate(cfg: ScanConfig, o: CardOutcome) {
    o.score.Some? && !IsPairHit(cfg, o) && cfg.singleMode && o.score.value.singleBest >= cfg.singleThreshold
  }

  /** The running fallback of scan_once: link, pair best and single best of the kept card. */
  datatype Best = Best(href: Option<string>, pair: real, single: real)

  const NoBest := Best(None, -1.0, -1.0)

  /** The replacement rule: a strictly higher single score, or one within 1e-6 with a strictly
      higher pair score. */
  predicate Improves(single: real, pair: real, best: Best) {
    single > best.single || (Abs(single - best.single) < 0.000001 && pair > best.pair)
  }

  function Abs(x: real): real { if x < 0.0 then -x else x }

  /** The fallback after considering one more card. */
  function Consider(cfg: ScanConfig, o: CardOutcome, best: Best): Best {
    if IsSingleCandidate(cfg, o) && Improves(o.score.value.singleBest, o.score.value.PairBest(), best) then
      Best(o.href, o.score.value.PairBest(), o.score.value.singleBest)
    else best
  }

  /** What scan_once returns for the cards from here on, with the fallback kept so far: the link
      of the first pair hit, else the fallback's link if it is usable, else None. */
  function ScanFrom(cfg: ScanConfig, outs: seq<CardOutcome>, best: Best): (r: Option<string>)
    decreases |outs|
  {
    if outs == [] then (if Truthy(best.href) then best.href else None)
    else if IsPairHit(cfg, outs[0]) then outs[0].href
    else ScanFrom(cfg, outs[1..], Consider(cfg, outs[0], best))
  }

  /** A scan returns the link of one of the cards or the fallback it started with; a link that is
      not usable comes only from a pair hit. */
  lemma {:induction false} ScanFromSound(cfg: ScanConfig, outs: seq<CardOutcome>, best: Best)
    ensures var r := ScanFrom(cfg, outs, best);
      && (r.Some? ==> r == best.href || exists i :: 0 <= i < |outs| && r == outs[i].href)
      && (r.Some? && !Truthy(r) ==> exists i :: 0 <= i < |outs| && IsPairHit(cfg, outs[i]) && r == outs[i].href)
    decreases |outs|
  {
    if outs != [] && !IsPairHit(cfg, outs[0]) {
      var best' := Consider(cfg, outs[0], best);
      ScanFromSound(cfg, outs[1..], best');
      var r := ScanFrom(cfg, outs, best);
      if r.Some? {
        if r != best'.href {
          var i :| 0 <= i < |outs| - 1 && r == outs[1..][i].href;
          assert r == outs[i + 1].href;
        } else if r != best.href {
          assert r == outs[0].href;
        }
        if !Truthy(r) {
          var i :| 0 <= i < |outs| - 1 && IsPairHit(cfg, outs[1..][i]) && r == outs[1..][i].href;
          assert outs[1..][i] == outs[i + 1];
        }
      }
    }
  }

  /** The result of one scan of a card list, for any way of reading a card. */
  function ScanWith(cfg: ScanConfig, read: Card -> CardOutcome, cards: seq<Card>): Option<string> {
    ScanFrom(cfg, Outcomes(read, cards), NoBest)
  }

  /** The result of one scan of a card list for a query. */
  function ScanResult(cfg: ScanConfig, q: Query, cards: seq<Card>): Option<string> {
    ScanWith(cfg, Reader(q), cards)
  }

  /** One step of ScanFrom, at position `i`. */
  lemma ScanFromStep(cfg: ScanConfig, outs: seq<CardOutcome>, i: nat, best: Best)
    requires i < |outs|
    ensures ScanFrom(cfg, outs[i..], best) ==
      if IsPairHit(cfg, outs[i]) then outs[i].href else ScanFrom(cfg, outs[i + 1..], Consider(cfg, outs[i], best))
  {
    assert outs[i..][1..] == outs[i + 1..];
  }

  /** The fallback after considering every card of `outs`, when no pair hit stops the scan. */
  function Fallback(cfg: ScanConfig, outs: seq<CardOutcome>, best: Best): Best
    decreases |outs|
  {
    if outs == [] then best else Fallback(cfg, outs[1..], Consider(cfg, outs[0], best))
  }

  predicate NoPairHit(cfg: ScanConfig, outs: seq<CardOutcome>) {
    forall i :: 0 <= i < |outs| ==> !IsPairHit(cfg, outs[i])
  }

  lemma OutcomesAppend(read: Card -> CardOutcome, a: seq<Card>, b: seq<Card>)
    ensures Outcomes(read, a + b) == Outcomes(read, a) + Outcomes(read, b)
  {
  }

  /** Without a pair hit the scan returns the fallback's link, when it is usable. */
  lemma {:induction false} NoHitUsesFallback(cfg: ScanConfig, outs: seq<CardOutcome>, best: Best)
    requires NoPairHit(cfg, outs)
    ensures var f := Fallback(cfg, outs, best); ScanFrom(cfg, outs, best) == if Truthy(f.href) then f.href else None
    decreases |outs|
  {
    if outs != [] {
      assert NoPairHit(cfg, outs[1..]) by {
        forall i | 0 <= i < |outs| - 1 ensures !IsPairHit(cfg, outs[1..][i]) { assert outs[1..][i] == outs[i + 1]; }
      }
      NoHitUsesFallback(cfg, outs[1..], Consider(cfg, outs[0], best));
    }
  }

  /** A card without two names changes nothing, wherever it stands. */
  lemma {:induction false} SkippedCardNeutral(cfg: ScanConfig, p: seq<CardOutcome>, o: CardOutcome, r: seq<CardOutcome>, best: Best)
    requires o.score.None?
    ensures ScanFrom(cfg, p + [o] + r, best) == ScanFrom(cfg, p + r, best)
    decreases |p|
  {
    if p == [] {
      assert [o] + r == p + [o] + r && r == p + r;
      assert ([o] + r)[1..] == r;
    } else {
      assert (p + [o] + r)[0] == p[0] && (p + r)[0] == p[0];
      assert (p + [o] + r)[1..] == p[1..] + [o] + r;
      assert (p + r)[1..] == p[1..] + r;
      SkippedCardNeutral(cfg, p[1..], o, r, Consider(cfg, p[0], best));
    }
  }

  /** The first pair hit decides the scan: its link is returned whatever follows it. */
  lemma {:induction false} FirstHitWins(cfg: ScanConfig, p: seq<CardOutcome>, o: CardOutcome, r: seq<CardOutcome>, best: Best)
    requires NoPairHit(cfg, p) && IsPairHit(cfg, o)
    ensures ScanFrom(cfg, p + [o] + r, best) == o.href
    decreases |p|
  {
    if p == [] {
      assert p + [o] + r == [o] + r;
    } else {
      assert (p + [o] + r)[0] == p[0];
      assert (p + [o] + r)[1..] == p[1..] + [o] + r;
      assert NoPairHit(cfg, p[1..]) by {
        forall i | 0 <= i < |p| - 1 ensures !IsPairHit(cfg, p[1..][i]) { assert p[1..][i] == p[i + 1]; }
      }
      FirstHitWins(cfg, p[1..], o, r, Consider(cfg, p[0], best));
    }
  }

  /** Card-level form: scan_once skips cards with an empty home or away name. */
  lemma EmptyNamesSkipped(cfg: ScanConfig, q: Query, p: seq<Card>, c: Card, r: seq<Card>)
    requires ExtractCardTeams(c).home == "" || ExtractCardTeams(c).away == ""
    ensures ScanResult(cfg, q, p + [c] + r) == ScanResult(cfg, q, p + r)
  {
    OutcomesAppend(Reader(q), p + [c], r);
    OutcomesAppend(Reader(q), p, [c]);
    OutcomesAppend(Reader(q), p, r);
    assert Outcomes(Reader(q), [c]) == [Outcome(q, c)];
    SkippedCardNeutral(cfg, Outcomes(Reader(q), p), Outcome(q, c), Outcomes(Reader(q), r), NoBest);
  }

  /** Card-level form: the link of the first card whose pair best reaches the threshold is
      returned, with the site origin put in front of a relative link; later cards do not matter. */
  lemma FirstPairHitReturned(cfg: ScanConfig, q: Query, p: seq<Card>, c: Card, r: seq<Card>)
    requires forall i :: 0 <= i < |p| ==> !IsPairHit(cfg, Outcome(q, p[i]))
    requires IsPairHit(cfg, Outcome(q, c))
    ensures ScanResult(cfg, q, p + [c] + r) == AbsoluteHref(c.href)
  {
    OutcomesAppend(Reader(q), p + [c], r);
    OutcomesAppend(Reader(q), p, [c]);
    assert Outcomes(Reader(q), [c]) == [Outcome(q, c)];
    FirstHitWins(cfg, Outcomes(Reader(q), p), Outcome(q, c), Outcomes(Reader(q), r), NoBest);
  }

  /** `f` is the record that card `k` of `outs` would leave as the fallback. */
  predicate FallbackFrom(cfg: ScanConfig, outs: seq<CardOutcome>, k: int, f: Best) {
    0 <= k < |outs| && IsSingleCandidate(cfg, outs[k])
    && f == Best(outs[k].href, outs[k].score.value.PairBest(), outs[k].score.value.singleBest)
  }

  /** The fallback is the starting value or the record of a qualifying card: one that is no
      pair hit, scores at least the single-team threshold, and was read with single-team mode on. */
  lemma {:induction false} FallbackSound(cfg: ScanConfig, outs: seq<CardOutcome>, best: Best)
    ensures var f := Fallback(cfg, outs, best);
      f == best || exists k :: FallbackFrom(cfg, outs, k, f)
    decreases |outs|
  {
    if outs != [] {
      var next := Consider(cfg, outs[0], best);
      FallbackSound(cfg, outs[1..], next);
      var f := Fallback(cfg, outs[1..], next);
      if f != next {
        var k :| FallbackFrom(cfg, outs[1..], k, f);
        assert outs[1..][k] == outs[k + 1];
        assert FallbackFrom(cfg, outs, k + 1, f);
      } else if next != best {
        assert FallbackFrom(cfg, outs, 0, f);
      }
    }
  }

  /** With single-team mode off the scan returns a pair hit's link or nothing. */
  lemma SingleModeOff(cfg: ScanConfig, outs: seq<CardOutcome>)
    requires !cfg.singleMode && NoPairHit(cfg, outs)
    ensures ScanFrom(cfg, outs, NoBest) == None
  {
    NoHitUsesFallback(cfg, outs, NoBest);
    FallbackSound(cfg, outs, NoBest);
  }

  /** A clear single-team winner is returned: when no card is a pair hit and one qualifying card
      beats every other qualifying card by at least 1e-6, scan_once returns that card's link if it
      is usable, and None otherwise. */
  lemma ClearWinner(cfg: ScanConfig, outs: seq<CardOutcome>, k: nat)
    requires cfg.singleThreshold >= 0.0
    requires NoPairHit(cfg, outs) && k < |outs| && IsSingleCandidate(cfg, outs[k])
    requires forall j :: 0 <= j < |outs| && j != k && IsSingleCandidate(cfg, outs[j]) ==>
               outs[j].score.value.singleBest <= outs[k].score.value.singleBest - 0.000001
    ensures ScanFrom(cfg, outs, NoBest) == if Truthy(outs[k].href) then outs[k].href else None
  {
    NoHitUsesFallback(cfg, outs, NoBest);
    var w := Best(outs[k].href, outs[k].score.value.PairBest(), outs[k].score.value.singleBest);
    var before := Fallback(cfg, outs[..k], NoBest);
    FallbackSplit(cfg, outs[..k], outs[k..], NoBest);
    assert outs[..k] + outs[k..] == outs;
    BelowWinner(cfg, outs[..k], NoBest, w.single);
    assert outs[k..][0] == outs[k];
    assert Consider(cfg, outs[k], before) == w;
    StaysWithWinner(cfg, outs[k + 1..], w);
    assert outs[k..][1..] == outs[k + 1..];
  }

  lemma {:induction false} FallbackSplit(cfg: ScanConfig, a: seq<CardOutcome>, b: seq<CardOutcome>, best: Best)
    ensures Fallback(cfg, a + b, best) == Fallback(cfg, b, Fallback(cfg, a, best))
    decreases |a|
  {
    if a != [] {
      assert (a + b)[0] == a[0] && (a + b)[1..] == a[1..] + b;
      FallbackSplit(cfg, a[1..], b, Consider(cfg, a[0], best));
    } else {
      assert a + b == b;
    }
  }

  /** Before the winner, the kept single score stays below the winner's by at least 1e-6. */
  lemma {:induction false} BelowWinner(cfg: ScanConfig, outs: seq<CardOutcome>, best: Best, top: real)
    requires best.single <= top - 0.000001
    requires forall j :: 0 <= j < |outs| && IsSingleCandidate(cfg, outs[j]) ==>
               outs[j].score.value.singleBest <= top - 0.000001
    ensures Fallback(cfg, outs, best).single <= top - 0.000001
    decreases |outs|
  {
    if outs != [] {
      assert forall j :: 0 <= j < |outs| - 1 ==> outs[1..][j] == outs[j + 1];
      BelowWinner(cfg, outs[1..], Consider(cfg, outs[0], best), top);
    }
  }

  /** After the winner, no later qualifying card replaces it. */
  lemma {:induction false} StaysWithWinner(cfg: ScanConfig, outs: seq<CardOutcome>, w: Best)
    requires forall j :: 0 <= j < |outs| && IsSingleCandidate(cfg, outs[j]) ==>
               outs[j].score.value.singleBest <= w.single - 0.000001
    ensures Fallback(cfg, outs, w) == w
    decreases |outs|
  {
    if outs != [] {
      assert Consider(cfg, outs[0], w) == w;
      assert forall j :: 0 <= j < |outs| - 1 ==> outs[1..][j] == outs[j + 1];
      StaysWithWinner(cfg, outs[1..], w);
    }
  }

  /** The card loop of scan_once, for any way of reading a card: return the first pair hit's
      link; otherwise keep the best single-team candidate and return its link if usable. */
  method WalkCards(cfg: ScanConfig, read: Card -> CardOutcome, cards: seq<Card>) returns (href: Option<string>)
    ensures href == ScanFrom(cfg, Outcomes(read, cards), NoBest)
  {
    ghost var outs := Outcomes(read, cards);
    var best := NoBest;
    var i := 0;
    assert outs[0..] == outs;
    while i < |cards|
      invariant 0 <= i <= |cards|
      invariant ScanFrom(cfg, outs[i..], best) == ScanFrom(cfg, outs, NoBest)
    {
      ScanFromStep(cfg, outs, i, best);
      var o := read(cards[i]);
      if o.score.None? {
        i := i + 1;
        continue;
      }
      var sc := o.score.value;
      var pairBest := sc.PairBest();
      if pairBest >= cfg.pairThreshold {
        href := o.href;
        return;
      }
      if cfg.singleMode && sc.singleBest >= cfg.singleThreshold {
        if sc.singleBest > best.single || (Abs(sc.singleBest - best.single) < 0.000001 && pairBest > best.pair) {
          best := Best(o.href, pairBest, sc.singleBest);
        }
      }
      i := i + 1;
    }
    if Truthy(best.href) {
      href := best.href;
    } else {
      href := None;
    }
  }

  /** The counters scan_once keeps across calls (nonlocal `idle_rounds` and `last_count`). */
  class Scanner {
    var idleRounds: nat
    var lastCount: int

    constructor()
      ensures idleRounds == 0 && lastCount == -1
    {
      idleRounds := 0;
      lastCount := -1;
    }

    /** `scan_once`: update the idle counter from the card count, then walk the cards, reading
        each one with the query's extractor and scorer. */
    method ScanOnce(cfg: ScanConfig, read: Card -> CardOutcome, cards: seq<Card>) returns (href: Option<string>)
      modifies this
      ensures lastCount == |cards|
      ensures idleRounds == if |cards| == old(lastCount) then old(idleRounds) + 1 else 0
      ensures href == ScanWith(cfg, read, cards)
    {
      if |cards| == lastCount {
        idleRounds := idleRounds + 1;
      } else {
        idleRounds := 0;
      }
      lastCount := |cards|;
      href := WalkCards(cfg, read, cards);
    }
  }

  // ---------------------------------------------------------------------------------------------
  // The polling loop of _active_scan_with_scroll
  // ---------------------------------------------------------------------------------------------

  /** One pass of the polling loop as the environment presents it: the seconds elapsed since the
      scan started, read at the loop test, and the cards on screen when scan_once runs. */
  datatype Round = Round(elapsed: real, cards: seq<Card>)

  /** What the polling loop did: the link it returns, how often scan_once ran and how often the
      page was scrolled. */
  datatype ScanRun = ScanRun(href: Option<string>, scans: nat, scrolls: nat)

  /** The polling loop from the given round on, with the scanner's counters and the tick: stop
      when the time budget is spent, return a usable link, scroll on ticks divisible by the scroll
      period, stop when the card count has been stable for `idleLimit` rounds. When the rounds run
      out the loop ends as if the budget were spent. */
  function ActiveScanFrom(cfg: ScanConfig, read: Card -> CardOutcome, rounds: seq<Round>, idle: nat, last: int, tick: nat): (r: ScanRun)
    ensures r.scrolls <= r.scans
    decreases |rounds|
  {
    if rounds == [] || rounds[0].elapsed >= cfg.maxSec then ScanRun(None, 0, 0)
    else
      var n := |rounds[0].cards|;
      var idle' := if n == last then idle + 1 else 0;
      var h := ScanWith(cfg, read, rounds[0].cards);
      if Truthy(h) then ScanRun(h, 1, 0)
      else
        var scrolled := if tick % ScrollPeriod(cfg) == 0 then 1 else 0;
        if idle' >= cfg.idleLimit then ScanRun(None, 1, scrolled)
        else
          var rest := ActiveScanFrom(cfg, read, rounds[1..], idle', n, tick + 1);
          ScanRun(rest.href, rest.scans + 1, rest.scrolls + scrolled)
  }

  /** The whole polling loop, with fresh counters (idle 0, last count -1, tick 0). */
  function ActiveScanResult(cfg: ScanConfig, q: Query, rounds: seq<Round>): ScanRun {
    ActiveScanFrom(cfg, Reader(q), rounds, 0, -1, 0)
  }

  /** `_active_scan_with_scroll` after the initial scroll-to-load: poll scan_once until it yields a
      usable link, the time budget is spent or the card count has stopped changing. */
  method ActiveScan(cfg: ScanConfig, read: Card -> CardOutcome, rounds: seq<Round>) returns (href: Option<string>, scans: nat, scrolls: nat)
    ensures ScanRun(href, scans, scrolls) == ActiveScanFrom(cfg, read, rounds, 0, -1, 0)
  {
    var scanner := new Scanner();
    var tick: nat := 0;
    var i := 0;
    scans, scrolls := 0, 0;
    href := None;
    assert rounds[0..] == rounds;
    while i < |rounds| && rounds[i].elapsed < cfg.maxSec
      invariant 0 <= i <= |rounds| && tick == i
      invariant var r := ActiveScanFrom(cfg, read, rounds[i..], scanner.idleRounds, scanner.lastCount, tick);
        ScanRun(r.href, r.scans + scans, r.scrolls + scrolls) == ActiveScanFrom(cfg, read, rounds, 0, -1, 0)
    {
      assert rounds[i..][1..] == rounds[i + 1..];
      var h := scanner.ScanOnce(cfg, read, rounds[i].cards);
      scans := scans + 1;
      if Truthy(h) {
        href := h;
        return;
      }
      if tick % ScrollPeriod(cfg) == 0 {
        scrolls := scrolls + 1;
      }
      if scanner.idleRounds >= cfg.idleLimit {
        break;
      }
      tick := tick + 1;
      i := i + 1;
    }
  }

  /** Round `i` ran within the time budget and its scan produced the link `h`. */
  predicate ScannedAt(cfg: ScanConfig, read: Card -> CardOutcome, rounds: seq<Round>, i: int, h: Option<string>) {
    0 <= i < |rounds| && rounds[i].elapsed < cfg.maxSec && ScanWith(cfg, read, rounds[i].cards) == h
  }

  /** The polling loop returns only a link that a scan inside the time budget produced; it runs
      scan_once at most once per round, and at least once when the budget is not spent at the
      first test. */
  lemma {:induction false} ActiveScanSound(cfg: ScanConfig, read: Card -> CardOutcome, rounds: seq<Round>, idle: nat, last: int, tick: nat)
    ensures var r := ActiveScanFrom(cfg, read, rounds, idle, last, tick);
      && r.scans <= |rounds|
      && (rounds != [] && rounds[0].elapsed < cfg.maxSec ==> r.scans >= 1)
      && (r.href.Some? ==> Truthy(r.href) && exists i :: ScannedAt(cfg, read, rounds, i, r.href))
    decreases |rounds|
  {
    if rounds != [] && rounds[0].elapsed < cfg.maxSec {
      var n := |rounds[0].cards|;
      var idle' := if n == last then idle + 1 else 0;
      var r := ActiveScanFrom(cfg, read, rounds, idle, last, tick);
      if !Truthy(ScanWith(cfg, read, rounds[0].cards)) && idle' < cfg.idleLimit {
        ActiveScanSound(cfg, read, rounds[1..], idle', n, tick + 1);
        if r.href.Some? {
          var i :| ScannedAt(cfg, read, rounds[1..], i, r.href);
          assert rounds[1..][i] == rounds[i + 1];
          assert ScannedAt(cfg, read, rounds, i + 1, r.href);
        }
      } else if r.href.Some? {
        assert ScannedAt(cfg, read, rounds, 0, r.href);
      }
    }
  }

  /** Scans still allowed by the idle limit when the card count no longer changes. */
  function StableBudget(cfg: ScanConfig, idle: nat): nat {
    if idle + 1 >= cfg.idleLimit then 1 else cfg.idleLimit - idle
  }

  lemma {:induction false} StableCountFrom(cfg: ScanConfig, read: Card -> CardOutcome, rounds: seq<Round>, idle: nat, last: int, tick: nat)
    requires forall i :: 0 <= i < |rounds| ==> |rounds[i].cards| == last
    ensures ActiveScanFrom(cfg, read, rounds, idle, last, tick).scans <= StableBudget(cfg, idle)
    decreases |rounds|
  {
    if rounds != [] && rounds[0].elapsed < cfg.maxSec && idle + 1 < cfg.idleLimit {
      assert forall i :: 0 <= i < |rounds| - 1 ==> rounds[1..][i] == rounds[i + 1];
      StableCountFrom(cfg, read, rounds[1..], idle + 1, last, tick + 1);
    }
  }

  /** One round of the loop runs one scan and, unless it ends the loop, hands the next rounds the
      updated counters. */
  lemma ScanStep(cfg: ScanConfig, read: Card -> CardOutcome, rounds: seq<Round>, idle: nat, last: int, tick: nat)
    requires rounds != [] && rounds[0].elapsed < cfg.maxSec
    ensures var idle' := if |rounds[0].cards| == last then idle + 1 else 0;
      ActiveScanFrom(cfg, read, rounds, idle, last, tick).scans
        <= 1 + (if idle' >= cfg.idleLimit then 0
                else ActiveScanFrom(cfg, read, rounds[1..], idle', |rounds[0].cards|, tick + 1).scans)
  {
    var h := ScanWith(cfg, read, rounds[0].cards);
    if !Truthy(h) {
      var idle' := if |rounds[0].cards| == last then idle + 1 else 0;
      if idle' < cfg.idleLimit {
        var rest := ActiveScanFrom(cfg, read, rounds[1..], idle', |rounds[0].cards|, tick + 1);
        assert ActiveScanFrom(cfg, read, rounds, idle, last, tick).scans == rest.scans + 1;
      }
    }
  }

  /** When the number of cards on screen never changes, the loop gives up after at most
      idleLimit + 1 scans, whatever the clock says. */
  lemma StableCountStops(cfg: ScanConfig, q: Query, rounds: seq<Round>)
    requires forall i :: 0 <= i < |rounds| ==> |rounds[i].cards| == |rounds[0].cards|
    ensures ActiveScanResult(cfg, q, rounds).scans <= cfg.idleLimit + 1
  {
    if rounds != [] && rounds[0].elapsed < cfg.maxSec {
      var n := |rounds[0].cards|;
      ScanStep(cfg, Reader(q), rounds, 0, -1, 0);
      if 0 < cfg.idleLimit {
        assert forall i :: 0 <= i < |rounds| - 1 ==> rounds[1..][i] == rounds[i + 1];
        StableCountFrom(cfg, Reader(q), rounds[1..], 0, n, 1);
      }
    }
  }

  /** With a scroll period of 1 every scan that does not end the loop with a link is followed by
      a scroll: the tick test `tick % max(1, pause // poll) == 0` never fails. */
  lemma {:induction false} EveryTickScrolls(cfg: ScanConfig, read: Card -> CardOutcome, rounds: seq<Round>, idle: nat, last: int, tick: nat)
    requires ScrollPeriod(cfg) == 1
    ensures var r := ActiveScanFrom(cfg, read, rounds, idle, last, tick);
      r.scrolls + (if Truthy(r.href) then 1 else 0) == r.scans
    decreases |rounds|
  {
    if rounds != [] && rounds[0].elapsed < cfg.maxSec {
      var n := |rounds[0].cards|;
      var idle' := if n == last then idle + 1 else 0;
      if !Truthy(ScanWith(cfg, read, rounds[0].cards)) && idle' < cfg.idleLimit {
        EveryTickScrolls(cfg, read, rounds[1..], idle', n, tick + 1);
      }
    }
  }

  /** Both shipped configurations scroll on every tick (450 // 250 and 420 // 300 are both 1). */
  lemma DefaultsScrollEveryTick(cfg: ScanConfig, q: Query, rounds: seq<Round>)
    requires cfg == WorkerConfig || cfg == TestScrapeConfig
    ensures var r := ActiveScanResult(cfg, q, rounds); r.scrolls + (if Truthy(r.href) then 1 else 0) == r.scans
  {
    EveryTickScrolls(cfg, Reader(q), rounds, 0, -1, 0);
  }

  /** `_find_and_open_match` of the worker: one polling loop; the page is opened when it yields a
      link. */
  method FindAndOpenMatch(cfg: ScanConfig, q: Query, rounds: seq<Round>) returns (found: bool, target: Option<string>)
    ensures found <==> target.Some?
    ensures found ==> Truthy(target) && exists i :: ScannedAt(cfg, Reader(q), rounds, i, target)
    ensures target == ActiveScanResult(cfg, q, rounds).href
  {
    var scans, scrolls;
    target, scans, scrolls := ActiveScan(cfg, Reader(q), rounds);
    ActiveScanSound(cfg, Reader(q), rounds, 0, -1, 0);
    found := target.Some? && target.value != "";
  }
}
