/** Team-name canonicalisation and fuzzy scoring of aiscore_worker.py (`_clean`, `canonical_team`,
    `fuzzy_score`, `pair_scores`). The copy in aiscore_test_scrape.py is the same code, with the same
    tables, and is modelled by the same members.

    The character-sequence ratio of difflib's SequenceMatcher is not modelled: every scoring function
    takes it as a parameter `ratio`, and results are bounded only where the ratio is. */
module AiScoreMatcher {
  import opened TextUtil

  // ---------------------------------------------------------------------------------------------
  // Character classes of `_clean`
  // ---------------------------------------------------------------------------------------------

  /** Python's `\w` on str patterns, exact up to U+00FF: ASCII letters, digits and underscore,
      the Latin-1 letters and digits. From U+0100 on it over-approximates: every character except
      whitespace, combining marks and the general and CJK punctuation blocks counts as a word
      character, so symbols such as U+20AC or U+2122 are kept where Python blanks them. */
  predicate IsPyWordChar(c: char) {
    || ('a' <= c <= 'z') || ('A' <= c <= 'Z') || ('0' <= c <= '9') || c == '_'
    || c == '\U{AA}' || c == '\U{B2}' || c == '\U{B3}' || c == '\U{B5}' || c == '\U{B9}' || c == '\U{BA}'
    || ('\U{BC}' <= c <= '\U{BE}') || ('\U{C0}' <= c <= '\U{D6}') || ('\U{D8}' <= c <= '\U{F6}')
    || ('\U{F8}' <= c <= '\U{FF}')
    || (c >= '\U{100}' && !IsPySpace(c) && !IsCombining(c)
        && !('\U{2000}' <= c <= '\U{206F}') && !('\U{3000}' <= c <= '\U{303F}'))
  }

  /** Combining diacritical marks (U+0300..U+036F), which `_strip_accents` removes. */
  predicate IsCombining(c: char) { '\U{300}' <= c <= '\U{36F}' }

  /** The Latin-1 characters that NFKD decomposition changes. */
  predicate IsDecomposable(c: char) {
    c == '\U{A0}' || c == '\U{A8}' || c == '\U{AA}' || c == '\U{AF}' || c == '\U{B2}' || c == '\U{B3}'
    || c == '\U{B4}' || c == '\U{B5}' || c == '\U{B8}' || c == '\U{B9}' || c == '\U{BA}'
    || ('\U{BC}' <= c <= '\U{BE}') || ('\U{E0}' <= c <= '\U{E5}') || ('\U{E7}' <= c <= '\U{EF}')
    || ('\U{F1}' <= c <= '\U{F6}') || ('\U{F9}' <= c <= '\U{FD}') || c == '\U{FF}'
  }

  /** NFKD decomposition of one (already lower-cased) character with its combining marks removed. */
  function FoldChar(c: char): (r: string)
    ensures forall i :: 0 <= i < |r| ==> !IsDecomposable(r[i]) && !IsCombining(r[i])
    ensures IsCombining(c) ==> r == ""
    ensures !IsDecomposable(c) && !IsCombining(c) ==> r == [c]
  {
    if IsCombining(c) then ""
    else if c == '\U{A0}' || c == '\U{A8}' || c == '\U{AF}' || c == '\U{B4}' || c == '\U{B8}' then " "
    else if c == '\U{AA}' || ('\U{E0}' <= c <= '\U{E5}') then "a"
    else if c == '\U{BA}' || ('\U{F2}' <= c <= '\U{F6}') then "o"
    else if c == '\U{B2}' then "2"
    else if c == '\U{B3}' then "3"
    else if c == '\U{B9}' then "1"
    else if c == '\U{B5}' then "\U{3BC}"
    else if c == '\U{BC}' then "1\U{2044}4"
    else if c == '\U{BD}' then "1\U{2044}2"
    else if c == '\U{BE}' then "3\U{2044}4"
    else if c == '\U{E7}' then "c"
    else if '\U{E8}' <= c <= '\U{EB}' then "e"
    else if '\U{EC}' <= c <= '\U{EF}' then "i"
    else if c == '\U{F1}' then "n"
    else if '\U{F9}' <= c <= '\U{FC}' then "u"
    else if c == '\U{FD}' || c == '\U{FF}' then "y"
    else [c]
  }

  /** `_strip_accents`: NFKD, then drop the combining characters. */
  function StripAccents(s: string): (r: string)
    ensures forall i :: 0 <= i < |r| ==> !IsDecomposable(r[i]) && !IsCombining(r[i])
  {
    if s == [] then [] else FoldChar(s[0]) + StripAccents(s[1..])
  }

  /** The accented lower-case Latin-1 letters fold to their base letters. */
  lemma FoldAccentedLetters(c: char)
    ensures '\U{E0}' <= c <= '\U{E5}' ==> FoldChar(c) == "a"
    ensures c == '\U{E7}' ==> FoldChar(c) == "c"
    ensures '\U{E8}' <= c <= '\U{EB}' ==> FoldChar(c) == "e"
    ensures '\U{EC}' <= c <= '\U{EF}' ==> FoldChar(c) == "i"
    ensures c == '\U{F1}' ==> FoldChar(c) == "n"
    ensures '\U{F2}' <= c <= '\U{F6}' ==> FoldChar(c) == "o"
    ensures '\U{F9}' <= c <= '\U{FC}' ==> FoldChar(c) == "u"
    ensures c == '\U{FD}' || c == '\U{FF}' ==> FoldChar(c) == "y"
  {
  }

  /** The fold works character by character: stripping a concatenation strips each part. */
  lemma {:induction false} StripAccentsAppend(s: string, t: string)
    ensures StripAccents(s + t) == StripAccents(s) + StripAccents(t)
    decreases |s|
  {
    if s == [] {
      assert s + t == t;
    } else {
      assert (s + t)[0] == s[0];
      assert (s + t)[1..] == s[1..] + t;
      StripAccentsAppend(s[1..], t);
    }
  }

  /** An accented letter after a plain prefix: "café" becomes "cafe". */
  lemma StripAccentsSample()
    ensures StripAccents("caf\U{E9}") == "cafe"
  {
    var pre, last := "caf", "\U{E9}";
    assert "caf\U{E9}" == pre + last;
    StripAccentsAppend(pre, last);
    StripAccentsPlain(pre);
    assert StripAccents(last) == FoldChar('\U{E9}') + StripAccents("");
  }

  /** `re.sub(r"[^\w\s]", " ", s)`. */
  function BlankPunctuation(s: string): (r: string)
    ensures |r| == |s|
    ensures forall i :: 0 <= i < |s| ==> r[i] == (if IsPyWordChar(s[i]) || IsPySpace(s[i]) then s[i] else ' ')
  {
    if s == [] then []
    else [if IsPyWordChar(s[0]) || IsPySpace(s[0]) then s[0] else ' '] + BlankPunctuation(s[1..])
  }

  /** `re.sub(r"\s+", " ", s)`: every run of whitespace becomes one space. */
  function CollapseWhitespace(s: string): string
    decreases |s|
  {
    if s == [] then []
    else if IsPySpace(s[0]) then " " + CollapseWhitespace(DropWhile(s[1..], IsPySpace))
    else [s[0]] + CollapseWhitespace(s[1..])
  }

  /** `_clean`: lower-case, strip accents, blank punctuation, collapse whitespace, strip. The
      output contains no punctuation, no runs of spaces, and is trimmed. */
  function Clean(s: string): (r: string)
    ensures IsCleaned(r)
  {
    var p := BlankPunctuation(StripAccents(Lower(s)));
    BlankedChars(Lower(s));
    CollapseWhitespaceShape(p);
    StripCollapsed(CollapseWhitespace(p));
    PyStrip(CollapseWhitespace(p))
  }

  /** What `_clean` promises about its output: only word characters and single interior spaces. */
  predicate IsCleaned(s: string) {
    SingleSpaced(s) && SpacedOver(s, KeptChar)
  }

  /** A word character NFKD leaves alone. */
  predicate KeptChar(c: char) {
    IsPyWordChar(c) && !IsDecomposable(c)
  }

  /** Every character of `s` is a plain space or satisfies `keep` without being whitespace. */
  predicate SpacedOver(s: string, keep: char -> bool) {
    forall i :: 0 <= i < |s| ==> s[i] == ' ' || (keep(s[i]) && !IsPySpace(s[i]))
  }

  /** The characters `_clean` may leave before its final strip: word characters and plain spaces. */
  predicate CollapsedChars(r: string) {
    SpacedOver(r, KeptChar)
  }

  predicate NoDoubleSpace(r: string) {
    forall i :: 0 <= i < |r| - 1 ==> !(r[i] == ' ' && r[i + 1] == ' ')
  }

  /** The characters blanking leaves: word characters NFKD leaves alone, and whitespace. */
  predicate WordOrSpaceChars(s: string) {
    forall i :: 0 <= i < |s| ==> KeptChar(s[i]) || IsPySpace(s[i])
  }

  /** Collapsing a string of `keep` and whitespace characters leaves `keep` characters and single
      plain spaces, and keeps a leading non-space character. */
  lemma {:induction false} CollapseKeeps(s: string, keep: char -> bool)
    requires forall i :: 0 <= i < |s| ==> keep(s[i]) || IsPySpace(s[i])
    ensures SpacedOver(CollapseWhitespace(s), keep) && NoDoubleSpace(CollapseWhitespace(s))
    ensures s != [] && !IsPySpace(s[0]) ==> CollapseWhitespace(s) != [] && CollapseWhitespace(s)[0] == s[0]
    decreases |s|
  {
    if s == [] {
    } else if IsPySpace(s[0]) {
      var rest := DropWhile(s[1..], IsPySpace);
      DropKeeps(s[1..], keep);
      CollapseKeeps(rest, keep);
      ConsSpaced(' ', CollapseWhitespace(rest), keep);
    } else {
      assert forall i :: 0 <= i < |s| - 1 ==> s[1..][i] == s[i + 1];
      CollapseKeeps(s[1..], keep);
      ConsSpaced(s[0], CollapseWhitespace(s[1..]), keep);
    }
  }

  /** Dropping leading whitespace keeps the `keep`-or-space property and leaves no leading space. */
  lemma DropKeeps(s: string, keep: char -> bool)
    requires forall i :: 0 <= i < |s| ==> keep(s[i]) || IsPySpace(s[i])
    ensures var r := DropWhile(s, IsPySpace);
      (forall i :: 0 <= i < |r| ==> keep(r[i]) || IsPySpace(r[i])) && (r == [] || !IsPySpace(r[0]))
  {
    var r := DropWhile(s, IsPySpace);
    forall i | 0 <= i < |r| ensures keep(r[i]) || IsPySpace(r[i]) {
      assert r[i] == s[|s| - |r| + i];
    }
  }

  /** Putting a space before a string that does not start with one, or a `keep` character before
      any string, keeps the collapsed shape. */
  lemma ConsSpaced(c: char, t: string, keep: char -> bool)
    requires SpacedOver(t, keep) && NoDoubleSpace(t)
    requires c == ' ' || (keep(c) && !IsPySpace(c))
    requires c == ' ' ==> t == [] || t[0] != ' '
    ensures SpacedOver([c] + t, keep) && NoDoubleSpace([c] + t)
  {
    var r := [c] + t;
    assert forall i :: 1 <= i < |r| ==> r[i] == t[i - 1];
  }

  lemma CollapseWhitespaceShape(s: string)
    requires WordOrSpaceChars(s)
    ensures CollapsedChars(CollapseWhitespace(s)) && NoDoubleSpace(CollapseWhitespace(s))
  {
    CollapseKeeps(s, KeptChar);
  }

  /** Stripping a string of `keep` characters and single spaces leaves a single-spaced one. */
  lemma StripKeeps(q: string, keep: char -> bool)
    requires SpacedOver(q, keep) && NoDoubleSpace(q)
    ensures SingleSpaced(PyStrip(q)) && SpacedOver(PyStrip(q), keep)
  {
    var r := PyStrip(q);
    SliceSpaced(q, keep, StripStart(q), |r|);
    assert IsPySpace(' ');
  }

  /** Every substring of a string of `keep` characters and single spaces is one too. */
  lemma SliceSpaced(q: string, keep: char -> bool, k: nat, n: nat)
    requires k + n <= |q| && SpacedOver(q, keep) && NoDoubleSpace(q)
    ensures SpacedOver(q[k..k + n], keep) && NoDoubleSpace(q[k..k + n])
  {
    var r := q[k..k + n];
    assert forall i :: 0 <= i < n ==> r[i] == q[k + i];
  }

  /** Stripping a collapsed string leaves a cleaned one. */
  lemma StripCollapsed(q: string)
    requires CollapsedChars(q) && NoDoubleSpace(q)
    ensures IsCleaned(PyStrip(q))
  {
    StripKeeps(q, KeptChar);
  }

  /** Blanking the punctuation of an accent-stripped string leaves word and space characters. */
  lemma BlankedChars(s: string)
    ensures WordOrSpaceChars(BlankPunctuation(StripAccents(s)))
  {
  }

  // ---------------------------------------------------------------------------------------------
  // canonical_team
  // ---------------------------------------------------------------------------------------------

  const Stopwords: set<string> := {
    "fc", "cf", "sc", "afc", "ac", "as", "bc", "bk", "fk", "sk", "kf", "ks", "od", "nk", "cd", "sd", "ss", "ssc",
    "u", "u17", "u18", "u19", "u20", "u21", "u22", "u23", "b", "ii", "iii", "2", "team", "club", "deportivo",
    "atletico", "athletic", "real", "sporting", "univ", "universidad", "borussia", "sv", "tsv", "ssv",
    "c.f.", "s.c.", "f.c.", "s.s.", "c.d.", "c.a.", "c.s.", "cf.", "sc.", "fc.", "sad", "sp.", "calcio",
    "city", "united", "utd"
  }

  const Alias: map<string, string> := map[
    "cote divoire" := "ivory coast", "cote d ivoire" := "ivory coast", "cote-d-ivoire" := "ivory coast",
    "c\U{F4}te d ivoire" := "ivory coast", "korea republic" := "south korea", "republic of korea" := "south korea",
    "korea dpr" := "north korea", "viet nam" := "vietnam", "u s a" := "usa", "u.s.a" := "usa",
    "uae" := "united arab emirates", "u.a.e" := "united arab emirates", "dr congo" := "congo dr",
    "congo drc" := "congo dr", "cape verde" := "cabo verde", "czechia" := "czech republic",
    "fyrom" := "north macedonia", "bosnia herzegovina" := "bosnia and herzegovina",
    "man utd" := "manchester united", "man united" := "manchester united", "man u" := "manchester united",
    "man city" := "manchester city", "psg" := "paris saint germain", "inter" := "inter milan",
    "bayern" := "bayern munich", "ath bilbao" := "athletic bilbao"
  ]

  /** The reserve and age-group markers dropped when they end the token list. */
  const ReserveMarkers: set<string> := {"u19", "u20", "u21", "u23", "b", "ii", "iii", "2"}

  /** `_ALIAS.get(s, s)`. */
  function AliasOf(s: string): string {
    if s in Alias then Alias[s] else s
  }

  /** `[t for t in ts if t not in _STOPWORDS]`: no stop-word is kept, every other token is kept as
      often as it occurs, and DropStopwordsAppend keeps them in order. */
  function DropStopwords(ts: seq<string>): (r: seq<string>)
    ensures forall i :: 0 <= i < |r| ==> r[i] !in Stopwords
    ensures forall t :: t !in Stopwords ==> multiset(r)[t] == multiset(ts)[t]
    ensures |r| <= |ts|
  {
    if ts == [] then []
    else
      assert ts == [ts[0]] + ts[1..];
      if ts[0] in Stopwords then DropStopwords(ts[1..])
      else [ts[0]] + DropStopwords(ts[1..])
  }

  /** Filtering a concatenation filters each part and keeps them in order. */
  lemma {:induction false} DropStopwordsAppend(a: seq<string>, b: seq<string>)
    ensures DropStopwords(a + b) == DropStopwords(a) + DropStopwords(b)
    decreases |a|
  {
    if a == [] {
      assert a + b == b;
    } else {
      var ab := a + b;
      assert ab[0] == a[0] && ab[1..] == a[1..] + b;
      DropStopwordsAppend(a[1..], b);
      var x, y := DropStopwords(a[1..]), DropStopwords(b);
      if a[0] !in Stopwords {
        assert [a[0]] + (x + y) == ([a[0]] + x) + y;
      }
    }
  }

  /** The trailing reserve/age marker rule of `canonical_team`. */
  function DropReserveSuffix(ts: seq<string>): seq<string> {
    if ts != [] && ts[|ts| - 1] in ReserveMarkers then ts[..|ts| - 1] else ts
  }

  /** `canonical_team`. Every reserve marker is itself a stop-word, so the suffix rule never
      fires, and the join of non-empty tokens has nothing for the final strip to remove: the
      canonical name is the stop-word-filtered token list joined by single spaces. */
  function CanonicalTeam(s: string): (r: string)
    ensures r == Join(DropStopwords(Words(AliasOf(Clean(s)))))
  {
    var ts := DropStopwords(Words(AliasOf(Clean(s))));
    assert ReserveMarkers <= Stopwords;
    assert DropReserveSuffix(ts) == ts;
    JoinSingleSpaced(ts);
    StripSingleSpaced(Join(ts));
    PyStrip(Join(DropReserveSuffix(ts)))
  }

  /** The canonical tokens of a name, as `set(canonical_team(s).split())` sees them. */
  function TokenSet(s: string): set<string> {
    set t | t in Words(s)
  }

  /** The canonical name splits back into its tokens: it has no stop-word token, no leading,
      trailing or doubled space, and never ends in a reserve marker. */
  lemma CanonicalTeamShape(s: string)
    ensures var ts := DropStopwords(Words(AliasOf(Clean(s))));
      && Words(CanonicalTeam(s)) == ts
      && SingleSpaced(CanonicalTeam(s))
      && (forall t :: t in Words(CanonicalTeam(s)) ==> t !in Stopwords && t !in ReserveMarkers)
  {
    var ts := DropStopwords(Words(AliasOf(Clean(s))));
    assert ReserveMarkers <= Stopwords;
    assert WellFormedTokens(ts);
    WordsOfJoin(ts);
    JoinSingleSpaced(ts);
  }

  /** Four alias keys can never be looked up: `_clean` has already removed their hyphens and dots
      (so "U.A.E" cleans to "u a e", which is not a key), and their accent. */
  lemma UnreachableAliasKeys(s: string)
    ensures Clean(s) != "cote-d-ivoire" && Clean(s) != "c\U{F4}te d ivoire"
    ensures Clean(s) != "u.s.a" && Clean(s) != "u.a.e"
  {
    CleanedNotPunctuated(Clean(s));
  }

  lemma CleanedNotPunctuated(c: string)
    requires IsCleaned(c)
    ensures c != "cote-d-ivoire" && c != "c\U{F4}te d ivoire" && c != "u.s.a" && c != "u.a.e"
  {
    if |c| > 4 {
      assert IsPyWordChar(c[1]) || c[1] == ' ';
      assert !IsDecomposable(c[1]);
      assert IsPyWordChar(c[4]) || c[4] == ' ';
    } else if |c| > 1 {
      assert IsPyWordChar(c[1]) || c[1] == ' ';
    }
  }

  /** Lower-case ASCII letters and spaces. */
  predicate PlainChars(t: string) {
    forall i :: 0 <= i < |t| ==> IsAsciiLower(t[i]) || t[i] == ' '
  }

  /** A name that lower-cases to plain single-spaced ASCII words is cleaned to its lower-casing. */
  lemma CleanOfPlain(s: string)
    requires PlainChars(Lower(s)) && SingleSpaced(Lower(s))
    ensures Clean(s) == Lower(s)
  {
    var t := Lower(s);
    StripAccentsPlain(t);
    assert BlankPunctuation(t) == t;
    CollapseSingleSpaced(t);
    StripSingleSpaced(t);
  }

  lemma {:induction false} StripAccentsPlain(t: string)
    requires PlainChars(t)
    ensures StripAccents(t) == t
    decreases |t|
  {
    if t != [] {
      assert FoldChar(t[0]) == [t[0]];
      assert PlainChars(t[1..]) by {
        forall i | 0 <= i < |t| - 1 ensures IsAsciiLower(t[1..][i]) || t[1..][i] == ' ' {
          assert t[1..][i] == t[i + 1];
        }
      }
      StripAccentsPlain(t[1..]);
      assert t == [t[0]] + t[1..];
    }
  }

  /** Only plain spaces, never two in a row. */
  predicate OnlySingleSpaces(t: string) {
    (forall i :: 0 <= i < |t| ==> IsPySpace(t[i]) ==> t[i] == ' ') && NoDoubleSpace(t)
  }

  /** Collapsing whitespace changes nothing in a string whose only whitespace is single spaces. */
  lemma {:induction false} CollapseSingleSpaced(t: string)
    requires OnlySingleSpaces(t)
    ensures CollapseWhitespace(t) == t
    decreases |t|
  {
    if t != [] {
      var u := t[1..];
      OnlySingleSpacesTail(t);
      CollapseSingleSpaced(u);
      if IsPySpace(t[0]) {
        assert u == [] || u[0] != ' ';
        assert DropWhile(u, IsPySpace) == u;
      }
      assert t == [t[0]] + u;
    }
  }

  lemma OnlySingleSpacesTail(t: string)
    requires t != [] && OnlySingleSpaces(t)
    ensures OnlySingleSpaces(t[1..])
  {
    var u := t[1..];
    assert forall i :: 0 <= i < |u| ==> u[i] == t[i + 1];
  }

  // ---------------------------------------------------------------------------------------------
  // fuzzy_score and pair_scores
  // ---------------------------------------------------------------------------------------------

  /** The token part of `fuzzy_score`: |A ∩ B| / |A ∪ B|, and 0 when both sets are empty. */
  function Jaccard(ta: set<string>, tb: set<string>): (r: real)
    ensures 0.0 <= r <= 1.0
    ensures ta == {} && tb == {} ==> r == 0.0
    ensures ta != {} || tb != {} ==> r * (|ta + tb| as real) == |ta * tb| as real
  {
    if ta != {} || tb != {} then
      SubsetCardinality(ta * tb, ta + tb);
      var x :| x in ta + tb;
      assert {x} <= ta + tb;
      SubsetCardinality({x}, ta + tb);
      Ratio(|ta * tb| as real, |ta + tb| as real);
      (|ta * tb| as real) / (|ta + tb| as real)
    else 0.0
  }

  lemma Ratio(a: real, b: real)
    requires 0.0 <= a <= b && 0.0 < b
    ensures 0.0 <= a / b <= 1.0 && (a / b) * b == a
  {
  }

  lemma SubsetCardinality(a: set<string>, b: set<string>)
    requires a <= b
    ensures |a| <= |b|
    ensures |b - a| == |b| - |a|
  {
    assert b == a + (b - a);
    assert a !! (b - a);
  }

  lemma JaccardSymmetric(ta: set<string>, tb: set<string>)
    ensures Jaccard(ta, tb) == Jaccard(tb, ta)
  {
    assert ta * tb == tb * ta && ta + tb == tb + ta;
  }

  /** The token part is 1 exactly when both token sets are the same non-empty set. */
  lemma JaccardOne(ta: set<string>, tb: set<string>)
    ensures Jaccard(ta, tb) == 1.0 <==> ta == tb && ta != {}
  {
    if Jaccard(ta, tb) == 1.0 {
      var i, u := ta * tb, ta + tb;
      assert |i| == |u|;
      assert i <= u;
      assert |u - i| == |u| - |i|;
      assert u - i == {};
      assert forall t :: t in ta ==> t in tb by {
        forall t | t in ta ensures t in tb { assert t in u; }
      }
      assert forall t :: t in tb ==> t in ta by {
        forall t | t in tb ensures t in ta { assert t in u; }
      }
    }
    if ta == tb && ta != {} {
      assert ta * tb == ta + tb;
    }
  }

  /** `fuzzy_score`: 0.6 times the ratio of the canonical names plus 0.4 times the token Jaccard
      index; in [0, 1] whenever the ratio is. */
  function FuzzyScore(ratio: (string, string) -> real, a: string, b: string): (r: real)
    ensures var ca, cb := CanonicalTeam(a), CanonicalTeam(b);
      && (0.0 <= ratio(ca, cb) <= 1.0 ==> 0.0 <= r <= 1.0)
      && (ca == "" && cb == "" ==> r == 0.6 * ratio("", ""))
  {
    var ca, cb := CanonicalTeam(a), CanonicalTeam(b);
    assert ca == "" ==> TokenSet(ca) == {};
    assert cb == "" ==> TokenSet(cb) == {};
    0.6 * ratio(ca, cb) + 0.4 * Jaccard(TokenSet(ca), TokenSet(cb))
  }

  /** Names that canonicalise to the same non-empty string score exactly 1 when the ratio of a
      string with itself is 1 (as SequenceMatcher's is). */
  lemma FuzzyScoreIdentical(ratio: (string, string) -> real, a: string, b: string)
    requires CanonicalTeam(a) == CanonicalTeam(b)
    requires CanonicalTeam(a) != ""
    requires ratio(CanonicalTeam(a), CanonicalTeam(a)) == 1.0
    ensures FuzzyScore(ratio, a, b) == 1.0
  {
    var c := CanonicalTeam(a);
    CanonicalTeamShape(a);
    JoinSingleSpaced(Words(c));
    assert Words(c) != [];
    assert Words(c)[0] in TokenSet(c);
    JaccardOne(TokenSet(c), TokenSet(c));
  }

  /** The score is symmetric when the ratio is symmetric on the two canonical names (difflib does
      not promise that; the token part always is). */
  lemma FuzzyScoreSymmetric(ratio: (string, string) -> real, a: string, b: string)
    requires ratio(CanonicalTeam(a), CanonicalTeam(b)) == ratio(CanonicalTeam(b), CanonicalTeam(a))
    ensures FuzzyScore(ratio, a, b) == FuzzyScore(ratio, b, a)
  {
    JaccardSymmetric(TokenSet(CanonicalTeam(a)), TokenSet(CanonicalTeam(b)));
  }

  /** The three numbers `pair_scores` returns. */
  datatype MatchScore = MatchScore(normalPair: real, swappedPair: real, singleBest: real) {
    /** `max(n_pair, s_pair)`, the primary acceptance signal of the scanner. */
    function PairBest(): real {
      if normalPair >= swappedPair then normalPair else swappedPair
    }
  }

  function Min(x: real, y: real): real { if x <= y then x else y }
  function Max(x: real, y: real): real { if x >= y then x else y }

  /** `pair_scores`: the same-order and swapped pair scores are each the weaker of their two
      side scores, and the single-team score is the strongest of all four, so neither pair score
      exceeds it and it is one of the four side scores. */
  function PairScores(ratio: (string, string) -> real, qHome: string, qAway: string, cHome: string, cAway: string)
    : (r: MatchScore)
    ensures r.normalPair <= r.singleBest && r.swappedPair <= r.singleBest
    ensures r.PairBest() <= r.singleBest
    ensures FuzzyScore(ratio, qHome, cHome) <= r.singleBest && FuzzyScore(ratio, qAway, cAway) <= r.singleBest
    ensures FuzzyScore(ratio, qHome, cAway) <= r.singleBest && FuzzyScore(ratio, qAway, cHome) <= r.singleBest
    ensures r.normalPair <= FuzzyScore(ratio, qHome, cHome) && r.normalPair <= FuzzyScore(ratio, qAway, cAway)
    ensures r.swappedPair <= FuzzyScore(ratio, qHome, cAway) && r.swappedPair <= FuzzyScore(ratio, qAway, cHome)
    ensures r.singleBest == FuzzyScore(ratio, qHome, cHome) || r.singleBest == FuzzyScore(ratio, qAway, cAway)
         || r.singleBest == FuzzyScore(ratio, qHome, cAway) || r.singleBest == FuzzyScore(ratio, qAway, cHome)
  {
    var hh, aa := FuzzyScore(ratio, qHome, cHome), FuzzyScore(ratio, qAway, cAway);
    var ha, ah := FuzzyScore(ratio, qHome, cAway), FuzzyScore(ratio, qAway, cHome);
    Combine(hh, aa, ha, ah)
  }

  /** The arithmetic of `pair_scores` on the four side scores. */
  function Combine(hh: real, aa: real, ha: real, ah: real): (r: MatchScore)
    ensures r.normalPair <= hh && r.normalPair <= aa && (r.normalPair == hh || r.normalPair == aa)
    ensures r.swappedPair <= ha && r.swappedPair <= ah && (r.swappedPair == ha || r.swappedPair == ah)
    ensures hh <= r.singleBest && aa <= r.singleBest && ha <= r.singleBest && ah <= r.singleBest
    ensures r.singleBest == hh || r.singleBest == aa || r.singleBest == ha || r.singleBest == ah
    ensures r.PairBest() <= r.singleBest
  {
    MatchScore(Min(hh, aa), Min(ha, ah), Max(Max(hh, aa), Max(ha, ah)))
  }

  /** Swapping the candidate's home and away exchanges the two pair scores and leaves the
      single-team score and the pair best unchanged. */
  lemma PairScoresSwap(ratio: (string, string) -> real, qHome: string, qAway: string, cHome: string, cAway: string)
    ensures var r, s := PairScores(ratio, qHome, qAway, cHome, cAway), PairScores(ratio, qHome, qAway, cAway, cHome);
      s.normalPair == r.swappedPair && s.swappedPair == r.normalPair && s.singleBest == r.singleBest
      && s.PairBest() == r.PairBest()
  {
    var hh, aa := FuzzyScore(ratio, qHome, cHome), FuzzyScore(ratio, qAway, cAway);
    var ha, ah := FuzzyScore(ratio, qHome, cAway), FuzzyScore(ratio, qAway, cHome);
    CombineSwap(hh, aa, ha, ah);
  }

  /** Exchanging the same-order and the swapped side scores exchanges the two pair scores. */
  lemma CombineSwap(hh: real, aa: real, ha: real, ah: real)
    ensures var r, s := Combine(hh, aa, ha, ah), Combine(ha, ah, hh, aa);
      s.normalPair == r.swappedPair && s.swappedPair == r.normalPair && s.singleBest == r.singleBest
      && s.PairBest() == r.PairBest()
  {
  }

  /** With a ratio bounded in [0, 1], all three scores lie in [0, 1]. */
  lemma PairScoresBounded(ratio: (string, string) -> real, qHome: string, qAway: string, cHome: string, cAway: string)
    requires forall x, y :: 0.0 <= ratio(x, y) <= 1.0
    ensures var r := PairScores(ratio, qHome, qAway, cHome, cAway);
      0.0 <= r.normalPair <= 1.0 && 0.0 <= r.swappedPair <= 1.0 && 0.0 <= r.singleBest <= 1.0
  {
  }

  /** Two names made only of stop-words both canonicalise to "", and then score 0.6 times the ratio
      of two empty strings, with no token part: at most 0.6 for a bounded ratio. */
  lemma EmptyCanonicalScore(ratio: (string, string) -> real, a: string, b: string)
    requires CanonicalTeam(a) == "" && CanonicalTeam(b) == ""
    requires 0.0 <= ratio("", "") <= 1.0
    ensures FuzzyScore(ratio, a, b) == 0.6 * ratio("", "") <= 0.6
  {
  }
}
