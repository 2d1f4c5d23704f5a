/** The match-status rules of the in-page statistics reader: `getMinute` and `endedFlag` of the
    JavaScript injected by aiscore_worker.py, and the copy of `getMinute` in aiscore_test_scrape.py
    that tries its patterns in a different order. The DOM is not modelled: the reader sees the text
    of the first element matching each status selector, or None when no element matches. */
module AiScoreStatus {
  import opened Wrappers
  import opened TextUtil

  /** Case folding of the JavaScript `i` flag without `u`: ASCII letters only (a non-ASCII
      character never folds onto an ASCII one). */
  function AsciiFoldChar(c: char): (r: char)
    ensures IsAsciiLower(r) <==> IsAsciiLower(c) || 'A' <= c <= 'Z'
  {
    if 'A' <= c <= 'Z' then (c as int + 32) as char else c
  }

  function AsciiFold(s: string): (r: string)
    ensures |r| == |s| && forall i :: 0 <= i < |s| ==> r[i] == AsciiFoldChar(s[i])
  {
    if s == [] then [] else [AsciiFoldChar(s[0])] + AsciiFold(s[1..])
  }

  /** `full\s*time` matches somewhere in `l`. */
  function FullTimeIn(l: string): bool
    decreases |l|
  {
    if |l| >= 4 && l[..4] == "full" && StartsWith(DropWhile(l[4..], IsJsSpace), "time") then true
    else if l == [] then false
    else FullTimeIn(l[1..])
  }

  /** `/finished|ft|ended|full\s*time/i.test(t)`. */
  predicate HasFinishedKeyword(t: string) {
    var l := AsciiFold(t);
    Contains(l, "finished") || Contains(l, "ft") || Contains(l, "ended") || FullTimeIn(l)
  }

  /** After optional whitespace from `j` on, `s` has a colon, optional whitespace and two digits:
      the tail `\s*:\s*\d{2}` of the mm:ss pattern. */
  predicate ColonTwoDigitsAt(s: string, j: nat)
    requires j <= |s|
  {
    var a := SkipForward(s, JavaScript, j);
    a < |s| && s[a] == ':' &&
    var b := SkipForward(s, JavaScript, a + 1);
    b + 2 <= |s| && IsAsciiDigit(s[b]) && IsAsciiDigit(s[b + 1])
  }

  /** The length of the `(\d{1,2})` group when `(\d{1,2})\s*:\s*\d{2}` matches at `i`: the
      greedy two-digit group first, then the one-digit one. */
  function MmssAt(s: string, i: nat): (k: nat)
    requires i <= |s|
    ensures k <= 2 && i + k <= |s| && AllDigits(s[i..i + k])
  {
    if i + 2 <= |s| && IsAsciiDigit(s[i]) && IsAsciiDigit(s[i + 1]) && ColonTwoDigitsAt(s, i + 2) then 2
    else if i + 1 <= |s| && IsAsciiDigit(s[i]) && ColonTwoDigitsAt(s, i + 1) then 1
    else 0
  }

  /** After optional whitespace from `j` on, `s` has an apostrophe or a right single quote. */
  predicate QuoteAt(s: string, j: nat)
    requires j <= |s|
  {
    var a := SkipForward(s, JavaScript, j);
    a < |s| && (s[a] == '\'' || s[a] == '\U{2019}')
  }

  /** The length of the `(\d{1,3})` group when `(\d{1,3})\s*['’]` matches at `i`, trying three,
      two and one digits in turn. */
  function ApostropheAt(s: string, i: nat): (k: nat)
    requires i <= |s|
    ensures k <= 3 && i + k <= |s| && AllDigits(s[i..i + k])
  {
    if i + 3 <= |s| && IsAsciiDigit(s[i]) && IsAsciiDigit(s[i + 1]) && IsAsciiDigit(s[i + 2]) && QuoteAt(s, i + 3) then 3
    else if i + 2 <= |s| && IsAsciiDigit(s[i]) && IsAsciiDigit(s[i + 1]) && QuoteAt(s, i + 2) then 2
    else if i + 1 <= |s| && IsAsciiDigit(s[i]) && QuoteAt(s, i + 1) then 1
    else 0
  }

  /** The two minute patterns of `getMinute`. */
  datatype Pattern = MmssPattern | ApostrophePattern

  /** The most digits the pattern's group takes. */
  function Width(p: Pattern): nat {
    match p
    case MmssPattern => 2
    case ApostrophePattern => 3
  }

  /** The length of the pattern's group when it matches at `i`, 0 when it does not. */
  function GroupAt(p: Pattern, s: string, i: nat): (k: nat)
    requires i <= |s|
    ensures k <= Width(p) && i + k <= |s| && AllDigits(s[i..i + k])
  {
    match p
    case MmssPattern => MmssAt(s, i)
    case ApostrophePattern => ApostropheAt(s, i)
  }

  /** The value of the group of the leftmost match at or after `i`, as `String.prototype.match`
      finds it and `parseInt(…, 10)` reads it. */
  function FindGroup(p: Pattern, s: string, i: nat): (r: Option<nat>)
    requires i <= |s|
    ensures r.Some? ==> exists j :: i <= j < |s| && 0 < GroupAt(p, s, j) && r.value == DecValue(s[j..j + GroupAt(p, s, j)])
    ensures r.Some? ==> r.value < Pow10(Width(p))
    ensures r.None? ==> forall j :: i <= j < |s| ==> GroupAt(p, s, j) == 0
    decreases |s| - i
  {
    if i == |s| then None
    else if GroupAt(p, s, i) > 0 then
      var g := s[i..i + GroupAt(p, s, i)];
      DecValueBound(g);
      Pow10Monotone(|g|, Width(p));
      Some(DecValue(g))
    else FindGroup(p, s, i + 1)
  }

  /** `t.match(/(\d{1,2})\s*:\s*\d{2}/)` read as `parseInt(mmss[1], 10)`: below 100. */
  function Mmss(t: string): (r: Option<nat>)
    ensures r.Some? ==> r.value < 100
  {
    FindGroup(MmssPattern, t, 0)
  }

  /** `t.match(/(\d{1,3})\s*[’']/)` read as `parseInt(m[1], 10)`: below 1000. */
  function ApostropheMinute(t: string): (r: Option<nat>)
    ensures r.Some? ==> r.value < 1000
  {
    FindGroup(ApostrophePattern, t, 0)
  }

  const FinishedMinute := 100

  /** One status text as aiscore_worker.py reads it: the finished keyword first, then mm:ss, then
      the minute with an apostrophe. */
  function WorkerMinuteOf(t: string): (r: Option<nat>)
    ensures HasFinishedKeyword(t) ==> r == Some(FinishedMinute)
    ensures !HasFinishedKeyword(t) && Mmss(t).Some? ==> r == Mmss(t)
    ensures !HasFinishedKeyword(t) && Mmss(t).None? ==> r == ApostropheMinute(t)
    ensures r.Some? ==> r.value < 1000
  {
    if HasFinishedKeyword(t) then Some(FinishedMinute)
    else if Mmss(t).Some? then Mmss(t)
    else ApostropheMinute(t)
  }

  /** One status text as aiscore_test_scrape.py reads it: mm:ss, then the minute with an
      apostrophe, then the finished keyword. */
  function TestScrapeMinuteOf(t: string): (r: Option<nat>)
    ensures Mmss(t).Some? ==> r == Mmss(t)
    ensures Mmss(t).None? && ApostropheMinute(t).Some? ==> r == ApostropheMinute(t)
    ensures Mmss(t).None? && ApostropheMinute(t).None? && HasFinishedKeyword(t) ==> r == Some(FinishedMinute)
    ensures r.None? <==> Mmss(t).None? && ApostropheMinute(t).None? && !HasFinishedKeyword(t)
    ensures r.Some? ==> r.value < 1000
  {
    if Mmss(t).Some? then Mmss(t)
    else if ApostropheMinute(t).Some? then ApostropheMinute(t)
    else if HasFinishedKeyword(t) then Some(FinishedMinute)
    else None
  }

  /** `getMinute`: the first status selector whose element is present and whose trimmed text yields
      a minute; None when there is none. */
  function GetMinute(texts: seq<Option<string>>, minuteOf: string -> Option<nat>): (r: Option<nat>)
    ensures r.Some? ==> exists i :: 0 <= i < |texts| && texts[i].Some? && minuteOf(JsTrim(texts[i].value)) == r
                                  && forall j :: 0 <= j < i ==> texts[j].None? || minuteOf(JsTrim(texts[j].value)).None?
    ensures r.None? ==> forall i :: 0 <= i < |texts| && texts[i].Some? ==> minuteOf(JsTrim(texts[i].value)).None?
  {
    if texts == [] then None
    else if texts[0].Some? && minuteOf(JsTrim(texts[0].value)).Some? then minuteOf(JsTrim(texts[0].value))
    else
      var r := GetMinute(texts[1..], minuteOf);
      assert forall i :: 1 <= i < |texts| ==> texts[i] == texts[1..][i - 1];
      r
  }

  /** The worker's `getMinute`: below 1000, and 100 when the first status text carries the
      finished keyword. */
  function WorkerGetMinute(texts: seq<Option<string>>): (r: Option<nat>)
    ensures r.Some? ==> r.value < 1000
    ensures texts != [] && texts[0].Some? && HasFinishedKeyword(JsTrim(texts[0].value)) ==> r == Some(FinishedMinute)
  {
    GetMinute(texts, WorkerMinuteOf)
  }

  /** The test scraper's `getMinute`: below 1000, and the clock's minute when the first status
      text carries an mm:ss clock. */
  function TestScrapeGetMinute(texts: seq<Option<string>>): (r: Option<nat>)
    ensures r.Some? ==> r.value < 1000
    ensures texts != [] && texts[0].Some? && Mmss(JsTrim(texts[0].value)).Some? ==> r == Mmss(JsTrim(texts[0].value))
  {
    GetMinute(texts, TestScrapeMinuteOf)
  }

  /** `endedFlag`: 1 when the text of the first status element carries the finished keyword. */
  function EndedFlag(text: Option<string>): (r: int)
    ensures r == 1 <==> text.Some? && HasFinishedKeyword(JsTrim(text.value))
    ensures r == 0 || r == 1
  {
    if HasFinishedKeyword(if text.Some? then JsTrim(text.value) else "") then 1 else 0
  }

  /** Two readers that agree on every present status text give the same minute. */
  lemma {:induction false} GetMinuteAgrees(texts: seq<Option<string>>, f: string -> Option<nat>, g: string -> Option<nat>)
    requires forall i :: 0 <= i < |texts| && texts[i].Some? ==> f(JsTrim(texts[i].value)) == g(JsTrim(texts[i].value))
    ensures GetMinute(texts, f) == GetMinute(texts, g)
  {
    if texts != [] {
      assert forall i :: 0 <= i < |texts| - 1 ==> texts[1..][i] == texts[i + 1];
      GetMinuteAgrees(texts[1..], f, g);
    }
  }

  /** Texts without the finished keyword are read alike by the two copies of `getMinute`. */
  lemma OrdersAgreeWithoutKeyword(texts: seq<Option<string>>)
    requires forall i :: 0 <= i < |texts| && texts[i].Some? ==> !HasFinishedKeyword(JsTrim(texts[i].value))
    ensures WorkerGetMinute(texts) == TestScrapeGetMinute(texts)
  {
    GetMinuteAgrees(texts, WorkerMinuteOf, TestScrapeMinuteOf);
  }

  /** When the first status text carries the finished keyword and an mm:ss clock, the worker reads
      the finished minute 100 and the test scraper reads the clock's minute, which is below 100. */
  lemma KeywordOrderMatters(texts: seq<Option<string>>)
    requires texts != [] && texts[0].Some?
    requires HasFinishedKeyword(JsTrim(texts[0].value)) && Mmss(JsTrim(texts[0].value)).Some?
    ensures WorkerGetMinute(texts) == Some(FinishedMinute)
    ensures TestScrapeGetMinute(texts) == Mmss(JsTrim(texts[0].value)) != Some(FinishedMinute)
  {
  }

  /** The same holds for a minute with an apostrophe and no `mm:ss` clock: "90' FT" reads 100 in
      the worker and 90 in the test scraper. */
  lemma KeywordOrderMattersApostrophe(texts: seq<Option<string>>)
    requires texts != [] && texts[0].Some?
    requires var t := JsTrim(texts[0].value);
      HasFinishedKeyword(t) && Mmss(t).None? && ApostropheMinute(t).Some?
    ensures WorkerGetMinute(texts) == Some(FinishedMinute)
    ensures TestScrapeGetMinute(texts) == ApostropheMinute(JsTrim(texts[0].value))
  {
  }

  /** The keyword test has no word boundaries: "Halftime" contains "ft", so the worker reads a
      half-time status as the finished minute and `endedFlag` reports the match as ended. */
  lemma HalftimeReadsAsFinished()
    ensures WorkerGetMinute([Some("Halftime")]) == Some(FinishedMinute)
    ensures EndedFlag(Some("Halftime")) == 1
  {
    HalftimeTrimmed();
    HalftimeKeyword();
  }

  lemma HalftimeTrimmed()
    ensures JsTrim("Halftime") == "Halftime"
  {
    var t := "Halftime";
    assert t[0] == 'H' && t[|t| - 1] == 'e';
    JsTrimUnspaced(t);
  }

  lemma HalftimeKeyword()
    ensures HasFinishedKeyword("Halftime")
  {
    var h := "Halftime";
    var l := AsciiFold(h);
    assert h[3] == 'f' && h[4] == 't';
    assert l[3] == AsciiFoldChar('f') && l[4] == AsciiFoldChar('t');
    assert l[3..5] == "ft";
    ContainsAt(l, "ft", 3);
  }
}
