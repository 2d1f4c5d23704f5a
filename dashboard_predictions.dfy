/** Team-name normalisation and the 1X2 prediction rules of the dashboard server
    (BetbotOhneLive/server.js): `normalizeName`, JavaScript's `parseInt` as the percentages are read,
    `hasValidPrediction` and `outcomeFromPrediction`. */
module DashboardPredictions {
  import opened Wrappers
  import opened TextUtil

  // ---------------------------------------------------------------------------------------------
  // normalizeName
  // ---------------------------------------------------------------------------------------------

  /** JavaScript's `\w` without the `u` flag. */
  predicate IsJsWordChar(c: char) {
    ('a' <= c <= 'z') || ('A' <= c <= 'Z') || IsAsciiDigit(c) || c == '_'
  }

  predicate IsAsciiAlnumLower(c: char) {
    IsAsciiLower(c) || IsAsciiDigit(c)
  }

  /** `\b` at position `i` of `s`: a word character on exactly one side. */
  predicate Boundary(s: string, i: nat)
    requires i <= |s|
  {
    (i > 0 && IsJsWordChar(s[i - 1])) != (i < |s| && IsJsWordChar(s[i]))
  }

  /** The alternatives of `\b(fc|sc|ac|cf|cd|afc|utd|united|city|club|sv|ss|as)\b`, in order. */
  const ClubWords: seq<string> := ["fc", "sc", "ac", "cf", "cd", "afc", "utd", "united", "city", "club", "sv", "ss", "as"]

  /** The length of the first alternative of `ws` found at `i` with a boundary after it, 0 if none:
      the alternation backtracks to the next word when the closing `\b` fails. */
  function ClubWordAt(s: string, i: nat, ws: seq<string>): (k: nat)
    requires i <= |s|
    ensures i + k <= |s|
  {
    if ws == [] then 0
    else if MatchesAt(s, i, ws[0]) then |ws[0]|
    else
      var k := ClubWordAt(s, i, ws[1..]);
      assert forall j :: 1 <= j < |ws| ==> ws[j] == ws[1..][j - 1];
      k
  }

  /** A positive result is the length of an alternative found at `i` with a boundary after it; a
      zero result means every alternative found at `i` lacks that boundary. */
  lemma {:induction false} ClubWordAtMeaning(s: string, i: nat, ws: seq<string>)
    requires i <= |s|
    ensures var k := ClubWordAt(s, i, ws);
      && (k > 0 ==> (exists j :: 0 <= j < |ws| && |ws[j]| == k && s[i..i + k] == ws[j]) && Boundary(s, i + k))
      && (k == 0 ==> forall j :: 0 <= j < |ws| && ws[j] != [] && i + |ws[j]| <= |s| && s[i..i + |ws[j]|] == ws[j]
                                 ==> !Boundary(s, i + |ws[j]|))
    decreases |ws|
  {
    if ws != [] && !MatchesAt(s, i, ws[0]) {
      ClubWordAtMeaning(s, i, ws[1..]);
      assert forall j :: 1 <= j < |ws| ==> ws[j] == ws[1..][j - 1];
    }
  }

  /** The alternative `w` matches at `i`, followed by a boundary. */
  predicate MatchesAt(s: string, i: nat, w: string)
    requires i <= |s|
  {
    w != [] && i + |w| <= |s| && s[i..i + |w|] == w && Boundary(s, i + |w|)
  }

  /** The global replace of the alternatives `ws` (the club words) by "": scanning from `i`, a
      match starting at a boundary is removed and the scan goes on after it, any other character
      is kept. */
  function StripClubWords(s: string, i: nat, ws: seq<string>): (r: string)
    requires i <= |s|
    ensures |r| <= |s| - i
  {
    Scan(s, i, Matches(s, ws))
  }

  /** The match length of the replace at each position of `s`. */
  function Matches(s: string, ws: seq<string>): (ms: seq<nat>)
    ensures |ms| == |s|
  {
    seq(|s|, q requires 0 <= q < |s| => MatchLen(s, q, ws))
  }

  lemma MatchesIndex(s: string, ws: seq<string>, q: nat)
    requires q < |s|
    ensures Matches(s, ws)[q] == MatchLen(s, q, ws)
  {
  }

  /** A left-to-right replace by "": where `ms` gives a match that fits, it is skipped; any other
      character is kept. */
  function Scan(s: string, i: nat, ms: seq<nat>): (r: string)
    requires i <= |s| && |ms| == |s|
    ensures |r| <= |s| - i
    decreases |s| - i
  {
    if i == |s| then []
    else if 0 < ms[i] <= |s| - i then Scan(s, i + ms[i], ms)
    else [s[i]] + Scan(s, i + 1, ms)
  }

  /** The length of the match the replace takes at `i`: one must start at a boundary. */
  function MatchLen(s: string, i: nat, ws: seq<string>): (k: nat)
    requires i <= |s|
    ensures i + k <= |s|
  {
    if Boundary(s, i) then ClubWordAt(s, i, ws) else 0
  }

  /** The characters of `s` that satisfy `keep`, in order (a global replace of the others by ""):
      every kept character satisfies `keep`, each such character is kept as often as it occurs,
      and FilterAppend keeps them in order. */
  function Filter(s: string, keep: char -> bool): (r: string)
    ensures |r| <= |s| && forall i :: 0 <= i < |r| ==> keep(r[i])
    ensures forall c {:trigger multiset(r)[c]} :: keep(c) ==> multiset(r)[c] == multiset(s)[c]
  {
    if s == [] then []
    else
      assert s == [s[0]] + s[1..];
      (if keep(s[0]) then [s[0]] else []) + Filter(s[1..], keep)
  }

  /** Filtering a concatenation filters each part and keeps them in order. */
  lemma {:induction false} FilterAppend(a: string, b: string, keep: char -> bool)
    ensures Filter(a + b, keep) == Filter(a, keep) + Filter(b, keep)
    decreases |a|
  {
    if a == [] {
      assert a + b == b;
    } else {
      assert (a + b)[0] == a[0] && (a + b)[1..] == a[1..] + b;
      FilterAppend(a[1..], b, keep);
    }
  }

  predicate NotJsSpace(c: char) { !IsJsSpace(c) }

  /** `String(s || "")`. */
  function NameText(s: Option<string>): string {
    if s.Some? then s.value else ""
  }

  /** `normalizeName`: lower-case, remove the club words, remove whitespace, keep `[a-z0-9]`. */
  function NormalizeName(s: Option<string>): (r: string)
    ensures forall i :: 0 <= i < |r| ==> IsAsciiAlnumLower(r[i])
  {
    Filter(Filter(StripClubWords(Lower(NameText(s)), 0, ClubWords), NotJsSpace), IsAsciiAlnumLower)
  }

  predicate PlainName(s: string) {
    forall i :: 0 <= i < |s| ==> IsAsciiAlnumLower(s[i])
  }

  lemma {:induction false} FilterKeepsAll(s: string, keep: char -> bool)
    requires forall i :: 0 <= i < |s| ==> keep(s[i])
    ensures Filter(s, keep) == s
  {
    if s != [] {
      assert forall i :: 0 <= i < |s| - 1 ==> s[1..][i] == s[i + 1];
      FilterKeepsAll(s[1..], keep);
      assert Filter(s, keep) == [s[0]] + s[1..];
    }
  }

  lemma {:induction false} StripInsideWord(s: string, i: nat, ws: seq<string>)
    requires PlainName(s) && 0 < i <= |s|
    ensures StripClubWords(s, i, ws) == s[i..]
    decreases |s| - i
  {
    if i < |s| {
      assert !Boundary(s, i);
      StripInsideWord(s, i + 1, ws);
      assert s[i..] == [s[i]] + s[i + 1..];
    }
  }

  lemma LowerPlain(s: string)
    requires PlainName(s)
    ensures Lower(s) == s
  {
  }

  /** In a name made only of `[a-z0-9]` the sole boundaries are its two ends, so an alternative
      matches at the start exactly when it is the whole name. */
  lemma {:induction false} ClubWordAtPlain(s: string, ws: seq<string>)
    requires PlainName(s) && s != []
    ensures ClubWordAt(s, 0, ws) == if s in ws then |s| else 0
  {
    if ws != [] {
      ClubWordAtPlain(s, ws[1..]);
      var w := ws[0];
      if w != [] && |w| <= |s| && s[0..|w|] == w {
        if |w| < |s| {
          assert !Boundary(s, |w|);
        } else {
          assert s[0..|w|] == s;
        }
      }
      assert s in ws <==> s == w || s in ws[1..];
    }
  }

  /** Inside a name made only of `[a-z0-9]` only a whole-word alternative is removed. */
  lemma StripPlain(s: string, ws: seq<string>)
    requires PlainName(s) && s != []
    ensures StripClubWords(s, 0, ws) == if s in ws then "" else s
  {
    assert Boundary(s, 0);
    ClubWordAtPlain(s, ws);
    if s in ws {
      assert StripClubWords(s, |s|, ws) == [];
    } else {
      StripInsideWord(s, 1, ws);
      assert [s[0]] + s[1..] == s;
    }
  }

  /** The alternatives are runs of word characters, as every club word is. */
  predicate WordAlternatives(ws: seq<string>) {
    forall j :: 0 <= j < |ws| ==> forall k :: 0 <= k < |ws[j]| ==> IsJsWordChar(ws[j][k])
  }

  lemma ClubWordsAreWords()
    ensures WordAlternatives(ClubWords)
  {
  }

  /** Two positions at which every alternative matches alike give the same match. */
  lemma {:induction false} ClubWordAtAlike(s: string, i: nat, t: string, j: nat, ws: seq<string>)
    requires i <= |s| && j <= |t|
    requires forall k :: 0 <= k < |ws| ==> MatchesAt(s, i, ws[k]) == MatchesAt(t, j, ws[k])
    ensures ClubWordAt(s, i, ws) == ClubWordAt(t, j, ws)
    decreases |ws|
  {
    if ws != [] {
      assert forall k :: 0 <= k < |ws| - 1 ==> ws[1..][k] == ws[k + 1];
      ClubWordAtAlike(s, i, t, j, ws[1..]);
    }
  }

  /** A space ends a word like the end of the text does: up to `|a|` the boundaries of
      `a + " " + b` are those of `a`, and after the space those of `b`. */
  lemma BoundaryLeft(a: string, b: string, i: nat)
    requires i <= |a|
    ensures Boundary(a + " " + b, i) == Boundary(a, i)
  {
    var t := a + " " + b;
    if i > 0 { assert t[i - 1] == a[i - 1]; }
    if i < |a| { assert t[i] == a[i]; } else { assert t[i] == ' '; }
  }

  lemma BoundaryRight(a: string, b: string, j: nat)
    requires j <= |b|
    ensures Boundary(a + " " + b, |a| + 1 + j) == Boundary(b, j)
  {
    var t := a + " " + b;
    if j > 0 { assert t[|a| + j] == b[j - 1]; } else { assert t[|a|] == ' '; }
    if j < |b| { assert t[|a| + 1 + j] == b[j]; }
  }

  /** No alternative made of word characters matches across the space. */
  lemma MatchesAtLeft(a: string, b: string, i: nat, w: string)
    requires i <= |a| && forall k :: 0 <= k < |w| ==> IsJsWordChar(w[k])
    ensures MatchesAt(a + " " + b, i, w) == MatchesAt(a, i, w)
  {
    var t := a + " " + b;
    if i + |w| <= |a| {
      assert t[i..i + |w|] == a[i..i + |w|];
      BoundaryLeft(a, b, i + |w|);
    } else if w != [] && i + |w| <= |t| {
      assert t[i..i + |w|][|a| - i] == ' ';
      assert IsJsWordChar(w[|a| - i]);
    }
  }

  lemma MatchesAtRight(a: string, b: string, j: nat, w: string)
    requires j <= |b|
    ensures MatchesAt(a + " " + b, |a| + 1 + j, w) == MatchesAt(b, j, w)
  {
    var t := a + " " + b;
    if j + |w| <= |b| {
      assert t[|a| + 1 + j..|a| + 1 + j + |w|] == b[j..j + |w|];
      BoundaryRight(a, b, j + |w|);
    }
  }

  /** The match taken at a position of `b` is the one taken after the space in `a + " " + b`. */
  lemma StepRight(a: string, b: string, j: nat, ws: seq<string>)
    requires j < |b|
    ensures var t, p := a + " " + b, |a| + 1 + j;
      t[p] == b[j] && MatchLen(t, p, ws) == MatchLen(b, j, ws)
  {
    var t, p := a + " " + b, |a| + 1 + j;
    BoundaryRight(a, b, j);
    forall n | 0 <= n < |ws| ensures MatchesAt(t, p, ws[n]) == MatchesAt(b, j, ws[n]) {
      MatchesAtRight(a, b, j, ws[n]);
    }
    ClubWordAtAlike(t, p, b, j, ws);
  }

  /** The match taken at a position of `a` is the one taken there in `a + " " + b`; none is taken
      at the space. */
  lemma StepLeft(a: string, b: string, i: nat, ws: seq<string>)
    requires i <= |a| && WordAlternatives(ws)
    ensures var t := a + " " + b;
      && (i < |a| ==> t[i] == a[i] && MatchLen(t, i, ws) == MatchLen(a, i, ws))
      && (i == |a| ==> MatchLen(t, i, ws) == 0)
  {
    var t := a + " " + b;
    BoundaryLeft(a, b, i);
    forall n | 0 <= n < |ws| ensures MatchesAt(t, i, ws[n]) == MatchesAt(a, i, ws[n]) {
      MatchesAtLeft(a, b, i, ws[n]);
    }
    ClubWordAtAlike(t, i, a, i, ws);
  }

  /** `b` sits at `d` in `s`, and `ms` gives the same matches there as `mb` does in `b`. */
  predicate SitsAt(s: string, ms: seq<nat>, d: nat, b: string, mb: seq<nat>)
  {
    && |ms| == |s| && |mb| == |b| && d + |b| <= |s|
    && forall q :: 0 <= q < |b| ==> s[d + q] == b[q] && ms[d + q] == mb[q]
  }

  /** No match of `ms` runs past its end. */
  predicate StaysInside(ms: seq<nat>) {
    forall q :: 0 <= q < |ms| ==> q + ms[q] <= |ms|
  }

  /** The scan of `s` from `d + j` is the scan of `b` from `j` when `b` sits at `d` in `s` and
      the same matches are found at each of its positions. */
  lemma {:induction false} ScanShift(s: string, ms: seq<nat>, d: nat, b: string, mb: seq<nat>, j: nat)
    requires SitsAt(s, ms, d, b, mb) && d + |b| == |s| && j <= |b|
    ensures Scan(s, d + j, ms) == Scan(b, j, mb)
    decreases |b| - j
  {
    if j < |b| {
      var k := mb[j];
      assert ms[d + j] == k && s[d + j] == b[j];
      if 0 < k <= |b| - j {
        ScanShift(s, ms, d, b, mb, j + k);
        ScanSkip(s, ms, d + j);
        ScanSkip(b, mb, j);
      } else {
        ScanShift(s, ms, d, b, mb, j + 1);
        ScanKeep(s, ms, d + j);
        ScanKeep(b, mb, j);
      }
    }
  }

  /** The scan of `s` from `i` is the scan of its prefix `a` followed by the scan of `s` from
      `|a|`, when the same matches are found at the positions of `a` and they stay inside `a`. */
  lemma {:induction false} ScanPrefix(s: string, ms: seq<nat>, a: string, ma: seq<nat>, i: nat)
    requires SitsAt(s, ms, 0, a, ma) && StaysInside(ma) && i <= |a|
    ensures Scan(s, i, ms) == Scan(a, i, ma) + Scan(s, |a|, ms)
    decreases |a| - i
  {
    if i < |a| {
      var k := ma[i];
      assert ms[0 + i] == k && s[0 + i] == a[i] && i + k <= |a|;
      if 0 < k {
        ScanPrefix(s, ms, a, ma, i + k);
        ScanSkip(s, ms, i);
        ScanSkip(a, ma, i);
      } else {
        ScanPrefix(s, ms, a, ma, i + 1);
        ScanKeep(s, ms, i);
        ScanKeep(a, ma, i);
        assert [a[i]] + (Scan(a, i + 1, ma) + Scan(s, |a|, ms)) == ([a[i]] + Scan(a, i + 1, ma)) + Scan(s, |a|, ms);
      }
    }
  }

  /** A match that fits is skipped. */
  lemma ScanSkip(s: string, ms: seq<nat>, i: nat)
    requires |ms| == |s| && i < |s| && 0 < ms[i] <= |s| - i
    ensures Scan(s, i, ms) == Scan(s, i + ms[i], ms)
  {
  }

  /** Where no match fits, the character is kept. */
  lemma ScanKeep(s: string, ms: seq<nat>, i: nat)
    requires |ms| == |s| && i < |s| && !(0 < ms[i] <= |s| - i)
    ensures Scan(s, i, ms) == [s[i]] + Scan(s, i + 1, ms)
  {
  }

  /** Every match of `a` stays inside `a`, and the matches agree with those of `a + " " + b`. */
  lemma LeftAligned(a: string, b: string, ws: seq<string>)
    requires WordAlternatives(ws)
    ensures SitsAt(a + " " + b, Matches(a + " " + b, ws), 0, a, Matches(a, ws))
    ensures StaysInside(Matches(a, ws))
  {
    var t, m, ma := a + " " + b, Matches(a + " " + b, ws), Matches(a, ws);
    forall q | 0 <= q < |a| ensures t[0 + q] == a[q] && m[0 + q] == ma[q] && q + ma[q] <= |ma| {
      StepLeft(a, b, q, ws);
      MatchesIndex(t, ws, q);
      MatchesIndex(a, ws, q);
    }
  }

  /** The matches of `b` agree with those of `a + " " + b` after the space. */
  lemma RightAligned(a: string, b: string, ws: seq<string>)
    ensures SitsAt(a + " " + b, Matches(a + " " + b, ws), |a| + 1, b, Matches(b, ws))
  {
    var t, m, mb, d := a + " " + b, Matches(a + " " + b, ws), Matches(b, ws), |a| + 1;
    forall q | 0 <= q < |b| ensures t[d + q] == b[q] && m[d + q] == mb[q] {
      StepRight(a, b, q, ws);
      MatchesIndex(t, ws, d + q);
      MatchesIndex(b, ws, q);
    }
  }

  /** The global replace works word by word: the club words of two space-separated parts are
      removed from each part on its own, and the space between them stays. */
  lemma StripClubWordsSplit(a: string, b: string)
    ensures StripClubWords(a + " " + b, 0, ClubWords) == StripClubWords(a, 0, ClubWords) + " " + StripClubWords(b, 0, ClubWords)
  {
    var t, ws := a + " " + b, ClubWords;
    var m, ma, mb, d := Matches(t, ws), Matches(a, ws), Matches(b, ws), |a| + 1;
    ClubWordsAreWords();
    LeftAligned(a, b, ws);
    RightAligned(a, b, ws);
    StepLeft(a, b, |a|, ws);
    MatchesIndex(t, ws, |a|);
    ScanPrefix(t, m, a, ma, 0);
    ScanShift(t, m, d, b, mb, 0);
    assert t[|a|] == ' ' && m[|a|] == 0;
  }

  /** A leading club word is removed and the rest kept: "fc porto" becomes " porto". */
  lemma StripLeadingClubWord(w: string, x: string)
    requires w in ClubWords && PlainName(w) && w != []
    requires PlainName(x) && x != [] && x !in ClubWords
    ensures StripClubWords(w + " " + x, 0, ClubWords) == " " + x
  {
    StripClubWordsSplit(w, x);
    StripPlain(w, ClubWords);
    StripPlain(x, ClubWords);
  }

  /** A name made only of `[a-z0-9]` is its own normal form unless it is exactly a club word,
      which normalises to the empty name. */
  lemma NormalizePlain(s: string)
    requires PlainName(s) && s != []
    ensures NormalizeName(Some(s)) == if s in ClubWords then "" else s
  {
    LowerPlain(s);
    StripPlain(s, ClubWords);
    var t := StripClubWords(s, 0, ClubWords);
    FilterKeepsAll(t, NotJsSpace);
    FilterKeepsAll(t, IsAsciiAlnumLower);
  }

  // ---------------------------------------------------------------------------------------------
  // Percentages
  // ---------------------------------------------------------------------------------------------

  function DigitValue(c: char): int {
    if IsAsciiDigit(c) then c as int - '0' as int
    else if 'a' <= c <= 'f' then c as int - 'a' as int + 10
    else if 'A' <= c <= 'F' then c as int - 'A' as int + 10
    else 36
  }

  /** The end of the run of digits of the given radix that starts at `k`. */
  function DigitEnd(s: string, k: nat, radix: int): (e: nat)
    requires k <= |s|
    ensures k <= e <= |s|
    ensures e == |s| || DigitValue(s[e]) >= radix
    decreases |s| - k
  {
    if k < |s| && DigitValue(s[k]) < radix then DigitEnd(s, k + 1, radix) else k
  }

  function RunValue(d: string, radix: int): int {
    if d == [] then 0 else RunValue(d[..|d| - 1], radix) * radix + DigitValue(d[|d| - 1])
  }

  /** `parseInt(s)` without a radix: leading whitespace, an optional sign, a `0x` prefix for
      hexadecimal, then the longest run of digits; None for NaN (no digit). */
  function JsParseInt(s: string): (r: Option<int>)
  {
    SignedDigits(s, SkipForward(s, JavaScript, 0))
  }

  /** `parseInt` gives a number only when the text holds a digit. */
  lemma JsParseIntHasDigit(s: string)
    ensures JsParseInt(s).Some? ==> exists i :: 0 <= i < |s| && IsAsciiDigit(s[i])
  {
    var a := SkipForward(s, JavaScript, 0);
    if JsParseInt(s).Some? {
      var b := if a < |s| && (s[a] == '-' || s[a] == '+') then a + 1 else a;
      assert PrefixedDigits(s, b).Some?;
      assert IsAsciiDigit(s[b]);
    }
  }

  /** What `parseInt` reads from the first non-whitespace position `a` on: an optional sign
      followed by the digits. */
  function SignedDigits(s: string, a: nat): (r: Option<int>)
    requires a <= |s|
  {
    if a < |s| && s[a] == '-' then Negated(PrefixedDigits(s, a + 1))
    else if a < |s| && s[a] == '+' then PrefixedDigits(s, a + 1)
    else PrefixedDigits(s, a)
  }

  function Negated(r: Option<int>): Option<int> {
    if r.Some? then Some(-r.value) else None
  }

  /** What `parseInt` reads after the sign: hexadecimal digits after "0x" or "0X", decimal ones
      otherwise. */
  function PrefixedDigits(s: string, b: nat): (r: Option<int>)
    requires b <= |s|
    ensures r.Some? ==> b < |s| && IsAsciiDigit(s[b])
  {
    if b + 2 <= |s| && s[b] == '0' && (s[b + 1] == 'x' || s[b + 1] == 'X') then DigitRun(s, b + 2, 16)
    else DigitRun(s, b, 10)
  }

  /** The value of the longest run of digits of the radix from `c`; None when there is none. */
  function DigitRun(s: string, c: nat, radix: int): (r: Option<int>)
    requires c <= |s|
    ensures r.Some? ==> c < |s| && DigitValue(s[c]) < radix
  {
    var e := DigitEnd(s, c, radix);
    if e == c then None else Some(RunValue(s[c..e], radix))
  }

  /** What `parseInt` reads when `s` holds whitespace up to `a`, an optional sign up to `b`, an
      optional "0x" or "0X" up to `c` and digits of the matching radix up to `e`, followed by
      anything that does not continue the run: the value of those digits, negated after "-". */
  lemma JsParseIntOf(s: string, a: nat, b: nat, c: nat, e: nat)
    requires a <= b <= c < e <= |s|
    requires forall i :: 0 <= i < a ==> IsJsSpace(s[i])
    requires b == a || (b == a + 1 && (s[a] == '+' || s[a] == '-'))
    requires c == b || (c == b + 2 && s[b] == '0' && (s[b + 1] == 'x' || s[b + 1] == 'X'))
    requires forall i :: c <= i < e ==> DigitValue(s[i]) < (if c == b then 10 else 16)
    requires e == |s| || DigitValue(s[e]) >= (if c == b then 10 else 16)
    requires c == b && e == b + 1 && s[b] == '0' && e < |s| ==> s[e] != 'x' && s[e] != 'X'
    ensures var v := RunValue(s[c..e], if c == b then 10 else 16);
      JsParseInt(s) == Some(if b == a + 1 && s[a] == '-' then -v else v)
  {
    var radix := if c == b then 10 else 16;
    assert !IsJsSpace(s[a]) by {
      assert s[a] == '+' || s[a] == '-' || s[a] == '0' || DigitValue(s[a]) < 16;
    }
    SkipSpaceTo(s, a);
    SignAt(s, a, b);
    assert c == b ==> DigitValue(s[b]) < 10;
    assert c == b && e > b + 1 ==> DigitValue(s[b + 1]) < 10;
    PrefixAt(s, b, c, e);
    DigitRunTo(s, c, e, radix);
    SignedValue(s, a, b, RunValue(s[c..e], radix));
  }

  /** With the sign read and the digits worth `v`, `parseInt` gives `v`, negated after "-". */
  lemma SignedValue(s: string, a: nat, b: nat, v: int)
    requires a < b <= |s| || a == b < |s|
    requires JsParseInt(s) == SignedDigits(s, a)
    requires SignedDigits(s, a) == if b == a + 1 && s[a] == '-' then Negated(PrefixedDigits(s, b)) else PrefixedDigits(s, b)
    requires PrefixedDigits(s, b) == Some(v)
    ensures JsParseInt(s) == Some(if b == a + 1 && s[a] == '-' then -v else v)
  {
  }

  /** A signed hexadecimal value after whitespace. */
  lemma JsParseIntHexSample()
    ensures JsParseInt(" -0x1A") == Some(-26)
  {
    var h := " -0x1A";
    assert h[4..6] == "1A";
    JsParseIntOf(h, 1, 2, 4, 6);
  }

  /** A decimal value read up to the dot. */
  lemma JsParseIntDecimalSample()
    ensures JsParseInt("+42.5") == Some(42)
  {
    var d := "+42.5";
    assert d[1..3] == "42";
    JsParseIntOf(d, 0, 1, 1, 3);
  }

  /** `parseInt` starts reading at the first non-whitespace character. */
  lemma SkipSpaceTo(s: string, a: nat)
    requires a < |s| && !IsJsSpace(s[a]) && forall i :: 0 <= i < a ==> IsJsSpace(s[i])
    ensures JsParseInt(s) == SignedDigits(s, a)
  {
    SkipForwardAt(s, JavaScript, 0, a);
  }

  /** A sign at `a` is read and the digits start after it; a minus negates them. */
  lemma SignAt(s: string, a: nat, b: nat)
    requires a <= b < |s|
    requires b == a || (b == a + 1 && (s[a] == '+' || s[a] == '-'))
    requires b == a ==> s[a] != '+' && s[a] != '-'
    ensures SignedDigits(s, a) == if b == a + 1 && s[a] == '-' then Negated(PrefixedDigits(s, b)) else PrefixedDigits(s, b)
  {
  }

  /** After the sign, a "0x" or "0X" switches to hexadecimal digits. */
  lemma PrefixAt(s: string, b: nat, c: nat, e: nat)
    requires b <= c < e <= |s|
    requires c == b || (c == b + 2 && s[b] == '0' && (s[b + 1] == 'x' || s[b + 1] == 'X'))
    requires c == b ==> DigitValue(s[b]) < 10
    requires c == b && e == b + 1 && s[b] == '0' && e < |s| ==> s[e] != 'x' && s[e] != 'X'
    requires c == b && e > b + 1 ==> DigitValue(s[b + 1]) < 10
    ensures PrefixedDigits(s, b) == DigitRun(s, c, if c == b then 10 else 16)
  {
  }

  /** The digits from `c` up to the first non-digit `e` are the run `parseInt` reads. */
  lemma DigitRunTo(s: string, c: nat, e: nat, radix: int)
    requires c < e <= |s| && (e == |s| || DigitValue(s[e]) >= radix)
    requires forall i :: c <= i < e ==> DigitValue(s[i]) < radix
    ensures DigitRun(s, c, radix) == Some(RunValue(s[c..e], radix))
  {
    DigitEndAt(s, c, e, radix);
  }

  /** SkipForward stops at the first position from `j` that is not whitespace of kind `ws`. */
  lemma SkipForwardAt(s: string, ws: Whitespace, j: nat, a: nat)
    requires j <= a < |s| && !IsSpace(ws, s[a]) && forall i :: j <= i < a ==> IsSpace(ws, s[i])
    ensures SkipForward(s, ws, j) == a
  {
  }

  /** DigitEnd stops at the first position from `k` that is not a digit of the radix. */
  lemma {:induction false} DigitEndAt(s: string, k: nat, e: nat, radix: int)
    requires k <= e <= |s| && (e == |s| || DigitValue(s[e]) >= radix)
    requires forall i :: k <= i < e ==> DigitValue(s[i]) < radix
    ensures DigitEnd(s, k, radix) == e
    decreases e - k
  {
    if k < e {
      DigitEndAt(s, k + 1, e, radix);
    }
  }

  /** `parseInt` is NaN when no digit follows the whitespace and the sign. */
  lemma JsParseIntNaN(w: string, sign: string, rest: string)
    requires forall i :: 0 <= i < |w| ==> IsJsSpace(w[i])
    requires sign == "" || sign == "+" || sign == "-"
    requires rest == [] || (DigitValue(rest[0]) >= 10 && !IsJsSpace(rest[0]))
    requires sign == "" && rest != [] ==> rest[0] != '+' && rest[0] != '-'
    ensures JsParseInt(w + sign + rest) == None
  {
    var s := w + sign + rest;
    var a := |w|;
    assert forall i :: 0 <= i < a ==> s[i] == w[i];
    if a < |s| {
      assert s[a] == if sign != "" then sign[0] else rest[0];
      SkipForwardAt(s, JavaScript, 0, a);
      var b := a + |sign|;
      assert b < |s| ==> s[b] == rest[0];
      assert DigitEnd(s, b, 10) == b;
    } else {
      assert SkipForward(s, JavaScript, 0) == a;
    }
  }

  /** `s.replace("%", "")`: the first percent sign removed. */
  function RemoveFirstPercent(s: string): (r: string)
    ensures |r| == |s| || |r| == |s| - 1
  {
    if s == [] then [] else if s[0] == '%' then s[1..] else [s[0]] + RemoveFirstPercent(s[1..])
  }

  /** `parseInt((x || "0").replace("%", "")) || 0`. */
  function PercentOf(x: Option<string>): (r: int)
    ensures x.None? || x.value == "" ==> r == 0
  {
    JsParseIntDigits("0");
    var s := if x.Some? && x.value != "" then x.value else "0";
    var v := JsParseInt(RemoveFirstPercent(s));
    if v.Some? then v.value else 0
  }

  /** `pred.predictions`: the named winner and the home/draw/away percentage strings. */
  datatype Predictions = Predictions(winnerName: Option<string>, home: Option<string>, draw: Option<string>, away: Option<string>)

  function Max3(h: int, d: int, a: int): (m: int)
    ensures m >= h && m >= d && m >= a && (m == h || m == d || m == a)
  {
    if h >= d && h >= a then h else if d >= a then d else a
  }

  /** `[H === max, D === max, A === max].filter(Boolean).length`. */
  function MaxCount(h: int, d: int, a: int): nat {
    var m := Max3(h, d, a);
    (if h == m then 1 else 0) + (if d == m then 1 else 0) + (if a == m then 1 else 0)
  }

  predicate HasWinnerName(p: Predictions) {
    p.winnerName.Some? && p.winnerName.value != ""
  }

  /** `hasValidPrediction`: a prediction exists, and it names a winner or its largest percentage
      is positive and held by one side only. */
  function HasValidPrediction(pred: Option<Predictions>): (r: bool)
    ensures r ==> pred.Some?
    ensures pred.Some? && HasWinnerName(pred.value) ==> r
    ensures pred.Some? && !HasWinnerName(pred.value) ==>
      var (h, d, a) := (PercentOf(pred.value.home), PercentOf(pred.value.draw), PercentOf(pred.value.away));
      (r <==> (h > 0 && h > d && h > a) || (d > 0 && d > h && d > a) || (a > 0 && a > h && a > d))
  {
    if pred.None? then false
    else
      var p := pred.value;
      if HasWinnerName(p) then true
      else
        var h, d, a := PercentOf(p.home), PercentOf(p.draw), PercentOf(p.away);
        Max3(h, d, a) > 0 && MaxCount(h, d, a) == 1
  }

  datatype Outcome = Home | Draw | Away

  /** The percent path of `outcomeFromPrediction`: the label of the largest percentage when one
      side alone holds it. */
  function PercentOutcome(h: int, d: int, a: int): (r: Option<Outcome>)
    ensures r.Some? <==> MaxCount(h, d, a) == 1
  {
    var m := Max3(h, d, a);
    var list := (if h == m then [Home] else []) + (if d == m then [Draw] else []) + (if a == m then [Away] else []);
    if |list| == 1 then Some(list[0]) else None
  }

  /** The percent path names exactly the side whose percentage is strictly above both others. */
  lemma PercentOutcomeIsUniqueArgmax(h: int, d: int, a: int)
    ensures PercentOutcome(h, d, a) == Some(Home) <==> h > d && h > a
    ensures PercentOutcome(h, d, a) == Some(Draw) <==> d > h && d > a
    ensures PercentOutcome(h, d, a) == Some(Away) <==> a > h && a > d
  {
  }

  /** `w === x || x.includes(w) || w.includes(x)` for a non-empty `w`. */
  predicate NamesMatch(w: string, x: string) {
    w != "" && (w == x || Contains(x, w) || Contains(w, x))
  }

  /** `outcomeFromPrediction`: None for an invalid prediction; for a named winner, Draw for "draw"
      or "unentschieden", Home or Away when the normalised names contain one another; otherwise
      the percent path. */
  function OutcomeFromPrediction(pred: Option<Predictions>, homeName: Option<string>, awayName: Option<string>): (r: Option<Outcome>)
    ensures r.Some? ==> HasValidPrediction(pred)
  {
    if !HasValidPrediction(pred) then None
    else
      var p := pred.value;
      var w := NormalizeName(p.winnerName);
      if HasWinnerName(p) && (w == "draw" || w == "unentschieden") then Some(Draw)
      else if HasWinnerName(p) && NamesMatch(w, NormalizeName(homeName)) then Some(Home)
      else if HasWinnerName(p) && NamesMatch(w, NormalizeName(awayName)) then Some(Away)
      else PercentOutcome(PercentOf(p.home), PercentOf(p.draw), PercentOf(p.away))
  }

  /** Without a named winner a prediction is valid exactly when it yields an outcome, and that
      outcome is the side with the strictly largest percentage. */
  lemma ValidIffOutcomeWithoutWinner(p: Predictions, homeName: Option<string>, awayName: Option<string>)
    requires !HasWinnerName(p)
    ensures HasValidPrediction(Some(p)) <==> OutcomeFromPrediction(Some(p), homeName, awayName).Some?
    ensures OutcomeFromPrediction(Some(p), homeName, awayName).Some? ==>
      OutcomeFromPrediction(Some(p), homeName, awayName) == PercentOutcome(PercentOf(p.home), PercentOf(p.draw), PercentOf(p.away))
  {
    PercentOutcomeIsUniqueArgmax(PercentOf(p.home), PercentOf(p.draw), PercentOf(p.away));
  }

  /** Every string contains the empty string, so a home name that normalises to "" makes any named
      winner that is not a draw a home win. */
  lemma EmptyHomeNameTakesWinner(p: Predictions, homeName: Option<string>, awayName: Option<string>)
    requires HasWinnerName(p) && NormalizeName(homeName) == ""
    requires var w := NormalizeName(p.winnerName); w != "" && w != "draw" && w != "unentschieden"
    ensures OutcomeFromPrediction(Some(p), homeName, awayName) == Some(Home)
  {
    assert StartsWith(NormalizeName(p.winnerName), "");
  }

  /** A named winner makes a prediction valid even when the name matches neither team and the
      percentages tie, and then there is no outcome. */
  lemma ValidWithoutOutcome(p: Predictions, homeName: Option<string>, awayName: Option<string>)
    requires HasWinnerName(p)
    requires var w := NormalizeName(p.winnerName);
      w != "draw" && w != "unentschieden" && !NamesMatch(w, NormalizeName(homeName)) && !NamesMatch(w, NormalizeName(awayName))
    requires MaxCount(PercentOf(p.home), PercentOf(p.draw), PercentOf(p.away)) != 1
    ensures HasValidPrediction(Some(p)) && OutcomeFromPrediction(Some(p), homeName, awayName) == None
  {
    PercentOutcomeIsUniqueArgmax(PercentOf(p.home), PercentOf(p.draw), PercentOf(p.away));
  }


  lemma {:induction false} RemovePercentAfterDigits(d: string)
    requires forall i :: 0 <= i < |d| ==> IsAsciiDigit(d[i])
    ensures RemoveFirstPercent(d + "%") == d
  {
    if d != [] {
      assert (d + "%")[1..] == d[1..] + "%";
      RemovePercentAfterDigits(d[1..]);
    }
  }

  /** A percentage written as decimal digits, with or without a trailing "%", reads as its
      decimal value. */
  lemma PercentOfDigits(d: string)
    requires d != [] && AllDigits(d)
    ensures PercentOf(Some(d + "%")) == RunValue(d, 10)
    ensures PercentOf(Some(d)) == RunValue(d, 10)
  {
    RemovePercentAfterDigits(d);
    RemoveNoPercent(d);
    JsParseIntDigits(d);
  }

  /** `parseInt` of decimal digits is their decimal value. */
  lemma JsParseIntDigits(d: string)
    requires d != [] && AllDigits(d)
    ensures JsParseInt(d) == Some(RunValue(d, 10))
  {
    assert SkipForward(d, JavaScript, 0) == 0;
    assert DigitEnd(d, 0, 10) == |d|;
    assert d[0..|d|] == d;
  }

  lemma {:induction false} RemoveNoPercent(d: string)
    requires forall i :: 0 <= i < |d| ==> IsAsciiDigit(d[i])
    ensures RemoveFirstPercent(d) == d
  {
    if d != [] {
      RemoveNoPercent(d[1..]);
    }
  }
}
