/** Character classes and string operations shared by the Python and JavaScript models:
    whitespace as Python's str.isspace and JavaScript's String.prototype.trim see it, lower-casing,
    stripping, whitespace tokenisation (Python's str.split()), joining and substring search. */
module TextUtil {

  /** Python's whitespace (str.isspace, and the `\s` class of `re` on str patterns). */
  predicate IsPySpace(c: char) {
    c == ' ' || ('\t' <= c <= '\r') || ('\U{1C}' <= c <= '\U{1F}') || c == '\U{85}' || c == '\U{A0}'
    || c == '\U{1680}' || ('\U{2000}' <= c <= '\U{200A}') || c == '\U{2028}' || c == '\U{2029}'
    || c == '\U{202F}' || c == '\U{205F}' || c == '\U{3000}'
  }

  /** JavaScript's WhiteSpace and LineTerminator characters (String.prototype.trim, regex `\s`). */
  predicate IsJsSpace(c: char) {
    c == ' ' || ('\t' <= c <= '\r') || c == '\U{A0}' || c == '\U{FEFF}'
    || c == '\U{1680}' || ('\U{2000}' <= c <= '\U{200A}') || c == '\U{2028}' || c == '\U{2029}'
    || c == '\U{202F}' || c == '\U{205F}' || c == '\U{3000}'
  }

  predicate IsAsciiDigit(c: char) { '0' <= c <= '9' }
  predicate IsAsciiLower(c: char) { 'a' <= c <= 'z' }

  predicate AllDigits(s: string) {
    forall i :: 0 <= i < |s| ==> IsAsciiDigit(s[i])
  }

  function DigitOf(c: char): nat
    requires IsAsciiDigit(c)
  {
    c as int - '0' as int
  }

  function Pow10(n: nat): nat {
    if n == 0 then 1 else 10 * Pow10(n - 1)
  }

  /** The value of a run of decimal digits, most significant first. */
  function DecValue(ds: string): nat
    requires AllDigits(ds)
  {
    if ds == [] then 0 else DecValue(ds[..|ds| - 1]) * 10 + DigitOf(ds[|ds| - 1])
  }

  /** `n` decimal digits hold a value below 10^n. */
  lemma {:induction false} DecValueBound(ds: string)
    requires AllDigits(ds)
    ensures DecValue(ds) < Pow10(|ds|)
  {
    if ds != [] {
      var init := ds[..|ds| - 1];
      DecValueBound(init);
      var v, p := DecValue(init), Pow10(|init|);
      assert v * 10 <= (p - 1) * 10;
    }
  }

  lemma {:induction false} Pow10Monotone(a: nat, b: nat)
    requires a <= b
    ensures Pow10(a) <= Pow10(b)
    decreases b
  {
    if a < b {
      Pow10Monotone(a, b - 1);
    }
  }

  /** Lower-casing of one character, for ASCII and the Latin-1 capitals (Python's str.lower and
      JavaScript's toLowerCase agree on these). */
  function LowerChar(c: char): (r: char)
    ensures 'A' <= c <= 'Z' ==> IsAsciiLower(r)
    ensures IsAsciiLower(r) ==> 'A' <= c <= 'Z' || c == r
    ensures IsPySpace(r) <==> IsPySpace(c)
  {
    if 'A' <= c <= 'Z' || ('\U{C0}' <= c <= '\U{DE}' && c != '\U{D7}') then (c as int + 32) as char else c
  }

  function Lower(s: string): (r: string)
    ensures |r| == |s| && forall i :: 0 <= i < |s| ==> r[i] == LowerChar(s[i])
  {
    if s == [] then [] else [LowerChar(s[0])] + Lower(s[1..])
  }

  /** The longest prefix of `s` whose characters satisfy `ws` is dropped. */
  function DropWhile(s: string, ws: char -> bool): (r: string)
    ensures |r| <= |s| && r == s[|s| - |r|..]
    ensures r == [] || !ws(r[0])
    ensures forall i :: 0 <= i < |s| - |r| ==> ws(s[i])
  {
    if s != [] && ws(s[0]) then DropWhile(s[1..], ws) else s
  }

  /** The two whitespace classes the sources trim by. */
  datatype Whitespace = Python | JavaScript

  predicate IsSpace(ws: Whitespace, c: char) {
    match ws
    case Python => IsPySpace(c)
    case JavaScript => IsJsSpace(c)
  }

  /** The first position at or after `j` whose character is not whitespace of kind `ws`. */
  function SkipForward(s: string, ws: Whitespace, j: nat): (r: nat)
    requires j <= |s|
    ensures j <= r <= |s| && (r == |s| || !IsSpace(ws, s[r]))
    ensures forall i :: j <= i < r ==> IsSpace(ws, s[i])
    decreases |s| - j
  {
    if j < |s| && IsSpace(ws, s[j]) then SkipForward(s, ws, j + 1) else j
  }

  /** The end of `s[lo..j]` once its trailing whitespace of kind `ws` is dropped. */
  function SkipBackward(s: string, ws: Whitespace, lo: nat, j: nat): (r: nat)
    requires lo <= j <= |s|
    ensures lo <= r <= j && (r == lo || !IsSpace(ws, s[r - 1]))
    ensures forall i :: r <= i < j ==> IsSpace(ws, s[i])
    decreases j - lo
  {
    if lo < j && IsSpace(ws, s[j - 1]) then SkipBackward(s, ws, lo, j - 1) else j
  }

  /** The slice of `s` left once the leading and trailing whitespace of kind `ws` is dropped:
      it starts at TrimFrom, and everything outside it is such whitespace. */
  function Trim(s: string, ws: Whitespace): (r: string)
    ensures r == [] || (!IsSpace(ws, r[0]) && !IsSpace(ws, r[|r| - 1]))
    ensures TrimFrom(s, ws) + |r| <= |s| && r == s[TrimFrom(s, ws)..TrimFrom(s, ws) + |r|]
    ensures forall i :: 0 <= i < TrimFrom(s, ws) ==> IsSpace(ws, s[i])
    ensures forall i :: TrimFrom(s, ws) + |r| <= i < |s| ==> IsSpace(ws, s[i])
  {
    var a := SkipForward(s, ws, 0);
    s[a..SkipBackward(s, ws, a, |s|)]
  }

  /** Where the result of Trim begins inside its argument. */
  function TrimFrom(s: string, ws: Whitespace): nat {
    SkipForward(s, ws, 0)
  }

  /** Python's str.strip() with no argument: the slice left after the leading and the trailing
      whitespace is removed. */
  function PyStrip(s: string): (r: string)
    ensures r == [] || (!IsPySpace(r[0]) && !IsPySpace(r[|r| - 1]))
    ensures StripStart(s) + |r| <= |s| && r == s[StripStart(s)..StripStart(s) + |r|]
    ensures forall i :: 0 <= i < StripStart(s) ==> IsPySpace(s[i])
    ensures forall i :: StripStart(s) + |r| <= i < |s| ==> IsPySpace(s[i])
  {
    Trim(s, Python)
  }

  /** Where the result of PyStrip begins inside its argument. */
  function StripStart(s: string): nat {
    TrimFrom(s, Python)
  }

  /** Stripping twice is stripping once. */
  lemma PyStripIdempotent(s: string)
    ensures PyStrip(PyStrip(s)) == PyStrip(s)
  {
  }

  /** JavaScript's String.prototype.trim(): the slice left after the leading and the trailing
      whitespace is removed. */
  function JsTrim(s: string): (r: string)
    ensures r == [] || (!IsJsSpace(r[0]) && !IsJsSpace(r[|r| - 1]))
    ensures TrimStart(s) + |r| <= |s| && r == s[TrimStart(s)..TrimStart(s) + |r|]
    ensures forall i :: 0 <= i < TrimStart(s) ==> IsJsSpace(s[i])
    ensures forall i :: TrimStart(s) + |r| <= i < |s| ==> IsJsSpace(s[i])
  {
    Trim(s, JavaScript)
  }

  /** Where the result of JsTrim begins inside its argument. */
  function TrimStart(s: string): nat {
    TrimFrom(s, JavaScript)
  }

  /** Trimming a string that neither starts nor ends with whitespace changes nothing. */
  lemma JsTrimUnspaced(s: string)
    requires s != [] && !IsJsSpace(s[0]) && !IsJsSpace(s[|s| - 1])
    ensures JsTrim(s) == s
  {
  }

  /** True when no character of `s` is Python whitespace. */
  predicate NoPySpace(s: string) {
    forall i :: 0 <= i < |s| ==> !IsPySpace(s[i])
  }

  /** The leading run of non-whitespace characters of `s`. */
  function TakeToken(s: string): (t: string)
    ensures |t| <= |s| && t == s[..|t|] && NoPySpace(t)
    ensures |t| == |s| || IsPySpace(s[|t|])
  {
    if s == [] || IsPySpace(s[0]) then [] else [s[0]] + TakeToken(s[1..])
  }

  /** Python's str.split() with no argument: the maximal runs of non-whitespace characters, in
      order (WordsSkipSpace and WordsLeadingToken below). */
  function Words(s: string): (ws: seq<string>)
    ensures WellFormedTokens(ws)
    decreases |s|
  {
    if s == [] then []
    else if IsPySpace(s[0]) then Words(s[1..])
    else
      var t := TakeToken(s);
      [t] + Words(s[|t|..])
  }

  /** Python's " ".join(ts). */
  function Join(ts: seq<string>): string {
    if ts == [] then "" else if |ts| == 1 then ts[0] else ts[0] + " " + Join(ts[1..])
  }

  /** Tokens that `Words` could have produced: non-empty and free of whitespace. */
  predicate WellFormedTokens(ts: seq<string>) {
    forall i :: 0 <= i < |ts| ==> ts[i] != [] && NoPySpace(ts[i])
  }

  /** A string of single-space-separated words: no leading, trailing or doubled space, and ' ' is
      the only whitespace character in it. */
  predicate SingleSpaced(s: string) {
    && (s != [] ==> s[0] != ' ' && s[|s| - 1] != ' ')
    && (forall i :: 0 <= i < |s| ==> IsPySpace(s[i]) ==> s[i] == ' ')
    && (forall i :: 0 <= i < |s| - 1 ==> !(s[i] == ' ' && s[i + 1] == ' '))
  }

  lemma {:induction false} TakeTokenOfJoin(t: string, rest: string)
    requires NoPySpace(t)
    requires rest == [] || IsPySpace(rest[0])
    ensures TakeToken(t + rest) == t
    decreases |t|
  {
    if t != [] {
      assert (t + rest)[1..] == t[1..] + rest;
      TakeTokenOfJoin(t[1..], rest);
    } else {
      assert t + rest == rest;
    }
  }

  /** Splitting a join of well-formed tokens gives the tokens back. */
  lemma {:induction false} WordsOfJoin(ts: seq<string>)
    requires WellFormedTokens(ts)
    ensures Words(Join(ts)) == ts
    decreases |ts|
  {
    if ts == [] {
    } else if |ts| == 1 {
      var t := ts[0];
      TakeTokenOfJoin(t, []);
      assert t + [] == t;
      assert t[|t|..] == [];
    } else {
      var t, rest := ts[0], Join(ts[1..]);
      var s := t + " " + rest;
      assert s == t + (" " + rest);
      TakeTokenOfJoin(t, " " + rest);
      assert s[|t|..] == " " + rest;
      assert (" " + rest)[1..] == rest;
      WordsOfJoin(ts[1..]);
    }
  }

  /** Leading whitespace yields no word: the words of `g + r` are those of `r` when `g` is all
      whitespace (with `r` empty: text made only of whitespace has no words). */
  lemma {:induction false} WordsSkipSpace(g: string, r: string)
    requires forall i :: 0 <= i < |g| ==> IsPySpace(g[i])
    ensures Words(g + r) == Words(r)
    decreases |g|
  {
    if g == [] {
      assert g + r == r;
    } else {
      assert (g + r)[1..] == g[1..] + r;
      WordsSkipSpace(g[1..], r);
    }
  }

  /** A run without whitespace, followed by whitespace or by nothing, is the next word: the words
      of `t + rest` are `t` and then the words of `rest`. With WordsSkipSpace this fixes the words
      of every string: its maximal non-whitespace runs, in order. */
  lemma WordsLeadingToken(t: string, rest: string)
    requires t != [] && NoPySpace(t) && (rest == [] || IsPySpace(rest[0]))
    ensures Words(t + rest) == [t] + Words(rest)
  {
    var s := t + rest;
    TakeTokenOfJoin(t, rest);
    assert s[|t|..] == rest;
    assert s[0] == t[0];
  }

  /** A join of well-formed tokens is single-spaced. */
  lemma {:induction false} JoinSingleSpaced(ts: seq<string>)
    requires WellFormedTokens(ts)
    ensures SingleSpaced(Join(ts))
    ensures ts != [] ==> Join(ts) != [] && Join(ts)[0] == ts[0][0]
    ensures ts == [] ==> Join(ts) == []
    decreases |ts|
  {
    if |ts| > 1 {
      JoinSingleSpaced(ts[1..]);
      var t, rest := ts[0], Join(ts[1..]);
      var s := t + " " + rest;
      assert forall i :: 0 <= i < |t| ==> s[i] == t[i];
      assert s[|t|] == ' ';
      assert forall i :: |t| < i < |s| ==> s[i] == rest[i - |t| - 1];
    }
  }

  /** Stripping a single-spaced string changes nothing. */
  lemma StripSingleSpaced(s: string)
    requires SingleSpaced(s)
    ensures PyStrip(s) == s
  {
  }

  function StartsWith(s: string, p: string): bool {
    |p| <= |s| && s[..|p|] == p
  }

  /** Substring search, as Python's `in` on strings and JavaScript's String.prototype.includes. */
  function Contains(s: string, p: string): bool
    decreases |s|
  {
    if StartsWith(s, p) then true
    else if s == [] then false
    else Contains(s[1..], p)
  }

  /** An occurrence of `p` at offset `k` is found by the search. */
  lemma {:induction false} ContainsAt(s: string, p: string, k: nat)
    requires k + |p| <= |s| && s[k..k + |p|] == p
    ensures Contains(s, p)
    decreases k
  {
    if k == 0 {
      assert StartsWith(s, p);
    } else if !StartsWith(s, p) {
      assert s[1..][k - 1..k - 1 + |p|] == p;
      ContainsAt(s[1..], p, k - 1);
    }
  }

  /** Some needle of `keys` occurs in `s` (Python's any(k in s for k in keys)). */
  function ContainsAny(s: string, keys: seq<string>): (b: bool)
    ensures b <==> exists i :: 0 <= i < |keys| && Contains(s, keys[i])
  {
    if keys == [] then false else Contains(s, keys[0]) || ContainsAny(s, keys[1..])
  }

  /** Python's str.endswith for a single character. */
  predicate EndsWithChar(s: string, c: char) {
    s != [] && s[|s| - 1] == c
  }
}
