/** The JSON values the Python services read from API-Football responses, and the Python
    conversions applied to them: truthiness, `str` of an int, `int(str)` and `float(x)`. Python's
    `float` of a string is a parameter (`floatOf`, None where it raises); all other conversions are
    written out. */
module PyValues {
  import opened Wrappers
  import opened TextUtil

  /** A decoded JSON value as Python sees it (objects and arrays do not occur as statistic values). */
  datatype PyValue = PNone | PBool(b: bool) | PInt(i: int) | PFloat(f: real) | PStr(s: string)

  /** Python's truth value. */
  predicate Truthy(v: PyValue) {
    match v
    case PNone => false
    case PBool(b) => b
    case PInt(i) => i != 0
    case PFloat(f) => f != 0.0
    case PStr(s) => s != ""
  }

  // ---------------------------------------------------------------------------------------------
  // Decimal digits
  // ---------------------------------------------------------------------------------------------

  function DigitChar(d: nat): (c: char)
    requires d < 10
    ensures IsAsciiDigit(c) && DigitOf(c) == d
  {
    ('0' as int + d) as char
  }

  /** `str(n)` of a natural number: its shortest decimal digits. */
  function NatDecimal(n: nat): (s: string)
    ensures s != [] && AllDigits(s)
  {
    if n < 10 then [DigitChar(n)] else NatDecimal(n / 10) + [DigitChar(n % 10)]
  }

  /** `str(i)`. */
  function Decimal(i: int): string {
    if i < 0 then "-" + NatDecimal(-i) else NatDecimal(i)
  }

  lemma {:induction false} DecValueOfNatDecimal(n: nat)
    ensures DecValue(NatDecimal(n)) == n
  {
    if n >= 10 {
      var s := NatDecimal(n);
      assert s[..|s| - 1] == NatDecimal(n / 10);
      DecValueOfNatDecimal(n / 10);
    }
  }

  // ---------------------------------------------------------------------------------------------
  // int(str)
  // ---------------------------------------------------------------------------------------------

  /** The digits of an integer literal as `int()` accepts them in base 10: digits, with single
      underscores allowed between two digits. */
  predicate DigitGroups(s: string) {
    && s != [] && IsAsciiDigit(s[0]) && IsAsciiDigit(s[|s| - 1])
    && (forall i :: 0 <= i < |s| ==> IsAsciiDigit(s[i]) || s[i] == '_')
    && !HasDoubleUnderscore(s)
  }

  /** Two underscores in a row somewhere in `s`. */
  predicate HasDoubleUnderscore(s: string) {
    |s| >= 2 && ((s[0] == '_' && s[1] == '_') || HasDoubleUnderscore(s[1..]))
  }

  lemma {:induction false} DigitsHaveNoDoubleUnderscore(ds: string)
    requires AllDigits(ds)
    ensures !HasDoubleUnderscore(ds)
    decreases |ds|
  {
    if |ds| >= 2 {
      assert AllDigits(ds[1..]);
      DigitsHaveNoDoubleUnderscore(ds[1..]);
    }
  }

  /** The digits of `s` without its underscores. */
  function DropUnderscores(s: string): (r: string)
    requires forall i :: 0 <= i < |s| ==> IsAsciiDigit(s[i]) || s[i] == '_'
    ensures AllDigits(r) && |r| <= |s|
    ensures AllDigits(s) ==> r == s
  {
    if s == [] then []
    else if s[|s| - 1] == '_' then DropUnderscores(s[..|s| - 1])
    else DropUnderscores(s[..|s| - 1]) + [s[|s| - 1]]
  }

  /** Python's `int(s)` for a string, None where it raises: surrounding whitespace, an optional
      sign, and ASCII digits in underscore-separated groups. */
  function PyInt(s: string): Option<int> {
    SignedInt(PyStrip(s))
  }

  /** `int()` accepts a text only when, stripped, it ends in a digit: "62%" and "7." raise. */
  lemma PyIntEndsInDigit(s: string)
    ensures PyInt(s).Some? ==> var t := PyStrip(s); t != [] && IsAsciiDigit(t[|t| - 1])
  {
    SignedIntEndsInDigit(PyStrip(s));
  }

  lemma SignedIntEndsInDigit(t: string)
    ensures SignedInt(t).Some? ==> t != [] && IsAsciiDigit(t[|t| - 1])
  {
    if SignedInt(t).Some? {
      var k := if t[0] == '-' || t[0] == '+' then 1 else 0;
      assert DigitGroups(t[k..]);
      assert t[k..][|t[k..]| - 1] == t[|t| - 1];
    }
  }

  /** `int()` of the stripped text: an optional sign, then the digits. */
  function SignedInt(t: string): Option<int> {
    if t == [] then None
    else
      var k := if t[0] == '-' || t[0] == '+' then 1 else 0;
      var v := UnsignedInt(t[k..]);
      if v.None? then None
      else if t[0] == '-' then Some(0 - v.value)
      else Some(v.value)
  }

  /** The value of the digits after the sign, None unless they are underscore-separated groups. */
  function UnsignedInt(body: string): Option<nat> {
    if DigitGroups(body) then Some(DecValue(DropUnderscores(body))) else None
  }

  lemma UnsignedOfDigits(ds: string)
    requires ds != [] && AllDigits(ds)
    ensures UnsignedInt(ds) == Some(DecValue(ds))
  {
    DigitsHaveNoDoubleUnderscore(ds);
    assert DigitGroups(ds);
  }

  /** `int(str(i)) == i`. */
  lemma IntOfDecimal(i: int)
    ensures PyInt(Decimal(i)) == Some(i)
  {
    if i < 0 {
      IntOfNegativeDecimal(i);
    } else {
      IntOfNatDecimal(i);
    }
  }

  lemma IntOfNatDecimal(n: nat)
    ensures PyInt(Decimal(n)) == Some(n)
  {
    IntOfDigits(NatDecimal(n));
    DecValueOfNatDecimal(n);
  }

  lemma IntOfNegativeDecimal(i: int)
    requires i < 0
    ensures PyInt(Decimal(i)) == Some(i)
  {
    DecValueOfNatDecimal(-i);
    IntOfNegative(NatDecimal(-i), -i);
  }

  lemma IntOfNegative(ds: string, v: nat)
    requires ds != [] && AllDigits(ds) && DecValue(ds) == v
    ensures PyStrip("-" + ds) == "-" + ds && SignedInt("-" + ds) == Some(0 - v)
    ensures PyInt("-" + ds) == Some(0 - v)
  {
    var s := "-" + ds;
    assert s[0] == '-' && s[|s| - 1] == ds[|ds| - 1];
    StripUnspaced(s);
    SignedNegative(s, ds);
  }

  /** The signed parse of a minus sign followed by digits. */
  lemma SignedNegative(s: string, ds: string)
    requires ds != [] && AllDigits(ds) && s == "-" + ds
    ensures SignedInt(s) == Some(0 - DecValue(ds))
  {
    assert s[1..] == ds;
    UnsignedOfDigits(ds);
  }

  /** `int()` of a string that neither starts nor ends with whitespace reads it as it is. */
  lemma IntOfUnspaced(s: string)
    requires s != [] && !IsPySpace(s[0]) && !IsPySpace(s[|s| - 1])
    ensures PyInt(s) == SignedInt(s)
  {
    StripUnspaced(s);
  }

  /** Stripping a string that neither starts nor ends with whitespace changes nothing. */
  lemma StripUnspaced(s: string)
    requires s != [] && !IsPySpace(s[0]) && !IsPySpace(s[|s| - 1])
    ensures PyStrip(s) == s
  {
    assert SkipForward(s, Python, 0) == 0;
  }

  /** A plain run of digits reads as its decimal value. */
  lemma IntOfDigits(ds: string)
    requires ds != [] && AllDigits(ds)
    ensures PyInt(ds) == Some(DecValue(ds))
  {
    IntOfUnspaced(ds);
    assert ds[0..] == ds;
    UnsignedOfDigits(ds);
  }

  // ---------------------------------------------------------------------------------------------
  // float(x) and int(float)
  // ---------------------------------------------------------------------------------------------

  /** Python's `float(v)`, None where it raises (for None). Non-finite floats are not modelled. */
  function PyFloat(floatOf: string -> Option<real>, v: PyValue): Option<real> {
    match v
    case PNone => None
    case PBool(b) => Some(if b then 1.0 else 0.0)
    case PInt(i) => Some(i as real)
    case PFloat(f) => Some(f)
    case PStr(s) => floatOf(s)
  }

  /** Python's `int(x)` of a float: truncation toward zero. */
  function Trunc(r: real): (i: int)
    ensures r >= 0.0 ==> 0.0 <= i as real <= r < i as real + 1.0
    ensures r < 0.0 ==> i as real - 1.0 < r <= i as real <= 0.0
  {
    if r >= 0.0 then r.Floor else -((-r).Floor)
  }

  // ---------------------------------------------------------------------------------------------
  // Statistics entries
  // ---------------------------------------------------------------------------------------------

  /** One `{"type": ..., "value": ...}` entry of a team's statistics (PNone for an absent key). */
  datatype StatEntry = StatEntry(typ: PyValue, value: PyValue)

  /** The value of one entry as `get_stat` reads it: a string ending in "%" loses that sign before
      `float`, anything else goes to `float` as it is; None where `float` raises. */
  function StatNumber(floatOf: string -> Option<real>, v: PyValue): Option<real> {
    if v.PStr? && EndsWithChar(v.s, '%') then floatOf(v.s[..|v.s| - 1])
    else PyFloat(floatOf, v)
  }

  /** The entry test of `get_stat`: the entry's type is `key`. */
  function HasType(key: string): StatEntry -> bool {
    (e: StatEntry) => e.typ == PStr(key)
  }

  /** `get_stat(stats, key)` (betbot.py) and `get_val(stats, key)` (live_monitor.py): the value of
      the first entry whose type is `key`; None when there is none or its value does not parse. */
  function GetStat(floatOf: string -> Option<real>, stats: seq<StatEntry>, key: string): (r: Option<real>)
    ensures (forall i :: 0 <= i < |stats| ==> stats[i].typ != PStr(key)) ==> r == None
    ensures forall i :: 0 <= i < |stats| && stats[i].typ == PStr(key)
                        && (forall j :: 0 <= j < i ==> stats[j].typ != PStr(key))
                        ==> r == StatNumber(floatOf, stats[i].value)
  {
    var k := FirstWhere(stats, HasType(key), 0);
    if k == |stats| then None else StatNumber(floatOf, stats[k].value)
  }
}
