/** normalizers_statistics.py: a `/fixtures/statistics` response becomes one fixed-shape row per
    team block, every metric present with a default and overwritten by the entries whose label is
    known. */
module StatisticsNormalizer {
  import opened Wrappers
  import opened TextUtil
  import opened PyValues

  /** A metric value: Python int or float. */
  datatype Number = NInt(i: int) | NFloat(f: real)

  // ---------------------------------------------------------------------------------------------
  // _as_number
  // ---------------------------------------------------------------------------------------------

  /** `s[:-1]` when `s` ends with "%": exactly one trailing percent sign comes off. */
  function DropPercent(s: string): (r: string)
    ensures EndsWithChar(s, '%') ==> s == r + "%"
    ensures !EndsWithChar(s, '%') ==> r == s
  {
    if EndsWithChar(s, '%') then s[..|s| - 1] else s
  }

  /** A doubled percent sign loses only its last character. */
  lemma DropPercentOnce(s: string)
    ensures DropPercent(s + "%%") == s + "%"
  {
    assert s + "%%" == (s + "%") + "%";
  }

  /** What the conversion of a string gives, None where both `int` and `float` raise: strip, drop
      one trailing "%", then `int`, then `float`. */
  function ParseText(floatOf: string -> Option<real>, text: string): (r: Option<Number>)
    ensures PyInt(text).Some? ==> r == Some(NInt(PyInt(text).value))
  {
    PyStripIdempotent(text);
    PyIntEndsInDigit(text);
    var s := DropPercent(PyStrip(text));
    var i := PyInt(s);
    if i.Some? then Some(NInt(i.value))
    else
      var f := floatOf(s);
      if f.Some? then Some(NFloat(f.value)) else None
  }

  /** `str(x)` for the values that go through the string path. */
  function StrOf(x: PyValue): string
    requires !x.PNone? && !x.PFloat?
  {
    match x
    case PBool(b) => if b then "True" else "False"
    case PInt(i) => Decimal(i)
    case PStr(s) => s
  }

  /** The number `_as_number` reads from `x`, None where it falls back to the default. A float's
      `str` always has a point, an exponent or letters, so `int` rejects it and `float` reads it
      back exactly; floats are therefore taken as they are. */
  function Parse(floatOf: string -> Option<real>, x: PyValue): Option<Number> {
    match x
    case PNone => None
    case PFloat(f) => Some(NFloat(f))
    case _ => ParseText(floatOf, StrOf(x))
  }

  /** The text `_as_number` hands to `int` and `float`: `str(x)` stripped, one trailing "%"
      dropped. */
  function NumberText(x: PyValue): string
    requires !x.PNone? && !x.PFloat?
  {
    DropPercent(PyStrip(StrOf(x)))
  }

  /** `_as_number(x, default)`: the default for None; otherwise `int` of the text if it parses,
      else `float` of it if that parses, else the default. */
  function AsNumber(floatOf: string -> Option<real>, x: PyValue, default: Number): (n: Number)
    ensures x.PNone? ==> n == default
    ensures x.PFloat? ==> n == NFloat(x.f)
    ensures !x.PNone? && !x.PFloat? && PyInt(NumberText(x)).Some? ==> n == NInt(PyInt(NumberText(x)).value)
    ensures !x.PNone? && !x.PFloat? && PyInt(NumberText(x)).None? && floatOf(NumberText(x)).Some?
      ==> n == NFloat(floatOf(NumberText(x)).value)
    ensures !x.PNone? && !x.PFloat? && PyInt(NumberText(x)).None? && floatOf(NumberText(x)).None?
      ==> n == default
  {
    var p := Parse(floatOf, x);
    if p.Some? then p.value else default
  }

  /** An int comes back as itself. */
  lemma AsNumberOfInt(floatOf: string -> Option<real>, i: int, default: Number)
    ensures AsNumber(floatOf, PInt(i), default) == NInt(i)
  {
    StripDecimal(i);
    IntOfDecimal(i);
  }

  lemma LastOfDecimal(i: int)
    ensures Decimal(i) != [] && IsAsciiDigit(Decimal(i)[|Decimal(i)| - 1])
  {
    if i < 0 {
      var ds := NatDecimal(-i);
      assert ("-" + ds)[|"-" + ds| - 1] == ds[|ds| - 1];
    }
  }

  /** `str(i)` has no surrounding whitespace and no trailing "%". */
  lemma StripDecimal(i: int)
    ensures PyStrip(Decimal(i)) == Decimal(i) && !EndsWithChar(Decimal(i), '%')
  {
    LastOfDecimal(i);
    var s := Decimal(i);
    assert s[0] == '-' || IsAsciiDigit(s[0]);
    StripUnspaced(s);
  }

  /** A percentage such as "62%" reads as the integer before the sign. */
  lemma AsNumberOfPercent(floatOf: string -> Option<real>, ds: string, default: Number)
    requires ds != [] && AllDigits(ds)
    ensures AsNumber(floatOf, PStr(ds + "%"), default) == NInt(DecValue(ds))
  {
    PercentBody(ds);
    IntOfDigits(ds);
  }

  /** "5%%" reaches `int` as "5%", which it rejects, so only `float` can still read it. */
  lemma AsNumberOfDoublePercent(floatOf: string -> Option<real>, ds: string, default: Number)
    requires ds != [] && AllDigits(ds)
    ensures var t := ds + "%";
      AsNumber(floatOf, PStr(ds + "%%"), default) == (if floatOf(t).Some? then NFloat(floatOf(t).value) else default)
  {
    DoublePercentBody(ds);
  }

  /** Stripping `ds + "%"` changes nothing, and dropping the sign leaves the digits. */
  lemma PercentBody(ds: string)
    requires ds != [] && AllDigits(ds)
    ensures NumberText(PStr(ds + "%")) == ds
  {
    var s := ds + "%";
    assert s[|s| - 1] == '%' && s[0] == ds[0];
    StripUnspaced(s);
  }

  /** Of `ds + "%%"` the text `ds + "%"` is left, which is not an integer literal. */
  lemma DoublePercentBody(ds: string)
    requires ds != [] && AllDigits(ds)
    ensures NumberText(PStr(ds + "%%")) == ds + "%" && PyInt(ds + "%") == None
  {
    var s := ds + "%%";
    assert s[0] == ds[0] && s[|s| - 1] == '%';
    StripUnspaced(s);
    DropPercentOnce(ds);
    var t := ds + "%";
    assert t[0] == ds[0] && t[|t| - 1] == '%';
    StripUnspaced(t);
    assert !DigitGroups(t);
  }

  // ---------------------------------------------------------------------------------------------
  // The row shape
  // ---------------------------------------------------------------------------------------------

  /** STAT_KEY_MAP: API label to column. */
  const StatKeyMap: map<string, string> := map[
    "Shots on Goal" := "shots_on_goal",
    "Shots off Goal" := "shots_off_goal",
    "Shots insidebox" := "shots_in_box",
    "Shots outsidebox" := "shots_outside_box",
    "Total Shots" := "shots_total",
    "Blocked Shots" := "shots_blocked",
    "Fouls" := "fouls",
    "Corner Kicks" := "corners",
    "Offsides" := "offsides",
    "Ball Possession" := "possession_pct",
    "Yellow Cards" := "yellow_cards",
    "Red Cards" := "red_cards",
    "Goalkeeper Saves" := "gk_saves",
    "Total passes" := "passes_total",
    "Passes accurate" := "passes_accurate",
    "Passes %" := "passes_accuracy_pct"
  ]

  /** The metric columns of `_empty_row` in order, and their defaults: 0, and 0.0 for the two
      percentages. */
  const MetricColumns: seq<string> := [
    "shots_on_goal", "shots_off_goal", "shots_in_box", "shots_outside_box", "shots_total",
    "shots_blocked", "fouls", "corners", "offsides", "possession_pct", "yellow_cards", "red_cards",
    "gk_saves", "passes_total", "passes_accurate", "passes_accuracy_pct"
  ]

  function DefaultOf(column: string): Number {
    if column == "possession_pct" || column == "passes_accuracy_pct" then NFloat(0.0) else NInt(0)
  }

  /** The metrics of `_empty_row`. */
  function EmptyMetrics(): map<string, Number> {
    map c | c in MetricColumns :: DefaultOf(c)
  }

  /** A row: the three identity fields and the metrics by column. */
  datatype Row = Row(fixtureId: Option<int>, teamId: PyValue, teamName: PyValue, metrics: map<string, Number>)

  /** `_empty_row()`: identity fields None, every metric at its default. */
  function EmptyRow(): (r: Row)
    ensures r.fixtureId == None && r.teamId == PNone && r.teamName == PNone
    ensures r.metrics.Keys == set c | c in MetricColumns
    ensures forall c :: c in r.metrics ==> r.metrics[c] == (if c in {"possession_pct", "passes_accuracy_pct"} then NFloat(0.0) else NInt(0))
  {
    Row(None, PNone, PNone, EmptyMetrics())
  }

  /** Every column STAT_KEY_MAP names is already a metric of `_empty_row`. */
  predicate HasAllTargets(m: map<string, Number>) {
    StatKeyMap.Values <= m.Keys
  }

  lemma EmptyHasAllTargets()
    ensures HasAllTargets(EmptyMetrics())
  {
    assert StatKeyMap.Values <= set c | c in MetricColumns;
  }

  // ---------------------------------------------------------------------------------------------
  // Filling one row
  // ---------------------------------------------------------------------------------------------

  /** The column an entry writes, None when its type is missing, falsy or not a known label. */
  function TargetOf(e: StatEntry): Option<string> {
    if !Truthy(e.typ) then None
    else if e.typ.PStr? && e.typ.s in StatKeyMap then Some(StatKeyMap[e.typ.s])
    else None
  }

  /** One pass of the inner loop: `row[key] = _as_number(value, row[key])`. */
  function ApplyEntry(floatOf: string -> Option<real>, m: map<string, Number>, e: StatEntry): (r: map<string, Number>)
    requires HasAllTargets(m)
    ensures r.Keys == m.Keys && HasAllTargets(r)
  {
    var key := TargetOf(e);
    if key.None? then m
    else m[key.value := AsNumber(floatOf, e.value, m[key.value])]
  }

  /** The metrics after the inner loop over `entries`, in order. */
  function FillFrom(floatOf: string -> Option<real>, m: map<string, Number>, entries: seq<StatEntry>): (r: map<string, Number>)
    requires HasAllTargets(m)
    ensures r.Keys == m.Keys && HasAllTargets(r)
    decreases |entries|
  {
    if entries == [] then m else FillFrom(floatOf, ApplyEntry(floatOf, m, entries[0]), entries[1..])
  }

  /** A team block of the response: the team's id and name (PNone when missing) and its entries. */
  datatype TeamBlock = TeamBlock(teamId: PyValue, teamName: PyValue, statistics: seq<StatEntry>)

  /** The row the outer loop appends for one block. */
  function RowOf(floatOf: string -> Option<real>, b: TeamBlock, fixtureId: Option<int>): Row {
    EmptyHasAllTargets();
    Row(fixtureId, b.teamId, b.teamName, FillFrom(floatOf, EmptyMetrics(), b.statistics))
  }

  /** `normalize_statistics_response(resp, fixture_id)`; `response` is None when the response has
      no (or a falsy) `response` list. */
  method NormalizeStatisticsResponse(floatOf: string -> Option<real>, response: Option<seq<TeamBlock>>, fixtureId: Option<int>)
    returns (rows: seq<Row>)
    ensures response.None? ==> rows == []
    ensures response.Some? ==> |rows| == |response.value|
    ensures response.Some? ==> forall i :: 0 <= i < |rows| ==> rows[i] == RowOf(floatOf, response.value[i], fixtureId)
  {
    rows := [];
    var blocks := if response.Some? then response.value else [];
    var b := 0;
    while b < |blocks|
      invariant 0 <= b <= |blocks|
      invariant |rows| == b && forall i :: 0 <= i < b ==> rows[i] == RowOf(floatOf, blocks[i], fixtureId)
    {
      var block := blocks[b];
      var metrics := FillMetrics(floatOf, block.statistics);
      rows := rows + [Row(fixtureId, block.teamId, block.teamName, metrics)];
      b := b + 1;
    }
  }

  /** The inner loop of `normalize_statistics_response` over one team's entries, starting from the
      metrics of `_empty_row`. */
  method FillMetrics(floatOf: string -> Option<real>, stats: seq<StatEntry>) returns (metrics: map<string, Number>)
    ensures HasAllTargets(EmptyMetrics()) && metrics == FillFrom(floatOf, EmptyMetrics(), stats)
  {
    metrics := EmptyMetrics();
    EmptyHasAllTargets();
    ghost var start := metrics;
    var j := 0;
    while j < |stats|
      invariant 0 <= j <= |stats| && HasAllTargets(metrics)
      invariant FillFrom(floatOf, metrics, stats[j..]) == FillFrom(floatOf, start, stats)
    {
      FillStep(floatOf, metrics, stats, j);
      // a falsy type, or a label STAT_KEY_MAP does not know, leaves the row as it is
      var key := TargetOf(stats[j]);
      if key.Some? {
        metrics := metrics[key.value := AsNumber(floatOf, stats[j].value, metrics[key.value])];
      }
      j := j + 1;
    }
  }

  /** Unfolding the fill at position `j`. */
  lemma FillStep(floatOf: string -> Option<real>, m: map<string, Number>, stats: seq<StatEntry>, j: nat)
    requires HasAllTargets(m) && j < |stats|
    ensures FillFrom(floatOf, m, stats[j..]) == FillFrom(floatOf, ApplyEntry(floatOf, m, stats[j]), stats[j + 1..])
  {
    assert stats[j..][1..] == stats[j + 1..];
  }

  // ---------------------------------------------------------------------------------------------
  // What a filled row holds
  // ---------------------------------------------------------------------------------------------

  /** The number the last entry for `column` with a readable value gives, if any. */
  function LastReading(floatOf: string -> Option<real>, entries: seq<StatEntry>, column: string): Option<Number>
    decreases |entries|
  {
    if entries == [] then None
    else
      var e := entries[|entries| - 1];
      if TargetOf(e) == Some(column) && Parse(floatOf, e.value).Some? then Parse(floatOf, e.value)
      else LastReading(floatOf, entries[..|entries| - 1], column)
  }

  lemma {:induction false} FillSnoc(floatOf: string -> Option<real>, m: map<string, Number>, entries: seq<StatEntry>, e: StatEntry)
    requires HasAllTargets(m)
    ensures FillFrom(floatOf, m, entries + [e]) == ApplyEntry(floatOf, FillFrom(floatOf, m, entries), e)
    decreases |entries|
  {
    if entries == [] {
      assert [e][1..] == [];
    } else {
      assert (entries + [e])[1..] == entries[1..] + [e];
      FillSnoc(floatOf, ApplyEntry(floatOf, m, entries[0]), entries[1..], e);
    }
  }

  /** Each metric ends as the reading of the last entry for it whose value parses; with no such
      entry, it keeps the value it had (a later duplicate label overwrites an earlier one, and an
      unparseable value keeps the previous one). */
  lemma {:induction false} FilledValue(floatOf: string -> Option<real>, m: map<string, Number>, entries: seq<StatEntry>, column: string)
    requires HasAllTargets(m) && column in m
    ensures FillFrom(floatOf, m, entries)[column] == LastReading(floatOf, entries, column).GetOr(m[column])
    decreases |entries|
  {
    if entries != [] {
      var init := entries[..|entries| - 1];
      var e := entries[|entries| - 1];
      assert entries == init + [e];
      FillSnoc(floatOf, m, init, e);
      FilledValue(floatOf, m, init, column);
    }
  }

  /** Dropping the entries without a known label changes nothing. */
  function KnownOnly(entries: seq<StatEntry>): seq<StatEntry> {
    if entries == [] then []
    else (if TargetOf(entries[0]).Some? then [entries[0]] else []) + KnownOnly(entries[1..])
  }

  lemma {:induction false} UnknownEntriesIgnored(floatOf: string -> Option<real>, m: map<string, Number>, entries: seq<StatEntry>)
    requires HasAllTargets(m)
    ensures FillFrom(floatOf, m, entries) == FillFrom(floatOf, m, KnownOnly(entries))
    decreases |entries|
  {
    if entries != [] {
      var e := entries[0];
      if TargetOf(e).Some? {
        UnknownEntriesIgnored(floatOf, ApplyEntry(floatOf, m, e), entries[1..]);
        assert ([e] + KnownOnly(entries[1..]))[1..] == KnownOnly(entries[1..]);
      } else {
        UnknownEntriesIgnored(floatOf, m, entries[1..]);
        assert [] + KnownOnly(entries[1..]) == KnownOnly(entries[1..]);
      }
    }
  }

  /** Every row has exactly the columns of `_empty_row`, the fixture id passed in and the team of
      its block; a metric no entry reads stays at its default. */
  lemma RowShape(floatOf: string -> Option<real>, b: TeamBlock, fixtureId: Option<int>, column: string)
    ensures var r := RowOf(floatOf, b, fixtureId);
      && r.metrics.Keys == EmptyRow().metrics.Keys
      && r.fixtureId == fixtureId && r.teamId == b.teamId && r.teamName == b.teamName
      && (column in r.metrics && LastReading(floatOf, b.statistics, column).None? ==> r.metrics[column] == DefaultOf(column))
  {
    EmptyHasAllTargets();
    if column in EmptyMetrics() {
      FilledValue(floatOf, EmptyMetrics(), b.statistics, column);
    }
  }
}
