/** The governance metrics parser: the body of the governance canister's
    metrics page is Prometheus text, three lines per gauge (HELP, TYPE, then
    the sample "name value timestamp"), and the dashboard turns it into a
    dictionary of gauges keyed by metric name. Fetching and caching the page
    are outside this model: the parser takes the text as its input. */
module GovernanceMetrics {
  import opened Wrappers
  import opened JsString

  /** One gauge read from the metrics page. timestamp is None where the
      sample line has no third field (JavaScript stores undefined). */
  datatype Gauge = Gauge(name: string, value: int, timestamp: Option<string>, description: string)

  /** The exceptions that make the query function throw. */
  datatype ParseError =
    | MissingValue               // no second field: BigInt(undefined) is a TypeError
    | InvalidValue(field: string)  // BigInt(field) is a SyntaxError
    | MissingDescription         // the HELP line has no piece after the name: desc.trim() is a TypeError

  // ---------------------------------------------------------------------
  // One record

  /** The metric name: the first space-separated field of the sample line. */
  function SampleName(sample: string): string {
    Split(sample, " ")[0]
  }

  /** The gauge that the HELP line and the sample line of one record denote.
      The object literal evaluates BigInt(value) before desc.trim(), so a
      missing value is reported before a missing description. A parsed
      gauge is named by the first field of the sample line. */
  function ParseRecord(help: string, sample: string): (r: Result<Gauge, ParseError>)
    ensures r.Success? ==> r.value.name == SampleName(sample)
  {
    var fields := Split(sample, " ");
    var name := fields[0];
    var pieces := Split(help, name);
    if |fields| < 2 then Failure(MissingValue)
    else match StringToBigInt(fields[1])
      case None => Failure(InvalidValue(fields[1]))
      case Some(v) =>
        if |pieces| < 2 then Failure(MissingDescription)
        else
          var timestamp := if |fields| > 2 then Some(fields[2]) else None;
          Success(Gauge(name, v, timestamp, Trim(pieces[1])))
  }

  // ---------------------------------------------------------------------
  // The whole page

  /** How many records the loop reads from n lines: it reads at offsets
      0, 3, 6, ... while the offset is below n - 3. */
  function RecordCount(n: nat): (r: nat)
    ensures r == 0 || 3 * r < n
    ensures n <= 3 * r + 3
  {
    if n < 4 then 0 else 1 + RecordCount(n - 3)
  }

  /** Record k: read from the HELP line at offset 3 * k and the sample line
      at offset 3 * k + 2. */
  function RecordAt(lines: seq<string>, k: nat): Result<Gauge, ParseError>
    requires 3 * k + 3 < |lines|
  {
    ParseRecord(lines[3 * k], lines[3 * k + 2])
  }

  lemma RecordIsReadAt(lines: seq<string>, k: nat, i: nat)
    requires i == 3 * k && i + 3 < |lines|
    ensures k < |Records(lines)| && Records(lines)[k] == ParseRecord(lines[i], lines[i + 2])
  {
    assert Records(lines)[k] == RecordAt(lines, k);
  }

  /** The records of the page in order. */
  function Records(lines: seq<string>): (recs: seq<Result<Gauge, ParseError>>)
    ensures |recs| == RecordCount(|lines|)
  {
    seq(RecordCount(|lines|), k requires 0 <= k < RecordCount(|lines|) => RecordAt(lines, k))
  }

  /** The dictionary the records make when inserted in order, or the error
      of the first record that does not parse. Every gauge is stored under
      its own name. */
  function Collect(recs: seq<Result<Gauge, ParseError>>): (r: Result<map<string, Gauge>, ParseError>)
    ensures r.Success? ==> forall x :: x in r.value ==> r.value[x].name == x
  {
    if recs == [] then Success(map[])
    else match Collect(recs[..|recs| - 1])
      case Failure(e) => Failure(e)
      case Success(gauges) =>
        match recs[|recs| - 1]
        case Failure(e) => Failure(e)
        case Success(g) => Success(gauges[g.name := g])
  }

  /** What the query function returns for the page text, or the error it
      throws. A page of fewer than four lines (fewer than three line breaks)
      holds no gauges; every gauge is stored under its own name. */
  function Gauges(text: string): (r: Result<map<string, Gauge>, ParseError>)
    ensures |Split(text, "\n")| < 4 ==> r == Success(map[])
    ensures r.Success? ==> forall x :: x in r.value ==> r.value[x].name == x
  {
    Collect(Records(Split(text, "\n")))
  }

  /** The query function's loop: split the text into lines, then step through
      them three at a time, inserting each record's gauge under its name; the
      first record that throws ends the loop with its error. */
  method ParseGauges(text: string) returns (r: Result<map<string, Gauge>, ParseError>)
    ensures r == Gauges(text)
  {
    var arr := Split(text, "\n");
    ghost var recs := Records(arr);
    var gauges: map<string, Gauge> := map[];
    var i := 0;
    ghost var k := 0;
    while i < |arr| - 3
      invariant i == 3 * k && k <= |recs|
      invariant Collect(recs[..k]) == Success(gauges)
    {
      var rec := ParseRecord(arr[i], arr[i + 2]);
      RecordIsReadAt(arr, k, i);
      assert recs[k] == rec;
      CollectStep(recs, k);
      match rec
      case Failure(e) =>
        FailureIsFinal(recs, k + 1);
        return Failure(e);
      case Success(gauge) =>
        gauges := gauges[gauge.name := gauge];
        i := i + 3;
        k := k + 1;
    }
    assert recs[..k] == recs;
    r := Success(gauges);
  }

  // ---------------------------------------------------------------------
  // What the parser promises

  /** Inserting one more record: a failing record ends the fold with its
      error, a parsed one is stored under its name. */
  lemma CollectStep(recs: seq<Result<Gauge, ParseError>>, k: nat)
    requires k < |recs| && Collect(recs[..k]).Success?
    ensures recs[k].Failure? ==> Collect(recs[..k + 1]) == Failure(recs[k].error)
    ensures recs[k].Success? ==>
      Collect(recs[..k + 1]) == Success(Collect(recs[..k]).value[recs[k].value.name := recs[k].value])
  {
    assert recs[..k + 1][..k] == recs[..k];
  }

  /** Once a record fails, its error is what the whole page yields. */
  lemma {:induction false} FailureIsFinal(recs: seq<Result<Gauge, ParseError>>, j: nat)
    requires j <= |recs|
    requires Collect(recs[..j]).Failure?
    ensures Collect(recs) == Collect(recs[..j])
    decreases |recs|
  {
    if j < |recs| {
      assert recs[..|recs| - 1][..j] == recs[..j];
      FailureIsFinal(recs[..|recs| - 1], j);
    } else {
      assert recs[..j] == recs;
    }
  }

  /** The records give a dictionary exactly when every one of them parses. */
  lemma {:induction false} CollectSucceeds(recs: seq<Result<Gauge, ParseError>>)
    ensures Collect(recs).Success? <==> forall j :: 0 <= j < |recs| ==> recs[j].Success?
    decreases |recs|
  {
    if recs != [] {
      var front := recs[..|recs| - 1];
      CollectSucceeds(front);
      assert forall j :: 0 <= j < |front| ==> front[j] == recs[j];
    }
  }

  /** When the records fail, the error is that of the first record that does not parse. */
  lemma {:induction false} CollectFirstError(recs: seq<Result<Gauge, ParseError>>)
    requires Collect(recs).Failure?
    ensures exists j :: 0 <= j < |recs| && recs[j] == Failure(Collect(recs).error)
                        && forall l :: 0 <= l < j ==> recs[l].Success?
    decreases |recs|
  {
    var front := recs[..|recs| - 1];
    if Collect(front).Failure? {
      CollectFirstError(front);
      var j :| 0 <= j < |front| && front[j] == Failure(Collect(front).error)
               && forall l :: 0 <= l < j ==> front[l].Success?;
      assert Collect(recs) == Collect(front);
      assert forall l :: 0 <= l <= j ==> recs[l] == front[l];
    } else {
      CollectSucceeds(front);
      var j := |recs| - 1;
      assert recs[j] == Failure(Collect(recs).error);
      assert forall l :: 0 <= l < j ==> recs[l] == front[l];
    }
  }

  /** The dictionary holds exactly the names of the records, and each gauge is
      stored under its own name. */
  lemma {:induction false} CollectKeys(recs: seq<Result<Gauge, ParseError>>)
    requires Collect(recs).Success?
    ensures forall j :: 0 <= j < |recs| ==> recs[j].Success?
    ensures Collect(recs).value.Keys == (set j | 0 <= j < |recs| :: recs[j].value.name)
    ensures forall x :: x in Collect(recs).value ==> Collect(recs).value[x].name == x
    decreases |recs|
  {
    CollectSucceeds(recs);
    if recs != [] {
      var front := recs[..|recs| - 1];
      CollectKeys(front);
      assert (set j | 0 <= j < |recs| :: recs[j].value.name)
          == (set j | 0 <= j < |front| :: front[j].value.name) + {recs[|recs| - 1].value.name};
    }
  }

  /** Of several records with one name, the dictionary keeps the last. */
  lemma {:induction false} CollectKeepsLast(recs: seq<Result<Gauge, ParseError>>, j: nat)
    requires forall l :: 0 <= l < |recs| ==> recs[l].Success?
    requires j < |recs|
    requires forall l :: j < l < |recs| ==> recs[l].value.name != recs[j].value.name
    ensures Collect(recs).Success?
    ensures recs[j].value.name in Collect(recs).value
    ensures Collect(recs).value[recs[j].value.name] == recs[j].value
    decreases |recs|
  {
    CollectSucceeds(recs);
    if j < |recs| - 1 {
      var front := recs[..|recs| - 1];
      CollectKeepsLast(front, j);
    }
  }

  /** A record parses to gauge g exactly when the sample line has at least two
      fields, of which the first is g's name, the second denotes g's value
      and the third, if any, is g's timestamp, and the HELP line has a piece
      after g's name whose trimmed text is g's description. */
  lemma ParseRecordOf(help: string, sample: string, g: Gauge, fields: seq<string>)
    requires Split(sample, " ") == fields
    requires |fields| >= 2 && fields[0] == g.name
    requires StringToBigInt(fields[1]) == Some(g.value)
    requires g.timestamp == (if |fields| > 2 then Some(fields[2]) else None)
    requires |Split(help, g.name)| >= 2 && Trim(Split(help, g.name)[1]) == g.description
    ensures ParseRecord(help, sample) == Success(g)
  {
  }

  /** A parsed gauge's name, value and timestamp are the first three
      space-separated fields of the sample line: the value is the integer
      the second field denotes, and the timestamp is absent when there is no
      third field. */
  lemma ParsedGaugeFields(help: string, sample: string)
    requires ParseRecord(help, sample).Success?
    ensures var g, fields := ParseRecord(help, sample).value, Split(sample, " ");
      && |fields| >= 2 && g.name == fields[0]
      && StringToBigInt(fields[1]) == Some(g.value)
      && g.timestamp == (if |fields| > 2 then Some(fields[2]) else None)
  {
  }

  /** The description of a parsed record is the text of the HELP line
      between the first occurrence of the gauge's name and the next one (or
      the end of the line), with surrounding whitespace trimmed. */
  lemma ParsedDescription(help: string, sample: string)
    requires ParseRecord(help, sample).Success? && SampleName(sample) != ""
    ensures Contains(help, SampleName(sample))
    ensures ParseRecord(help, sample).value.description == Trim(TextAfterFirstMatch(help, SampleName(sample)))
  {
    var name := SampleName(sample);
    assert ParseRecord(help, sample).value.description == Trim(Split(help, name)[1]);
    SplitSecondPiece(help, name);
  }

  /** A sample line that starts with a space has the empty name, which
      splits the HELP line into single characters; the description is then
      the HELP line's second character, trimmed. */
  lemma ParsedDescriptionOfEmptyName(help: string, sample: string)
    requires ParseRecord(help, sample).Success? && SampleName(sample) == ""
    ensures |help| >= 2 && ParseRecord(help, sample).value.description == Trim(help[1..2])
  {
    assert ParseRecord(help, sample).value.description == Trim(Split(help, "")[1]);
    SplitCharsSecondPiece(help);
  }

  /** The three ways a record fails: no second field in the sample line; a
      second field that is not a BigInt literal; or a HELP line in which the
      name does not occur (for an empty name: a HELP line shorter than two
      characters). */
  lemma ParseRecordFailures(help: string, sample: string)
    ensures var fields := Split(sample, " ");
      ParseRecord(help, sample) == Failure(MissingValue) <==> |fields| < 2
    ensures var fields := Split(sample, " ");
      (ParseRecord(help, sample).Failure? && ParseRecord(help, sample).error.InvalidValue?)
      <==> |fields| >= 2 && StringToBigInt(fields[1]).None?
    ensures var fields := Split(sample, " ");
      ParseRecord(help, sample) == Failure(MissingDescription)
      <==> && |fields| >= 2 && StringToBigInt(fields[1]).Some?
           && if fields[0] == "" then |help| < 2 else !Contains(help, fields[0])
  {
    var fields := Split(sample, " ");
    if fields[0] != "" {
      SplitOnHasSecondPiece(help, fields[0]);
    }
  }

  /** Record k is read from the lines at offsets 3 * k and 3 * k + 2, and a
      record is read only while a line follows its sample line. */
  lemma RecordsReadEveryThirdLine(lines: seq<string>)
    ensures forall k :: 0 <= k < |Records(lines)| ==>
      3 * k + 3 < |lines| && Records(lines)[k] == ParseRecord(lines[3 * k], lines[3 * k + 2])
  {
    forall k | 0 <= k < |Records(lines)|
      ensures 3 * k + 3 < |lines| && Records(lines)[k] == ParseRecord(lines[3 * k], lines[3 * k + 2])
    {
      assert Records(lines)[k] == RecordAt(lines, k);
    }
  }

  /** 3n + 1 lines (n records and a final line break) give n records; 3n
      lines give n - 1. */
  lemma RecordCountOfLines(n: nat)
    ensures RecordCount(3 * n + 1) == n
    ensures n >= 1 ==> RecordCount(3 * n) == n - 1
  {
  }

  // ---------------------------------------------------------------------
  // Round trip through the exposition format

  /** A gauge that the three-line exposition below writes unambiguously: a
      non-empty name without spaces or line breaks that does not occur in
      the "# HELP " prefix, a trimmed one-line description that
      does not mention the name, and a timestamp, if any, without spaces or
      line breaks. */
  predicate Exposable(g: Gauge) {
    && g.name != "" && !Contains("# HELP ", g.name)
    && ' ' !in g.name && '\n' !in g.name
    && '\n' !in g.description && IsTrimmed(g.description) && !Contains(g.description, g.name)
    && (g.timestamp.Some? ==> ' ' !in g.timestamp.value && '\n' !in g.timestamp.value)
  }

  function HelpLine(g: Gauge): string {
    "# HELP " + g.name + " " + g.description
  }

  function TypeLine(g: Gauge): string {
    "# TYPE " + g.name + " gauge"
  }

  /** The fields of the sample line: name, value and, if there is one, timestamp. */
  function SampleFields(g: Gauge): seq<string> {
    [g.name, IntToDecimal(g.value)] + if g.timestamp.Some? then [g.timestamp.value] else []
  }

  function SampleLine(g: Gauge): string {
    Join(SampleFields(g), " ")
  }

  /** The HELP, TYPE and sample lines of each gauge in turn. */
  function ExpositionLines(gs: seq<Gauge>): (lines: seq<string>)
    ensures |lines| == 3 * |gs|
  {
    if gs == [] then []
    else
      var g := gs[|gs| - 1];
      ExpositionLines(gs[..|gs| - 1]) + [HelpLine(g), TypeLine(g), SampleLine(g)]
  }

  /** The page text: every line followed by a line break. */
  function Exposition(gs: seq<Gauge>): string
  {
    Join(ExpositionLines(gs) + [""], "\n")
  }

  /** The dictionary the gauges make when inserted in order, later ones
      replacing earlier ones of the same name. */
  function Dictionary(gs: seq<Gauge>): map<string, Gauge>
  {
    if gs == [] then map[] else Dictionary(gs[..|gs| - 1])[gs[|gs| - 1].name := gs[|gs| - 1]]
  }

  lemma {:induction false} ExpositionLinesAt(gs: seq<Gauge>, j: nat)
    requires j < |gs|
    ensures ExpositionLines(gs)[3 * j] == HelpLine(gs[j])
    ensures ExpositionLines(gs)[3 * j + 1] == TypeLine(gs[j])
    ensures ExpositionLines(gs)[3 * j + 2] == SampleLine(gs[j])
    decreases |gs|
  {
    if j < |gs| - 1 {
      ExpositionLinesAt(gs[..|gs| - 1], j);
    }
  }

  /** The sample line of an exposable gauge splits into its fields. */
  lemma SampleLineFields(g: Gauge)
    requires Exposable(g)
    ensures Split(SampleLine(g), " ") == SampleFields(g)
  {
    DecimalHasNoWhiteSpace(g.value);
    SplitJoin(SampleFields(g), " ");
  }

  /** The name is first found right after "# HELP ". */
  lemma HelpLineFirstMatch(g: Gauge)
    requires Exposable(g)
    ensures forall j: nat :: j < 7 ==> !MatchAt(HelpLine(g), g.name, j)
  {
    var a := "# HELP ";
    var s := HelpLine(g);
    forall j: nat | j < 7 ensures !MatchAt(s, g.name, j) {
      if j + |g.name| <= 7 {
        assert s[j..j + |g.name|] == a[j..j + |g.name|];
        assert !MatchAt(a, g.name, j);
      } else if j + |g.name| <= |s| {
        assert s[j..j + |g.name|][6 - j] == s[6] == ' ';
        assert g.name[6 - j] in g.name;
      }
    }
  }

  /** The name does not occur in the text after it. */
  lemma NameNotAfterItself(g: Gauge)
    requires Exposable(g)
    ensures !Contains(" " + g.description, g.name)
  {
    var b := " " + g.description;
    forall j: nat | j <= |b| ensures !MatchAt(b, g.name, j) {
      if j == 0 {
        NoMatchWhereFirstCharAbsent(b, g.name, 1);
      } else if j + |g.name| <= |b| {
        assert b[j..j + |g.name|] == g.description[j - 1..j - 1 + |g.name|];
        assert !MatchAt(g.description, g.name, j - 1);
      }
    }
  }

  /** The HELP line of an exposable gauge splits at its name into the
      "# HELP " prefix and the rest of the line. */
  lemma HelpLinePieces(g: Gauge)
    requires Exposable(g)
    ensures Split(HelpLine(g), g.name) == ["# HELP ", " " + g.description]
  {
    var a, b := "# HELP ", " " + g.description;
    assert HelpLine(g) == a + g.name + b;
    HelpLineFirstMatch(g);
    SplitAtFirstMatch(a, g.name, b);
    NameNotAfterItself(g);
    SplitWithoutMatch(b, g.name);
  }

  /** The fields an exposable gauge writes denote its name, value and timestamp. */
  lemma SampleFieldsParse(g: Gauge)
    ensures var fields := SampleFields(g);
      && |fields| >= 2 && fields[0] == g.name
      && StringToBigInt(fields[1]) == Some(g.value)
      && g.timestamp == (if |fields| > 2 then Some(fields[2]) else None)
  {
    assert SampleFields(g)[1] == IntToDecimal(g.value);
    BigIntOfDecimal(g.value);
  }

  /** The HELP line of an exposable gauge yields its description. */
  lemma HelpLineParses(g: Gauge)
    requires Exposable(g)
    ensures var pieces := Split(HelpLine(g), g.name);
      |pieces| >= 2 && Trim(pieces[1]) == g.description
  {
    HelpLinePieces(g);
    TrimAfterWhiteSpace(" ", g.description);
  }

  /** The record an exposable gauge writes parses back to that gauge. */
  lemma RecordRoundTrip(g: Gauge)
    requires Exposable(g)
    ensures ParseRecord(HelpLine(g), SampleLine(g)) == Success(g)
  {
    SampleLineFields(g);
    SampleFieldsParse(g);
    HelpLineParses(g);
    ParseRecordOf(HelpLine(g), SampleLine(g), g, SampleFields(g));
  }

  /** The records that the gauges gs make when each parses, in order. */
  function Successes(gs: seq<Gauge>): (recs: seq<Result<Gauge, ParseError>>)
    ensures |recs| == |gs|
    ensures forall j :: 0 <= j < |gs| ==> recs[j] == Success(gs[j])
  {
    if gs == [] then [] else Successes(gs[..|gs| - 1]) + [Success(gs[|gs| - 1])]
  }

  /** Records that are the gauges gs, in order, give the dictionary of gs. */
  lemma {:induction false} CollectGauges(gs: seq<Gauge>)
    ensures Collect(Successes(gs)) == Success(Dictionary(gs))
    decreases |gs|
  {
    if gs != [] {
      var recs := Successes(gs);
      CollectGauges(gs[..|gs| - 1]);
      assert recs[..|recs| - 1] == Successes(gs[..|gs| - 1]);
    }
  }

  /** A record written by an exposable gauge reads back as that gauge. */
  lemma RecordOfGauge(lines: seq<string>, j: nat, g: Gauge)
    requires Exposable(g) && j < RecordCount(|lines|)
    requires lines[3 * j] == HelpLine(g) && lines[3 * j + 2] == SampleLine(g)
    ensures Records(lines)[j] == Success(g)
  {
    assert Records(lines)[j] == RecordAt(lines, j);
    RecordRoundTrip(g);
  }

  /** Lines holding the records of exposable gauges at offsets 0, 3, 6, ... */
  lemma RecordsOfExposition(lines: seq<string>, gs: seq<Gauge>)
    requires forall i :: 0 <= i < |gs| ==> Exposable(gs[i])
    requires RecordCount(|lines|) == |gs|
    requires forall j :: 0 <= j < |gs| ==> lines[3 * j] == HelpLine(gs[j]) && lines[3 * j + 2] == SampleLine(gs[j])
    ensures Records(lines) == Successes(gs)
  {
    EachRecordIsItsGauge(lines, gs);
  }

  lemma EachRecordIsItsGauge(lines: seq<string>, gs: seq<Gauge>)
    requires forall i :: 0 <= i < |gs| ==> Exposable(gs[i])
    requires RecordCount(|lines|) == |gs|
    requires forall j :: 0 <= j < |gs| ==> lines[3 * j] == HelpLine(gs[j]) && lines[3 * j + 2] == SampleLine(gs[j])
    ensures forall j :: 0 <= j < |gs| ==> Records(lines)[j] == Success(gs[j])
  {
    forall j | 0 <= j < |gs| ensures Records(lines)[j] == Success(gs[j]) {
      RecordOfGauge(lines, j, gs[j]);
    }
  }

  /** None of the three lines of an exposable gauge contains a line break. */
  lemma GaugeLinesAreLines(g: Gauge)
    requires Exposable(g)
    ensures '\n' !in HelpLine(g) && '\n' !in TypeLine(g) && '\n' !in SampleLine(g)
  {
    DecimalHasNoWhiteSpace(g.value);
    JoinAvoids(SampleFields(g), " ", '\n');
  }

  /** No line of the exposition contains a line break. */
  lemma ExpositionLinesAreLines(gs: seq<Gauge>)
    requires forall i :: 0 <= i < |gs| ==> Exposable(gs[i])
    ensures forall l :: 0 <= l < 3 * |gs| ==> '\n' !in ExpositionLines(gs)[l]
  {
    var lines := ExpositionLines(gs);
    forall l | 0 <= l < |lines| ensures '\n' !in lines[l] {
      var j := l / 3;
      ExpositionLinesAt(gs, j);
      GaugeLinesAreLines(gs[j]);
      assert l == 3 * j || l == 3 * j + 1 || l == 3 * j + 2;
    }
  }

  /** One-line strings holding the records of exposable gauges at offsets
      0, 3, 6, ..., joined by line breaks, parse to the dictionary of the gauges. */
  lemma GaugesOfLines(lines: seq<string>, gs: seq<Gauge>)
    requires forall i :: 0 <= i < |gs| ==> Exposable(gs[i])
    requires |lines| >= 1 && forall l :: 0 <= l < |lines| ==> '\n' !in lines[l]
    requires RecordCount(|lines|) == |gs|
    requires forall j :: 0 <= j < |gs| ==> lines[3 * j] == HelpLine(gs[j]) && lines[3 * j + 2] == SampleLine(gs[j])
    ensures Gauges(Join(lines, "\n")) == Success(Dictionary(gs))
  {
    SplitJoin(lines, "\n");
    assert Split(Join(lines, "\n"), "\n") == lines;
    RecordsOfExposition(lines, gs);
    CollectGauges(gs);
  }

  /** The lines of the exposition with its final line break: one-line strings
      holding the records of the gauges at offsets 0, 3, 6, ... */
  lemma TerminatedExpositionLines(gs: seq<Gauge>)
    requires forall i :: 0 <= i < |gs| ==> Exposable(gs[i])
    ensures var lines := ExpositionLines(gs) + [""];
      && (forall l :: 0 <= l < |lines| ==> '\n' !in lines[l])
      && RecordCount(|lines|) == |gs|
      && forall j :: 0 <= j < |gs| ==> lines[3 * j] == HelpLine(gs[j]) && lines[3 * j + 2] == SampleLine(gs[j])
  {
    var body := ExpositionLines(gs);
    var lines := body + [""];
    ExpositionLinesAreLines(gs);
    forall l | 0 <= l < |lines| ensures '\n' !in lines[l] {
      if l < |body| {
        assert lines[l] == body[l];
      }
    }
    RecordCountOfLines(|gs|);
    forall j | 0 <= j < |gs| ensures lines[3 * j] == HelpLine(gs[j]) && lines[3 * j + 2] == SampleLine(gs[j]) {
      ExpositionLinesAt(gs, j);
      assert lines[3 * j] == body[3 * j] && lines[3 * j + 2] == body[3 * j + 2];
    }
  }

  /** With its final line break the page yields every gauge it was written from. */
  lemma ExpositionRoundTrip(gs: seq<Gauge>)
    requires forall i :: 0 <= i < |gs| ==> Exposable(gs[i])
    ensures Gauges(Exposition(gs)) == Success(Dictionary(gs))
  {
    TerminatedExpositionLines(gs);
    GaugesOfLines(ExpositionLines(gs) + [""], gs);
  }

  /** Without the final line break the last record is lost. */
  lemma UnterminatedExpositionDropsLast(gs: seq<Gauge>)
    requires forall i :: 0 <= i < |gs| ==> Exposable(gs[i])
    requires |gs| >= 1
    ensures Gauges(Join(ExpositionLines(gs), "\n")) == Success(Dictionary(gs[..|gs| - 1]))
  {
    var lines := ExpositionLines(gs);
    var front := gs[..|gs| - 1];
    ExpositionLinesAreLines(gs);
    RecordCountOfLines(|gs|);
    FrontRecordLines(gs);
    GaugesOfLines(lines, front);
  }

  /** The exposition holds the records of all gauges but the last at offsets 0, 3, 6, ... */
  lemma FrontRecordLines(gs: seq<Gauge>)
    requires |gs| >= 1
    ensures var lines, front := ExpositionLines(gs), gs[..|gs| - 1];
      forall j :: 0 <= j < |front| ==> lines[3 * j] == HelpLine(front[j]) && lines[3 * j + 2] == SampleLine(front[j])
  {
    var lines, front := ExpositionLines(gs), gs[..|gs| - 1];
    forall j | 0 <= j < |front| ensures lines[3 * j] == HelpLine(front[j]) && lines[3 * j + 2] == SampleLine(front[j]) {
      ExpositionLinesAt(gs, j);
    }
  }
}
