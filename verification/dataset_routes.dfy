/** The dataset endpoints around the engine: the upload guard and the
    run-checks handler, which labels each check, decides pass or fail,
    scores the dataset and appends one result record per check. The
    database is a value of type Store; a request maps a store to a response
    and the store after it. */
module DatasetRoutes {
  import opened Wrappers
  import opened Seqs
  import opened Frame
  import opened QualityEngine

  // ---------------------------------------------------------------------------
  // Check labels
  // ---------------------------------------------------------------------------

  predicate IsLower(c: char) {
    'a' <= c <= 'z'
  }

  function Upper(c: char): (u: char)
    ensures !IsLower(u)
    ensures IsLower(c) ==> 'A' <= u <= 'Z' && u as int - c as int == 'A' as int - 'a' as int
    ensures !IsLower(c) ==> u == c
  {
    if IsLower(c) then (c as int - 32) as char else c
  }

  function LabelChar(c: char): char {
    if c == '_' then ' ' else Upper(c)
  }

  /** The human label of a check key: underscores become spaces and letters
      are upper-cased. */
  function Label(key: string): (l: string)
    ensures |l| == |key|
    ensures forall i :: 0 <= i < |l| ==> l[i] != '_' && !IsLower(l[i])
    ensures forall i :: 0 <= i < |key| ==> l[i] == LabelChar(key[i])
  {
    Map(key, LabelChar)
  }

  /** A key made only of lower-case letters and underscores, as the engine's keys are. */
  predicate IsSnakeKey(key: string) {
    forall i :: 0 <= i < |key| ==> key[i] == '_' || IsLower(key[i])
  }

  function UnlabelChar(c: char): char {
    if c == ' ' then '_' else if 'A' <= c <= 'Z' then (c as int + 32) as char else c
  }

  /** Labelling loses nothing for snake-case keys: the key can be read back
      from its label. */
  lemma LabelRoundTrip(key: string)
    requires IsSnakeKey(key)
    ensures Map(Label(key), UnlabelChar) == key
  {
    var back := Map(Label(key), UnlabelChar);
    assert forall i :: 0 <= i < |key| ==> back[i] == key[i];
  }

  /** Labelling a label changes nothing. */
  lemma LabelIdempotent(key: string)
    ensures Label(Label(key)) == Label(key)
  {
  }

  /** The labels the engine's three keys get. */
  lemma EngineKeyLabels()
    ensures Label("null_check") == "NULL CHECK"
    ensures Label("duplicate_check") == "DUPLICATE CHECK"
    ensures Label("anomaly_check") == "ANOMALY CHECK"
  {
    NullCheckLabel("null_check");
    DuplicateCheckLabel("duplicate_check");
    AnomalyCheckLabel("anomaly_check");
  }

  // The key is a parameter so that the verifier compares the label
  // position by position instead of unfolding `Label` on a literal.
  lemma NullCheckLabel(key: string)
    requires key == "null_check"
    ensures Label(key) == "NULL CHECK"
  {
    LabelOf(key, "NULL CHECK");
  }

  lemma DuplicateCheckLabel(key: string)
    requires key == "duplicate_check"
    ensures Label(key) == "DUPLICATE CHECK"
  {
    LabelOf(key, "DUPLICATE CHECK");
  }

  lemma AnomalyCheckLabel(key: string)
    requires key == "anomaly_check"
    ensures Label(key) == "ANOMALY CHECK"
  {
    LabelOf(key, "ANOMALY CHECK");
  }

  lemma LabelOf(key: string, text: string)
    requires |key| == |text|
    requires forall i :: 0 <= i < |key| ==> LabelChar(key[i]) == text[i]
    ensures Label(key) == text
  {
  }

  // ---------------------------------------------------------------------------
  // Pass or fail, and the overall score
  // ---------------------------------------------------------------------------

  datatype Status = Pass | Fail

  function StatusOf(issueCount: nat): (s: Status)
    ensures s == Pass <==> issueCount == 0
  {
    if issueCount == 0 then Pass else Fail
  }

  /** A check fails when it found any issue. */
  const Fails: CheckResult -> bool := (c: CheckResult) => c.count != 0

  /** Integer conversion of a quotient: truncation toward zero. */
  function TruncDiv(a: int, b: nat): (q: int)
    requires b > 0
    ensures a >= 0 ==> q * b <= a < (q + 1) * b
    ensures a < 0 ==> (q - 1) * b < a <= q * b
  {
    if a >= 0 then a / b else -((-a) / b)
  }

  /** The overall score as a whole percentage of passed checks, truncated.
      Without checks the division fails and there is no score. */
  function Score(total: nat, failed: nat): (r: Option<int>)
    ensures r.None? <==> total == 0
    ensures r.Some? && failed <= total ==>
      0 <= r.value <= 100 &&
      r.value * total <= (total - failed) * 100 < (r.value + 1) * total
  {
    if total == 0 then None
    else
      var v := TruncDiv((total - failed) * 100, total);
      assert failed <= total ==> 0 <= v <= 100 by {
        if failed <= total {
          Bounds(v, total, (total - failed) * 100, total * 100);
        }
      }
      Some(v)
  }

  lemma Bounds(v: int, total: nat, a: int, cap: int)
    requires total > 0 && 0 <= a <= cap && cap == total * 100
    requires v * total <= a < (v + 1) * total
    ensures 0 <= v <= 100
  {
  }

  /** When `q` is pinned down by the same bracket for two numerators, it is
      monotone in the numerator. */
  lemma QuotientMono(q1: int, q2: int, a1: int, a2: int, b: nat)
    requires b > 0 && a2 <= a1
    requires q1 * b <= a1 < (q1 + 1) * b
    requires q2 * b <= a2 < (q2 + 1) * b
    ensures q2 <= q1
  {
  }

  /** The score is 100 exactly when every check passes. */
  lemma ScoreFullIffAllPass(total: nat, failed: nat)
    requires 0 < total && failed <= total
    ensures Score(total, failed).value == 100 <==> failed == 0
  {
  }

  /** More failed checks never raise the score. */
  lemma ScoreNonIncreasing(total: nat, f1: nat, f2: nat)
    requires 0 < total && f1 <= f2 <= total
    ensures Score(total, f2).value <= Score(total, f1).value
  {
    QuotientMono(Score(total, f1).value, Score(total, f2).value,
      (total - f1) * 100, (total - f2) * 100, total);
  }

  /** With the engine's three checks the score is one of 100, 66, 33, 0. */
  lemma ScoreOfThreeChecks(failed: nat)
    requires failed <= 3
    ensures Score(3, failed).value == [100, 66, 33, 0][failed]
  {
  }

  // ---------------------------------------------------------------------------
  // Storage
  // ---------------------------------------------------------------------------

  /** One stored validation result: dataset, raw check key, issue count. */
  datatype ResultRecord = ResultRecord(datasetId: int, checkType: string, issueCount: nat)

  /** The three tables the endpoints write: datasets (id and name), stored
      rows (dataset id and decoded row) and validation results, each in
      insertion order. */
  datatype Store = Store(
    datasets: seq<(int, string)>,
    records: seq<(int, Row)>,
    results: seq<ResultRecord>)

  /** The rows stored for `datasetId`, in insertion order. */
  function RecordsOf(records: seq<(int, Row)>, datasetId: int): (rows: seq<Row>)
    ensures |rows| <= |records|
    ensures forall row :: row in rows <==> (datasetId, row) in records
    ensures forall row :: multiset(rows)[row] == multiset(records)[(datasetId, row)]
  {
    if |records| == 0 then []
    else
      var rest := RecordsOf(records[1..], datasetId);
      assert forall p :: p in records <==> p == records[0] || p in records[1..];
      assert records == [records[0]] + records[1..];
      if records[0].0 == datasetId then [records[0].1] + rest else rest
  }

  lemma {:induction false} RecordsOfConcat(a: seq<(int, Row)>, b: seq<(int, Row)>, datasetId: int)
    ensures RecordsOf(a + b, datasetId) == RecordsOf(a, datasetId) + RecordsOf(b, datasetId)
  {
    if |a| == 0 {
      assert a + b == b;
    } else {
      assert (a + b)[1..] == a[1..] + b;
      RecordsOfConcat(a[1..], b, datasetId);
    }
  }

  // ---------------------------------------------------------------------------
  // Run checks
  // ---------------------------------------------------------------------------

  /** One entry of the response's check list. */
  datatype Check = Check(checkName: string, status: Status, failedRows: nat)

  datatype HttpError = HttpError(status: int, detail: string)

  datatype Report = Report(datasetId: int, overallScore: int, checks: seq<Check>)

  /** The response entry for one engine result. */
  function CheckOf(c: CheckResult): Check {
    Check(Label(c.name), StatusOf(c.count), c.count)
  }

  /** The stored result record for one engine result. */
  function RecordOf(datasetId: int): CheckResult -> ResultRecord {
    (c: CheckResult) => ResultRecord(datasetId, c.name, c.count)
  }

  /** Extending the prefix of results the loop has handled by one. */
  lemma PrefixStep(raw: seq<CheckResult>, i: nat, datasetId: int)
    requires i < |raw|
    ensures Map(raw[..i + 1], CheckOf) == Map(raw[..i], CheckOf) + [CheckOf(raw[i])]
    ensures Count(raw[..i + 1], Fails) == Count(raw[..i], Fails) + (if raw[i].count != 0 then 1 else 0)
    ensures Map(raw[..i + 1], RecordOf(datasetId)) ==
      Map(raw[..i], RecordOf(datasetId)) + [RecordOf(datasetId)(raw[i])]
  {
    assert raw[..i + 1] == raw[..i] + [raw[i]];
    CountConcat(raw[..i], [raw[i]], Fails);
    MapConcat(raw[..i], [raw[i]], CheckOf);
    MapConcat(raw[..i], [raw[i]], RecordOf(datasetId));
  }

  /** The per-check loop: label and status for every engine result, the
      number of failed checks, and the result records the loop inserts, one
      per check. */
  method ScoreChecks(datasetId: int, raw: seq<CheckResult>)
    returns (checks: seq<Check>, failed: nat, written: seq<ResultRecord>)
    ensures |checks| == |raw|
    ensures forall i :: 0 <= i < |raw| ==>
      checks[i] == Check(Label(raw[i].name), StatusOf(raw[i].count), raw[i].count)
    ensures failed == Count(raw, Fails) && failed <= |raw|
    ensures |written| == |raw|
    ensures forall i :: 0 <= i < |raw| ==>
      written[i] == ResultRecord(datasetId, raw[i].name, raw[i].count)
  {
    checks, failed, written := [], 0, [];
    var i := 0;
    while i < |raw|
      invariant 0 <= i <= |raw|
      invariant checks == Map(raw[..i], CheckOf)
      invariant failed == Count(raw[..i], Fails)
      invariant written == Map(raw[..i], RecordOf(datasetId))
    {
      var c := raw[i];
      var status := StatusOf(c.count);
      PrefixStep(raw, i, datasetId);
      if status == Fail {
        failed := failed + 1;
      }
      checks := checks + [Check(Label(c.name), status, c.count)];
      written := written + [ResultRecord(datasetId, c.name, c.count)];
      i := i + 1;
    }
    assert raw[..i] == raw;
  }

  /** The report for a dataset: one labelled entry with its status per
      engine result, in the engine's order, and the score of the passed
      checks. */
  predicate IsReportOn(report: Report, datasetId: int, raw: seq<CheckResult>) {
    && report.datasetId == datasetId
    && Score(|raw|, Count(raw, Fails)) == Some(report.overallScore)
    && |report.checks| == |raw|
    && (forall i :: 0 <= i < |raw| ==>
          report.checks[i] == Check(Label(raw[i].name), StatusOf(raw[i].count), raw[i].count))
  }

  /** `after` is `before` with one record per engine result appended, in order. */
  predicate AppendsRecords(before: seq<ResultRecord>, after: seq<ResultRecord>, datasetId: int, raw: seq<CheckResult>) {
    && |after| == |before| + |raw|
    && after[..|before|] == before
    && (forall i :: 0 <= i < |raw| ==>
          after[|before| + i] == ResultRecord(datasetId, raw[i].name, raw[i].count))
  }

  /** The handler after the engine has run: report and stored results. */
  method Respond(datasetId: int, raw: seq<CheckResult>, store: Store)
    returns (report: Report, store': Store)
    requires |raw| > 0
    ensures IsReportOn(report, datasetId, raw)
    ensures store'.datasets == store.datasets && store'.records == store.records
    ensures AppendsRecords(store.results, store'.results, datasetId, raw)
  {
    var checks, failed, written := ScoreChecks(datasetId, raw);
    report := Report(datasetId, Score(|raw|, failed).value, checks);
    store' := store.(results := store.results + written);
    assert store'.results[..|store.results|] == store.results;
  }

  /** The run-checks request. `fetched` is what the query for the dataset's
      rows returned. The query fixes no row order, and the JSONB column keeps
      neither member order nor repeated keys: `fetched` is the stored rows,
      `reordered`, in some order, each with the same bindings in some member
      order.
      No rows: the not-found error, raised inside the handler's catch-all,
      reaches the client as a server error and nothing is written.
      Otherwise: the report on the engine's counts and one result record per
      check, whatever order the rows and their members came back in. */
  method RunChecks(datasetId: int, store: Store, fetched: seq<Row>, ghost reordered: seq<Row>)
    returns (response: Result<Report, HttpError>, store': Store)
    requires multiset(reordered) == multiset(RecordsOf(store.records, datasetId))
    requires |fetched| == |reordered|
    requires forall i :: 0 <= i < |fetched| ==> SameBindings(fetched[i], reordered[i])
    ensures |RecordsOf(store.records, datasetId)| == 0 ==>
      response == Failure(HttpError(500, "404: No records found")) && store' == store
    ensures |RecordsOf(store.records, datasetId)| > 0 ==>
      && response.Success?
      && IsReportOn(response.value, datasetId, RunDataQualityChecks(RecordsOf(store.records, datasetId)))
      && store'.datasets == store.datasets && store'.records == store.records
      && AppendsRecords(store.results, store'.results, datasetId,
           RunDataQualityChecks(RecordsOf(store.records, datasetId)))
  {
    var stored := RecordsOf(store.records, datasetId);
    assert |reordered| == |multiset(reordered)| == |stored|;
    if |fetched| == 0 {
      return Failure(HttpError(500, "404: No records found")), store;
    }
    var raw := RunDataQualityChecks(fetched);
    EngineMemberOrderFree(fetched, reordered);
    EngineRowOrderFree(reordered, stored);
    var report;
    report, store' := Respond(datasetId, raw, store);
    response := Success(report);
  }

  /** Only checks that passed count towards the score: with the engine's
      three checks the score is 100, 66, 33 or 0 as 0, 1, 2 or 3 fail. */
  lemma EngineScore(rows: seq<Row>)
    ensures var raw := RunDataQualityChecks(rows);
      Score(|raw|, Count(raw, Fails)).value == [100, 66, 33, 0][Count(raw, Fails)]
  {
    var raw := RunDataQualityChecks(rows);
    ScoreOfThreeChecks(Count(raw, Fails));
  }

  // ---------------------------------------------------------------------------
  // Upload
  // ---------------------------------------------------------------------------

  /** The file-name guard: a case-sensitive ".csv" ending. */
  predicate HasCsvSuffix(filename: string) {
    |filename| >= 4 && filename[|filename| - 4..] == ".csv"
  }

  /** The guard accepts exactly the names that are some name followed by ".csv". */
  lemma CsvSuffixIff(filename: string)
    ensures HasCsvSuffix(filename) <==> exists stem :: filename == stem + ".csv"
  {
    if HasCsvSuffix(filename) {
      assert filename == filename[..|filename| - 4] + ".csv";
    }
    if exists stem :: filename == stem + ".csv" {
      var stem :| filename == stem + ".csv";
      assert filename[|filename| - 4..] == ".csv";
    }
  }

  lemma CsvSuffixCaseSensitive()
    ensures HasCsvSuffix("data.csv")
    ensures !HasCsvSuffix("data.CSV")
    ensures !HasCsvSuffix("data.csv.txt")
    ensures !HasCsvSuffix("csv")
  {
  }

  datatype UploadReply = UploadReply(datasetId: int, totalRows: nat)

  /** The upload request. `parsed` is the outcome of reading the file as CSV
      (its rows, or the parser's message) and `newId` the id the database
      hands out for the new dataset. A wrong file name is refused before
      anything is read or written; a parse failure is a server error and
      nothing is kept, since nothing is committed; otherwise the dataset and
      one stored row per parsed row are appended. */
  function Upload(filename: string, parsed: Result<seq<Row>, string>, newId: int, store: Store)
    : (out: (Result<UploadReply, HttpError>, Store))
    ensures !HasCsvSuffix(filename) ==>
      out.0 == Failure(HttpError(400, "Only CSV files are allowed")) && out.1 == store
    ensures HasCsvSuffix(filename) && parsed.Failure? ==>
      out.0 == Failure(HttpError(500, parsed.error)) && out.1 == store
    ensures HasCsvSuffix(filename) && parsed.Success? ==>
      && out.0 == Success(UploadReply(newId, |parsed.value|))
      && out.1.datasets == store.datasets + [(newId, filename)]
      && out.1.results == store.results
      && |out.1.records| == |store.records| + |parsed.value|
      && out.1.records[..|store.records|] == store.records
      && (forall i :: 0 <= i < |parsed.value| ==>
            out.1.records[|store.records| + i] == (newId, parsed.value[i]))
  {
    if !HasCsvSuffix(filename) then
      (Failure(HttpError(400, "Only CSV files are allowed")), store)
    else
      match parsed
      case Failure(msg) => (Failure(HttpError(500, msg)), store)
      case Success(rows) =>
        var tagged := Map(rows, (row: Row) => (newId, row));
        (Success(UploadReply(newId, |rows|)),
         store.(datasets := store.datasets + [(newId, filename)],
                records := store.records + tagged))
  }

  /** After an upload under a fresh id, the store's rows under that id are
      exactly the uploaded rows, in insertion order. */
  lemma UploadThenRead(filename: string, rows: seq<Row>, newId: int, store: Store)
    requires HasCsvSuffix(filename)
    requires forall i :: 0 <= i < |store.records| ==> store.records[i].0 != newId
    ensures RecordsOf(Upload(filename, Success(rows), newId, store).1.records, newId) == rows
  {
    var after := Upload(filename, Success(rows), newId, store).1.records;
    var tagged := after[|store.records|..];
    assert after == store.records + tagged;
    RecordsOfConcat(store.records, tagged, newId);
    NoRecordsOf(store.records, newId);
    TaggedRecordsOf(tagged, rows, newId);
  }

  lemma {:induction false} NoRecordsOf(records: seq<(int, Row)>, datasetId: int)
    requires forall i :: 0 <= i < |records| ==> records[i].0 != datasetId
    ensures RecordsOf(records, datasetId) == []
  {
    if |records| > 0 {
      NoRecordsOf(records[1..], datasetId);
    }
  }

  lemma {:induction false} TaggedRecordsOf(tagged: seq<(int, Row)>, rows: seq<Row>, datasetId: int)
    requires |tagged| == |rows|
    requires forall i :: 0 <= i < |rows| ==> tagged[i] == (datasetId, rows[i])
    ensures RecordsOf(tagged, datasetId) == rows
  {
    if |rows| > 0 {
      TaggedRecordsOf(tagged[1..], rows[1..], datasetId);
    }
  }
}
