/**
 * The Next.js analytics handler: a chain of early returns (ids, existence,
 * format) in front of the per-column summary of the dataset's rows.
 */
module AnalyticsRoute {
  import opened Common
  import opened Text
  import opened Coercion
  import opened Summary

  const IdsRequired := "Dataset ID and Model ID are required"
  const DatasetNotFound := "Dataset not found"
  const ModelNotFound := "Model not found"
  const UnsupportedFormat := "Unsupported dataset format"
  const AnalyticsFailed := "Failed to perform analytics"

  datatype Response =
    | Analysed(datasetId: string, modelId: string, analysisType: Option<Json>, results: AnalysisResult)
    | Failed(status: nat, error: string)

  /** JavaScript truthiness of a destructured field (None is `undefined`). */
  predicate Truthy(v: Option<Json>)
  {
    match v
    case None => false
    case Some(j) =>
      match j
      case JNull => false
      case JBool(b) => b
      case JNum(n) => n != 0.0
      case JStr(s) => s != ""
      case _ => true
  }

  /** `const { name } = body`: an object's field; every other non-null value has none. */
  function Field(body: Json, name: string): Option<Json>
  {
    if body.JObj? && name in body.fields then Some(body.fields[name]) else None
  }

  /** What performBasicAnalytics reports about `data`. */
  function Analytics(data: Table, analysisType: Option<Json>, now: string): AnalysisResult
  {
    AnalysisResult(|data|, now, analysisType, SummaryOf(data, Node))
  }

  /**
   * POST /api/analytics. `body` is the parsed request body (None when it is not
   * JSON); `datasets` and `models` are the two directories; `parseCsv` and
   * `parseJson` stand for Papa.parse and JSON.parse (None when it throws);
   * `now` is the ISO time stamp.
   */
  function Post(body: Option<Json>, datasets: map<string, seq<byte>>, models: map<string, seq<byte>>,
                parseCsv: seq<byte> -> Table, parseJson: seq<byte> -> Option<Table>, now: string): (r: Response)
    ensures r.Failed? ==> r.status in {400, 404, 500}
  {
    if body.None? || body.value.JNull? then Failed(500, AnalyticsFailed)
    else
      var d, m, at := Field(body.value, "datasetId"), Field(body.value, "modelId"), Field(body.value, "analysisType");
      if !Truthy(d) || !Truthy(m) then Failed(400, IdsRequired)
      else if !d.value.JStr? || !m.value.JStr? then Failed(500, AnalyticsFailed)
      else
        var datasetId, modelId := d.value.s, m.value.s;
        if datasetId !in datasets then Failed(404, DatasetNotFound)
        else if modelId !in models then Failed(404, ModelNotFound)
        else
          var content := datasets[datasetId];
          if EndsWith(datasetId, ".csv") then
            Analysed(datasetId, modelId, at, Analytics(parseCsv(content), at, now))
          else if EndsWith(datasetId, ".json") then
            match parseJson(content)
            case None => Failed(500, AnalyticsFailed)
            case Some(data) => Analysed(datasetId, modelId, at, Analytics(data, at, now))
          else Failed(400, UnsupportedFormat)
  }

  /**
   * performBasicAnalytics: fills the summary column by column, as the
   * `forEach` over the numeric columns does.
   */
  method PerformBasicAnalytics(data: Table, analysisType: Option<Json>, now: string) returns (r: AnalysisResult)
    ensures r == Analytics(data, analysisType, now)
  {
    var summary: map<string, ColumnSummary> := map[];
    if |data| > 0 {
      var columns := NumericColumns(data, Node);
      var remaining := columns;
      while remaining != {}
        invariant remaining <= columns
        invariant summary == SummaryOver(data, Node, columns - remaining)
        decreases remaining
      {
        var column :| column in remaining;
        SummaryOverStep(data, Node, columns - remaining, column);
        var values := ColumnValues(data, column, Node);
        if |values| > 0 {
          summary := summary[column := Stats(values)];
        }
        assert columns - (remaining - {column}) == (columns - remaining) + {column};
        remaining := remaining - {column};
      }
      assert columns - remaining == columns;
    }
    r := AnalysisResult(|data|, now, analysisType, summary);
  }

  /** Missing or falsy ids give 400 whatever the directories hold. */
  lemma IdsCheckedFirst(body: Json, datasets: map<string, seq<byte>>, models: map<string, seq<byte>>,
                        parseCsv: seq<byte> -> Table, parseJson: seq<byte> -> Option<Table>, now: string)
    requires !body.JNull?
    ensures Post(Some(body), datasets, models, parseCsv, parseJson, now) == Failed(400, IdsRequired)
        <==> !Truthy(Field(body, "datasetId")) || !Truthy(Field(body, "modelId"))
  {
  }

  /** With string ids, a missing dataset is reported whether or not the model exists. */
  lemma DatasetCheckedBeforeModel(datasetId: string, modelId: string, rest: map<string, Json>,
                                  datasets: map<string, seq<byte>>, models: map<string, seq<byte>>,
                                  parseCsv: seq<byte> -> Table, parseJson: seq<byte> -> Option<Table>, now: string)
    requires datasetId != "" && modelId != ""
    ensures var body := JObj(rest["datasetId" := JStr(datasetId)]["modelId" := JStr(modelId)]);
      var r := Post(Some(body), datasets, models, parseCsv, parseJson, now);
      (r == Failed(404, DatasetNotFound) <==> datasetId !in datasets) &&
      (r == Failed(404, ModelNotFound) <==> datasetId in datasets && modelId !in models)
  {
  }

  /** Only the model's existence matters: its content is never read. */
  lemma ModelContentUnread(body: Option<Json>, datasets: map<string, seq<byte>>, models: map<string, seq<byte>>,
                           models': map<string, seq<byte>>,
                           parseCsv: seq<byte> -> Table, parseJson: seq<byte> -> Option<Table>, now: string)
    requires models.Keys == models'.Keys
    ensures Post(body, datasets, models, parseCsv, parseJson, now) == Post(body, datasets, models', parseCsv, parseJson, now)
  {
  }

  /** The format is checked only after both files are found, and nothing else yields that 400. */
  lemma FormatCheckedLast(body: Option<Json>, datasets: map<string, seq<byte>>, models: map<string, seq<byte>>,
                          parseCsv: seq<byte> -> Table, parseJson: seq<byte> -> Option<Table>, now: string)
    ensures Post(body, datasets, models, parseCsv, parseJson, now) == Failed(400, UnsupportedFormat) <==>
      body.Some? && !body.value.JNull? &&
      Truthy(Field(body.value, "datasetId")) && Truthy(Field(body.value, "modelId")) &&
      Field(body.value, "datasetId").value.JStr? && Field(body.value, "modelId").value.JStr? &&
      Field(body.value, "datasetId").value.s in datasets && Field(body.value, "modelId").value.s in models &&
      !EndsWith(Field(body.value, "datasetId").value.s, ".csv") && !EndsWith(Field(body.value, "datasetId").value.s, ".json")
  {
  }

  /**
   * A successful response echoes the request's ids and analysisType, counts
   * every row of the dataset, and reports a summary that does not depend on
   * analysisType.
   */
  lemma SuccessEchoesRequest(body: Option<Json>, datasets: map<string, seq<byte>>, models: map<string, seq<byte>>,
                             parseCsv: seq<byte> -> Table, parseJson: seq<byte> -> Option<Table>, now: string)
    requires Post(body, datasets, models, parseCsv, parseJson, now).Analysed?
    ensures var r := Post(body, datasets, models, parseCsv, parseJson, now);
      body.Some? && body.value.JObj? &&
      Field(body.value, "datasetId") == Some(JStr(r.datasetId)) &&
      Field(body.value, "modelId") == Some(JStr(r.modelId)) &&
      r.analysisType == Field(body.value, "analysisType") == r.results.analysisType &&
      r.datasetId in datasets && r.modelId in models &&
      r.results.timestamp == now &&
      exists data: Table :: (data == parseCsv(datasets[r.datasetId]) || parseJson(datasets[r.datasetId]) == Some(data)) &&
        r.results.rowCount == |data| && r.results.summary == SummaryOf(data, Node)
  {
    var r := Post(body, datasets, models, parseCsv, parseJson, now);
    var content := datasets[r.datasetId];
    if EndsWith(r.datasetId, ".csv") {
      var data := parseCsv(content);
      assert data == parseCsv(content);
    } else {
      var data := parseJson(content).value;
      assert parseJson(content) == Some(data);
    }
  }

  /** Two requests that differ only in analysisType get the same results apart from the echo. */
  lemma AnalysisTypeIgnored(fields: map<string, Json>, a: Json, b: Json,
                            datasets: map<string, seq<byte>>, models: map<string, seq<byte>>,
                            parseCsv: seq<byte> -> Table, parseJson: seq<byte> -> Option<Table>, now: string)
    ensures var ra := Post(Some(JObj(fields["analysisType" := a])), datasets, models, parseCsv, parseJson, now);
      var rb := Post(Some(JObj(fields["analysisType" := b])), datasets, models, parseCsv, parseJson, now);
      ra.Analysed? == rb.Analysed? &&
      (ra.Analysed? ==> ra.results.summary == rb.results.summary && ra.results.rowCount == rb.results.rowCount) &&
      (ra.Failed? ==> ra == rb)
  {
    var fa, fb := fields["analysisType" := a], fields["analysisType" := b];
    assert Field(JObj(fa), "datasetId") == Field(JObj(fb), "datasetId");
    assert Field(JObj(fa), "modelId") == Field(JObj(fb), "modelId");
  }
}
