/**
 * The Flask app: the same two stores and analytics behind a second set of
 * routes, with its own name rules (secure_filename, rsplit, case-sensitive
 * listing), its own sidecar name `{file}.metadata.json`, and Python's
 * float() and truthiness.
 */
module FlaskApp {
  import opened Common
  import opened Text
  import opened Coercion
  import opened Summary
  import opened Store
  import AnalyticsRoute
  import DatasetsRoute
  import ModelsRoute

  const NoFile := "No file provided"
  const NoFileSelected := "No file selected"
  const InvalidType := "Invalid file type. Only CSV and JSON files are allowed."
  const DatasetUploadFailed := "Failed to upload dataset"
  const DatasetNotFound := "Dataset not found"
  const UnsupportedFile := "Unsupported file format"
  const DatasetReadFailed := "Failed to read dataset"
  const ModelUploadFailed := "Failed to upload model"
  const ModelNotFound := "Model not found"
  const SidecarSuffix := ".metadata.json"

  /** A file from request.files. */
  datatype Upload = Upload(filename: string, bytes: seq<byte>)

  datatype Reply =
    | Saved(filename: string)
    | Deleted
    | Failed(status: nat, error: string)

  /** A dataset as listed; `kind` is the text after the last '.'. */
  datatype DatasetRecord = DatasetRecord(id: string, name: string, size: nat, kind: string)

  /** A model as listed, with the three fields read from its sidecar. */
  datatype ModelRecord = ModelRecord(id: string, name: string, size: nat, kind: string,
                                     description: Json, accuracy: Json, version: Json)

  /** allowed_file: a '.' and, lower-cased, the text after the last one is allowed. */
  function AllowedFile(filename: string, allowed: set<string>): (ok: bool)
    ensures ok <==> exists i :: 0 <= i < |filename| && filename[i] == '.' && '.' !in filename[i + 1..] &&
                                ToLower(filename[i + 1..]) in allowed
  {
    if '.' in filename then
      var j := LastIndexOf(filename, '.').value;
      assert AfterLastDot(filename) == filename[j + 1..];
      forall i | 0 <= i < |filename| && filename[i] == '.' && '.' !in filename[i + 1..]
        ensures i == j
      {
      }
      ToLower(AfterLastDot(filename)) in allowed
    else false
  }

  const DatasetExtensions: set<string> := {"csv", "json"}

  /** `{file}.metadata.json` */
  function Sidecar(name: string): string
  {
    name + SidecarSuffix
  }

  // ---------------------------------------------------------------- datasets

  /** `file.rsplit('.', 1)[1]` of a listed dataset: "csv" or "json". */
  function DatasetKind(name: string): (kind: string)
    requires IsDatasetFile(name)
    ensures kind == "csv" || kind == "json"
  {
    var dotted := if EndsWith(name, ".csv") then ".csv" else ".json";
    var ext := dotted[1..];
    var stem := name[..|name| - |dotted|];
    SplitSuffix(name, dotted);
    assert dotted == "." + ext;
    AfterLastDotOfSuffix(stem, ext);
    AfterLastDot(name)
  }

  /** GET /api/datasets: the names ending exactly in `.csv` or `.json`. */
  function ListDatasets(files: Files): (listed: map<string, DatasetRecord>)
    ensures listed.Keys == set f | f in files && IsDatasetFile(f)
  {
    map f | f in files && IsDatasetFile(f) :: DatasetRecord(f, f, |files[f]|, DatasetKind(f))
  }

  /**
   * POST /api/datasets as a function of the folder before the call. `secure`
   * is werkzeug's secure_filename; a name it empties cannot be saved.
   */
  function UploadDataset(files: Files, file: Option<Upload>, secure: string -> string): (Reply, Files)
  {
    if file.None? then (Failed(400, NoFile), files)
    else if file.value.filename == "" then (Failed(400, NoFileSelected), files)
    else if !AllowedFile(file.value.filename, DatasetExtensions) then (Failed(400, InvalidType), files)
    else
      var name := secure(file.value.filename);
      if name == "" then (Failed(500, DatasetUploadFailed), files)
      else (Saved(name), files[name := file.value.bytes])
  }

  method PostDataset(dir: Directory, file: Option<Upload>, secure: string -> string) returns (r: Reply)
    modifies dir
    ensures (r, dir.files) == UploadDataset(old(dir.files), file, secure)
  {
    if file.None? {
      return Failed(400, NoFile);
    }
    if file.value.filename == "" {
      return Failed(400, NoFileSelected);
    }
    if !AllowedFile(file.value.filename, DatasetExtensions) {
      return Failed(400, InvalidType);
    }
    var name := secure(file.value.filename);
    if name == "" {
      return Failed(500, DatasetUploadFailed);
    }
    dir.Write(name, file.value.bytes);
    r := Saved(name);
  }

  datatype DatasetReply = DatasetData(data: Json, filename: string) | DatasetFailed(status: nat, error: string)

  /** GET /api/datasets/<id>: read_csv or json.load by suffix (None when they raise). */
  function GetDataset(files: Files, id: string, readCsv: seq<byte> -> Option<Json>,
                      loadJson: seq<byte> -> Option<Json>): (r: DatasetReply)
    ensures r.DatasetFailed? ==> r.status in {400, 404, 500}
    ensures r == DatasetFailed(404, DatasetNotFound) <==> id !in files
    ensures id in files && !IsDatasetFile(id) ==> r == DatasetFailed(400, UnsupportedFile)
    ensures r.DatasetData? ==> id in files && r.filename == id && IsDatasetFile(id) &&
                               Some(r.data) == (if EndsWith(id, ".csv") then readCsv(files[id]) else loadJson(files[id]))
    ensures r == DatasetFailed(500, DatasetReadFailed) <==>
      id in files && IsDatasetFile(id) && (if EndsWith(id, ".csv") then readCsv(files[id]) else loadJson(files[id])).None?
  {
    if id !in files then DatasetFailed(404, DatasetNotFound)
    else
      var loaded: Option<Option<Json>> :=
        if EndsWith(id, ".csv") then Some(readCsv(files[id]))
        else if EndsWith(id, ".json") then Some(loadJson(files[id]))
        else None;
      match loaded
      case None => DatasetFailed(400, UnsupportedFile)
      case Some(None) => DatasetFailed(500, DatasetReadFailed)
      case Some(Some(data)) => DatasetData(data, id)
  }

  /** DELETE /api/datasets/<id>: removes the one file; sidecars stay. */
  function DeleteDataset(files: Files, id: string): (Reply, Files)
  {
    if id !in files then (Failed(404, DatasetNotFound), files) else (Deleted, files - {id})
  }

  method RemoveDataset(dir: Directory, id: string) returns (r: Reply)
    modifies dir
    ensures (r, dir.files) == DeleteDataset(old(dir.files), id)
  {
    if id !in dir.files {
      return Failed(404, DatasetNotFound);
    }
    dir.Remove(id);
    r := Deleted;
  }

  // ------------------------------------------------------------------ models

  /** `metadata.get(key, default)`; None where metadata is not a dict and `.get` raises. */
  function MetadataGet(metadata: Json, key: string, default: Json): Option<Json>
  {
    if !metadata.JObj? then None
    else if key in metadata.fields then Some(metadata.fields[key])
    else Some(default)
  }

  /** The sidecar as json.load reads it: {} when absent, None when loading raises. */
  function ModelMetadata(files: Files, name: string, loadJson: seq<byte> -> Option<Json>): Option<Json>
  {
    if Sidecar(name) in files then loadJson(files[Sidecar(name)]) else Some(JObj(map[]))
  }

  function ModelKind(name: string): string
  {
    if '.' in name then AfterLastDot(name) else "unknown"
  }

  /** One listed model, or None when its sidecar cannot be read as a dict. */
  function ModelEntry(files: Files, name: string, loadJson: seq<byte> -> Option<Json>): Option<ModelRecord>
    requires name in files
  {
    match ModelMetadata(files, name, loadJson)
    case None => None
    case Some(m) =>
      if !m.JObj? then None
      else
        Some(ModelRecord(name, name, |files[name]|, ModelKind(name),
          MetadataGet(m, "description", JStr("")).value,
          MetadataGet(m, "accuracy", JNull).value,
          MetadataGet(m, "version", JStr("1.0")).value))
  }

  /** GET /api/models: every file in the folder, or None (a 500) when any sidecar is unreadable. */
  function ListModels(files: Files, loadJson: seq<byte> -> Option<Json>): (r: Option<map<string, ModelRecord>>)
    ensures r.None? <==> exists f :: f in files && Sidecar(f) in files &&
                                     (loadJson(files[Sidecar(f)]).None? || !loadJson(files[Sidecar(f)]).value.JObj?)
    ensures r.Some? ==> r.value.Keys == files.Keys
    ensures r.Some? ==> forall f :: f in r.value ==> r.value[f].id == f && r.value[f].name == f && r.value[f].size == |files[f]|
  {
    if exists f :: f in files && ModelEntry(files, f, loadJson).None? then None
    else Some(map f | f in files :: ModelEntry(files, f, loadJson).value)
  }

  /**
   * POST /api/models: no extension check; the file is saved first, then a
   * `metadata` form text is json.loads-ed (None when it raises: a 500 after
   * the save) and dumped to the sidecar.
   */
  function UploadModel(files: Files, file: Option<Upload>, metadata: Option<string>, secure: string -> string,
                       loads: string -> Option<Json>, dump: Json -> seq<byte>): (Reply, Files)
  {
    if file.None? then (Failed(400, NoFile), files)
    else if file.value.filename == "" then (Failed(400, NoFileSelected), files)
    else
      var name := secure(file.value.filename);
      if name == "" then (Failed(500, ModelUploadFailed), files)
      else
        var saved := files[name := file.value.bytes];
        if metadata.None? then (Saved(name), saved)
        else match loads(metadata.value)
          case None => (Failed(500, ModelUploadFailed), saved)
          case Some(j) => (Saved(name), saved[Sidecar(name) := dump(j)])
  }

  method PostModel(dir: Directory, file: Option<Upload>, metadata: Option<string>, secure: string -> string,
                   loads: string -> Option<Json>, dump: Json -> seq<byte>) returns (r: Reply)
    modifies dir
    ensures (r, dir.files) == UploadModel(old(dir.files), file, metadata, secure, loads, dump)
  {
    if file.None? {
      return Failed(400, NoFile);
    }
    if file.value.filename == "" {
      return Failed(400, NoFileSelected);
    }
    var name := secure(file.value.filename);
    if name == "" {
      return Failed(500, ModelUploadFailed);
    }
    dir.Write(name, file.value.bytes);
    if metadata.Some? {
      var parsed := loads(metadata.value);
      if parsed.None? {
        return Failed(500, ModelUploadFailed);
      }
      dir.Write(Sidecar(name), dump(parsed.value));
    }
    r := Saved(name);
  }

  /** DELETE /api/models/<id>: removes the model and, when there is one, its sidecar. */
  function DeleteModel(files: Files, id: string): (Reply, Files)
  {
    if id !in files then (Failed(404, ModelNotFound), files)
    else (Deleted, files - {id} - {Sidecar(id)})
  }

  method RemoveModel(dir: Directory, id: string) returns (r: Reply)
    modifies dir
    ensures (r, dir.files) == DeleteModel(old(dir.files), id)
  {
    if id !in dir.files {
      return Failed(404, ModelNotFound);
    }
    dir.Remove(id);
    if Sidecar(id) in dir.files {
      dir.Remove(Sidecar(id));
    } else {
      assert dir.files - {Sidecar(id)} == dir.files;
    }
    r := Deleted;
  }

  // --------------------------------------------------------------- analytics

  /** Python truthiness of `data.get(key)` (None is Python's None). */
  predicate Truthy(v: Option<Json>)
  {
    match v
    case None => false
    case Some(j) =>
      match j
      case JNull => false
      case JBool(b) => b
      case JNum(n) => n != 0.0
      case JStr(s) => s != ""
      case JArr(items) => items != []
      case JObj(fields) => fields != map[]
  }

  /** A numeric column that some row lacks: `row[column]` raises KeyError. */
  predicate MissingKey(data: Table)
  {
    exists c, i :: c in NumericColumns(data, CPython) && 0 <= i < |data| && c !in data[i]
  }

  /** perform_basic_analytics: None when a KeyError escapes. */
  function PyAnalytics(data: Table, analysisType: Option<Json>, now: string): (r: Option<AnalysisResult>)
    ensures r.Some? ==> r.value.rowCount == |data| && r.value.analysisType == analysisType
    ensures r.None? <==> MissingKey(data)
    ensures r.Some? ==> r.value.summary == SummaryOf(data, CPython)
  {
    if MissingKey(data) then None else Some(AnalysisResult(|data|, now, analysisType, SummaryOf(data, CPython)))
  }

  /** The first loop: the keys of the first row whose value float() accepts. */
  method NumericKeys(row: Row) returns (numeric: set<string>)
    ensures numeric == set k | k in row && PyFloat(row[k]).Some?
  {
    numeric := {};
    var keys := row.Keys;
    while keys != {}
      invariant keys <= row.Keys
      invariant numeric == set k | k in row.Keys - keys && PyFloat(row[k]).Some?
      decreases keys
    {
      var key :| key in keys;
      if PyFloat(row[key]).Some? {
        numeric := numeric + {key};
      }
      keys := keys - {key};
    }
  }

  /** The inner loop: float() of the column in every row; None at the first row lacking it. */
  method ColumnFloats(data: Table, column: string) returns (values: Option<seq<real>>)
    ensures values.None? <==> exists i :: 0 <= i < |data| && column !in data[i]
    ensures values.Some? ==> values.value == ColumnValues(data, column, CPython)
  {
    var vs: seq<real> := [];
    var i := 0;
    while i < |data|
      invariant 0 <= i <= |data|
      invariant vs == ColumnValues(data[..i], column, CPython)
      invariant forall j :: 0 <= j < i ==> column in data[j]
    {
      if column !in data[i] {
        return None;
      }
      assert data[..i + 1][..i] == data[..i];
      var v := PyFloat(data[i][column]);
      if v.Some? {
        vs := vs + [v.value];
      }
      i := i + 1;
    }
    assert data[..|data|] == data;
    values := Some(vs);
  }

  /** perform_basic_analytics as written: a loop for the columns, then one per column over the rows. */
  method PerformBasicAnalytics(data: Table, analysisType: Option<Json>, now: string) returns (r: Option<AnalysisResult>)
    ensures r == PyAnalytics(data, analysisType, now)
  {
    var summary: map<string, ColumnSummary> := map[];
    if |data| > 0 {
      var numeric := NumericKeys(data[0]);
      assert numeric == NumericColumns(data, CPython);
      var remaining := numeric;
      while remaining != {}
        invariant remaining <= numeric
        invariant summary == SummaryOver(data, CPython, numeric - remaining)
        invariant forall c, i :: c in numeric - remaining && 0 <= i < |data| ==> c in data[i]
        decreases remaining
      {
        var column :| column in remaining;
        var values := ColumnFloats(data, column);
        if values.None? {
          return None;
        }
        SummaryOverStep(data, CPython, numeric - remaining, column);
        if |values.value| > 0 {
          summary := summary[column := Stats(values.value)];
        }
        assert numeric - (remaining - {column}) == (numeric - remaining) + {column};
        remaining := remaining - {column};
      }
      assert numeric - remaining == numeric;
    }
    r := Some(AnalysisResult(|data|, now, analysisType, summary));
  }

  /** POST /api/analytics: the body must be a JSON object; anything else raises (500). */
  function RunAnalytics(body: Option<Json>, datasets: Files, models: Files,
                        readCsv: seq<byte> -> Option<Table>, loadJson: seq<byte> -> Option<Table>,
                        now: string): (r: AnalyticsRoute.Response)
    ensures r.Failed? ==> r.status in {400, 404, 500}
  {
    if body.None? || !body.value.JObj? then AnalyticsRoute.Failed(500, AnalyticsRoute.AnalyticsFailed)
    else
      var fields := body.value.fields;
      var d := if "datasetId" in fields then Some(fields["datasetId"]) else None;
      var m := if "modelId" in fields then Some(fields["modelId"]) else None;
      var at := if "analysisType" in fields then Some(fields["analysisType"]) else None;
      if !Truthy(d) || !Truthy(m) then AnalyticsRoute.Failed(400, AnalyticsRoute.IdsRequired)
      else if !d.value.JStr? || !m.value.JStr? then AnalyticsRoute.Failed(500, AnalyticsRoute.AnalyticsFailed)
      else
        var datasetId, modelId := d.value.s, m.value.s;
        if datasetId !in datasets then AnalyticsRoute.Failed(404, AnalyticsRoute.DatasetNotFound)
        else if modelId !in models then AnalyticsRoute.Failed(404, AnalyticsRoute.ModelNotFound)
        else
          var loaded: Option<Option<Table>> :=
            if EndsWith(datasetId, ".csv") then Some(readCsv(datasets[datasetId]))
            else if EndsWith(datasetId, ".json") then Some(loadJson(datasets[datasetId]))
            else None;
          match loaded
          case None => AnalyticsRoute.Failed(400, AnalyticsRoute.UnsupportedFormat)
          case Some(None) => AnalyticsRoute.Failed(500, AnalyticsRoute.AnalyticsFailed)
          case Some(Some(data)) =>
            match PyAnalytics(data, at, now)
            case None => AnalyticsRoute.Failed(500, AnalyticsRoute.AnalyticsFailed)
            case Some(results) => AnalyticsRoute.Analysed(datasetId, modelId, at, results)
  }

  // ------------------------------------------------------------------ lemmas

  /** Lower-casing keeps a leading dot and lower-cases the rest. */
  lemma LowerDotted(t: string)
    ensures ToLower("." + t) == "." + ToLower(t)
  {
    var l, r := ToLower("." + t), "." + ToLower(t);
    assert forall i :: 0 <= i < |l| ==> l[i] == r[i];
  }

  lemma ExtnameIsDotTail(name: string)
    requires '.' in name && LastIndexOf(name, '.') != Some(0) && name != ".."
    ensures Extname(name) == "." + AfterLastDot(name)
  {
    var i := LastIndexOf(name, '.').value;
    assert Extname(name) == name[i..];
    assert AfterLastDot(name) == name[i + 1..];
    assert name[i..] == [name[i]] + name[i + 1..];
  }

  lemma DottedEqual(x: string, y: string)
    ensures "." + x == "." + y <==> x == y
  {
    if "." + x == "." + y {
      assert x == ("." + x)[1..];
    }
  }

  /**
   * Where Node's path.extname sees the same extension as rsplit (the last '.'
   * does not open the name), allowed_file and the Next.js allow-list agree.
   */
  lemma AllowedFileAgreesWithNext(name: string)
    requires LastIndexOf(name, '.') != Some(0)
    ensures AllowedFile(name, DatasetExtensions) <==> DatasetsRoute.AllowedExt(ToLower(Extname(name)))
  {
    if name == ".." {
      assert AfterLastDot(name) == "";
    } else if '.' in name {
      var tail := AfterLastDot(name);
      ExtnameIsDotTail(name);
      LowerDotted(tail);
      AllowedTail(ToLower(tail));
    }
  }

  /** An extension is on the Flask list exactly when its dotted form is on the Next.js list. */
  lemma AllowedTail(t: string)
    ensures t in DatasetExtensions <==> DatasetsRoute.AllowedExt("." + t)
  {
    DottedEqual(t, "csv");
    DottedEqual(t, "json");
  }

  /** `.csv`, a bare extension, passes allowed_file but not the Next.js check. */
  lemma LeadingDotDisagrees()
    ensures AllowedFile(".csv", DatasetExtensions)
    ensures !DatasetsRoute.AllowedExt(ToLower(Extname(".csv")))
  {
    assert LastIndexOf(".csv", '.') == Some(0);
    assert AfterLastDot(".csv") == "csv";
    assert ToLower("csv") == "csv";
  }

  /** A dataset upload answers 400 exactly for a missing file, an empty name or a disallowed extension, and then writes nothing. */
  lemma DatasetRejectionWritesNothing(files: Files, file: Option<Upload>, secure: string -> string)
    ensures var res := UploadDataset(files, file, secure);
      (res.0.Failed? && res.0.status == 400 <==>
        file.None? || file.value.filename == "" || !AllowedFile(file.value.filename, DatasetExtensions)) &&
      (res.0.Failed? ==> res.1 == files)
  {
  }

  /** A saved dataset holds the uploaded bytes under the secured name and is listed exactly when that name ends in `.csv` or `.json`. */
  lemma SavedDatasetListing(files: Files, file: Option<Upload>, secure: string -> string)
    requires UploadDataset(files, file, secure).0.Saved?
    ensures var res := UploadDataset(files, file, secure);
      var name := res.0.filename;
      name == secure(file.value.filename) && name in res.1 && res.1[name] == file.value.bytes &&
      (name in ListDatasets(res.1) <==> IsDatasetFile(name))
  {
  }

  /** `x.CSV` passes allowed_file, yet a file saved under that name is never listed. */
  lemma UpperCaseDatasetHidden(files: Files, bytes: seq<byte>, secure: string -> string)
    requires secure("x.CSV") == "x.CSV"
    ensures var res := UploadDataset(files, Some(Upload("x.CSV", bytes)), secure);
      res.0 == Saved("x.CSV") && "x.CSV" in res.1 && "x.CSV" !in ListDatasets(res.1)
  {
    AfterLastDotOfSuffix("x", "CSV");
    assert "x.CSV" == "x" + "." + "CSV";
    assert ToLower("CSV") == "csv";
  }

  /** Deleting a dataset removes that one file: its sidecar, if any, stays behind. */
  lemma DatasetDeleteLeavesSidecar(files: Files, id: string)
    ensures var res := DeleteDataset(files, id);
      (res.0 == Failed(404, DatasetNotFound) <==> id !in files) &&
      (id !in files ==> res.1 == files) &&
      (id in files ==> res.1.Keys == files.Keys - {id}) &&
      (forall f :: f in res.1 ==> f in files && res.1[f] == files[f]) &&
      (Sidecar(id) in files ==> Sidecar(id) in res.1)
  {
    assert Sidecar(id) != id by {
      assert |Sidecar(id)| > |id|;
    }
  }

  /** Deleting a model removes it and its sidecar and nothing else; an absent id is a 404 that changes nothing. */
  lemma ModelDelete(files: Files, id: string)
    ensures var res := DeleteModel(files, id);
      (res.0 == Failed(404, ModelNotFound) <==> id !in files) &&
      (id !in files ==> res.1 == files) &&
      (id in files ==> res.1.Keys == files.Keys - {id, Sidecar(id)}) &&
      (forall f :: f in res.1 ==> res.1[f] == files[f])
  {
  }

  /** The Flask sidecar of a model is never the one the Next.js listing looks for. */
  lemma SidecarNamesDiffer(name: string)
    ensures Sidecar(name) != ModelsRoute.SidecarName(name)
  {
    var a, b := Sidecar(name), ModelsRoute.SidecarName(name);
    assert a[|a| - 14] == '.';
    assert b[|b| - 14] == '_';
  }

  /** The listing, when it succeeds, shows every file of the folder, sidecars included, with the sidecar's fields or their defaults. */
  lemma ModelListingCoversFolder(files: Files, loadJson: seq<byte> -> Option<Json>)
    requires ListModels(files, loadJson).Some?
    ensures var listed := ListModels(files, loadJson).value;
      listed.Keys == files.Keys &&
      forall f :: f in listed ==>
        listed[f].id == f && listed[f].size == |files[f]| &&
        listed[f].kind == (if '.' in f then AfterLastDot(f) else "unknown") &&
        (Sidecar(f) !in files ==> listed[f].description == JStr("") && listed[f].accuracy == JNull && listed[f].version == JStr("1.0"))
  {
  }

  /** One unreadable or non-dict sidecar fails the whole listing. */
  lemma BadSidecarFailsListing(files: Files, name: string, loadJson: seq<byte> -> Option<Json>)
    requires name in files && Sidecar(name) in files
    requires loadJson(files[Sidecar(name)]).None? || !loadJson(files[Sidecar(name)]).value.JObj?
    ensures ListModels(files, loadJson).None?
  {
    assert ModelEntry(files, name, loadJson).None?;
  }

  /** A model upload checks no extension: any name secure_filename keeps is saved, with its bytes. */
  lemma ModelUploadAcceptsAnyName(files: Files, filename: string, bytes: seq<byte>, secure: string -> string,
                                  loads: string -> Option<Json>, dump: Json -> seq<byte>)
    requires filename != "" && secure(filename) != ""
    ensures var res := UploadModel(files, Some(Upload(filename, bytes)), None, secure, loads, dump);
      res.0 == Saved(secure(filename)) && res.1 == files[secure(filename) := bytes]
  {
  }

  /** Metadata json.loads rejects answers 500, yet the model has already been saved. */
  lemma BadModelMetadataAfterSave(files: Files, filename: string, bytes: seq<byte>, text: string,
                                  secure: string -> string, loads: string -> Option<Json>, dump: Json -> seq<byte>)
    requires filename != "" && secure(filename) != "" && loads(text).None?
    ensures var res := UploadModel(files, Some(Upload(filename, bytes)), Some(text), secure, loads, dump);
      res.0 == Failed(500, ModelUploadFailed) && res.1 == files[secure(filename) := bytes]
  {
  }

  /**
   * Round trip: metadata uploaded with a model is what its listing entry
   * reports, provided json.load reads back what json.dump wrote.
   */
  lemma ModelMetadataRoundTrip(files: Files, filename: string, bytes: seq<byte>, text: string, fields: map<string, Json>,
                               secure: string -> string, loads: string -> Option<Json>, dump: Json -> seq<byte>,
                               loadJson: seq<byte> -> Option<Json>)
    requires filename != "" && secure(filename) != ""
    requires loads(text) == Some(JObj(fields)) && loadJson(dump(JObj(fields))) == Some(JObj(fields))
    ensures var res := UploadModel(files, Some(Upload(filename, bytes)), Some(text), secure, loads, dump);
      var name := secure(filename);
      res.0 == Saved(name) && name in res.1 &&
      ModelEntry(res.1, name, loadJson) == Some(ModelRecord(name, name, |bytes|, ModelKind(name),
        if "description" in fields then fields["description"] else JStr(""),
        if "accuracy" in fields then fields["accuracy"] else JNull,
        if "version" in fields then fields["version"] else JStr("1.0")))
  {
    var name := secure(filename);
    assert |Sidecar(name)| > |name|;
  }

  /** Falsy ids answer 400 before either folder is consulted. */
  lemma RunIdsCheckedFirst(fields: map<string, Json>, datasets: Files, models: Files,
                           readCsv: seq<byte> -> Option<Table>, loadJson: seq<byte> -> Option<Table>, now: string)
    ensures var d := if "datasetId" in fields then Some(fields["datasetId"]) else None;
      var m := if "modelId" in fields then Some(fields["modelId"]) else None;
      (RunAnalytics(Some(JObj(fields)), datasets, models, readCsv, loadJson, now) == AnalyticsRoute.Failed(400, AnalyticsRoute.IdsRequired)) ==
      (!Truthy(d) || !Truthy(m))
  {
  }

  /** As in the Next.js handler, the dataset is looked up before the model, and the model is never read. */
  lemma RunLookupOrder(datasetId: string, modelId: string, rest: map<string, Json>, datasets: Files, models: Files, models': Files,
                       readCsv: seq<byte> -> Option<Table>, loadJson: seq<byte> -> Option<Table>, now: string)
    requires datasetId != "" && modelId != "" && models.Keys == models'.Keys
    ensures var body := Some(JObj(rest["datasetId" := JStr(datasetId)]["modelId" := JStr(modelId)]));
      var r := RunAnalytics(body, datasets, models, readCsv, loadJson, now);
      (r == AnalyticsRoute.Failed(404, AnalyticsRoute.DatasetNotFound) <==> datasetId !in datasets) &&
      (r == AnalyticsRoute.Failed(404, AnalyticsRoute.ModelNotFound) <==> datasetId in datasets && modelId !in models) &&
      r == RunAnalytics(body, datasets, models', readCsv, loadJson, now)
  {
  }

  lemma MissingCellRaises(analysisType: Option<Json>, now: string)
    ensures PyAnalytics([map["a" := Str("1")], map[]], analysisType, now).None?
  {
    var data: Table := [map["a" := Str("1")], map[]];
    ExampleNumbers(CPython);
    assert data[0].Keys == {"a"};
    NumericColumnsOfSingle(data, CPython, "a");
    assert "a" !in data[1];
  }

  lemma MissingCellSkipped()
    ensures SummaryOf([map["a" := Str("1")], map[]], Node) == map["a" := ColumnSummary(1.0, 1.0, 1.0, 1)]
  {
    var data: Table := [map["a" := Str("1")], map[]];
    ExampleNumbers(Node);
    assert data[0].Keys == {"a"};
    NumericColumnsOfSingle(data, Node, "a");
    ColumnValuesSkipMissing(data[0], data[1], "a", Node);
    SingleColumnSummary(data, Node, "a");
    StatsOfOne(1.0);
  }

  /**
   * A row without a numeric column: Number(undefined) is NaN and is filtered
   * out in the Next.js handler, while `row[column]` raises KeyError here.
   */
  lemma MissingCellDiverges(analysisType: Option<Json>, now: string)
    ensures var data := [map["a" := Str("1")], map[]];
      PyAnalytics(data, analysisType, now).None? &&
      AnalyticsRoute.Analytics(data, analysisType, now).summary == map["a" := ColumnSummary(1.0, 1.0, 1.0, 1)]
  {
    MissingCellRaises(analysisType, now);
    MissingCellSkipped();
  }
}
