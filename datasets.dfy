/**
 * The Next.js datasets handler: listing, fetch by id, and upload under a
 * time-stamped name with an optional `.metadata.json` sidecar.
 */
module DatasetsRoute {
  import opened Common
  import opened Text
  import opened Store

  const NotFound := "Dataset not found"
  const ReadFailed := "Failed to read datasets"
  const NoFile := "No file provided"
  const InvalidType := "Invalid file type. Only CSV and JSON files are allowed."
  const UploadFailed := "Failed to upload file"
  const SidecarSuffix := ".metadata.json"

  /** One listed dataset (lastModified is left out). */
  datatype Record = Record(id: string, name: string, size: nat, kind: string)

  /** The `data` of a fetched dataset: parsed JSON, raw CSV text, or undefined. */
  datatype Content = ParsedJson(value: Json) | RawText(bytes: seq<byte>) | Undefined

  datatype GetResponse =
    | Listing(datasets: map<string, Record>)
    | Found(record: Record, data: Content)
    | GetFailed(status: nat, error: string)

  /** The metadata object the handler ends up with: parsed JSON, or the File object itself. */
  datatype Metadata = MetaJson(json: Json) | MetaFile

  datatype PostResponse =
    | Uploaded(id: string, size: nat, kind: string)
    | PostFailed(status: nat, error: string)

  /** `.slice(1)` of an extension: drops the leading dot. */
  function ExtType(ext: string): (kind: string)
    ensures ext != "" && ext[0] == '.' ==> "." + kind == ext
  {
    if ext == "" then "" else ext[1..]
  }

  function RecordOf(files: Files, name: string): Record
    requires name in files
  {
    Record(name, name, |files[name]|, ExtType(Extname(name)))
  }

  /** The listing: every file ending in `.csv` or `.json`, with its byte size and type. */
  function ListDatasets(files: Files): (listed: map<string, Record>)
    ensures listed.Keys == set f | f in files && IsDatasetFile(f)
  {
    map f | f in files && IsDatasetFile(f) :: RecordOf(files, f)
  }

  /**
   * GET /api/datasets[?id=...]: a falsy id lists the directory; otherwise the
   * named file is returned, parsed when it ends in `.json` (a parse failure
   * is a 500), raw when it ends in `.csv`, and with undefined data otherwise.
   */
  function Get(files: Files, id: Option<string>, parseJson: seq<byte> -> Option<Json>): (r: GetResponse)
    ensures r.GetFailed? ==> r.status in {404, 500}
    ensures id.None? || id.value == "" ==> r == Listing(ListDatasets(files))
    ensures id.Some? && id.value != "" ==> (r == GetFailed(404, NotFound) <==> id.value !in files)
    ensures r.Found? ==> id.Some? && id.value in files && r.record == RecordOf(files, id.value)
  {
    if id.None? || id.value == "" then Listing(ListDatasets(files))
    else if id.value !in files then GetFailed(404, NotFound)
    else
      var name := id.value;
      var content := files[name];
      if EndsWith(name, ".json") then
        match parseJson(content)
        case None => GetFailed(500, ReadFailed)
        case Some(j) => Found(RecordOf(files, name), ParsedJson(j))
      else if EndsWith(name, ".csv") then Found(RecordOf(files, name), RawText(content))
      else Found(RecordOf(files, name), Undefined)
  }

  /** The metadata form field after the optional JSON.parse; an unparseable or empty text gives {}. */
  function ReadMetadata(field: Option<FormValue>, parse: string -> Option<Json>): (m: Metadata)
    ensures (field.None? || field == Some(TextValue(""))) ==> m == MetaJson(JObj(map[]))
  {
    match field
    case None => MetaJson(JObj(map[]))
    case Some(FileValue(_, _)) => MetaFile
    case Some(TextValue(s)) =>
      if s == "" then MetaJson(JObj(map[]))
      else match parse(s)
        case None => MetaJson(JObj(map[]))
        case Some(j) => MetaJson(j)
  }

  /**
   * Object.keys(metadata).length: own keys of objects, indices of arrays and
   * strings, none for numbers, booleans and File objects; None where
   * Object.keys throws (null).
   */
  function KeyCount(m: Metadata): Option<nat>
  {
    match m
    case MetaFile => Some(0)
    case MetaJson(j) =>
      match j
      case JNull => None
      case JObj(fields) => Some(|fields|)
      case JArr(items) => Some(|items|)
      case JStr(s) => Some(|s|)
      case _ => Some(0)
  }

  /** `${path.basename(name, ext)}_${timestamp}${ext}` */
  function StoredName(name: string, ext: string, now: nat): string
  {
    Basename(name, ext) + "_" + Decimal(now) + ext
  }

  /** The lower-cased extension the upload is judged by. */
  function UploadExt(name: string): string
  {
    ToLower(Extname(name))
  }

  predicate AllowedExt(ext: string)
  {
    ext == ".csv" || ext == ".json"
  }

  /**
   * POST /api/datasets as a function of the directory before the call: the
   * response and the directory after it. `parse` and `stringify` stand for
   * JSON.parse (None when it throws) and JSON.stringify; `now` is
   * Date.getTime().
   */
  function Upload(files: Files, file: Option<FormValue>, metadataField: Option<FormValue>,
                  parse: string -> Option<Json>, stringify: Json -> seq<byte>, now: nat): (Response: (PostResponse, Files))
  {
    if file.None? || file == Some(TextValue("")) then (PostFailed(400, NoFile), files)
    else if file.value.TextValue? then (PostFailed(500, UploadFailed), files)
    else
      var metadata := ReadMetadata(metadataField, parse);
      var name, bytes := file.value.name, file.value.bytes;
      var ext := UploadExt(name);
      if !AllowedExt(ext) then (PostFailed(400, InvalidType), files)
      else Accept(files, name, bytes, metadata, stringify, now)
  }

  /**
   * The accepted upload: the file under its time-stamped name, then the
   * sidecar when the metadata has keys; metadata without a key count (null)
   * fails after the file is written.
   */
  function Accept(files: Files, name: string, bytes: seq<byte>, metadata: Metadata,
                  stringify: Json -> seq<byte>, now: nat): (PostResponse, Files)
  {
    var ext := UploadExt(name);
    var id := StoredName(name, ext, now);
    var written := files[id := bytes];
    match KeyCount(metadata)
    case None => (PostFailed(500, UploadFailed), written)
    case Some(k) =>
      if k > 0 && metadata.MetaJson? then
        (Uploaded(id, |bytes|, ExtType(ext)), written[id + SidecarSuffix := stringify(metadata.json)])
      else (Uploaded(id, |bytes|, ExtType(ext)), written)
  }

  /** A file with an allowed extension is accepted, whatever the directory and the metadata. */
  lemma UploadAccepted(files: Files, name: string, bytes: seq<byte>, metadataField: Option<FormValue>,
                       parse: string -> Option<Json>, stringify: Json -> seq<byte>, now: nat)
    requires AllowedExt(UploadExt(name))
    ensures Upload(files, Some(FileValue(name, bytes)), metadataField, parse, stringify, now) ==
      Accept(files, name, bytes, ReadMetadata(metadataField, parse), stringify, now)
  {
  }

  /** The handler itself: writes the dataset, then the sidecar when the metadata has keys. */
  method Post(dir: Directory, file: Option<FormValue>, metadataField: Option<FormValue>,
              parse: string -> Option<Json>, stringify: Json -> seq<byte>, now: nat) returns (r: PostResponse)
    modifies dir
    ensures (r, dir.files) == Upload(old(dir.files), file, metadataField, parse, stringify, now)
  {
    if file.None? || file == Some(TextValue("")) {
      return PostFailed(400, NoFile);
    }
    if file.value.TextValue? {
      return PostFailed(500, UploadFailed);
    }
    var metadata := ReadMetadata(metadataField, parse);
    var ext := UploadExt(file.value.name);
    if !AllowedExt(ext) {
      return PostFailed(400, InvalidType);
    }
    var id := StoredName(file.value.name, ext, now);
    dir.Write(id, file.value.bytes);
    var keys := KeyCount(metadata);
    if keys.None? {
      return PostFailed(500, UploadFailed);
    }
    if keys.value > 0 && metadata.MetaJson? {
      dir.Write(id + SidecarSuffix, stringify(metadata.json));
    }
    r := Uploaded(id, |file.value.bytes|, ExtType(ext));
  }

  /** The stored name is strictly longer than the uploaded one, so it never overwrites it. */
  lemma StoredNameIsNew(name: string, ext: string, now: nat)
    ensures |StoredName(name, ext, now)| > |name|
  {
  }

  /** Different time stamps give different stored names for the same upload. */
  lemma StoredNamesDiffer(name: string, ext: string, t1: nat, t2: nat)
    requires StoredName(name, ext, t1) == StoredName(name, ext, t2)
    ensures t1 == t2
  {
    var base := Basename(name, ext) + "_";
    var s1, s2 := StoredName(name, ext, t1), StoredName(name, ext, t2);
    assert Decimal(t1) == s1[|base|..|s1| - |ext|];
    assert Decimal(t2) == s2[|base|..|s2| - |ext|];
    DecimalInjective();
  }

  /** A name the upload accepts keeps its (lower-cased) extension in the stored name. */
  lemma StoredNameExtension(name: string, ext: string, now: nat)
    requires AllowedExt(ext)
    ensures Extname(StoredName(name, ext, now)) == ext
    ensures IsDatasetFile(StoredName(name, ext, now))
  {
    var stem := Basename(name, ext) + "_" + Decimal(now);
    assert StoredName(name, ext, now) == stem + ext;
    ExtnameOfAppended(stem, ext);
  }

  /** A rejected extension answers 400 and leaves the directory as it was. */
  lemma RejectedTypeWritesNothing(files: Files, name: string, bytes: seq<byte>, metadataField: Option<FormValue>,
                                  parse: string -> Option<Json>, stringify: Json -> seq<byte>, now: nat)
    ensures var res := Upload(files, Some(FileValue(name, bytes)), metadataField, parse, stringify, now); var r, after := res.0, res.1;
      (r == PostFailed(400, InvalidType) <==> !AllowedExt(UploadExt(name))) &&
      (r == PostFailed(400, InvalidType) ==> after == files)
  {
  }

  /** Only a file field with an allowed extension can be uploaded. */
  lemma UploadNeedsFile(files: Files, file: Option<FormValue>, metadataField: Option<FormValue>,
                        parse: string -> Option<Json>, stringify: Json -> seq<byte>, now: nat)
    requires Upload(files, file, metadataField, parse, stringify, now).0.Uploaded?
    ensures file.Some? && file.value.FileValue? && AllowedExt(UploadExt(file.value.name))
  {
  }

  /** What a successful upload did: stored the file's bytes under the time-stamped name. */
  lemma UploadedShape(files: Files, name: string, bytes: seq<byte>, metadataField: Option<FormValue>,
                      parse: string -> Option<Json>, stringify: Json -> seq<byte>, now: nat)
    requires Upload(files, Some(FileValue(name, bytes)), metadataField, parse, stringify, now).0.Uploaded?
    ensures var id := StoredName(name, UploadExt(name), now);
      var res := Upload(files, Some(FileValue(name, bytes)), metadataField, parse, stringify, now);
      res.0 == Uploaded(id, |bytes|, ExtType(UploadExt(name))) && id in res.1 && res.1[id] == bytes
  {
    assert AllowedExt(UploadExt(name));
    UploadAccepted(files, name, bytes, metadataField, parse, stringify, now);
    AcceptedShape(files, name, bytes, ReadMetadata(metadataField, parse), stringify, now);
  }

  /** An accepted upload that succeeds answers with the stored name, size and type, and stores the bytes there. */
  lemma AcceptedShape(files: Files, name: string, bytes: seq<byte>, metadata: Metadata,
                      stringify: Json -> seq<byte>, now: nat)
    requires Accept(files, name, bytes, metadata, stringify, now).0.Uploaded?
    ensures var id := StoredName(name, UploadExt(name), now);
      var res := Accept(files, name, bytes, metadata, stringify, now);
      res.0 == Uploaded(id, |bytes|, ExtType(UploadExt(name))) && id in res.1 && res.1[id] == bytes
  {
    var ext := UploadExt(name);
    var id := StoredName(name, ext, now);
    var written := files[id := bytes];
    SidecarDiffers(id);
    var res := Accept(files, name, bytes, metadata, stringify, now);
    if KeyCount(metadata).value > 0 && metadata.MetaJson? {
      assert res.1 == written[id + SidecarSuffix := stringify(metadata.json)];
    } else {
      assert res.1 == written;
    }
  }

  /** A sidecar's name is never its dataset's name. */
  lemma SidecarDiffers(id: string)
    ensures id + SidecarSuffix != id
  {
    assert |id + SidecarSuffix| > |id|;
  }

  /**
   * Round trip: a successful upload is in the next listing, with the size
   * and the type the upload reported.
   */
  lemma UploadThenList(files: Files, name: string, bytes: seq<byte>, metadataField: Option<FormValue>,
                       parse: string -> Option<Json>, stringify: Json -> seq<byte>, now: nat)
    requires Upload(files, Some(FileValue(name, bytes)), metadataField, parse, stringify, now).0.Uploaded?
    ensures var res := Upload(files, Some(FileValue(name, bytes)), metadataField, parse, stringify, now);
      res.0.id in ListDatasets(res.1) &&
      ListDatasets(res.1)[res.0.id] == Record(res.0.id, res.0.id, res.0.size, res.0.kind)
  {
    UploadedShape(files, name, bytes, metadataField, parse, stringify, now);
    var ext := UploadExt(name);
    StoredNameExtension(name, ext, now);
  }

  /** The sidecar `{id}.metadata.json` is written exactly when the metadata has keys. */
  lemma SidecarWhenKeys(files: Files, name: string, bytes: seq<byte>, metadataField: Option<FormValue>,
                        parse: string -> Option<Json>, stringify: Json -> seq<byte>, now: nat)
    requires AllowedExt(UploadExt(name))
    requires StoredName(name, UploadExt(name), now) + SidecarSuffix !in files
    ensures var res := Upload(files, Some(FileValue(name, bytes)), metadataField, parse, stringify, now);
      var keys := KeyCount(ReadMetadata(metadataField, parse));
      StoredName(name, UploadExt(name), now) + SidecarSuffix in res.1 <==> keys.Some? && keys.value > 0
  {
    UploadAccepted(files, name, bytes, metadataField, parse, stringify, now);
    SidecarDiffers(StoredName(name, UploadExt(name), now));
  }

  /** Ending in `.json`, a sidecar is listed as a dataset of its own. */
  lemma SidecarListed(files: Files, id: string)
    requires id + SidecarSuffix in files
    ensures id + SidecarSuffix in ListDatasets(files)
  {
    var s := id + SidecarSuffix;
    assert s[|s| - 5..] == ".json";
  }

  /** Metadata that fails to parse is treated as absent: the upload still succeeds. */
  lemma BadMetadataIgnored(files: Files, file: Option<FormValue>, text: string,
                           parse: string -> Option<Json>, stringify: Json -> seq<byte>, now: nat)
    requires parse(text).None?
    ensures Upload(files, file, Some(TextValue(text)), parse, stringify, now) == Upload(files, file, None, parse, stringify, now)
  {
  }

  /** Metadata `null` has no keys to count: the dataset is stored, yet the answer is a 500. */
  lemma NullMetadataFailsAfterWrite(files: Files, name: string, bytes: seq<byte>, text: string,
                                    parse: string -> Option<Json>, stringify: Json -> seq<byte>, now: nat)
    requires text != "" && parse(text) == Some(JNull)
    requires AllowedExt(UploadExt(name))
    ensures var res := Upload(files, Some(FileValue(name, bytes)), Some(TextValue(text)), parse, stringify, now); var r, after := res.0, res.1;
      r == PostFailed(500, UploadFailed) && after == files[StoredName(name, UploadExt(name), now) := bytes]
  {
    UploadAccepted(files, name, bytes, Some(TextValue(text)), parse, stringify, now);
    assert ReadMetadata(Some(TextValue(text)), parse) == MetaJson(JNull);
  }

  /** Fetching by id: 404 exactly for an absent name; the record is the listing's record. */
  lemma GetById(files: Files, id: string, parseJson: seq<byte> -> Option<Json>)
    requires id != ""
    ensures var r := Get(files, Some(id), parseJson);
      (r == GetFailed(404, NotFound) <==> id !in files) &&
      (r.Found? ==> r.record == RecordOf(files, id) && r.record.size == |files[id]|) &&
      (r.Found? && r.data.RawText? ==> EndsWith(id, ".csv") && r.data.bytes == files[id]) &&
      (r.Found? && r.data.Undefined? ==> !IsDatasetFile(id)) &&
      (r.Found? && IsDatasetFile(id) ==> id in ListDatasets(files) && ListDatasets(files)[id] == r.record)
    ensures id in files && EndsWith(id, ".json") ==>
      Get(files, Some(id), parseJson) ==
        (if parseJson(files[id]).None? then GetFailed(500, ReadFailed)
         else Found(RecordOf(files, id), ParsedJson(parseJson(files[id]).value)))
    ensures id in files && EndsWith(id, ".csv") ==> Get(files, Some(id), parseJson) == Found(RecordOf(files, id), RawText(files[id]))
    ensures id in files && !IsDatasetFile(id) ==> Get(files, Some(id), parseJson) == Found(RecordOf(files, id), Undefined)
  {
    var r := Get(files, Some(id), parseJson);
    if id in files {
      assert IsDatasetFile(id) ==> ListDatasets(files)[id] == RecordOf(files, id);
      if EndsWith(id, ".json") {
        assert r.Found? ==> r.data.ParsedJson?;
      } else if EndsWith(id, ".csv") {
        assert r == Found(RecordOf(files, id), RawText(files[id]));
      } else {
        assert r == Found(RecordOf(files, id), Undefined);
      }
    }
  }

  /**
   * Round trip: fetching a successful upload by the id it answered gives the
   * listing's record, and the uploaded bytes themselves for a `.csv`, their
   * parse for a `.json`.
   */
  lemma UploadThenFetch(files: Files, name: string, bytes: seq<byte>, metadataField: Option<FormValue>,
                        parse: string -> Option<Json>, stringify: Json -> seq<byte>, now: nat,
                        parseJson: seq<byte> -> Option<Json>)
    requires Upload(files, Some(FileValue(name, bytes)), metadataField, parse, stringify, now).0.Uploaded?
    ensures var res := Upload(files, Some(FileValue(name, bytes)), metadataField, parse, stringify, now);
      var r := Get(res.1, Some(res.0.id), parseJson);
      (UploadExt(name) == ".csv" ==> r == Found(Record(res.0.id, res.0.id, |bytes|, "csv"), RawText(bytes))) &&
      (UploadExt(name) == ".json" ==>
        r == (if parseJson(bytes).None? then GetFailed(500, ReadFailed)
              else Found(Record(res.0.id, res.0.id, |bytes|, "json"), ParsedJson(parseJson(bytes).value))))
  {
    var ext := UploadExt(name);
    var id := StoredName(name, ext, now);
    var stem := Basename(name, ext) + "_" + Decimal(now);
    UploadedShape(files, name, bytes, metadataField, parse, stringify, now);
    StoredNameExtension(name, ext, now);
    assert id == stem + ext;
    assert id[|id| - |ext|..] == ext;
    var res := Upload(files, Some(FileValue(name, bytes)), metadataField, parse, stringify, now);
    GetById(res.1, id, parseJson);
  }
}
