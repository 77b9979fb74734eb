/**
 * The Next.js models handler: a listing filtered by extension, with each
 * entry's `{stem}_metadata.json` sidecar spread over it, and an upload that
 * keeps the file's own name.
 */
module ModelsRoute {
  import opened Common
  import opened Text
  import opened Store

  const NoFile := "No file provided"
  const InvalidType := "Invalid file type. Only JSON, PKL, and JOBLIB files are allowed."
  const UploadFailed := "Failed to upload model"
  const SidecarTail := "_metadata.json"

  datatype PostResponse = Uploaded(filename: string) | PostFailed(status: nat, error: string)

  /** `${path.parse(file).name}_metadata.json` */
  function SidecarName(name: string): string
  {
    ParsedName(name) + SidecarTail
  }

  predicate IsModelFile(name: string)
  {
    EndsWith(name, ".json") || EndsWith(name, ".pkl") || EndsWith(name, ".joblib")
  }

  predicate AllowedExt(ext: string)
  {
    ext == ".json" || ext == ".pkl" || ext == ".joblib"
  }

  /**
   * Each item under its index, written in decimal, as spreading an array does: every index's
   * rendering is a key holding that item, and every key is the rendering of an index.
   */
  function IndexedFields(items: seq<Json>): (fields: map<string, Json>)
    ensures forall i :: 0 <= i < |items| ==> Decimal(i) in fields && fields[Decimal(i)] == items[i]
    ensures forall k :: k in fields ==> DigitsValue(k) < |items| && Decimal(DigitsValue(k)) == k
  {
    if |items| == 0 then map[]
    else
      var n := |items| - 1;
      var rest := IndexedFields(items[..n]);
      DecimalRoundTrip(n);
      rest[Decimal(n) := items[n]]
  }

  /** The one-character strings of `s`, in order. */
  function Characters(s: string): (cs: seq<Json>)
    ensures |cs| == |s| && forall i :: 0 <= i < |s| ==> cs[i] == JStr([s[i]])
  {
    seq(|s|, i requires 0 <= i < |s| => JStr([s[i]]))
  }

  /** The keys `...value` copies into an object literal. */
  function Spread(value: Json): (fields: map<string, Json>)
    ensures value.JObj? ==> fields == value.fields
    ensures (value.JNull? || value.JBool? || value.JNum?) ==> fields == map[]
    ensures value.JArr? ==> forall i :: 0 <= i < |value.items| ==> Decimal(i) in fields && fields[Decimal(i)] == value.items[i]
    ensures value.JArr? ==> forall k :: k in fields ==> DigitsValue(k) < |value.items| && Decimal(DigitsValue(k)) == k
    ensures value.JStr? ==> forall i :: 0 <= i < |value.s| ==> Decimal(i) in fields && fields[Decimal(i)] == JStr([value.s[i]])
    ensures value.JStr? ==> forall k :: k in fields ==> DigitsValue(k) < |value.s| && Decimal(DigitsValue(k)) == k
  {
    match value
    case JObj(fields) => fields
    case JArr(items) => IndexedFields(items)
    case JStr(s) => IndexedFields(Characters(s))
    case _ => map[]
  }

  /** The fields every listed model has (lastModified is left out). */
  function BaseFields(files: Files, name: string): map<string, Json>
    requires name in files
  {
    map["id" := JStr(name), "name" := JStr(name), "size" := JNum(|files[name]| as real),
        "type" := JStr(if Extname(name) == "" then "" else Extname(name)[1..])]
  }

  /** The sidecar's parsed content, or {} when it is absent or does not parse. */
  function SidecarMetadata(files: Files, name: string, parse: seq<byte> -> Option<Json>): Json
  {
    var sidecar := SidecarName(name);
    if sidecar in files && parse(files[sidecar]).Some? then parse(files[sidecar]).value else JObj(map[])
  }

  /** One listing entry: the base fields, overridden by whatever the sidecar spreads. */
  function Entry(files: Files, name: string, parse: seq<byte> -> Option<Json>): map<string, Json>
    requires name in files
  {
    BaseFields(files, name) + Spread(SidecarMetadata(files, name, parse))
  }

  /** GET /api/models: the files ending in `.json`, `.pkl` or `.joblib`, case-sensitively. */
  function ListModels(files: Files, parse: seq<byte> -> Option<Json>): (listed: map<string, map<string, Json>>)
    ensures listed.Keys == set f | f in files && IsModelFile(f)
  {
    map f | f in files && IsModelFile(f) :: Entry(files, f, parse)
  }

  /**
   * POST /api/models as a function of the directory before the call. The
   * model is stored under its own name; a non-empty metadata text that parses
   * is written pretty-printed to the sidecar, anything else is ignored.
   */
  function Upload(files: Files, file: Option<FormValue>, metadataField: Option<FormValue>,
                  parse: string -> Option<Json>, stringifyPretty: Json -> seq<byte>): (PostResponse, Files)
  {
    if file.None? || file == Some(TextValue("")) then (PostFailed(400, NoFile), files)
    else if file.value.TextValue? then (PostFailed(500, UploadFailed), files)
    else
      var name := file.value.name;
      if !AllowedExt(ToLower(Extname(name))) then (PostFailed(400, InvalidType), files)
      else Accept(files, name, file.value.bytes, metadataField, parse, stringifyPretty)
  }

  /** The accepted upload: the model under its own name, then the sidecar for a metadata text that parses. */
  function Accept(files: Files, name: string, bytes: seq<byte>, metadataField: Option<FormValue>,
                  parse: string -> Option<Json>, stringifyPretty: Json -> seq<byte>): (PostResponse, Files)
  {
    var written := files[name := bytes];
    match metadataField
    case Some(TextValue(text)) =>
      if text != "" && parse(text).Some? then
        (Uploaded(name), written[SidecarName(name) := stringifyPretty(parse(text).value)])
      else (Uploaded(name), written)
    case _ => (Uploaded(name), written)
  }

  /** A file with an allowed extension is accepted, whatever the directory and the metadata. */
  lemma UploadAccepted(files: Files, name: string, bytes: seq<byte>, metadataField: Option<FormValue>,
                       parse: string -> Option<Json>, stringifyPretty: Json -> seq<byte>)
    requires AllowedExt(ToLower(Extname(name)))
    ensures Upload(files, Some(FileValue(name, bytes)), metadataField, parse, stringifyPretty) ==
      Accept(files, name, bytes, metadataField, parse, stringifyPretty)
  {
  }

  /** The handler itself: writes the model, then the sidecar. */
  method Post(dir: Directory, file: Option<FormValue>, metadataField: Option<FormValue>,
              parse: string -> Option<Json>, stringifyPretty: Json -> seq<byte>) returns (r: PostResponse)
    modifies dir
    ensures (r, dir.files) == Upload(old(dir.files), file, metadataField, parse, stringifyPretty)
  {
    if file.None? || file == Some(TextValue("")) {
      return PostFailed(400, NoFile);
    }
    if file.value.TextValue? {
      return PostFailed(500, UploadFailed);
    }
    var name := file.value.name;
    if !AllowedExt(ToLower(Extname(name))) {
      return PostFailed(400, InvalidType);
    }
    dir.Write(name, file.value.bytes);
    if metadataField.Some? && metadataField.value.TextValue? {
      var text := metadataField.value.text;
      if text != "" {
        var parsed := parse(text);
        if parsed.Some? {
          dir.Write(SidecarName(name), stringifyPretty(parsed.value));
        }
      }
    }
    r := Uploaded(name);
  }

  /** A sidecar never has the name of the model it describes. */
  lemma SidecarNameDiffers(name: string)
    ensures SidecarName(name) != name
  {
    assert ParsedName(name) + Extname(name) == name;
  }

  /** An accepted model is stored under its own name with exactly the uploaded bytes. */
  lemma StoredVerbatim(files: Files, name: string, bytes: seq<byte>, metadataField: Option<FormValue>,
                       parse: string -> Option<Json>, stringifyPretty: Json -> seq<byte>)
    requires AllowedExt(ToLower(Extname(name)))
    ensures var res := Upload(files, Some(FileValue(name, bytes)), metadataField, parse, stringifyPretty);
      res.0 == Uploaded(name) && name in res.1 && res.1[name] == bytes
  {
    UploadAccepted(files, name, bytes, metadataField, parse, stringifyPretty);
    AcceptKeepsModel(files, name, bytes, metadataField, parse, stringifyPretty);
  }

  /** The accepted upload answers with the model's name and stores its bytes under it. */
  lemma AcceptKeepsModel(files: Files, name: string, bytes: seq<byte>, metadataField: Option<FormValue>,
                         parse: string -> Option<Json>, stringifyPretty: Json -> seq<byte>)
    ensures var res := Accept(files, name, bytes, metadataField, parse, stringifyPretty);
      res.0 == Uploaded(name) && name in res.1 && res.1[name] == bytes
  {
    SidecarNameDiffers(name);
    var written := files[name := bytes];
    var res := Accept(files, name, bytes, metadataField, parse, stringifyPretty);
    if metadataField.Some? && metadataField.value.TextValue? && metadataField.value.text != "" &&
       parse(metadataField.value.text).Some? {
      assert res.1 == written[SidecarName(name) := stringifyPretty(parse(metadataField.value.text).value)];
    } else {
      assert res.1 == written;
    }
  }

  /** A rejected extension answers 400 and writes nothing. */
  lemma RejectedTypeWritesNothing(files: Files, name: string, bytes: seq<byte>, metadataField: Option<FormValue>,
                                  parse: string -> Option<Json>, stringifyPretty: Json -> seq<byte>)
    ensures var res := Upload(files, Some(FileValue(name, bytes)), metadataField, parse, stringifyPretty);
      (res.0 == PostFailed(400, InvalidType) <==> !AllowedExt(ToLower(Extname(name)))) &&
      (res.0 == PostFailed(400, InvalidType) ==> res.1 == files)
  {
  }

  /** Metadata that does not parse changes nothing: the same success as without metadata. */
  lemma BadMetadataIgnored(files: Files, file: Option<FormValue>, text: string,
                           parse: string -> Option<Json>, stringifyPretty: Json -> seq<byte>)
    requires parse(text).None?
    ensures Upload(files, file, Some(TextValue(text)), parse, stringifyPretty) == Upload(files, file, None, parse, stringifyPretty)
  {
  }

  /** `m.PKL` passes the lower-cased check and is stored, but the case-sensitive listing never shows it. */
  lemma UpperCaseExtensionHidden(files: Files, bytes: seq<byte>, metadataField: Option<FormValue>,
                                 parse: string -> Option<Json>, stringifyPretty: Json -> seq<byte>,
                                 parseFile: seq<byte> -> Option<Json>)
    ensures var res := Upload(files, Some(FileValue("m.PKL", bytes)), metadataField, parse, stringifyPretty);
      res.0 == Uploaded("m.PKL") && "m.PKL" in res.1 && "m.PKL" !in ListModels(res.1, parseFile)
  {
    UpperPkl();
    StoredVerbatim(files, "m.PKL", bytes, metadataField, parse, stringifyPretty);
  }

  /** `m.PKL` has an allowed extension once lower-cased, but is not a model file by name. */
  lemma UpperPkl()
    ensures AllowedExt(ToLower(Extname("m.PKL"))) && !IsModelFile("m.PKL")
  {
    assert LastIndexOf("m.PKL", '.') == Some(1);
    assert Extname("m.PKL") == ".PKL";
    assert ToLower(".PKL") == ".pkl";
    assert "m.PKL"[1..] == ".PKL";
  }

  /** Keys of the sidecar override the base fields of the listing entry. */
  lemma MetadataOverrides(files: Files, name: string, parse: seq<byte> -> Option<Json>, key: string)
    requires name in files && IsModelFile(name)
    requires key in Spread(SidecarMetadata(files, name, parse))
    ensures ListModels(files, parse)[name][key] == Spread(SidecarMetadata(files, name, parse))[key]
  {
  }

  /** A missing or unparseable sidecar leaves the entry with its base fields alone. */
  lemma UnreadableSidecarIgnored(files: Files, name: string, parse: seq<byte> -> Option<Json>)
    requires name in files && IsModelFile(name)
    requires SidecarName(name) !in files || parse(files[SidecarName(name)]).None?
    ensures ListModels(files, parse)[name] == BaseFields(files, name)
  {
    assert Spread(JObj(map[])) == map[];
    assert BaseFields(files, name) + map[] == BaseFields(files, name);
  }

  /** Every sidecar ends in `.json`, so once written it is listed as a model too. */
  lemma SidecarListedAsModel(files: Files, name: string, parse: seq<byte> -> Option<Json>)
    requires SidecarName(name) in files
    ensures SidecarName(name) in ListModels(files, parse)
  {
    assert EndsWith(SidecarTail, ".json");
    EndsWithAppended(ParsedName(name), SidecarTail, ".json");
  }

  /** A metadata text that parses is written pretty-printed to the sidecar, after the model. */
  lemma MetadataWritten(files: Files, name: string, bytes: seq<byte>, text: string,
                        parse: string -> Option<Json>, stringifyPretty: Json -> seq<byte>)
    requires AllowedExt(ToLower(Extname(name)))
    requires text != "" && parse(text).Some?
    ensures Upload(files, Some(FileValue(name, bytes)), Some(TextValue(text)), parse, stringifyPretty) ==
      (Uploaded(name), files[name := bytes][SidecarName(name) := stringifyPretty(parse(text).value)])
  {
    UploadAccepted(files, name, bytes, Some(TextValue(text)), parse, stringifyPretty);
  }

  /**
   * Round trip: after an upload with object metadata (the directory
   * MetadataWritten describes), the next listing spreads that object over the
   * model's entry, provided reading back the pretty-printed text yields it.
   */
  lemma UploadedMetadataListed(files: Files, name: string, bytes: seq<byte>, fields: map<string, Json>,
                               stringifyPretty: Json -> seq<byte>, parseFile: seq<byte> -> Option<Json>)
    requires IsModelFile(name)
    requires parseFile(stringifyPretty(JObj(fields))) == Some(JObj(fields))
    ensures var after := files[name := bytes][SidecarName(name) := stringifyPretty(JObj(fields))];
      name in ListModels(after, parseFile) &&
      ListModels(after, parseFile)[name] == BaseFields(after, name) + fields &&
      after[name] == bytes
  {
    SidecarNameDiffers(name);
    var after := files[name := bytes][SidecarName(name) := stringifyPretty(JObj(fields))];
    SidecarObjectListed(after, name, fields, parseFile);
  }

  lemma SidecarObjectListed(files: Files, name: string, fields: map<string, Json>, parse: seq<byte> -> Option<Json>)
    requires name in files && IsModelFile(name) && SidecarName(name) in files
    requires parse(files[SidecarName(name)]) == Some(JObj(fields))
    ensures name in ListModels(files, parse) && ListModels(files, parse)[name] == BaseFields(files, name) + fields
  {
    assert SidecarMetadata(files, name, parse) == JObj(fields);
  }
}
