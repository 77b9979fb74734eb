# OEE360 dashboard back end and statistics, modelled in Dafny

OEE360 is an Overall Equipment Effectiveness dashboard. Two back ends run
beside the page. One is a set of Next.js route handlers under `app/api/`. The
other is a Flask app, `app.py`. Both keep uploaded datasets and models as
files in two folders and run a small "analytics" summary over a dataset. The
page `app/page.tsx` computes trends, correlations, recommendation cards, a
live-update window and daily chart bars. A command-line script,
`scripts/validate_data.py`, checks a CSV before upload.

This project models those pieces and proves what they promise:

- `Store` is a storage folder: a class whose `files` map from name to bytes
  is updated in place by `Write` and `Remove`.
- `DatasetsRoute` and `ModelsRoute` are the Next.js `GET`/`POST` handlers.
  Each handler is a function of the folder before the call. The `Post`
  method performs the writes on a `Store.Directory` and is proved equal to
  that function. The proved properties cover:
  - the allow-lists and their case handling;
  - the stored names and the sidecar names;
  - what a listing shows;
  - where an upload fails after it has already written.
- `FlaskApp` is the same store in `app.py`: `allowed_file`, the dataset and
  model handlers, `run_analytics` and `perform_basic_analytics`, the latter
  written with its loops.
- `AnalyticsRoute` is the Next.js analytics handler: its chain of early
  returns, and `performBasicAnalytics` as a loop that fills the summary.
- `Coercion` defines JavaScript `Number()` and Python `float()` on table
  cells. `Summary` defines the per-column mean/min/max/count both back ends
  report.
- `Statistics` covers `calculateTrend` and `calculateCorrelation`.
  - The trend is an extended real, because JavaScript's `0 / 0` is NaN.
  - A correlation is `Zero` or `Ratio(num, denSq)`, meaning
    `num / sqrt(denSq)`. This way no square root is needed.
- `Dashboard` covers the page's `filteredData`, `currentMetrics`, the
  correlation matrix (a loop, as the nested `forEach`), the recommendation
  rules (a method that pushes cards) and the live-update step.
- `DailyBars` covers the bar chart's daily `reduce`: a method with a loop
  that blends each reading into its day's bar.
- `ValidateData` covers `validate_csv_file` and `main` of the CSV validator.
- `Text` holds the string helpers the handlers rely on: Node's
  `path.extname`/`basename`/`parse`, Python's `rsplit`, lower-casing, and the
  decimal rendering of a timestamp.
- `Common` holds the shared `Option` and JSON types.

These foreign functions are parameters of the model: JSON parsing and
printing, Papa.parse, pandas `read_csv` and `to_datetime`, Werkzeug's
`secure_filename`, the clock, the random draws and the date formatting.

The validator follows the code rather than a plain reading of it. pandas
reads a column that holds any non-numeric text as text. Comparing such a
column's `min()` with a number raises `TypeError`, and the outer handler
turns that into `False`. So "all columns present and timestamps parse" gives
True only when none of the six range-checked columns holds text.
`ValidateData.ValidIff` states the exact condition.

## Model

| member | source | states |
|---|---|---|
| Store.Directory.constructor | app.py:11-12 | a folder starts with the given files |
| Store.Directory.Write | app/api/datasets/route.ts:114 | writing a file replaces or creates exactly that name and leaves every other file as it was |
| Store.Directory.Remove | app.py:103 | removing a file deletes exactly that name |
| Text.ToLower | app/api/datasets/route.ts:96 | lower-casing keeps the length and lower-cases each character, ASCII letters only |
| Text.LastIndexOf | app.py:25 | the index found holds the character and no later index does; none means the character is absent |
| Text.Extname | app/api/datasets/route.ts:96 | `path.extname` is empty or starts at the last '.', which does not open the name |
| Text.Basename | app/api/datasets/route.ts:110 | `path.basename(name, ext)`: when the name ends in the non-empty suffix, the result followed by the suffix is the name (the empty text when they are equal); otherwise the result is the name unchanged |
| Text.ParsedName | app/api/models/route.ts:23 | `path.parse(name).name` followed by the extension is the name |
| Text.AfterLastDot | app.py:25 | `rsplit('.', 1)[1]` is the text after the last '.', which contains no '.' |
| Text.Decimal | app/api/datasets/route.ts:110 | a rendered timestamp is a non-empty run of digits |
| Text.DecimalRoundTrip | app/api/datasets/route.ts:110 | reading back a rendered timestamp gives the timestamp |
| Text.DecimalInjective | app/api/datasets/route.ts:109-110 | different timestamps render differently |
| Text.ExtnameOfAppended | app/api/datasets/route.ts:110 | the stored name `stem_time.ext` reports `.ext` as its extension |
| Text.AfterLastDotOfSuffix | app.py:25 | a name ending in `.ext` splits to `ext` when `ext` has no '.' |
| Coercion.Trim | app/api/analytics/route.ts:71 | the trimmed text is no longer than the original, starts and ends with a non-space character, and a text without white space is unchanged |
| Coercion.TrimStrips | app/api/analytics/route.ts:71 | the trimmed text is a slice `s[i..j]` of the text with only white space before `i` and after `j` |
| Coercion.JsNumber | app/api/analytics/route.ts:71 | `Number(...)` of a number is that number; of null and of a blank text it is 0 |
| Coercion.PyFloat | app.py:246-255 | `float(...)` of a number is that number; it raises on None and on a blank text |
| Coercion.EmptyAndNullDisagree | app/api/analytics/route.ts:71 | `Number("")` and `Number(null)` are 0, while `float` rejects both (app.py:246) |
| Coercion.RenderedNumberCoerces | app/api/analytics/route.ts:71 | a decimal natural number coerces to itself on both runtimes |
| Coercion.NonDecimalIsNotDecimal | app/api/analytics/route.ts:71 | a 0x/0o/0b literal `Number()` accepts is never a decimal literal |
| Coercion.FloatAgreesWithNumber | app.py:246 | where `float` accepts a text with no white space and no '_' separators, `Number` gives the same value (digits are ASCII in the model) |
| Coercion.DigitlessTextIsNotNumeric | app/api/analytics/route.ts:71 | a non-blank text with no ASCII digit is not a number on either runtime |
| Summary.NumericColumnsFirstRowOnly | app/api/analytics/route.ts:70-72 | only the first row chooses the numeric columns: the choice is the same for that row alone and for the table with any rows appended |
| Summary.FirstRowDecides | app/api/analytics/route.ts:70-72 | a column missing from the first row or whose first-row cell does not coerce gets no summary |
| Summary.FirstCellNotNumeric | app/api/analytics/route.ts:70-82 | a column whose first cell is text and whose second cell is a number has that number as its values, yet gets no summary |
| Summary.LaterRowsIgnored | app/api/analytics/route.ts:70-82 | for the table `a: "x"`, `a: "1"` the column's values are [1] but the summary is empty |
| Summary.ColumnValues | app/api/analytics/route.ts:75 | there are never more values than rows |
| Summary.ColumnValuesAppend | app/api/analytics/route.ts:75 | the values of two tables one after the other are the first table's values followed by the second's, so row order and repeats are kept |
| Summary.ColumnValuesOfRow | app/api/analytics/route.ts:75 | one row gives its coerced cell when it has the column and the cell coerces, and nothing otherwise |
| Summary.ColumnValuesCount | app/api/analytics/route.ts:75 | there is exactly one value per row whose cell is present and coerces |
| Summary.Min | app/api/analytics/route.ts:79 | the minimum is one of the values and no value is below it |
| Summary.Max | app/api/analytics/route.ts:80 | the maximum is one of the values and no value is above it |
| Summary.MeanWithin | app/api/analytics/route.ts:78 | the mean of values within [lo, hi] lies within [lo, hi] |
| Summary.Stats | app/api/analytics/route.ts:77-82 | count is the number of values; mean is their sum over the count; min and max are values that bound all the others; min <= mean <= max |
| Summary.SummaryOver | app/api/analytics/route.ts:74-84 | the entries are among the given columns |
| Summary.SummaryOverStep | app/api/analytics/route.ts:76-83 | adding a column to the set adds its entry exactly when it keeps a value |
| Summary.SummaryOf | app/api/analytics/route.ts:69-85 | an empty table gives an empty summary; a column is reported exactly when it is numeric in the first row and keeps a value; its entry is the count, mean (sum over count), min and max of those values |
| Summary.ColumnValueOrigin | app/api/analytics/route.ts:75 | every value comes from a row that has the column and coerces to it |
| Summary.ColumnValueContributes | app/api/analytics/route.ts:75 | every row with a coercible cell in the column contributes its value |
| Summary.SummaryFacts | app/api/analytics/route.ts:75-83 | a reported column is numeric in the first row, has 0 < count <= rowCount and min <= mean <= max, its min and max come from rows, every value lies between them, and its count is the number of rows whose cell is present and coerces |
| Summary.OmittedWhenNoValues | app/api/analytics/route.ts:76 | a numeric column is left out exactly when no row has a coercible value in it |
| Summary.SingleColumnSummary | app/api/analytics/route.ts:69-84 | a table with one numeric column that keeps values summarises to that column alone |
| Summary.TwoRowExample | app/api/analytics/route.ts:69-84 | rows {a:"1",b:"x"} and {a:"2",b:"y"} summarise to a: mean 1.5, min 1, max 2, count 2 on both runtimes |
| AnalyticsRoute.Post | app/api/analytics/route.ts:6-56 | every failure is a 400, 404 or 500 |
| AnalyticsRoute.PerformBasicAnalytics | app/api/analytics/route.ts:58-88 | the column-by-column loop builds the row count, the echoed analysisType and the summary `Summary.SummaryOf` describes |
| AnalyticsRoute.IdsCheckedFirst | app/api/analytics/route.ts:10-14 | the 400 for missing ids comes exactly when either id is falsy, whatever the folders hold |
| AnalyticsRoute.DatasetCheckedBeforeModel | app/api/analytics/route.ts:20-26 | "Dataset not found" exactly when the dataset is absent, "Model not found" exactly when the dataset exists and the model does not |
| AnalyticsRoute.ModelContentUnread | app/api/analytics/route.ts:24-43 | the response depends on which models exist, never on their content |
| AnalyticsRoute.FormatCheckedLast | app/api/analytics/route.ts:28-39 | "Unsupported dataset format" exactly when both files exist and the id ends in neither `.csv` nor `.json` |
| AnalyticsRoute.SuccessEchoesRequest | app/api/analytics/route.ts:45-51 | a success echoes both ids and analysisType, names existing files, and reports the row count and summary of the parsed dataset |
| AnalyticsRoute.AnalysisTypeIgnored | app/api/analytics/route.ts:43 | requests differing only in analysisType succeed or fail alike, with the same summary and row count |
| DatasetsRoute.ExtType | app/api/datasets/route.ts:44 | `.slice(1)` of a dotted extension is the extension without its dot |
| DatasetsRoute.ListDatasets | app/api/datasets/route.ts:50-63 | the listing holds exactly the files ending in `.csv` or `.json` |
| DatasetsRoute.Get | app/api/datasets/route.ts:14-48 | no id lists the folder; a fetch by id answers 404 exactly when the id is absent; a found record is the id's own; failures are 404 or 500 |
| DatasetsRoute.GetById | app/api/datasets/route.ts:20-47 | 404 exactly for an absent id; a stored `.json` is parsed (500 when parsing fails), a stored `.csv` comes back raw and any other stored name with undefined data, each with the listing's record |
| DatasetsRoute.ReadMetadata | app/api/datasets/route.ts:81-92 | an absent or empty metadata field is `{}` |
| DatasetsRoute.UploadAccepted | app/api/datasets/route.ts:94-120 | a file whose lower-cased extension is allowed goes on to be stored, whatever the folder and metadata |
| DatasetsRoute.Post | app/api/datasets/route.ts:72-134 | the handler's writes and response are those of the upload function |
| DatasetsRoute.StoredNameIsNew | app/api/datasets/route.ts:108-111 | the stored name is longer than the uploaded one, so it never overwrites the original name |
| DatasetsRoute.StoredNamesDiffer | app/api/datasets/route.ts:109-110 | two uploads of one name at different times get different stored names |
| DatasetsRoute.StoredNameExtension | app/api/datasets/route.ts:110 | the stored name keeps the allowed lower-cased extension and ends in `.csv` or `.json` |
| DatasetsRoute.RejectedTypeWritesNothing | app/api/datasets/route.ts:95-101 | the 400 for the file type comes exactly for a disallowed extension, and then the folder is unchanged |
| DatasetsRoute.UploadNeedsFile | app/api/datasets/route.ts:77-101 | a successful upload had a file field with an allowed extension |
| DatasetsRoute.UploadedShape | app/api/datasets/route.ts:109-129 | a success reports the stored name, the byte length and the type, and the bytes are stored under that name |
| DatasetsRoute.AcceptedShape | app/api/datasets/route.ts:109-129 | the same for the accepting branch on its own |
| DatasetsRoute.SidecarDiffers | app/api/datasets/route.ts:118 | the sidecar's name is never its dataset's name |
| DatasetsRoute.UploadThenFetch | app/api/datasets/route.ts:18-47 | fetching a successful upload by its id gives back the uploaded bytes raw for a `.csv`, and their parse for a `.json` |
| DatasetsRoute.UploadThenList | app/api/datasets/route.ts:110-128 | a successful upload is in the next listing with the size and type it reported |
| DatasetsRoute.SidecarWhenKeys | app/api/datasets/route.ts:116-120 | the sidecar `{id}.metadata.json` is written exactly when the metadata has at least one key |
| DatasetsRoute.SidecarListed | app/api/datasets/route.ts:52 | a sidecar ends in `.json`, so it is listed as a dataset |
| DatasetsRoute.BadMetadataIgnored | app/api/datasets/route.ts:85-91 | metadata that fails to parse gives the same result as no metadata |
| DatasetsRoute.NullMetadataFailsAfterWrite | app/api/datasets/route.ts:113-120 | metadata `null` answers 500, but only after the dataset has been written |
| ModelsRoute.Spread | app/api/models/route.ts:38 | `...value` copies an object's fields; for an array its keys are exactly the decimal indices, each holding that item; for a text exactly the decimal positions, each holding that one-character text; nothing for null, booleans and numbers |
| ModelsRoute.IndexedFields | app/api/models/route.ts:38 | the fields have exactly the keys "0" to "n-1", key i holding item i |
| ModelsRoute.ListModels | app/api/models/route.ts:14-40 | the listing holds exactly the files ending in `.json`, `.pkl` or `.joblib`, case-sensitively |
| ModelsRoute.UploadAccepted | app/api/models/route.ts:59-87 | a file whose lower-cased extension is allowed goes on to be stored |
| ModelsRoute.Post | app/api/models/route.ts:49-97 | the handler's writes and response are those of the upload function |
| ModelsRoute.SidecarNameDiffers | app/api/models/route.ts:82 | a sidecar never has its model's name |
| ModelsRoute.StoredVerbatim | app/api/models/route.ts:73-76 | an accepted model is stored under `file.name` with exactly its bytes, overwriting any file of that name |
| ModelsRoute.AcceptKeepsModel | app/api/models/route.ts:73-92 | the accepting branch answers with the model's name and keeps its bytes under it |
| ModelsRoute.RejectedTypeWritesNothing | app/api/models/route.ts:60-66 | the 400 for the file type comes exactly for a disallowed extension, and then nothing is written |
| ModelsRoute.BadMetadataIgnored | app/api/models/route.ts:79-87 | metadata that does not parse gives the same result as no metadata |
| ModelsRoute.UpperCaseExtensionHidden | app/api/models/route.ts:16-76 | `m.PKL` is accepted and stored, yet the listing never shows it |
| ModelsRoute.UpperPkl | app/api/models/route.ts:61 | `.PKL` is allowed once lower-cased, but `m.PKL` is not a model file by name |
| ModelsRoute.MetadataOverrides | app/api/models/route.ts:32-39 | a sidecar key overrides the base field of the same name in the entry |
| ModelsRoute.UnreadableSidecarIgnored | app/api/models/route.ts:21-30 | a missing or unparseable sidecar leaves the entry with its base fields, and the listing still succeeds |
| ModelsRoute.SidecarListedAsModel | app/api/models/route.ts:16-23 | a sidecar ends in `.json`, so it appears as a model of its own |
| ModelsRoute.MetadataWritten | app/api/models/route.ts:78-87 | parseable metadata is written pretty-printed to `{stem}_metadata.json` after the model |
| ModelsRoute.UploadedMetadataListed | app/api/models/route.ts:23-83 | round trip: after an upload with object metadata, the listing spreads that object over the model's entry |
| ModelsRoute.SidecarObjectListed | app/api/models/route.ts:21-39 | an entry whose sidecar parses to an object is the base fields overridden by that object |
| FlaskApp.DatasetKind | app.py:41 | the type of a listed dataset is `csv` or `json` |
| FlaskApp.ListDatasets | app.py:28-46 | the listing holds exactly the names ending in `.csv` or `.json`, case-sensitively |
| FlaskApp.PostDataset | app.py:48-71 | the handler's save and response are those of the upload function |
| FlaskApp.GetDataset | app.py:73-93 | 404 exactly for an absent id; 400 for a stored name ending in neither `.csv` nor `.json`; 500 exactly when read_csv or json.load of the stored bytes raises; otherwise the data is what that reader returned, with the id as filename |
| FlaskApp.RemoveDataset | app.py:95-107 | the handler's removal and response are those of the delete function |
| FlaskApp.PostModel | app.py:140-164 | the handler's saves and response are those of the upload function |
| FlaskApp.RemoveModel | app.py:166-184 | the handler's removals and response are those of the delete function |
| FlaskApp.PyAnalytics | app.py:231-265 | a KeyError exactly when a numeric column is missing from some row; otherwise the result counts every row, echoes analysisType and holds the summary computed with `float` |
| FlaskApp.NumericKeys | app.py:243-249 | the first loop keeps exactly the first-row keys `float` accepts |
| FlaskApp.ColumnFloats | app.py:252-257 | the inner loop raises (KeyError) exactly when some row lacks the column; otherwise it gives the column's coercible values in order |
| FlaskApp.PerformBasicAnalytics | app.py:231-267 | the loops compute the analytics function's result |
| FlaskApp.RunAnalytics | app.py:186-229 | every failure is a 400, 404 or 500 |
| FlaskApp.ExtnameIsDotTail | app.py:25 | where the last '.' does not open the name, Node's extension is '.' plus the rsplit tail |
| FlaskApp.AllowedFileAgreesWithNext | app.py:24-25 | for such names `allowed_file(name, ['csv','json'])` agrees with the Next.js dataset allow-list |
| FlaskApp.AllowedFile | app.py:24-25 | a name is allowed exactly when it has a '.' and the lower-cased text after its last '.' is on the list |
| FlaskApp.AllowedTail | app.py:58 | an extension is on the Flask list exactly when its dotted form is on the Next.js list |
| FlaskApp.LeadingDotDisagrees | app.py:25 | the bare name `.csv` passes `allowed_file` but not the Next.js check |
| FlaskApp.DatasetRejectionWritesNothing | app.py:51-59 | the 400 comes exactly for a missing file, an empty name or a disallowed extension, and then nothing is written |
| FlaskApp.SavedDatasetListing | app.py:61-63 | a saved dataset holds the bytes under the secured name, and is listed exactly when that name ends in `.csv` or `.json` |
| FlaskApp.UpperCaseDatasetHidden | app.py:33-63 | `x.CSV` passes `allowed_file` and is saved, yet is never listed |
| FlaskApp.DatasetDeleteLeavesSidecar | app.py:98-104 | deleting a dataset removes only that file, so its sidecar stays; an absent id is a 404 that changes nothing |
| FlaskApp.ModelDelete | app.py:169-179 | deleting a model removes it and its sidecar and nothing else; an absent id is a 404 that changes nothing |
| FlaskApp.SidecarNamesDiffer | app.py:120 | the Flask sidecar `{file}.metadata.json` is never the one the Next.js listing reads |
| FlaskApp.ListModels | app.py:111-138 | the listing fails exactly when some file has a sidecar that json.load cannot read as a dict; otherwise it has one entry per file in the folder, with that file's name and size |
| FlaskApp.ModelListingCoversFolder | app.py:114-134 | a successful listing shows every file, sidecars included; type is the rsplit tail or 'unknown'; description and version default to '' and '1.0' |
| FlaskApp.BadSidecarFailsListing | app.py:121-123 | one unreadable or non-dict sidecar fails the whole listing |
| FlaskApp.ModelUploadAcceptsAnyName | app.py:150-152 | a model upload checks no extension: any name `secure_filename` keeps is saved with its bytes |
| FlaskApp.BadModelMetadataAfterSave | app.py:152-156 | metadata `json.loads` rejects answers 500 after the model is saved |
| FlaskApp.ModelMetadataRoundTrip | app.py:155-159 | metadata uploaded with a model is what its listing entry reports, provided reading back what was dumped gives it |
| FlaskApp.RunIdsCheckedFirst | app.py:195-196 | falsy ids answer 400 before either folder is consulted |
| FlaskApp.RunLookupOrder | app.py:201-205 | the dataset is looked up before the model, and the model's content is never read |
| FlaskApp.MissingCellRaises | app.py:253-255 | a later row lacking a numeric column makes the Python analytics raise |
| FlaskApp.MissingCellSkipped | app/api/analytics/route.ts:75 | the Next.js analytics skips that row instead |
| FlaskApp.MissingCellDiverges | app.py:253-257 | on such a table the two back ends disagree |
| Statistics.Recent | app/page.tsx:110 | `slice(-6)` is the suffix of the last min(6, n) readings |
| Statistics.Older | app/page.tsx:111 | `slice(-12, -6)` keeps 0, n - 6 or 6 readings, those just before the recent ones: older followed by recent is a suffix of the series |
| Statistics.Trend | app/page.tsx:108-109 | fewer than two readings give trend 0 |
| Statistics.ShortSeriesTrendIsNaN | app/page.tsx:111-114 | two to six readings leave the older window empty, so the trend is NaN |
| Statistics.TrendSign | app/page.tsx:112-114 | with seven or more readings and a positive older average, the trend is finite and has the sign of recent minus older average |
| Statistics.CountIsLength | app/page.tsx:118 | `n` counted as a real is the length |
| Statistics.SquaredDeviationExpands | app/page.tsx:122-126 | the sum of squared deviations expands into the running sums the page keeps |
| Statistics.SpreadStep | app/page.tsx:126 | appending a reading grows `n*sumX2 - sumX*sumX` by the squared deviations from it |
| Statistics.SpreadNonNegative | app/page.tsx:126 | `n*sumX2 - sumX*sumX` is never negative, so the square root is real |
| Statistics.NoDeviationMeansAllEqual | app/page.tsx:126 | the squared deviations from a value vanish exactly when every reading equals it |
| Statistics.SpreadZeroIffConstant | app/page.tsx:126 | the spread is zero exactly for a constant series |
| Statistics.Correlate | app/page.tsx:117-129 | a non-zero correlation has a positive squared denominator |
| Statistics.NumeratorStep | app/page.tsx:119-126 | appending a pair of readings grows `n*sumXY - sumX*sumY` by the products of their deviations from the new readings |
| Statistics.CrossDeviationBound | app/page.tsx:126 | the squared sum of deviation products is at most the product of the two sums of squared deviations |
| Statistics.CauchySchwarzStep | app/page.tsx:126 | the bound `num^2 <= spreadX * spreadY` survives adding a term that satisfies it itself |
| Statistics.CauchySchwarz | app/page.tsx:126 | the numerator squared is at most the product of the two spreads the denominator multiplies |
| Statistics.CorrelationBounded | app/page.tsx:117-129 | every correlation the page computes lies in [-1, 1] |
| Statistics.CorrelationGuard | app/page.tsx:128 | the zero guard fires exactly when one of the series is constant |
| Statistics.DotSymmetric | app/page.tsx:121 | `sumXY` is symmetric |
| Statistics.CorrelationSymmetric | app/page.tsx:117-129 | `calculateCorrelation(x, y) == calculateCorrelation(y, x)` |
| Statistics.SelfCorrelationIsOne | app/page.tsx:117-129 | a non-constant series correlates with itself at exactly 1 |
| Statistics.NegatedSums | app/page.tsx:119-123 | negating a series negates its sums and keeps its sum of squares |
| Statistics.NegationCorrelationIsMinusOne | app/page.tsx:117-129 | a non-constant series and its negation correlate at exactly -1 |
| Dashboard.Filtered | app/page.tsx:179-182 | the window is the suffix of length min(n, h), with h 24, 168 or 720 for "24h", "7d" and anything else |
| Dashboard.CurrentMetrics | app/page.tsx:185-199 | null exactly for an empty window; otherwise the latest reading's ratios, and the OEE, availability, performance and quality trends are the trends of those columns of the window |
| Dashboard.RuleRank | app/page.tsx:224-262 | the rules are checked in the order maintenance, optimization, quality, alert |
| Dashboard.FiredAmongSound | app/page.tsx:224-262 | each rule fired among the first n has its threshold hold |
| Dashboard.FiredAmongComplete | app/page.tsx:224-262 | each rule among the first n whose threshold holds is fired |
| Dashboard.FiredAmongOrdered | app/page.tsx:224-262 | fired rules come in strictly increasing rank |
| Dashboard.PushStep | app/page.tsx:224-262 | checking the next rule pushes its card exactly when its threshold holds |
| Dashboard.AtMostFour | app/page.tsx:219-265 | strictly increasing ranks leave room for at most four cards |
| Dashboard.RecommendedMeaning | app/page.tsx:219-265 | every card's threshold holds, every rule whose threshold holds has a card, cards follow the rule order, and there are at most four |
| Dashboard.CardsMeaning | app/page.tsx:219-265 | the same facts for the cards of all rules |
| Dashboard.CardsSound | app/page.tsx:224-262 | every card is for a rule whose threshold holds |
| Dashboard.CardsComplete | app/page.tsx:224-262 | every rule whose threshold holds has a card |
| Dashboard.RankBelowFour | app/page.tsx:224-262 | every rule has a place among the four |
| Dashboard.Recommendations | app/page.tsx:219-265 | no cards without metrics; otherwise the pushes give exactly the recommended cards |
| Dashboard.ShortWindowRaisesNoAlert | app/page.tsx:254 | one to six readings never raise the declining-trend alert |
| Dashboard.Clamp | app/page.tsx:164-167 | `Math.max(lo, Math.min(hi, v))` lies in [lo, hi] and is v when v does |
| Dashboard.LiveStep | app/page.tsx:154-171 | an empty window throws; otherwise the window keeps its length, drops its first reading, and appends a copy of the last with new time and clamped ratios in [0.3,1], [0.5,0.98], [0.4,0.95] and [0.7,0.99] |
| Dashboard.ClampTowards | app/page.tsx:164-167 | clamping never moves a value past a point inside the range |
| Dashboard.NudgeNear | app/page.tsx:164-167 | a ratio in range nudged by `(draw - 0.5) * width` and clamped moves by at most half the width |
| Dashboard.LiveStepNear | app/page.tsx:159-167 | the new reading continues the last: with draws in [0, 1) and ratios in range, OEE moves by at most 0.025, availability 0.015, performance 0.02 and quality 0.01 |
| Dashboard.LiveStepKeepsRanges | app/page.tsx:164-167 | a window whose ratios are in range stays so after a tick |
| Dashboard.Ticks | app/page.tsx:153-173 | a run of ticks keeps the window's length |
| Dashboard.LiveTicksReplaceWindow | app/page.tsx:153-173 | after k ticks the window keeps its length and its last k readings have OEE within [0.3, 1], so after as many ticks as the window is long every reading does |
| Dashboard.CorrelationMatrix | app/page.tsx:202-216 | the nested loops give an entry for every ordered pair of the eight variables, each the correlation of their columns; the matrix is symmetric and every coefficient lies in [-1, 1] |
| Dashboard.MatrixBounded | app/page.tsx:206-213 | a matrix whose rows hold the pairwise correlations has every coefficient in [-1, 1] |
| Dashboard.MatrixSymmetric | app/page.tsx:206-213 | a matrix whose rows hold all the pairwise correlations is symmetric |
| Dashboard.MatrixDiagonal | app/page.tsx:211 | a diagonal entry is the zero guard for a constant column and exactly 1 otherwise |
| DailyBars.PercentOfRatio | app/page.tsx:271-275 | a ratio within [lo, hi] is charted within [100 lo, 100 hi] |
| DailyBars.FindDate | app/page.tsx:320 | `find` gives the first bar of that date, or none when no bar has it |
| DailyBars.Fresh | app/page.tsx:326-329 | a new bar holds exactly the selected variables at the reading's chart values |
| DailyBars.Blend | app/page.tsx:322-324 | blending keeps the bar's variables |
| DailyBars.BlendMeaning | app/page.tsx:322-324 | blending leaves unselected variables alone and sets each selected one halfway between the bar and the reading |
| DailyBars.BlendStep | app/page.tsx:322-324 | blending one more selected variable updates just that variable |
| DailyBars.BlendInto | app/page.tsx:321-325 | the `forEach` over the selected variables blends the reading into the bar |
| DailyBars.NewEntry | app/page.tsx:326-330 | the `forEach` that fills a new bar gives the fresh bar |
| DailyBars.Merge | app/page.tsx:319-332 | one reduce step keeps every bar holding exactly the selected variables |
| DailyBars.DailyFold | app/page.tsx:318-333 | every bar of the reduce holds exactly the selected variables |
| DailyBars.DailyData | app/page.tsx:318-333 | the loop over the readings computes the reduce |
| DailyBars.DaysDistinct | app/page.tsx:320-330 | the days, in order of first appearance, are pairwise distinct |
| DailyBars.DaysCover | app/page.tsx:319-330 | a date is a day exactly when some reading has it |
| DailyBars.FoldFollowsDays | app/page.tsx:318-333 | the reduce makes one bar per day, in order of first appearance |
| DailyBars.DailyBarDates | app/page.tsx:318-333 | bar dates are pairwise distinct, and a date has a bar exactly when a reading has that date |
| DailyBars.BlendWithin | app/page.tsx:323 | blending values within [lo, hi] stays within [lo, hi] |
| DailyBars.DailyWithin | app/page.tsx:318-333 | readings whose chart values are within [lo, hi] give bars within [lo, hi] |
| DailyBars.RatioBarsArePercentages | app/page.tsx:268-333 | with ratios in [0, 1], the bars of the three OEE factors stay within 0..100 |
| DailyBars.DayValues | app/page.tsx:318-333 | a day never has more values than there are readings |
| DailyBars.DayValuesHold | app/page.tsx:319 | a reading dated d puts its value among d's values |
| DailyBars.DayValuesFrom | app/page.tsx:319 | every value of day d comes from a reading dated d |
| DailyBars.DailyMeans | app/page.tsx:318-333 | the corrected bars: one per day |
| DailyBars.DayMeanWithin | app/page.tsx:318-333 | on a day with readings, a corrected value is the mean of the day's values and lies between their minimum and maximum |
| DailyBars.DailyMeansMeaning | app/page.tsx:318-333 | the corrected bars have the page's dates, order and variables, and each is its day's mean |
| DailyBars.FoldFirst | app/page.tsx:325-330 | a first reading opens a fresh bar |
| DailyBars.FoldSameDay | app/page.tsx:321-324 | a later reading of the only day so far blends into its bar |
| DailyBars.SameDayFold | app/page.tsx:318-333 | the page charts OEE readings 0, 0, 1 of one day as a bar of 50 |
| DailyBars.SameDayMeans | app/page.tsx:318-333 | the day's mean of those readings is 100/3 |
| DailyBars.RunningAverageIsNotTheMean | app/page.tsx:323 | the running average (50) differs from the day's mean (100/3) |
| ValidateData.Validate | scripts/validate_data.py:5-53 | a read failure, then the missing required columns (exactly those absent), then unparseable timestamps, then a text column in a range check, in that order; otherwise the range loop completes |
| ValidateData.Scan | scripts/validate_data.py:44-46 | the range loop either stops at a text column or completes |
| ValidateData.RequiredPresent | scripts/validate_data.py:21-24 | no missing column means every required and every range-checked column is present |
| ValidateData.MissingFromMeaning | scripts/validate_data.py:21 | the missing list names exactly the required columns the table lacks, and is empty exactly when none is lacking |
| ValidateData.MissingReported | scripts/validate_data.py:21-24 | a lacking required column is reported, with exactly the others lacking, and the result is False |
| ValidateData.ScanCompletes | scripts/validate_data.py:44-46 | the range loop completes exactly when no checked column is text, and otherwise stops at a text column |
| ValidateData.ScanWarnings | scripts/validate_data.py:44-46 | a completed loop warns about exactly the checked columns whose min or max is outside the range |
| ValidateData.ValidIff | scripts/validate_data.py:5-53 | True exactly when the file loads, all 14 required columns are present, the timestamps parse and no range-checked column is text |
| ValidateData.WarningsDoNotDecide | scripts/validate_data.py:35-49 | tables differing only in the numbers of the checked columns get the same verdict |
| ValidateData.WarningsMeaning | scripts/validate_data.py:44-46 | a valid table is warned about exactly its out-of-range checked columns |
| ValidateData.NumbersFrom | scripts/validate_data.py:45 | a column's numbers are its numeric cells; empty cells are skipped |
| ValidateData.InRangeNotWarned | scripts/validate_data.py:45-46 | a column whose numbers all lie in range is not warned about |
| ValidateData.Main | scripts/validate_data.py:55-66 | the exit status is 0 or 1 |
| ValidateData.MainExit | scripts/validate_data.py:55-66 | exit 0 exactly when one path is given, the file exists and it validates; a usage error or a missing file exits 1 without reading |

## Left out

- Directory listing order, file mtimes (`lastModified`) and directory creation (`mkdirSync`, `os.makedirs`) are left out. Listings are maps keyed by file name.
- Paths are file names without separators. `path.join` and `os.path.join` with ids such as `../x` are not modelled.
- The Flask upload size limit (`MAX_CONTENT_LENGTH`) and concurrent requests are not modelled.
- JSON parsing and printing, Papa.parse, pandas `read_csv`, `to_dict` and `to_datetime`, and `secure_filename` are function parameters. Their own behaviour is not modelled.
- The clock (`Date.now`, `datetime.now`, `new Date()`), `Math.random` and `toLocaleDateString` are parameters.
- The response's `timestamp` field is taken as given.
- Numbers are reals, not IEEE doubles. There is no rounding or overflow.
- NaN and the infinities appear only where the trend divides by zero, as an extended real.
- The texts "Infinity", "nan" and "inf" are not treated as numbers by `Coercion`.
- pandas reads an empty CSV cell as NaN. Here it is the `Null` cell.
- FlaskApp.PyAnalytics: a blank CSV cell is NaN in pandas, and `float(nan)` succeeds. So in Flask a column whose first cell is blank is still numeric, and its blank cells are appended as NaN, which makes its mean, min and max NaN. The model reads the blank cell as `Null`, which `float` rejects: such a column is dropped when its first cell is blank, and its blank cells are skipped otherwise. A JSON dataset whose top level is not a list of records is not modelled either: an empty object or text gives rowCount 0 in Flask, while any other non-list value, or a non-empty list whose first item is not an object, makes it answer 500.
- AnalyticsRoute.Post: the parsed JSON dataset is a table of records or a parse failure. A top level that is not an array is not modelled: for an object or a number, `data.length` is undefined, so the route answers 200 with rowCount undefined and an empty summary.
- Python `float()` of a `bool` cell is not modelled. The cell type has only numbers, texts and null.
- A CSV with duplicate column names, which pandas renames, is not modelled.
- The React rendering, the title, description and impact texts of the recommendation cards, and the chart colours are not modelled. Cards are compared by kind and priority.
- Text.ToLower: lower-cases ASCII letters only. JavaScript's `toLowerCase` also folds other letters, such as the Kelvin sign U+212A to 'k', so a name like "m.p\u212Al" passes the extension test on the real server but not in the model.
- Coercion.PyFloat: accepts ASCII digits only. Python's `float` also reads other Unicode decimal digits, so `float("١")` is 1.0 there.
- Coercion.FloatAgreesWithNumber: proved for texts of ASCII digits only, the only digits the model's `float` reads.
- Coercion.DigitlessTextIsNotNumeric: "no digit" means no ASCII digit. A text of only non-ASCII Unicode digits is not covered.
- The daily bars are modelled for one chart type ("bar"). The line and area charts only plot `chartData`.
- `generateOEEData`, the simulators, the sample-data generator, the Streamlit app and `lib/api.ts` are not part of this model.
- The validator's printed messages are not modelled. Warnings are a list of column names.
- Warnings printed before a later column raises are not kept in `CompareError`.
- DailyBars.BlendMeaning: states each selected variable's new value only when no variable is selected twice. The page toggles variables in and out of the selection, so this always holds there. With a repeated variable the model still computes what the page computes, blending twice.
- Dashboard.LiveStep: the random draws are parameters. The clamped ranges hold for any draws; the bounded step (Dashboard.LiveStepNear) assumes draws in [0, 1), as `Math.random` gives.

## Findings

| source | as written | input that shows it | evidently intended | confidence | as-written member | corrected member |
|---|---|---|---|---|---|---|
| app/page.tsx:323 | a second reading of a day sets the bar to `(bar + reading) / 2`, so the bar is a running average in which the last reading weighs half | three readings of one day with OEE 0, 0 and 1 chart a bar of 50 | the bar is the day's mean, 100/3 here | medium, not executed | DailyBars.RunningAverageIsNotTheMean | DailyBars.DailyMeans |

`DailyBars.DailyData` and `DailyBars.DailyFold` model the reduce as written.
`DailyBars.DailyMeans` gives one bar per day, with the same dates, order and
variables as the page's bars; `DailyBars.DailyMeansMeaning` proves this. Each
corrected value is the mean of the day's readings, and
`DailyBars.DayMeanWithin` proves it lies between their minimum and maximum.
