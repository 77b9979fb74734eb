/** Values shared by every part of the model: optional results, bytes and parsed JSON. */
module Common {

  datatype Option<T> = None | Some(value: T)

  /** One octet of a stored file. */
  type byte = b: int | 0 <= b < 256

  /** A JSON value as a JSON parser hands it over (JSON.parse, json.load). */
  datatype Json =
    | JNull
    | JBool(b: bool)
    | JNum(n: real)
    | JStr(s: string)
    | JArr(items: seq<Json>)
    | JObj(fields: map<string, Json>)

  /** A multipart form field as formData.get returns it: an uploaded file or a plain text value. */
  datatype FormValue = FileValue(name: string, bytes: seq<byte>) | TextValue(text: string)
}
