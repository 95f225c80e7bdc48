/**
 * JsonDataHandler: parse a JSON text and wrap the result in readers.
 *
 * A top-level array gives one reader per element, in order; anything else
 * gives a single reader. Every element, and any non-array result, goes
 * through an unchecked cast to a map: an object or `null` passes, anything
 * else is a ClassCastException. Parse failures come out unchanged. Every
 * reader uses the default `.` delimiter.
 */
module DataHandler {
  import opened JsonValue
  import JsonParser
  import Reader

  /** What `extractJsonData` returns: one reader, or a list of readers. */
  datatype Extracted =
    | Single(reader: Reader.JsonReader)
    | Many(readers: seq<Reader.JsonReader>)

  /** A value that the cast `(Map<String, Object>) value` lets through. */
  predicate IsMapOrNull(v: Json) {
    v.Obj? || v.Null?
  }

  /** The reader wraps `v` with the default delimiter. */
  predicate Wraps(rd: Reader.JsonReader, v: Json) {
    rd.data == v && rd.delimiter == '.'
  }

  /**
   * What `extractJsonData` returns for a parse result: failures pass
   * through; an array needs every element to be a map or null and gives one
   * reader per element, in order; any other value must be a map or null and
   * gives one reader.
   */
  predicate Wrapped(parsed: Result<Json>, r: Result<Extracted>) {
    match parsed
    case Err(e) => r == Err(e)
    case Ok(Arr(items)) =>
      (r.Ok? <==> forall i :: 0 <= i < |items| ==> IsMapOrNull(items[i]))
      && (r.Err? ==> r.error == ClassCast)
      && (r.Ok? ==> r.value.Many? && |r.value.readers| == |items|
                    && forall i :: 0 <= i < |items| ==> Wraps(r.value.readers[i], items[i]))
    case Ok(v) =>
      (r.Ok? <==> IsMapOrNull(v))
      && (r.Err? ==> r.error == ClassCast)
      && (r.Ok? ==> r.value.Single? && Wraps(r.value.reader, v))
  }

  /** `extractJsonData(s)`. */
  method ExtractJsonData(s: string) returns (r: Result<Extracted>)
    ensures Wrapped(JsonParser.ParseValue(s), r)
  {
    var parsed := JsonParser.ParseJson(s);
    r := WrapParsed(parsed);
  }

  /** The part of `extractJsonData` after `parseJson`. */
  method WrapParsed(parsed: Result<Json>) returns (r: Result<Extracted>)
    ensures Wrapped(parsed, r)
  {
    if parsed.Err? {
      return Err(parsed.error);
    }
    var data := parsed.value;
    if data.Arr? {
      var readers: seq<Reader.JsonReader> := [];
      for i := 0 to |data.items|
        invariant |readers| == i
        invariant forall j :: 0 <= j < i ==> IsMapOrNull(data.items[j]) && Wraps(readers[j], data.items[j])
      {
        var obj := data.items[i];
        if !IsMapOrNull(obj) {
          return Err(ClassCast);
        }
        var rd := new Reader.JsonReader.OfDefault(obj);
        readers := readers + [rd];
      }
      return Ok(Many(readers));
    }
    if !IsMapOrNull(data) {
      return Err(ClassCast);
    }
    var rd := new Reader.JsonReader.OfDefault(data);
    r := Ok(Single(rd));
  }
}
