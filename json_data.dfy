/**
 * JsonData: an older copy of JsonReader with the same fields and the same
 * lookup code. It reuses the reader's walk, so the two answer every path
 * alike.
 */
module Data {
  import opened JsonValue
  import opened JavaString
  import Reader

  class JsonData {
    const data: Json
    const delimiter: char

    /** `JsonData.of(data, delimiter)`, for a delimiter that is one literal character. */
    constructor Of(data: Json, delimiter: char)
      requires data.Obj? || data.Null?
      ensures this.data == data && this.delimiter == delimiter
    {
      this.data := data;
      this.delimiter := delimiter;
    }

    /** `JsonData.of(data)`: the default delimiter, a literal dot. */
    constructor OfDefault(data: Json)
      requires data.Obj? || data.Null?
      ensures this.data == data && this.delimiter == '.'
    {
      this.data := data;
      this.delimiter := '.';
    }

    /** `getValueForKey(path)`. */
    method GetValueForKey(path: string) returns (r: Result<Json>)
      ensures r == Reader.Resolve(data, delimiter, path)
    {
      var keys := JavaSplit(path, delimiter);
      r := Reader.WalkKeys(data, keys);
    }
  }

  /** A JsonData and a JsonReader over the same map and delimiter give the same answer for every path. */
  method SameAnswer(older: JsonData, reader: Reader.JsonReader, path: string) returns (a: Result<Json>, b: Result<Json>)
    requires older.data == reader.data && older.delimiter == reader.delimiter
    ensures a == b
  {
    a := older.GetValueForKey(path);
    b := reader.GetValueForKey(path);
  }
}
