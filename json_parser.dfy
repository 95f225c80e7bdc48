/**
 * JsonParser: a recursive parser over substrings, with no tokenizer.
 *
 * `ParseValue` dispatches on the trimmed text; `ParseObject` and
 * `ParseArray` strip the outer delimiters, cut the body with the splitter
 * and parse each piece. The functions state what each Java method returns;
 * the methods `ParseJson`, `ReadValue`, `ReadObject` and `ReadArray` follow
 * the Java control flow (the loops that fill the map and the list) and are
 * proved to return exactly that.
 *
 * Termination: every recursive call is on a strictly shorter text, which is
 * why the pair and element loops carry a `bound` the pieces are shorter than.
 */
module JsonParser {
  import opened JsonValue
  import opened JavaString
  import opened JsonSplitter
  import opened JsonNumbers

  /** `parseValue(s)`. */
  function ParseValue(s: string): Result<Json>
    decreases |s|, 2
  {
    var t := Trim(s);
    if StartsWith(t, '{') then ParseObject(t)
    else if StartsWith(t, '[') then ParseArray(t)
    else ParseScalar(t)
  }

  /** The branches of `parseValue` after the object and array ones, on trimmed text. */
  function ParseScalar(t: string): Result<Json>
  {
    if StartsWith(t, '"') then
      // substring(1, length - 1): no check for a closing quote, no escape decoding
      if |t| < 2 then Err(StringIndexOutOfBounds) else Ok(Str(t[1..|t| - 1]))
    else if t == "null" then Ok(Null)
    else if t == "true" then Ok(Bool(true))
    else if t == "false" then Ok(Bool(false))
    else if MatchesNumber(t) then ClassifyNumber(t)
    else Err(Unrecognized(t))
  }

  /** `parseObject(s)`. */
  function ParseObject(s: string): Result<Json>
    decreases |s|, 1
  {
    var t := Trim(s);
    if !EndsWith(t, '}') then Err(InvalidObject(t))
    else if |t| < 2 then Err(StringIndexOutOfBounds)
    else
      var inner := t[1..|t| - 1];
      if Trim(inner) == [] then Ok(Obj([]))
      else
        SplitTopLevelPieces(inner);
        ParsePairs(SplitTopLevel(inner), [], |t|)
  }

  /**
   * One key-value piece cut at its first `:`: the key is the trimmed text
   * before it, with a surrounding pair of quotes removed; the value text is
   * everything after it.
   */
  function SplitPair(pair: string): (r: Result<(string, string)>)
    ensures ':' !in pair <==> r == Err(InvalidPair(pair))
    ensures r.Ok? ==> |r.value.1| < |pair|
  {
    var colon := IndexOf(pair, ':');
    if colon == -1 then Err(InvalidPair(pair))
    else
      var key := Trim(pair[..colon]);
      var value := pair[colon + 1..];
      if StartsWith(key, '"') && EndsWith(key, '"') then
        if |key| < 2 then Err(StringIndexOutOfBounds) else Ok((key[1..|key| - 1], value))
      else Ok((key, value))
  }

  /** The loop of parseObject over the pieces, from the map `m` built so far. */
  function ParsePairs(pairs: seq<string>, m: Entries, bound: nat): (r: Result<Json>)
    requires forall i :: 0 <= i < |pairs| ==> |pairs[i]| < bound
    ensures r.Ok? ==> r.value.Obj?
    decreases bound, 0, |pairs|
  {
    if pairs == [] then Ok(Obj(m))
    else
      var kv :- SplitPair(pairs[0]);
      var v :- ParseValue(kv.1);
      ParsePairs(pairs[1..], Put(m, kv.0, v), bound)
  }

  /** `parseArray(s)`: no check that the text ends in `]`. */
  function ParseArray(s: string): Result<Json>
    decreases |s|, 1
  {
    var t := Trim(s);
    if |t| < 2 then Err(StringIndexOutOfBounds)
    else
      var inner := t[1..|t| - 1];
      SplitTopLevelPieces(inner);
      ParseItems(SplitTopLevel(inner), [], |t|)
  }

  /** The loop of parseArray over the pieces, from the list `acc` built so far. */
  function ParseItems(items: seq<string>, acc: seq<Json>, bound: nat): (r: Result<Json>)
    requires forall i :: 0 <= i < |items| ==> |items[i]| < bound
    ensures r.Ok? ==> r.value.Arr?
    decreases bound, 0, |items|
  {
    if items == [] then Ok(Arr(acc))
    else
      var v :- ParseValue(items[0]);
      ParseItems(items[1..], acc + [v], bound)
  }

  // ---------------------------------------------------------------------------
  // The methods, as the Java code runs them
  // ---------------------------------------------------------------------------

  /** `parseJson(s)`. */
  method ParseJson(s: string) returns (r: Result<Json>)
    ensures r == ParseValue(s)
  {
    r := ReadValue(s);
  }

  method ReadValue(s: string) returns (r: Result<Json>)
    ensures r == ParseValue(s)
    decreases |s|, 2
  {
    var t := Trim(s);
    if StartsWith(t, '{') {
      r := ReadObject(t);
    } else if StartsWith(t, '[') {
      r := ReadArray(t);
    } else {
      r := ParseScalar(t);
    }
  }

  method ReadObject(s: string) returns (r: Result<Json>)
    ensures r == ParseObject(s)
    decreases |s|, 1
  {
    var t := Trim(s);
    if !EndsWith(t, '}') {
      return Err(InvalidObject(t));
    }
    if |t| < 2 {
      return Err(StringIndexOutOfBounds);
    }
    var inner := t[1..|t| - 1];
    if Trim(inner) == [] {
      return Ok(Obj([]));
    }
    var pairs := SplitJsonArray(inner);
    SplitTopLevelPieces(inner);
    var m: Entries := [];
    for i := 0 to |pairs|
      invariant ParsePairs(pairs[i..], m, |t|) == ParseObject(s)
    {
      assert pairs[i..][0] == pairs[i] && pairs[i..][1..] == pairs[i + 1..];
      var kv := SplitPair(pairs[i]);
      if kv.Err? {
        return Err(kv.error);
      }
      var v := ReadValue(kv.value.1);
      if v.Err? {
        return Err(v.error);
      }
      m := Put(m, kv.value.0, v.value);
    }
    assert pairs[|pairs|..] == [];
    r := Ok(Obj(m));
  }

  method ReadArray(s: string) returns (r: Result<Json>)
    ensures r == ParseArray(s)
    decreases |s|, 1
  {
    var t := Trim(s);
    if |t| < 2 {
      return Err(StringIndexOutOfBounds);
    }
    var inner := t[1..|t| - 1];
    var items := SplitJsonArray(inner);
    SplitTopLevelPieces(inner);
    var list: seq<Json> := [];
    for i := 0 to |items|
      invariant ParseItems(items[i..], list, |t|) == ParseArray(s)
    {
      assert items[i..][0] == items[i] && items[i..][1..] == items[i + 1..];
      var v := ReadValue(items[i]);
      if v.Err? {
        return Err(v.error);
      }
      list := list + [v.value];
    }
    assert items[|items|..] == [];
    r := Ok(Arr(list));
  }
}
