/**
 * JsonReader: dotted-path lookup in a parsed JSON tree.
 *
 * A path is split on the delimiter (by default `.`) and walked one segment
 * at a time. A segment `name[n]` picks element `n` of the list stored under
 * `name`; any other segment is a plain key. A plain key on something that is
 * not a map stops the walk and keeps the current value; a bad list segment
 * fails with the exception Java would throw.
 *
 * `Walk` states what `getValueForNestedKeys` returns; the method `WalkKeys`
 * is its loop, with the early `break`, proved to return exactly that.
 */
module Reader {
  import opened JsonValue
  import opened JavaString

  /** `isKeyList(key)`: the first `[` comes after at least one character and the key ends in `]`. */
  predicate IsKeyList(key: string) {
    IndexOf(key, '[') > 0 && EndsWith(key, ']')
  }

  /** The name before the first `[` of a list segment. */
  function ListName(key: string): string
    requires IsKeyList(key)
  {
    key[..IndexOf(key, '[')]
  }

  /** The text between the first `[` and the final `]` of a list segment. */
  function IndexText(key: string): string
    requires IsKeyList(key)
  {
    key[IndexOf(key, '[') + 1..|key| - 1]
  }

  /**
   * `fetchValueFromList(key, (Map) value)`, the cast at the call site
   * included: the cast fails first, then `Integer.parseInt` on the index
   * text, then `get` on a null map, then `get` on a missing or null list,
   * then the cast of the entry to a list, then the index bound.
   */
  function FetchFromList(key: string, value: Json): Result<Json>
    requires IsKeyList(key)
  {
    if !(value.Obj? || value.Null?) then Err(ClassCast)
    else
      var n :- ParseInt(IndexText(key));
      if value.Null? then Err(NullPointer)
      else
        match GetOrNull(value.entries, ListName(key))
        case Null => Err(NullPointer)
        case Arr(items) => if 0 <= n < |items| then Ok(items[n]) else Err(IndexOutOfBounds)
        case _ => Err(ClassCast)
  }

  /** The Java exceptions a lookup can end in. */
  predicate IsLookupError(e: Error) {
    e == ClassCast || e == NumberFormat || e == NullPointer || e == IndexOutOfBounds
  }

  /** No segment of the path is a list segment. */
  predicate PlainPath(keys: seq<string>) {
    forall i :: 0 <= i < |keys| ==> !IsKeyList(keys[i])
  }

  /**
   * `getValueForNestedKeys(keys)` started from `value`. Only a list segment
   * can fail, and only with one of the lookup exceptions.
   */
  function Walk(value: Json, keys: seq<string>): (r: Result<Json>)
    ensures PlainPath(keys) ==> r.Ok?
    ensures r.Err? ==> IsLookupError(r.error)
    decreases |keys|
  {
    if keys == [] then Ok(value)
    else if IsKeyList(keys[0]) then
      var next :- FetchFromList(keys[0], value);
      Walk(next, keys[1..])
    else if value.Obj? then
      assert PlainPath(keys) ==> PlainPath(keys[1..]);
      Walk(GetOrNull(value.entries, keys[0]), keys[1..])
    else Ok(value)
  }

  /** `getValueForKey(path)`: split the path with Java `split` semantics, then walk. */
  function Resolve(data: Json, delimiter: char, path: string): Result<Json>
  {
    Walk(data, JavaSplit(path, delimiter))
  }

  /** `getValueForNestedKeys`, as the Java loop runs it. */
  method WalkKeys(root: Json, keys: seq<string>) returns (r: Result<Json>)
    ensures r == Walk(root, keys)
  {
    var value := root;
    var i := 0;
    while i < |keys|
      invariant 0 <= i <= |keys|
      invariant Walk(value, keys[i..]) == Walk(root, keys)
    {
      assert keys[i..][0] == keys[i] && keys[i..][1..] == keys[i + 1..];
      if IsKeyList(keys[i]) {
        var next := FetchFromList(keys[i], value);
        if next.Err? {
          return Err(next.error);
        }
        value := next.value;
      } else if value.Obj? {
        value := GetOrNull(value.entries, keys[i]);
      } else {
        break;
      }
      i := i + 1;
    }
    r := Ok(value);
  }

  /**
   * A reader over one parsed map (or over `null`, which the unchecked cast
   * lets through). Both fields are fixed at construction: lookups read them
   * and never change them.
   */
  class JsonReader {
    const data: Json
    const delimiter: char

    /** `JsonReader.of(data, delimiter)`, for a delimiter that is one literal character. */
    constructor Of(data: Json, delimiter: char)
      requires data.Obj? || data.Null?
      ensures this.data == data && this.delimiter == delimiter
    {
      this.data := data;
      this.delimiter := delimiter;
    }

    /** `JsonReader.of(data)`: the default delimiter, a literal dot. */
    constructor OfDefault(data: Json)
      requires data.Obj? || data.Null?
      ensures this.data == data && this.delimiter == '.'
    {
      this.data := data;
      this.delimiter := '.';
    }

    /** `getValueForKey(path)`. */
    method GetValueForKey(path: string) returns (r: Result<Json>)
      ensures r == Resolve(data, delimiter, path)
    {
      var keys := JavaSplit(path, delimiter);
      r := WalkKeys(data, keys);
    }
  }

  // ---------------------------------------------------------------------------
  // List segments
  // ---------------------------------------------------------------------------

  /** The segment `name[n]`, for an index written in decimal. */
  function ListKey(name: string, n: nat): string {
    name + "[" + NatToString(n) + "]"
  }

  /**
   * Writing `name[n]` and taking it apart again gives back the name and
   * the index, as long as the name is non-empty and has no `[` of its own.
   */
  lemma ListKeyParts(name: string, n: nat)
    requires name != [] && '[' !in name
    ensures IsKeyList(ListKey(name, n))
    ensures ListName(ListKey(name, n)) == name
    ensures IndexText(ListKey(name, n)) == NatToString(n)
  {
    ListKeyTextParts(name, NatToString(n));
  }

  /** The same for any index text: the name ends at the first `[`, the text at the final `]`. */
  lemma ListKeyTextParts(name: string, t: string)
    requires name != [] && '[' !in name
    ensures IsKeyList(name + "[" + t + "]")
    ensures ListName(name + "[" + t + "]") == name
    ensures IndexText(name + "[" + t + "]") == t
  {
    var k := name + "[" + t + "]";
    assert k[|name|] == '[';
    assert k[..|name|] == name;
    assert IndexOf(k, '[') == |name|;
    assert k[|name| + 1..|k| - 1] == t;
  }

  /** A walk whose first segment is a list segment fetches from the list, then walks on. */
  lemma WalkListHead(v: Json, key: string, rest: seq<string>)
    requires IsKeyList(key)
    ensures FetchFromList(key, v).Err? ==> Walk(v, [key] + rest) == Err(FetchFromList(key, v).error)
    ensures FetchFromList(key, v).Ok? ==> Walk(v, [key] + rest) == Walk(FetchFromList(key, v).value, rest)
  {
    assert ([key] + rest)[0] == key && ([key] + rest)[1..] == rest;
  }

  /** Fetching `name[n]` reads the list bound to `name` at `n`. */
  lemma FetchListKey(v: Json, name: string, n: nat)
    requires name != [] && '[' !in name && n <= IntMax && (v.Obj? || v.Null?)
    ensures IsKeyList(ListKey(name, n))
    ensures v.Null? ==> FetchFromList(ListKey(name, n), v) == Err(NullPointer)
    ensures v.Obj? && GetOrNull(v.entries, name).Null? ==> FetchFromList(ListKey(name, n), v) == Err(NullPointer)
    ensures v.Obj? && GetOrNull(v.entries, name).Arr? && n < |GetOrNull(v.entries, name).items| ==>
      FetchFromList(ListKey(name, n), v) == Ok(GetOrNull(v.entries, name).items[n])
    ensures v.Obj? && GetOrNull(v.entries, name).Arr? && n >= |GetOrNull(v.entries, name).items| ==>
      FetchFromList(ListKey(name, n), v) == Err(IndexOutOfBounds)
    ensures v.Obj? && !GetOrNull(v.entries, name).Null? && !GetOrNull(v.entries, name).Arr? ==>
      FetchFromList(ListKey(name, n), v) == Err(ClassCast)
  {
    ListKeyReads(name, n);
  }

  /** `name[n]` is a list key for `name` whose index text reads back as `n`. */
  lemma ListKeyReads(name: string, n: nat)
    requires name != [] && '[' !in name && n <= IntMax
    ensures IsKeyList(ListKey(name, n)) && ListName(ListKey(name, n)) == name
    ensures ParseInt(IndexText(ListKey(name, n))) == Ok(n as int)
  {
    ListKeyParts(name, n);
    IntRoundTrip(n);
  }

  /** `name[n]` on a map whose `name` holds a list with an element `n` selects that element. */
  lemma ListSegmentSelects(m: Entries, name: string, n: nat, items: seq<Json>, rest: seq<string>)
    requires name != [] && '[' !in name && n <= IntMax
    requires Get(m, name) == Some(Arr(items)) && n < |items|
    ensures Walk(Obj(m), [ListKey(name, n)] + rest) == Walk(items[n], rest)
  {
    FetchListKey(Obj(m), name, n);
    WalkListHead(Obj(m), ListKey(name, n), rest);
  }

  /** An index past the end of the list fails; it does not read as null. */
  lemma ListSegmentOutOfRange(m: Entries, name: string, n: nat, items: seq<Json>, rest: seq<string>)
    requires name != [] && '[' !in name && n <= IntMax
    requires Get(m, name) == Some(Arr(items)) && n >= |items|
    ensures Walk(Obj(m), [ListKey(name, n)] + rest) == Err(IndexOutOfBounds)
  {
    FetchListKey(Obj(m), name, n);
    WalkListHead(Obj(m), ListKey(name, n), rest);
  }

  /** A list segment whose name is absent, or bound to null, fails. */
  lemma ListSegmentAbsent(m: Entries, name: string, n: nat, rest: seq<string>)
    requires name != [] && '[' !in name && n <= IntMax
    requires GetOrNull(m, name) == Null
    ensures Walk(Obj(m), [ListKey(name, n)] + rest) == Err(NullPointer)
  {
    FetchListKey(Obj(m), name, n);
    WalkListHead(Obj(m), ListKey(name, n), rest);
  }

  /** A list segment whose name holds something other than a list fails the cast. */
  lemma ListSegmentNotAList(m: Entries, name: string, n: nat, rest: seq<string>)
    requires name != [] && '[' !in name && n <= IntMax
    requires !GetOrNull(m, name).Arr? && !GetOrNull(m, name).Null?
    ensures Walk(Obj(m), [ListKey(name, n)] + rest) == Err(ClassCast)
  {
    FetchListKey(Obj(m), name, n);
    WalkListHead(Obj(m), ListKey(name, n), rest);
  }

  /** A list segment applied to a scalar or a list fails the cast to a map. */
  lemma ListSegmentOnNonMap(v: Json, key: string, rest: seq<string>)
    requires IsKeyList(key) && !v.Obj? && !v.Null?
    ensures Walk(v, [key] + rest) == Err(ClassCast)
  {
    assert ([key] + rest)[0] == key;
  }

  /** A list segment applied to null fails, once its index has parsed. */
  lemma ListSegmentOnNull(name: string, n: nat, rest: seq<string>)
    requires name != [] && '[' !in name && n <= IntMax
    ensures Walk(Null, [ListKey(name, n)] + rest) == Err(NullPointer)
  {
    FetchListKey(Null, name, n);
    WalkListHead(Null, ListKey(name, n), rest);
  }

  /** A negative index parses, and then fails the bound check. */
  lemma NegativeIndex(m: Entries, name: string, n: int, items: seq<Json>, rest: seq<string>)
    requires name != [] && '[' !in name && IntMin <= n < 0
    requires Get(m, name) == Some(Arr(items))
    ensures Walk(Obj(m), [name + "[" + LongToString(n) + "]"] + rest) == Err(IndexOutOfBounds)
  {
    var t := LongToString(n);
    IntRoundTrip(n);
    ListKeyTextParts(name, t);
    NegativeKey(m, name + "[" + t + "]", n, items, rest);
  }

  /** A list segment whose index reads as a negative int fails the bound check. */
  lemma NegativeKey(m: Entries, key: string, n: int, items: seq<Json>, rest: seq<string>)
    requires IsKeyList(key) && ParseInt(IndexText(key)) == Ok(n) && n < 0
    requires Get(m, ListName(key)) == Some(Arr(items))
    ensures Walk(Obj(m), [key] + rest) == Err(IndexOutOfBounds)
  {
    assert FetchFromList(key, Obj(m)) == Err(IndexOutOfBounds);
    WalkListHead(Obj(m), key, rest);
  }

  /** An index text that is not an int fails, whatever the value it is applied to. */
  lemma NonNumericIndex(v: Json, name: string, t: string, rest: seq<string>)
    requires name != [] && '[' !in name && ParseInt(t).Err?
    requires v.Obj? || v.Null?
    ensures Walk(v, [name + "[" + t + "]"] + rest) == Err(NumberFormat)
  {
    ListKeyTextParts(name, t);
    WalkListHead(v, name + "[" + t + "]", rest);
  }

  /**
   * Index texts that are not ints: a letter, a second bracket pair (in
   * `a[1][2]` the text runs from the first `[` to the final `]`), nothing.
   */
  lemma NonNumericTexts()
    ensures ParseInt("x").Err? && ParseInt("1][2").Err? && ParseInt("").Err?
  {
    assert !IsDigit("1][2"[1]);
  }

  /** A segment that starts with `[` is a plain key, looked up literally. */
  lemma LeadingBracketIsPlain(m: Entries)
    ensures !IsKeyList("[0]")
    ensures Walk(Obj(m), ["[0]"]) == Ok(GetOrNull(m, "[0]"))
  {
    assert IndexOf("[0]", '[') == 0;
  }

  // ---------------------------------------------------------------------------
  // Plain segments
  // ---------------------------------------------------------------------------

  /** A plain segment on something that is not a map ends the walk: later segments, list ones included, are ignored. */
  lemma PlainSegmentStops(v: Json, key: string, rest: seq<string>)
    requires !IsKeyList(key) && !v.Obj?
    ensures Walk(v, [key] + rest) == Ok(v)
  {
    assert ([key] + rest)[0] == key;
  }

  /** A plain path from null, or from any non-map, returns that value. */
  lemma {:induction false} PlainPathFromNull(keys: seq<string>)
    requires PlainPath(keys)
    ensures Walk(Null, keys) == Ok(Null)
  {
    if keys != [] {
      PlainSegmentStops(Null, keys[0], keys[1..]);
      assert [keys[0]] + keys[1..] == keys;
    }
  }

  /**
   * A plain path that reaches a missing key yields null, never an error:
   * every segment after it meets null and stops.
   */
  lemma MissingKeyGivesNull(m: Entries, key: string, rest: seq<string>)
    requires !IsKeyList(key) && key !in Keys(m)
    requires PlainPath(rest)
    ensures Walk(Obj(m), [key] + rest) == Ok(Null)
  {
    assert ([key] + rest)[1..] == rest;
    PlainPathFromNull(rest);
  }

  /** A plain segment on a map steps to the value under that key. */
  lemma PlainSegmentSteps(m: Entries, key: string, v: Json, rest: seq<string>)
    requires !IsKeyList(key) && Get(m, key) == Some(v)
    ensures Walk(Obj(m), [key] + rest) == Walk(v, rest)
  {
    assert ([key] + rest)[1..] == rest;
  }

  /**
   * Walking `a + b` is walking `a` and then `b` from where `a` ended, when
   * every segment of `a` lands on a map (so the walk never stops early).
   */
  lemma {:induction false} WalkAppend(v: Json, a: seq<string>, b: seq<string>, w: Json)
    requires Walk(v, a) == Ok(w)
    requires ThroughMaps(v, a)
    ensures Walk(v, a + b) == Walk(w, b)
    decreases |a|
  {
    if a != [] {
      assert (a + b)[0] == a[0] && (a + b)[1..] == a[1..] + b;
      if IsKeyList(a[0]) {
        var f := FetchFromList(a[0], v);
        assert f.Ok?;
        assert Walk(v, a) == Walk(f.value, a[1..]);
        assert Walk(v, a + b) == Walk(f.value, a[1..] + b);
        WalkAppend(f.value, a[1..], b, w);
      } else {
        WalkAppend(GetOrNull(v.entries, a[0]), a[1..], b, w);
      }
    } else {
      assert a + b == b;
    }
  }

  /** Every plain segment of the path meets a map: the walk of `keys` from `v` does not break. */
  predicate ThroughMaps(v: Json, keys: seq<string>)
    decreases |keys|
  {
    if keys == [] then true
    else if IsKeyList(keys[0]) then
      match FetchFromList(keys[0], v)
      case Ok(next) => ThroughMaps(next, keys[1..])
      case Err(_) => true
    else v.Obj? && ThroughMaps(GetOrNull(v.entries, keys[0]), keys[1..])
  }

  // ---------------------------------------------------------------------------
  // Paths as strings
  // ---------------------------------------------------------------------------

  /** A path joined from non-empty, delimiter-free segments is walked segment by segment. */
  lemma ResolveJoined(data: Json, d: char, keys: seq<string>)
    requires |keys| >= 1
    requires forall i :: 0 <= i < |keys| ==> keys[i] != [] && d !in keys[i]
    ensures Resolve(data, d, Join(keys, d)) == Walk(data, keys)
  {
    SplitJoinRoundTrip(keys, d);
  }

  /** A trailing delimiter after a non-empty path changes nothing, because `split` drops the empty last piece. */
  lemma TrailingDelimiterIgnored(data: Json, d: char, path: string)
    requires path != []
    ensures Resolve(data, d, path + [d]) == Resolve(data, d, path)
  {
    SplitAllAppend(path, d);
    var all := SplitAll(path, d);
    assert (all + [[]])[..|all|] == all;
    if d !in path {
      assert all == [path];
    }
  }

  /** A delimiter added at the end adds one empty part. */
  lemma {:induction false} SplitAllAppend(s: string, d: char)
    ensures SplitAll(s + [d], d) == SplitAll(s, d) + [[]]
    decreases |s|
  {
    var i := IndexOf(s, d);
    if i < 0 {
      SplitAllAppendFree(s, d);
    } else {
      SplitAllAppend(s[i + 1..], d);
      SplitAllAppendStep(s, d, i);
      SplitAllAt(s, d, i);
    }
  }

  /** Text without the delimiter, then the delimiter: the text and an empty part. */
  lemma SplitAllAppendFree(s: string, d: char)
    requires d !in s
    ensures SplitAll(s + [d], d) == [s, []]
  {
    var t := s + [d];
    assert t[..|s|] == s;
    IndexOfIs(t, d, |s|);
    assert t[|s| + 1..] == [];
  }

  /** With the appended delimiter, the cut at the first delimiter stays where it was. */
  lemma SplitAllAppendStep(s: string, d: char, i: nat)
    requires i < |s| && IndexOf(s, d) == i
    ensures SplitAll(s + [d], d) == [s[..i]] + SplitAll(s[i + 1..] + [d], d)
  {
    AppendKeepsIndex(s, d, i);
    SplitAllAt(s + [d], d, i);
    AppendSlices(s, d, i);
  }

  /** The slices on either side of position `i` after appending one character. */
  lemma AppendSlices(s: string, d: char, i: nat)
    requires i < |s|
    ensures (s + [d])[..i] == s[..i] && (s + [d])[i + 1..] == s[i + 1..] + [d]
  {
  }

  /** One cut at the first delimiter. */
  lemma SplitAllAt(t: string, d: char, i: nat)
    requires i < |t| && IndexOf(t, d) == i
    ensures SplitAll(t, d) == [t[..i]] + SplitAll(t[i + 1..], d)
  {
  }

  /** Appending the delimiter keeps the first delimiter where it was. */
  lemma AppendKeepsIndex(s: string, d: char, i: nat)
    requires i < |s| && IndexOf(s, d) == i
    ensures IndexOf(s + [d], d) == i
  {
    var t := s + [d];
    assert t[..i] == s[..i];
    IndexOfIs(t, d, i);
  }
}
