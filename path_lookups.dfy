/**
 * The lookups the data tests make, for any keys and values of their shape:
 * `a.b` through two maps, `name[n]` into a list, `name[n].b` into a map
 * held in a list, and a key looked up in each reader of a top-level array.
 */
module PathLookups {
  import opened JsonValue
  import opened JavaString
  import opened Reader
  import DataHandler
  import JsonSplitter
  import JsonParser
  import ParserProperties

  /** A path of two segments is the two segments around the delimiter. */
  lemma JoinTwo(a: string, b: string, d: char)
    ensures Join([a, b], d) == a + [d] + b
  {
    assert [a, b][..1] == [a];
  }

  /** A list key holds no `.` when its name holds none. */
  lemma ListKeyFree(name: string, n: nat)
    requires '.' !in name
    ensures ListKey(name, n) != [] && '.' !in ListKey(name, n)
  {
    assert '.' !in NatToString(n);
  }

  /** A plain key finds its value. */
  lemma OneKey(m: Entries, key: string, v: Json)
    requires key != [] && '.' !in key && !IsKeyList(key) && Get(m, key) == Some(v)
    ensures Resolve(Obj(m), '.', key) == Ok(v)
  {
    ResolveJoined(Obj(m), '.', [key]);
    PlainSegmentSteps(m, key, v, []);
    assert [key] == [key] + [];
  }

  /** `a.b` finds the value under `b` in the map under `a`. */
  lemma KeyThenKey(m: Entries, a: string, inner: Entries, b: string, v: Json)
    requires a != [] && '.' !in a && !IsKeyList(a) && Get(m, a) == Some(Obj(inner))
    requires b != [] && '.' !in b && !IsKeyList(b) && Get(inner, b) == Some(v)
    ensures Resolve(Obj(m), '.', a + ['.'] + b) == Ok(v)
  {
    ResolveJoined(Obj(m), '.', [a, b]);
    JoinTwo(a, b, '.');
    PlainSegmentSteps(m, a, Obj(inner), [b]);
    PlainSegmentSteps(inner, b, v, []);
    assert [a, b] == [a] + [b] && [b] == [b] + [];
  }

  /** `name[n]` finds element `n` of the list under `name`. */
  lemma ListItem(m: Entries, name: string, n: nat, items: seq<Json>)
    requires name != [] && '.' !in name && '[' !in name && n <= IntMax
    requires Get(m, name) == Some(Arr(items)) && n < |items|
    ensures Resolve(Obj(m), '.', ListKey(name, n)) == Ok(items[n])
  {
    ListKeyParts(name, n);
    ListKeyFree(name, n);
    ResolveJoined(Obj(m), '.', [ListKey(name, n)]);
    ListSegmentSelects(m, name, n, items, []);
    assert [ListKey(name, n)] == [ListKey(name, n)] + [];
  }

  /** `name[n].b` finds the value under `b` in element `n` of the list under `name`. */
  lemma ListItemThenKey(m: Entries, name: string, n: nat, items: seq<Json>, b: string, v: Json)
    requires name != [] && '.' !in name && '[' !in name && n <= IntMax
    requires Get(m, name) == Some(Arr(items)) && n < |items|
    requires items[n].Obj? && b != [] && '.' !in b && !IsKeyList(b) && Get(items[n].entries, b) == Some(v)
    ensures Resolve(Obj(m), '.', ListKey(name, n) + ['.'] + b) == Ok(v)
  {
    var key := ListKey(name, n);
    ListKeyFree(name, n);
    JoinTwo(key, b, '.');
    ResolveJoined(Obj(m), '.', [key, b]);
    ListItemWalk(m, name, n, items, b, v);
  }

  /** The walk behind `name[n].b`: the list element, then the key inside it. */
  lemma ListItemWalk(m: Entries, name: string, n: nat, items: seq<Json>, b: string, v: Json)
    requires name != [] && '[' !in name && n <= IntMax
    requires Get(m, name) == Some(Arr(items)) && n < |items|
    requires items[n].Obj? && !IsKeyList(b) && Get(items[n].entries, b) == Some(v)
    ensures Walk(Obj(m), [ListKey(name, n), b]) == Ok(v)
  {
    var key := ListKey(name, n);
    assert [key, b] == [key] + [b] && [b] == [b] + [];
    ListSegmentSelects(m, name, n, items, [b]);
    PlainSegmentSteps(items[n].entries, b, v, []);
  }

  /**
   * A top-level array of maps gives one reader per map, in order, and a
   * plain key looked up in reader `i` finds its value in map `i`.
   */
  lemma TopLevelArrayLookup(items: seq<Json>, key: string, r: Result<DataHandler.Extracted>)
    requires key != [] && '.' !in key && !IsKeyList(key)
    requires forall i :: 0 <= i < |items| ==> items[i].Obj? && Get(items[i].entries, key).Some?
    requires DataHandler.Wrapped(Ok(Arr(items)), r)
    ensures r.Ok? && r.value.Many? && |r.value.readers| == |items|
    ensures forall i :: 0 <= i < |items| ==>
      Resolve(r.value.readers[i].data, r.value.readers[i].delimiter, key) == Ok(Get(items[i].entries, key).value)
  {
    assert forall i :: 0 <= i < |items| ==> DataHandler.IsMapOrNull(items[i]);
    forall i | 0 <= i < |items|
      ensures Resolve(r.value.readers[i].data, r.value.readers[i].delimiter, key) == Ok(Get(items[i].entries, key).value)
    {
      OneKey(items[i].entries, key, Get(items[i].entries, key).value);
    }
  }

  // ---------------------------------------------------------------------------
  // The data tests' objects, from their text to their lookups
  // ---------------------------------------------------------------------------

  /** A key that can be written between quotes and looked up as one plain path segment. */
  predicate PlainKey(k: string) {
    k != [] && ParserProperties.Unescaped(k) && ':' !in k && '.' !in k && !IsKeyList(k)
  }

  /**
   * `{"k1":"t","k2":n}` gives one reader, in which `k1` finds the string
   * `t` and `k2` the number `n`.
   */
  lemma FlatObjectLookups(k1: string, t: string, k2: string, n: nat, r: Result<DataHandler.Extracted>)
    requires PlainKey(k1) && PlainKey(k2) && k1 != k2 && ParserProperties.Unescaped(t) && n <= LongMax
    requires DataHandler.Wrapped(JsonParser.ParseValue("{\"" + k1 + "\":\"" + t + "\",\"" + k2 + "\":" + NatToString(n) + "}"), r)
    ensures r.Ok? && r.value.Single?
    ensures Resolve(r.value.reader.data, r.value.reader.delimiter, k1) == Ok(Str(t))
    ensures Resolve(r.value.reader.data, r.value.reader.delimiter, k2) == Ok(Int(n))
  {
    ParserProperties.FlatObject(k1, t, k2, n);
    var m := [(k1, Str(t)), (k2, Int(n))];
    assert Get(m, k2) == Some(Int(n)) by {
      assert m[1..] == [(k2, Int(n))];
    }
    OneKey(m, k1, Str(t));
    OneKey(m, k2, Int(n));
  }

  /**
   * `{"a":{"k1":"t","k2":n}}` gives one reader, in which `a.k1` finds the
   * string `t` and `a.k2` the number `n`.
   */
  lemma NestedObjectLookups(a: string, k1: string, t: string, k2: string, n: nat, r: Result<DataHandler.Extracted>)
    requires PlainKey(a) && PlainKey(k1) && PlainKey(k2) && k1 != k2 && ParserProperties.Unescaped(t) && n <= LongMax
    requires DataHandler.Wrapped(JsonParser.ParseValue("{\"" + a + "\":{\"" + k1 + "\":\"" + t + "\",\"" + k2 + "\":" + NatToString(n) + "}}"), r)
    ensures r.Ok? && r.value.Single?
    ensures Resolve(r.value.reader.data, r.value.reader.delimiter, a + "." + k1) == Ok(Str(t))
    ensures Resolve(r.value.reader.data, r.value.reader.delimiter, a + "." + k2) == Ok(Int(n))
  {
    ParserProperties.NestedObject(a, k1, t, k2, n);
    var inner := [(k1, Str(t)), (k2, Int(n))];
    var m := [(a, Obj(inner))];
    assert Get(inner, k2) == Some(Int(n)) by {
      assert inner[1..] == [(k2, Int(n))];
    }
    KeyThenKey(m, a, inner, k1, Str(t));
    KeyThenKey(m, a, inner, k2, Int(n));
  }

  /** The flat data test: `name` finds "Tommy" and `age` finds 30. */
  lemma FlatTestObject(json: string, r: Result<DataHandler.Extracted>)
    requires json == "{\"name\":\"Tommy\",\"age\":30}"
    requires DataHandler.Wrapped(JsonParser.ParseValue(json), r)
    ensures r.Ok? && r.value.Single?
    ensures Resolve(r.value.reader.data, r.value.reader.delimiter, "name") == Ok(Str("Tommy"))
    ensures Resolve(r.value.reader.data, r.value.reader.delimiter, "age") == Ok(Int(30))
  {
    TestKeys();
    TestTexts();
    FlatObjectLookups("name", "Tommy", "age", 30, r);
  }

  /** The nested data test: `person.name` finds "Tommy" and `person.age` finds 30. */
  lemma NestedTestObject(json: string, r: Result<DataHandler.Extracted>)
    requires json == "{\"person\":{\"name\":\"Tommy\",\"age\":30}}"
    requires DataHandler.Wrapped(JsonParser.ParseValue(json), r)
    ensures r.Ok? && r.value.Single?
    ensures Resolve(r.value.reader.data, r.value.reader.delimiter, "person.name") == Ok(Str("Tommy"))
    ensures Resolve(r.value.reader.data, r.value.reader.delimiter, "person.age") == Ok(Int(30))
  {
    TestKeys();
    TestTexts();
    NestedObjectLookups("person", "name", "Tommy", "age", 30, r);
  }

  /** The texts of the data tests have the shapes of FlatObjectLookups and NestedObjectLookups. */
  lemma TestTexts()
    ensures NatToString(30) == "30"
    ensures "{\"" + "name" + "\":\"" + "Tommy" + "\",\"" + "age" + "\":" + "30" + "}" == "{\"name\":\"Tommy\",\"age\":30}"
    ensures "{\"" + "person" + "\":{\"" + "name" + "\":\"" + "Tommy" + "\",\"" + "age" + "\":" + "30" + "}}"
      == "{\"person\":{\"name\":\"Tommy\",\"age\":30}}"
    ensures "person" + "." + "name" == "person.name" && "person" + "." + "age" == "person.age"
  {
    Thirty();
    FlatTestText();
    NestedTestText();
  }

  lemma Thirty()
    ensures NatToString(30) == "30"
  {
  }

  lemma FlatTestText()
    ensures "{\"" + "name" + "\":\"" + "Tommy" + "\",\"" + "age" + "\":" + "30" + "}" == "{\"name\":\"Tommy\",\"age\":30}"
  {
  }

  lemma NestedTestText()
    ensures "{\"" + "person" + "\":{\"" + "name" + "\":\"" + "Tommy" + "\",\"" + "age" + "\":" + "30" + "}}"
      == "{\"person\":{\"name\":\"Tommy\",\"age\":30}}"
  {
  }

  /** The keys of the data tests are plain keys, and "Tommy" needs no escape. */
  lemma TestKeys()
    ensures PlainKey("person") && PlainKey("name") && PlainKey("age") && ParserProperties.Unescaped("Tommy")
  {
    assert '[' !in "person" && '[' !in "name" && '[' !in "age";
  }

  // ---------------------------------------------------------------------------
  // The data tests' lists, from their text to their lookups
  // ---------------------------------------------------------------------------

  /**
   * A non-negative long in decimal, alone or after a space, is a balanced,
   * non-blank element text that parses to that number.
   */
  lemma NumberItem(n: nat)
    requires n <= LongMax
    ensures var v := NatToString(n);
      ParserProperties.ElementText(v, Int(n)) && ParserProperties.ElementText(" " + v, Int(n))
  {
    var v := NatToString(n);
    ParserProperties.LongLiteral(n);
    ParserProperties.LongTextEnds(n);
    ParserProperties.SpacedValue(v);
    ParserProperties.DigitsBalanced(v, false);
    ParserProperties.SpacedBalanced(v, false);
    SpacedTrim(v);
  }

  /** Text with no white space at either end is its own trim, also after a space. */
  lemma SpacedTrim(v: string)
    requires v != [] && !IsWhite(v[0]) && !IsWhite(v[|v| - 1])
    ensures Trim(v) == v && Trim(" " + v) == v
  {
    TrimFixed(v);
    TrimIgnoresMargins(" ", v, "");
    assert " " + v + "" == " " + v;
  }

  /**
   * `{"k":v}`, where the value text `v` is a quoted string `t`, with or
   * without a space before it: a balanced, non-blank element text, alone or
   * after a space, that parses to the map of `k` to `t`.
   */
  lemma StringObject(k: string, t: string, v: string)
    requires PlainKey(k) && ParserProperties.Unescaped(t)
    requires v == "\"" + t + "\"" || v == " \"" + t + "\""
    ensures var o := "{\"" + k + "\":" + v + "}";
      ParserProperties.ElementText(o, Obj([(k, Str(t))])) && ParserProperties.ElementText(" " + o, Obj([(k, Str(t))]))
  {
    var q := "\"" + t + "\"";
    var o := "{\"" + k + "\":" + v + "}";
    ParserProperties.StringLiteral(t);
    JsonSplitter.QuotedBalanced(t, false);
    if v != q {
      assert v == " " + q;
      ParserProperties.SpacedValue(q);
      ParserProperties.SpacedBalanced(q, false);
    }
    ParserProperties.ObjectOfValuePair(k, v, Str(t));
    ParserProperties.SpacedValue(o);
    ParserProperties.SpacedBalanced(o, false);
    SpacedTrim(o);
  }

  /** Three parts joined with a delimiter. */
  lemma JoinThree(x: string, y: string, z: string, d: char)
    ensures Join([x, y, z], d) == x + [d] + y + [d] + z
  {
    assert [x, y, z][..2] == [x, y];
    JoinTwo(x, y, d);
  }

  /** Three element texts, as a list. */
  lemma ThreeElements(q0: string, q1: string, q2: string, x0: Json, x1: Json, x2: Json)
    requires ParserProperties.ElementText(q0, x0) && ParserProperties.ElementText(q1, x1) && ParserProperties.ElementText(q2, x2)
    ensures forall i :: 0 <= i < 3 ==> ParserProperties.ElementText([q0, q1, q2][i], [x0, x1, x2][i])
  {
  }

  /** Two element texts, as a list. */
  lemma TwoElements(q0: string, q1: string, x0: Json, x1: Json)
    requires ParserProperties.ElementText(q0, x0) && ParserProperties.ElementText(q1, x1)
    ensures forall i :: 0 <= i < 2 ==> ParserProperties.ElementText([q0, q1][i], [x0, x1][i])
  {
  }

  /**
   * `[a, b, c]`, three non-negative longs with a space after each comma:
   * the list of the three numbers, and balanced text.
   */
  lemma ThreeNumbers(a: nat, b: nat, c: nat)
    requires a <= LongMax && b <= LongMax && c <= LongMax
    ensures var arr := "[" + NatToString(a) + ", " + NatToString(b) + ", " + NatToString(c) + "]";
      JsonParser.ParseValue(arr) == Ok(Arr([Int(a), Int(b), Int(c)])) && JsonSplitter.Balanced(arr, false) &&
      !IsWhite(arr[|arr| - 1])
  {
    var x, y, z := NatToString(a), NatToString(b), NatToString(c);
    var qs := [x, " " + y, " " + z];
    NumberItem(a);
    NumberItem(b);
    NumberItem(c);
    ParserProperties.LongTextEnds(a);
    ParserProperties.LongTextEnds(c);
    ThreeElements(x, " " + y, " " + z, Int(a), Int(b), Int(c));
    JoinThree(x, " " + y, " " + z, ',');
    ThreeNumbersText(x, y, z, Join(qs, ','));
    ParserProperties.ArrayOfJoinedValues(qs, [Int(a), Int(b), Int(c)]);
    ParserProperties.JoinedArrayBalanced(qs, false);
  }

  /** The join of ThreeNumbers has no white margins, and its text is the array's body. */
  lemma ThreeNumbersText(x: string, y: string, z: string, j: string)
    requires x != [] && z != [] && !IsWhite(x[0]) && !IsWhite(z[|z| - 1])
    requires j == x + [','] + (" " + y) + [','] + (" " + z)
    ensures JsonSplitter.NoMargins(j)
    ensures "[" + j + "]" == "[" + x + ", " + y + ", " + z + "]"
  {
    assert j[0] == x[0] && j[|j| - 1] == z[|z| - 1];
  }

  /**
   * `{"k":[a, b, c]}` gives one reader, in which `k[0]`, `k[1]` and `k[2]`
   * find the three numbers.
   */
  lemma ListObjectLookups(k: string, a: nat, b: nat, c: nat, r: Result<DataHandler.Extracted>)
    requires PlainKey(k) && '[' !in k && a <= LongMax && b <= LongMax && c <= LongMax
    requires DataHandler.Wrapped(JsonParser.ParseValue(
      "{\"" + k + "\":" + ("[" + NatToString(a) + ", " + NatToString(b) + ", " + NatToString(c) + "]") + "}"), r)
    ensures r.Ok? && r.value.Single?
    ensures Resolve(r.value.reader.data, r.value.reader.delimiter, ListKey(k, 0)) == Ok(Int(a))
    ensures Resolve(r.value.reader.data, r.value.reader.delimiter, ListKey(k, 1)) == Ok(Int(b))
    ensures Resolve(r.value.reader.data, r.value.reader.delimiter, ListKey(k, 2)) == Ok(Int(c))
  {
    var items := [Int(a), Int(b), Int(c)];
    ListObject(k, a, b, c);
    SingleReader([(k, Arr(items))], r);
    ThreeItemLookups([(k, Arr(items))], k, items);
  }

  /** A parsed map gives one reader over it, with the `.` delimiter. */
  lemma SingleReader(m: Entries, r: Result<DataHandler.Extracted>)
    requires DataHandler.Wrapped(Ok(Obj(m)), r)
    ensures r.Ok? && r.value.Single? && r.value.reader.data == Obj(m) && r.value.reader.delimiter == '.'
  {
    assert DataHandler.IsMapOrNull(Obj(m));
  }

  /** `{"k":[a, b, c]}` is the map of `k` to the list of the three numbers. */
  lemma ListObject(k: string, a: nat, b: nat, c: nat)
    requires PlainKey(k) && a <= LongMax && b <= LongMax && c <= LongMax
    ensures JsonParser.ParseValue("{\"" + k + "\":" + ("[" + NatToString(a) + ", " + NatToString(b) + ", " + NatToString(c) + "]") + "}")
      == Ok(Obj([(k, Arr([Int(a), Int(b), Int(c)]))]))
  {
    var arr := "[" + NatToString(a) + ", " + NatToString(b) + ", " + NatToString(c) + "]";
    ThreeNumbers(a, b, c);
    ParserProperties.ObjectOfValuePair(k, arr, Arr([Int(a), Int(b), Int(c)]));
  }

  /** `k[0]`, `k[1]` and `k[2]` find the three elements of the list under `k`. */
  lemma ThreeItemLookups(m: Entries, k: string, items: seq<Json>)
    requires k != [] && '.' !in k && '[' !in k && Get(m, k) == Some(Arr(items)) && |items| == 3
    ensures Resolve(Obj(m), '.', ListKey(k, 0)) == Ok(items[0])
    ensures Resolve(Obj(m), '.', ListKey(k, 1)) == Ok(items[1])
    ensures Resolve(Obj(m), '.', ListKey(k, 2)) == Ok(items[2])
  {
    ListItem(m, k, 0, items);
    ListItem(m, k, 1, items);
    ListItem(m, k, 2, items);
  }

  /**
   * The list data test, `{"scores":[90, 80, 85]}`: `scores[0]`, `scores[1]`
   * and `scores[2]` find 90, 80 and 85.
   */
  lemma ListTestObject(json: string, r: Result<DataHandler.Extracted>)
    requires json == "{\"scores\":[90, 80, 85]}"
    requires DataHandler.Wrapped(JsonParser.ParseValue(json), r)
    ensures r.Ok? && r.value.Single?
    ensures Resolve(r.value.reader.data, r.value.reader.delimiter, "scores[0]") == Ok(Int(90))
    ensures Resolve(r.value.reader.data, r.value.reader.delimiter, "scores[1]") == Ok(Int(80))
    ensures Resolve(r.value.reader.data, r.value.reader.delimiter, "scores[2]") == Ok(Int(85))
  {
    ScoreTexts();
    ScoreKeys();
    ListObjectLookups("scores", 90, 80, 85, r);
  }

  lemma ScoreTexts()
    ensures NatToString(90) == "90" && NatToString(80) == "80" && NatToString(85) == "85"
    ensures "{\"" + "scores" + "\":" + ("[" + "90" + ", " + "80" + ", " + "85" + "]") + "}" == "{\"scores\":[90, 80, 85]}"
  {
    Ninety();
    Eighty();
    EightyFive();
    ScoreText();
  }

  lemma Ninety()
    ensures NatToString(90) == "90"
  {
  }

  lemma Eighty()
    ensures NatToString(80) == "80"
  {
  }

  lemma EightyFive()
    ensures NatToString(85) == "85"
  {
  }

  lemma ScoreText()
    ensures "{\"" + "scores" + "\":" + ("[" + "90" + ", " + "80" + ", " + "85" + "]") + "}" == "{\"scores\":[90, 80, 85]}"
  {
  }

  lemma ScoreKeys()
    ensures ListKey("scores", 0) == "scores[0]" && ListKey("scores", 1) == "scores[1]" && ListKey("scores", 2) == "scores[2]"
    ensures PlainKey("scores") && '[' !in "scores"
  {
    assert NatToString(0) == "0" && NatToString(1) == "1" && NatToString(2) == "2";
  }

  /**
   * `[{"n":"t1"},{"n":"t2"}]`: the list of the two maps, and balanced text.
   */
  lemma TwoStringObjects(n: string, t1: string, t2: string)
    requires PlainKey(n) && ParserProperties.Unescaped(t1) && ParserProperties.Unescaped(t2)
    ensures var arr := "[" + ("{\"" + n + "\":" + ("\"" + t1 + "\"") + "}") + "," + ("{\"" + n + "\":" + ("\"" + t2 + "\"") + "}") + "]";
      JsonParser.ParseValue(arr) == Ok(Arr([Obj([(n, Str(t1))]), Obj([(n, Str(t2))])])) &&
      JsonSplitter.Balanced(arr, false) && !IsWhite(arr[|arr| - 1])
  {
    var o1 := "{\"" + n + "\":" + ("\"" + t1 + "\"") + "}";
    var o2 := "{\"" + n + "\":" + ("\"" + t2 + "\"") + "}";
    var qs := [o1, o2];
    StringObject(n, t1, "\"" + t1 + "\"");
    StringObject(n, t2, "\"" + t2 + "\"");
    TwoElements(o1, o2, Obj([(n, Str(t1))]), Obj([(n, Str(t2))]));
    JoinTwo(o1, o2, ',');
    BracedJoin(o1, o2, Join(qs, ','));
    ParserProperties.ArrayOfJoinedValues(qs, [Obj([(n, Str(t1))]), Obj([(n, Str(t2))])]);
    ParserProperties.JoinedArrayBalanced(qs, false);
  }

  /** Two texts that open with `{` and close with `}`, joined with a comma, have no white margins. */
  lemma BracedJoin(o1: string, o2: string, j: string)
    requires |o1| >= 1 && o1[0] == '{' && |o2| >= 1 && o2[|o2| - 1] == '}'
    requires j == o1 + [','] + o2
    ensures JsonSplitter.NoMargins(j) && "[" + j + "]" == "[" + o1 + "," + o2 + "]"
  {
    assert j[0] == o1[0] && j[|j| - 1] == o2[|o2| - 1];
  }

  /**
   * `{"k":[{"n":"t1"},{"n":"t2"}]}` gives one reader, in which `k[0].n`
   * finds `t1` and `k[1].n` finds `t2`.
   */
  lemma ObjectListLookups(k: string, n: string, t1: string, t2: string, r: Result<DataHandler.Extracted>)
    requires PlainKey(k) && '[' !in k && PlainKey(n)
    requires ParserProperties.Unescaped(t1) && ParserProperties.Unescaped(t2)
    requires DataHandler.Wrapped(JsonParser.ParseValue(
      "{\"" + k + "\":" + ("[" + ("{\"" + n + "\":" + ("\"" + t1 + "\"") + "}") + "," + ("{\"" + n + "\":" + ("\"" + t2 + "\"") + "}") + "]") + "}"), r)
    ensures r.Ok? && r.value.Single?
    ensures Resolve(r.value.reader.data, r.value.reader.delimiter, ListKey(k, 0) + ['.'] + n) == Ok(Str(t1))
    ensures Resolve(r.value.reader.data, r.value.reader.delimiter, ListKey(k, 1) + ['.'] + n) == Ok(Str(t2))
  {
    var items := [Obj([(n, Str(t1))]), Obj([(n, Str(t2))])];
    ObjectListObject(k, n, t1, t2);
    SingleReader([(k, Arr(items))], r);
    TwoItemLookups([(k, Arr(items))], k, items, n, t1, t2);
  }

  /** `{"k":[{"n":"t1"},{"n":"t2"}]}` is the map of `k` to the list of the two maps. */
  lemma ObjectListObject(k: string, n: string, t1: string, t2: string)
    requires PlainKey(k) && PlainKey(n)
    requires ParserProperties.Unescaped(t1) && ParserProperties.Unescaped(t2)
    ensures JsonParser.ParseValue(
      "{\"" + k + "\":" + ("[" + ("{\"" + n + "\":" + ("\"" + t1 + "\"") + "}") + "," + ("{\"" + n + "\":" + ("\"" + t2 + "\"") + "}") + "]") + "}")
      == Ok(Obj([(k, Arr([Obj([(n, Str(t1))]), Obj([(n, Str(t2))])]))]))
  {
    var arr := "[" + ("{\"" + n + "\":" + ("\"" + t1 + "\"") + "}") + "," + ("{\"" + n + "\":" + ("\"" + t2 + "\"") + "}") + "]";
    TwoStringObjects(n, t1, t2);
    ParserProperties.ObjectOfValuePair(k, arr, Arr([Obj([(n, Str(t1))]), Obj([(n, Str(t2))])]));
  }

  /** `k[0].n` and `k[1].n` find `t1` and `t2` in the two maps of the list under `k`. */
  lemma TwoItemLookups(m: Entries, k: string, items: seq<Json>, n: string, t1: string, t2: string)
    requires k != [] && '.' !in k && '[' !in k && PlainKey(n)
    requires Get(m, k) == Some(Arr(items)) && items == [Obj([(n, Str(t1))]), Obj([(n, Str(t2))])]
    ensures Resolve(Obj(m), '.', ListKey(k, 0) + ['.'] + n) == Ok(Str(t1))
    ensures Resolve(Obj(m), '.', ListKey(k, 1) + ['.'] + n) == Ok(Str(t2))
  {
    ListItemThenKey(m, k, 0, items, n, Str(t1));
    ListItemThenKey(m, k, 1, items, n, Str(t2));
  }

  /**
   * The complex data test, `{"students":[{"name":"A"},{"name":"B"}]}`:
   * `students[0].name` finds "A" and `students[1].name` finds "B".
   */
  lemma ComplexTestObject(json: string, r: Result<DataHandler.Extracted>)
    requires json == "{\"students\":[{\"name\":\"A\"},{\"name\":\"B\"}]}"
    requires DataHandler.Wrapped(JsonParser.ParseValue(json), r)
    ensures r.Ok? && r.value.Single?
    ensures Resolve(r.value.reader.data, r.value.reader.delimiter, "students[0].name") == Ok(Str("A"))
    ensures Resolve(r.value.reader.data, r.value.reader.delimiter, "students[1].name") == Ok(Str("B"))
  {
    StudentTexts();
    StudentKeys();
    ObjectListLookups("students", "name", "A", "B", r);
  }

  lemma StudentTexts()
    ensures "{\"" + "students" + "\":" + ("[" + ("{\"" + "name" + "\":" + ("\"" + "A" + "\"") + "}") + "," +
      ("{\"" + "name" + "\":" + ("\"" + "B" + "\"") + "}") + "]") + "}" == "{\"students\":[{\"name\":\"A\"},{\"name\":\"B\"}]}"
  {
  }

  lemma StudentKeys()
    ensures ListKey("students", 0) + ['.'] + "name" == "students[0].name"
    ensures ListKey("students", 1) + ['.'] + "name" == "students[1].name"
    ensures PlainKey("students") && '[' !in "students" && PlainKey("name")
    ensures ParserProperties.Unescaped("A") && ParserProperties.Unescaped("B")
  {
    StudentPaths();
    StudentsKey();
    TestKeys();
  }

  lemma StudentPaths()
    ensures ListKey("students", 0) + ['.'] + "name" == "students[0].name"
    ensures ListKey("students", 1) + ['.'] + "name" == "students[1].name"
  {
    assert NatToString(0) == "0" && NatToString(1) == "1";
  }

  lemma StudentsKey()
    ensures PlainKey("students") && '[' !in "students"
  {
    assert '[' !in "students";
  }

  /**
   * `[{"n": "t1"}, {"n": "t2"}]`, with a space after each colon and after
   * the comma: the list of the two maps.
   */
  lemma TwoSpacedObjects(n: string, t1: string, t2: string)
    requires PlainKey(n) && ParserProperties.Unescaped(t1) && ParserProperties.Unescaped(t2)
    ensures JsonParser.ParseValue("[" + ("{\"" + n + "\":" + (" \"" + t1 + "\"") + "}") + ", " + ("{\"" + n + "\":" + (" \"" + t2 + "\"") + "}") + "]")
      == Ok(Arr([Obj([(n, Str(t1))]), Obj([(n, Str(t2))])]))
  {
    var o1 := "{\"" + n + "\":" + (" \"" + t1 + "\"") + "}";
    var o2 := "{\"" + n + "\":" + (" \"" + t2 + "\"") + "}";
    var qs := [o1, " " + o2];
    StringObject(n, t1, " \"" + t1 + "\"");
    StringObject(n, t2, " \"" + t2 + "\"");
    TwoElements(o1, " " + o2, Obj([(n, Str(t1))]), Obj([(n, Str(t2))]));
    JoinTwo(o1, " " + o2, ',');
    SpacedBracedJoin(o1, o2, Join(qs, ','));
    ParserProperties.ArrayOfJoinedValues(qs, [Obj([(n, Str(t1))]), Obj([(n, Str(t2))])]);
  }

  /** Two texts that open with `{` and close with `}`, joined with a comma and a space, have no white margins. */
  lemma SpacedBracedJoin(o1: string, o2: string, j: string)
    requires |o1| >= 1 && o1[0] == '{' && |o2| >= 1 && o2[|o2| - 1] == '}'
    requires j == o1 + [','] + (" " + o2)
    ensures JsonSplitter.NoMargins(j) && "[" + j + "]" == "[" + o1 + ", " + o2 + "]"
  {
    assert j[0] == o1[0] && j[|j| - 1] == o2[|o2| - 1];
  }

  /**
   * `[{"n": "t1"}, {"n": "t2"}]` gives two readers, in which `n` finds `t1`
   * and then `t2`.
   */
  lemma SpacedArrayLookups(n: string, t1: string, t2: string, r: Result<DataHandler.Extracted>)
    requires PlainKey(n) && ParserProperties.Unescaped(t1) && ParserProperties.Unescaped(t2)
    requires DataHandler.Wrapped(JsonParser.ParseValue(
      "[" + ("{\"" + n + "\":" + (" \"" + t1 + "\"") + "}") + ", " + ("{\"" + n + "\":" + (" \"" + t2 + "\"") + "}") + "]"), r)
    ensures r.Ok? && r.value.Many? && |r.value.readers| == 2
    ensures Resolve(r.value.readers[0].data, r.value.readers[0].delimiter, n) == Ok(Str(t1))
    ensures Resolve(r.value.readers[1].data, r.value.readers[1].delimiter, n) == Ok(Str(t2))
  {
    var items := [Obj([(n, Str(t1))]), Obj([(n, Str(t2))])];
    TwoSpacedObjects(n, t1, t2);
    assert Get(items[0].entries, n) == Some(Str(t1));
    assert Get(items[1].entries, n) == Some(Str(t2));
    TopLevelArrayLookup(items, n, r);
  }

  /**
   * The top-level array data test, `[{"name": "Tommy"}, {"name": "Jerry"}]`:
   * two readers, in which `name` finds "Tommy" and then "Jerry".
   */
  lemma TopLevelArrayTest(json: string, r: Result<DataHandler.Extracted>)
    requires json == "[{\"name\": \"Tommy\"}, {\"name\": \"Jerry\"}]"
    requires DataHandler.Wrapped(JsonParser.ParseValue(json), r)
    ensures r.Ok? && r.value.Many? && |r.value.readers| == 2
    ensures Resolve(r.value.readers[0].data, r.value.readers[0].delimiter, "name") == Ok(Str("Tommy"))
    ensures Resolve(r.value.readers[1].data, r.value.readers[1].delimiter, "name") == Ok(Str("Jerry"))
  {
    PeopleText();
    TestKeys();
    assert ParserProperties.Unescaped("Jerry");
    SpacedArrayLookups("name", "Tommy", "Jerry", r);
  }

  lemma PeopleText()
    ensures "[" + ("{\"" + "name" + "\":" + (" \"" + "Tommy" + "\"") + "}") + ", " + ("{\"" + "name" + "\":" + (" \"" + "Jerry" + "\"") + "}") + "]"
      == "[{\"name\": \"Tommy\"}, {\"name\": \"Jerry\"}]"
  {
  }
}
