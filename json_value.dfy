/**
 * The value tree the parser produces and the errors the core can raise.
 *
 * The Java code returns plain `Object`s: `null`, `Boolean`, `Long`, `Double`,
 * `String`, `LinkedHashMap<String, Object>` and `ArrayList<Object>`. Here they
 * are one tagged union. A `Double` keeps its source text, because the model
 * does not interpret floating-point values.
 */
module JsonValue {

  datatype Json =
    | Null
    | Bool(b: bool)
    | Int(n: int)
    | Float(raw: string)
    | Str(s: string)
    | Obj(entries: seq<(string, Json)>)
    | Arr(items: seq<Json>)

  /** The exceptions of the Java code, one constructor each. */
  datatype Error =
    | InvalidObject(text: string)          // "Invalid JSON object: " + text
    | InvalidPair(text: string)            // "Invalid key-value pair: " + text
    | InvalidNumber(text: string)          // "Invalid number: " + text
    | Unrecognized(text: string)           // "Unrecognized JSON value: " + text
    | UnsupportedEventType(text: string)   // "Unsupported GitHub event type: " + text
    | StringIndexOutOfBounds
    | IndexOutOfBounds
    | NumberFormat
    | NullPointer
    | ClassCast

  datatype Option<+T> = None | Some(value: T)

  datatype Result<+T> = Ok(value: T) | Err(error: Error) {
    predicate IsFailure() { Err? }

    function PropagateFailure<U>(): Result<U>
      requires Err?
    {
      Err(error)
    }

    function Extract(): T
      requires Ok?
    {
      value
    }
  }

  // ---------------------------------------------------------------------------
  // The insertion-ordered map of a JSON object (java.util.LinkedHashMap).
  // ---------------------------------------------------------------------------

  type Entries = seq<(string, Json)>

  /** The keys in iteration order. */
  function Keys(m: Entries): (ks: seq<string>)
    ensures |ks| == |m|
    ensures forall i :: 0 <= i < |m| ==> ks[i] == m[i].0
  {
    if m == [] then [] else [m[0].0] + Keys(m[1..])
  }

  /** No element occurs twice. */
  predicate Distinct<T(==)>(s: seq<T>) {
    forall i, j :: 0 <= i < j < |s| ==> s[i] != s[j]
  }

  /** No key occurs twice. */
  predicate UniqueKeys(m: Entries) {
    Distinct(Keys(m))
  }

  /** `map.get(key)`, distinguishing an absent key from a key bound to null. */
  function Get(m: Entries, key: string): (r: Option<Json>)
    ensures r.Some? <==> key in Keys(m)
  {
    if m == [] then None
    else if m[0].0 == key then Some(m[0].1)
    else Get(m[1..], key)
  }

  /** `map.get(key)` as Java sees it: an absent key and a null value both read as null. */
  function GetOrNull(m: Entries, key: string): Json {
    match Get(m, key)
    case Some(v) => v
    case None => Null
  }

  /**
   * `map.put(key, value)` on a LinkedHashMap: a new key goes to the end; an
   * existing key keeps its position and takes the new value.
   */
  function Put(m: Entries, key: string, value: Json): (r: Entries)
    ensures Keys(r) == if key in Keys(m) then Keys(m) else Keys(m) + [key]
    ensures Get(r, key) == Some(value)
    ensures forall k :: k != key ==> Get(r, k) == Get(m, k)
    ensures UniqueKeys(m) ==> UniqueKeys(r)
  {
    if m == [] then
      ConsEntry((key, value), []);
      [(key, value)]
    else if m[0].0 == key then
      PutFront(m, key, value);
      [(key, value)] + m[1..]
    else
      var rest := Put(m[1..], key, value);
      PutBehind(m, key, value, rest);
      [m[0]] + rest
  }

  /** What `map.put(key, value)` promises of the map `r` it leaves. */
  ghost predicate PutSpec(m: Entries, key: string, value: Json, r: Entries) {
    && Keys(r) == (if key in Keys(m) then Keys(m) else Keys(m) + [key])
    && Get(r, key) == Some(value)
    && (forall k :: k != key ==> Get(r, k) == Get(m, k))
    && (UniqueKeys(m) ==> UniqueKeys(r))
  }

  lemma PutFront(m: Entries, key: string, value: Json)
    requires m != [] && m[0].0 == key
    ensures PutSpec(m, key, value, [(key, value)] + m[1..])
  {
    assert m == [m[0]] + m[1..];
    ConsEntry(m[0], m[1..]);
    ConsEntry((key, value), m[1..]);
  }

  lemma PutBehind(m: Entries, key: string, value: Json, rest: Entries)
    requires m != [] && m[0].0 != key
    requires PutSpec(m[1..], key, value, rest)
    ensures PutSpec(m, key, value, [m[0]] + rest)
  {
    KeysCons(m[0], rest);
    PutKeysFront(m[0].0, Keys(m[1..]), key, Keys(rest));
    PutBehindGet(m, key, value, rest);
  }

  lemma PutBehindGet(m: Entries, key: string, value: Json, rest: Entries)
    requires m != [] && m[0].0 != key
    requires Get(rest, key) == Some(value)
    requires forall k :: k != key ==> Get(rest, k) == Get(m[1..], k)
    ensures Get([m[0]] + rest, key) == Some(value)
    ensures forall k :: k != key ==> Get([m[0]] + rest, k) == Get(m, k)
  {
    ConsEntry(m[0], rest);
  }

  lemma KeysCons(e: (string, Json), rest: Entries)
    ensures Keys([e] + rest) == [e.0] + Keys(rest)
  {
    assert ([e] + rest)[1..] == rest;
  }

  /** Keys and lookups of a map with one more entry at the front. */
  lemma ConsEntry(e: (string, Json), rest: Entries)
    ensures Keys([e] + rest) == [e.0] + Keys(rest)
    ensures forall k :: Get([e] + rest, k) == if e.0 == k then Some(e.1) else Get(rest, k)
  {
    assert ([e] + rest)[1..] == rest;
  }

  /** The key bookkeeping of Put when the first entry holds another key `a`. */
  lemma PutKeysFront(a: string, ks: seq<string>, key: string, ks': seq<string>)
    requires a != key
    requires ks' == if key in ks then ks else ks + [key]
    ensures key in [a] + ks <==> key in ks
    ensures [a] + ks' == if key in [a] + ks then [a] + ks else [a] + ks + [key]
    ensures Distinct([a] + ks) ==> Distinct([a] + ks')
  {
    DistinctCons(a, ks);
    DistinctCons(a, ks');
    if key !in ks {
      assert [a] + ks' == [a] + ks + [key];
      if Distinct(ks) {
        forall i, j | 0 <= i < j < |ks'| ensures ks'[i] != ks'[j] {
          if j == |ks| {
            assert ks'[i] == ks[i];
          } else {
            assert ks'[i] == ks[i] && ks'[j] == ks[j];
          }
        }
        assert a !in ks ==> a !in ks' by {
          if a in ks' {
            var i :| 0 <= i < |ks'| && ks'[i] == a;
            if i < |ks| {
              assert ks[i] == a;
            }
          }
        }
      }
    }
  }

  lemma DistinctCons<T>(x: T, s: seq<T>)
    ensures Distinct([x] + s) <==> x !in s && Distinct(s)
  {
    var t := [x] + s;
    if x !in s && Distinct(s) {
      forall i, j | 0 <= i < j < |t| ensures t[i] != t[j] {
        if i > 0 {
          assert t[i] == s[i - 1] && t[j] == s[j - 1];
        } else {
          assert t[j] == s[j - 1];
        }
      }
    }
    if Distinct(t) {
      forall i, j | 0 <= i < j < |s| ensures s[i] != s[j] {
        assert t[i + 1] == s[i] && t[j + 1] == s[j];
      }
      forall i | 0 <= i < |s| ensures s[i] != x {
        assert t[0] == x && t[i + 1] == s[i];
      }
    }
  }
}
