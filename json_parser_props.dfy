/**
 * What JsonParser promises, stated over the specification functions of
 * module JsonParser.
 */
module ParserProperties {
  import opened JsonValue
  import opened JavaString
  import opened JsonSplitter
  import opened JsonNumbers
  import opened JsonParser

  // ---------------------------------------------------------------------------
  // Scalars
  // ---------------------------------------------------------------------------

  /** Blank margins around a value do not change what it parses to. */
  lemma ParseIgnoresMargins(w1: string, s: string, w2: string)
    requires AllWhite(w1) && AllWhite(w2)
    ensures ParseValue(w1 + s + w2) == ParseValue(s)
  {
    TrimIgnoresMargins(w1, s, w2);
  }

  /** Any text between two quotes parses to exactly that text: no escape is decoded. */
  lemma StringLiteral(t: string)
    ensures ParseValue("\"" + t + "\"") == Ok(Str(t))
  {
    var x := "\"" + t + "\"";
    TrimFixed(x);
    assert x[1..|x| - 1] == t;
  }

  /** A lone quote is cut with substring(1, 0). */
  lemma LoneQuote()
    ensures ParseValue("\"") == Err(StringIndexOutOfBounds)
  {
    TrimFixed("\"");
  }

  /** The literals. */
  lemma Literals()
    ensures ParseValue("null") == Ok(Null)
    ensures ParseValue("true") == Ok(Bool(true))
    ensures ParseValue("false") == Ok(Bool(false))
  {
    TrimFixed("null");
    TrimFixed("true");
    TrimFixed("false");
  }

  /** Every long, written in decimal, parses back to itself. */
  lemma LongLiteral(n: int)
    requires LongMin <= n <= LongMax
    ensures ParseValue(LongToString(n)) == Ok(Int(n))
  {
    var x := LongToString(n);
    LongTextIsInteger(n);
    LongTextEnds(n);
    TrimFixed(x);
    NumberTextParses(x);
  }

  /** Trimmed text that starts with a sign or a digit and matches the number pattern is classified as a number. */
  lemma NumberTextParses(x: string)
    requires Trim(x) == x && |x| >= 1 && (x[0] == '-' || IsDigit(x[0])) && MatchesNumber(x)
    ensures ParseValue(x) == ClassifyNumber(x)
  {
    SignedTextIsScalar(x);
    SignedScalarIsNumber(x);
  }

  /** Trimmed text starting with a sign or a digit goes to the scalar branch. */
  lemma SignedTextIsScalar(x: string)
    requires Trim(x) == x && |x| >= 1 && (x[0] == '-' || IsDigit(x[0]))
    ensures ParseValue(x) == ParseScalar(x)
  {
  }

  /** Such a scalar is no literal, so it is classified as a number. */
  lemma SignedScalarIsNumber(x: string)
    requires |x| >= 1 && (x[0] == '-' || IsDigit(x[0])) && MatchesNumber(x)
    ensures ParseScalar(x) == ClassifyNumber(x)
  {
    assert "null"[0] == 'n' && "true"[0] == 't' && "false"[0] == 'f';
  }

  /** The decimal text of a long starts with a sign or a digit and ends with a digit. */
  lemma LongTextEnds(n: int)
    ensures var x := LongToString(n); |x| >= 1 && (x[0] == '-' || IsDigit(x[0])) && IsDigit(x[|x| - 1])
  {
    var x := LongToString(n);
    if n < 0 {
      var d := NatToString(-n);
      assert x[1..] == d;
      assert x[|x| - 1] == d[|d| - 1];
    }
  }

  /** Integer text beyond the long range fails with "Invalid number". */
  lemma LongOverflow(n: nat)
    requires n > LongMax
    ensures ParseValue(NatToString(n)) == Err(InvalidNumber(NatToString(n)))
  {
    var x := NatToString(n);
    LongOverflowIsInvalid(n);
    assert IsDigit(x[0]) && IsDigit(x[|x| - 1]);
    TrimFixed(x);
    NumberTextParses(x);
  }

  /** Trimmed text that is not a literal, a number or a quoted, braced or bracketed text is refused. */
  lemma UnrecognizedText(t: string)
    requires Trim(t) == t && t != []
    requires t[0] != '{' && t[0] != '[' && t[0] != '"'
    requires t != "null" && t != "true" && t != "false" && !MatchesNumber(t)
    ensures ParseValue(t) == Err(Unrecognized(t))
  {
  }

  // ---------------------------------------------------------------------------
  // Objects
  // ---------------------------------------------------------------------------

  /** Object text that does not end in `}` fails. */
  lemma UnclosedObject(s: string)
    requires StartsWith(Trim(s), '{') && !EndsWith(Trim(s), '}')
    ensures ParseValue(s) == Err(InvalidObject(Trim(s)))
  {
    TrimIdempotent(s);
  }

  /** Braces around blank text give the empty map. */
  lemma BlankObject(w: string)
    requires AllWhite(w)
    ensures ParseValue("{" + w + "}") == Ok(Obj([]))
  {
    var x := "{" + w + "}";
    TrimFixed(x);
    assert x[1..|x| - 1] == w;
  }

  /**
   * A quoted key: the key is the text between the quotes, blank margins
   * around the quoted key are dropped, and the value text is everything
   * after the first `:`, further colons included.
   */
  lemma QuotedPairKey(w1: string, k: string, w2: string, v: string)
    requires AllWhite(w1) && AllWhite(w2) && ':' !in k
    ensures SplitPair(w1 + "\"" + k + "\"" + w2 + ":" + v) == Ok((k, v))
  {
    var q := "\"" + k + "\"";
    var before := w1 + q + w2;
    assert ':' !in before by {
      assert ':' !in w1 && ':' !in w2 by {
        assert !IsWhite(':');
      }
      assert ':' !in q;
    }
    var pair := before + ":" + v;
    assert w1 + "\"" + k + "\"" + w2 + ":" + v == pair;
    PairCut(before, v);
    TrimFixed(q);
    TrimIgnoresMargins(w1, q, w2);
    assert StartsWith(q, '"') && EndsWith(q, '"') && q[1..|q| - 1] == k;
    assert IndexOf(pair, ':') == |before|;
    QuotedKeySplits(pair, q, v);
  }

  /** The pair step once the colon and the trimmed, quoted key are known. */
  lemma QuotedKeySplits(pair: string, q: string, v: string)
    requires ':' in pair
    requires Trim(pair[..IndexOf(pair, ':')]) == q && pair[IndexOf(pair, ':') + 1..] == v
    requires StartsWith(q, '"') && EndsWith(q, '"') && |q| >= 2
    ensures SplitPair(pair) == Ok((q[1..|q| - 1], v))
  {
    SplitPairAt(pair, IndexOf(pair, ':'), q);
  }

  /** The pair step for a piece whose first `:` is at `colon` and whose trimmed key text is `key`. */
  lemma SplitPairAt(pair: string, colon: int, key: string)
    requires colon == IndexOf(pair, ':') && colon >= 0 && key == Trim(pair[..colon])
    ensures SplitPair(pair) ==
      if StartsWith(key, '"') && EndsWith(key, '"') then
        if |key| < 2 then Err(StringIndexOutOfBounds) else Ok((key[1..|key| - 1], pair[colon + 1..]))
      else Ok((key, pair[colon + 1..]))
  {
  }

  /** An unquoted key with no blank margins is kept as it is. */
  lemma PlainPairKey(k: string, v: string)
    requires ':' !in k && Trim(k) == k && !(StartsWith(k, '"') && EndsWith(k, '"'))
    ensures SplitPair(k + ":" + v) == Ok((k, v))
  {
    PairCut(k, v);
  }

  /** The first `:` of `before + ":" + v` is the one after `before` when `before` has none. */
  lemma PairCut(before: string, v: string)
    requires ':' !in before
    ensures var p := before + ":" + v;
      IndexOf(p, ':') == |before| && p[..|before|] == before && p[|before| + 1..] == v
  {
    var p := before + ":" + v;
    assert p[..|before|] == before;
    assert p[|before| + 1..] == v;
    IndexOfIs(p, ':', |before|);
  }

  /** Text with no top-level comma is one piece: itself, trimmed. */
  lemma NoCommaOnePiece(s: string)
    requires ',' !in s && !AllWhite(s)
    ensures SplitTopLevel(s) == [Trim(s)]
  {
    var t := Trim(s);
    assert forall k :: 0 <= k < |t| ==> !IsSeparator(t, k) by {
      forall k | 0 <= k < |t| ensures !IsSeparator(t, k) {
        NoCommaInTrim(s, k);
      }
    }
    PieceGrows(t, 0, |t|, [], "");
    var whole := "" + t[0..|t|];
    assert whole == t;
    assert RawPieces(t, |t|) == [whole];
    TrimIdempotent(s);
  }

  /** Trimming text without a comma leaves none. */
  lemma NoCommaInTrim(s: string, k: nat)
    requires ',' !in s && k < |Trim(s)|
    ensures Trim(s)[k] != ','
  {
    TrimChar(s, k);
  }

  /** Braces around trimmed, non-blank text run the pair loop over the pieces of that text. */
  lemma BracedPieces(p: string)
    requires p != [] && Trim(p) == p
    ensures ParseValue("{" + p + "}") == PairsWith(SplitPair, ParseValue, SplitTopLevel(p), [])
  {
    var x := "{" + p + "}";
    BracedIsObject(p, x);
    ObjectIsPairLoop(x);
  }

  /** Braces around trimmed text are left alone by the trim and go to parseObject. */
  lemma BracedIsObject(p: string, x: string)
    requires Trim(p) == p && x == "{" + p + "}"
    ensures Trim(x) == x && EndsWith(x, '}') && |x| >= 2 && x[1..|x| - 1] == p
    ensures ParseValue(x) == ParseObject(x)
  {
    TrimFixed(x);
    assert x[1..|x| - 1] == p;
  }

  /**
   * The pair loop of parseObject over any pair splitter `split` and value
   * parser `f`, as for the element loop below.
   */
  function PairsWith(split: string -> Result<(string, string)>, f: string -> Result<Json>,
                     pairs: seq<string>, m: Entries): Result<Json>
  {
    if pairs == [] then Ok(Obj(m))
    else
      var kv :- split(pairs[0]);
      var v :- f(kv.1);
      PairsWith(split, f, pairs[1..], Put(m, kv.0, v))
  }

  /** The key a piece names, if it splits. */
  function KeyBy(split: string -> Result<(string, string)>, pair: string): Option<string> {
    match split(pair)
    case Ok(kv) => Some(kv.0)
    case Err(_) => None
  }

  /** No piece of `ps` names the key `k`. */
  predicate NoneNames(split: string -> Result<(string, string)>, ps: seq<string>, k: string) {
    forall j :: 0 <= j < |ps| ==> KeyBy(split, ps[j]) != Some(k)
  }

  /** What one piece gives the pair loop: its key and the parsed value, or the first error. */
  function PairParse(split: string -> Result<(string, string)>, f: string -> Result<Json>,
                     pair: string): Result<(string, Json)>
  {
    var kv :- split(pair);
    var v :- f(kv.1);
    Ok((kv.0, v))
  }

  /** Every piece of `ps` splits and the text of its value parses. */
  predicate PairsParse(split: string -> Result<(string, string)>, f: string -> Result<Json>, ps: seq<string>) {
    forall j :: 0 <= j < |ps| ==> PairParse(split, f, ps[j]).Ok?
  }

  /** The keys the pieces name, in piece order; a piece that does not split names none. */
  function PieceKeys(split: string -> Result<(string, string)>, pairs: seq<string>): seq<string>
  {
    if pairs == [] then []
    else
      (match split(pairs[0]) case Ok(kv) => [kv.0] case Err(_) => []) + PieceKeys(split, pairs[1..])
  }

  /** The keys of `ks`, each kept only where it first occurs. */
  function FirstOccurrences(ks: seq<string>): seq<string>
  {
    if ks == [] then []
    else
      var init := ks[..|ks| - 1];
      FirstOccurrences(init) + (if ks[|ks| - 1] in init then [] else [ks[|ks| - 1]])
  }

  /** parseObject's pair loop is the generic pair loop with SplitPair and ParseValue. */
  lemma {:induction false} ParsePairsIsPairsWith(pairs: seq<string>, m: Entries, bound: nat)
    requires forall i :: 0 <= i < |pairs| ==> |pairs[i]| < bound
    ensures ParsePairs(pairs, m, bound) == PairsWith(SplitPair, ParseValue, pairs, m)
    decreases |pairs|
  {
    if pairs != [] {
      var kv := SplitPair(pairs[0]);
      if kv.Ok? {
        var v := ParseValue(kv.value.1);
        if v.Ok? {
          TailBound(pairs, bound);
          ParsePairsIsPairsWith(pairs[1..], Put(m, kv.value.0, v.value), bound);
        }
      }
    }
  }

  /** Pieces shorter than a bound stay so after the first is dropped. */
  lemma TailBound(pairs: seq<string>, bound: nat)
    requires pairs != [] && forall i :: 0 <= i < |pairs| ==> |pairs[i]| < bound
    ensures forall i :: 0 <= i < |pairs[1..]| ==> |pairs[1..][i]| < bound
  {
  }

  /** A map with each key once stays so. */
  lemma {:induction false} PairsKeepUnique(split: string -> Result<(string, string)>, f: string -> Result<Json>,
                                           pairs: seq<string>, m: Entries)
    requires UniqueKeys(m)
    ensures var r := PairsWith(split, f, pairs, m);
      r.Ok? ==> r.value.Obj? && UniqueKeys(r.value.entries)
    decreases |pairs|
  {
    if pairs != [] {
      var kv := split(pairs[0]);
      if kv.Ok? {
        var v := f(kv.value.1);
        if v.Ok? {
          PairsKeepUnique(split, f, pairs[1..], Put(m, kv.value.0, v.value));
        }
      }
    }
  }

  /** A key no piece names keeps the binding it had. */
  lemma {:induction false} PairsKeepOther(split: string -> Result<(string, string)>, f: string -> Result<Json>,
                                          pairs: seq<string>, m: Entries, k: string)
    requires NoneNames(split, pairs, k)
    ensures var r := PairsWith(split, f, pairs, m);
      r.Ok? ==> r.value.Obj? && Get(r.value.entries, k) == Get(m, k)
    decreases |pairs|
  {
    if pairs != [] {
      var kv := split(pairs[0]);
      if kv.Ok? {
        var v := f(kv.value.1);
        if v.Ok? {
          var tail := pairs[1..];
          assert forall i :: 0 <= i < |tail| ==> tail[i] == pairs[i + 1];
          PairsKeepOther(split, f, tail, Put(m, kv.value.0, v.value), k);
        }
      }
    }
  }

  /** The last piece that names a key gives that key its value. */
  lemma {:induction false} PairsLastWins(split: string -> Result<(string, string)>, f: string -> Result<Json>,
                                         pairs: seq<string>, m: Entries, i: nat, k: string, t: string)
    requires i < |pairs| && split(pairs[i]) == Ok((k, t)) && NoneNames(split, pairs[i + 1..], k)
    ensures var r := PairsWith(split, f, pairs, m);
      r.Ok? ==> r.value.Obj? && f(t).Ok? && Get(r.value.entries, k) == Some(f(t).value)
    decreases |pairs|
  {
    if i == 0 {
      LastWinsAtHead(split, f, pairs, m, k, t);
    } else if split(pairs[0]).Ok? && f(split(pairs[0]).value.1).Ok? {
      LastWinsTail(split, pairs, i, k, t);
      var m' := PairsStep(split, f, pairs, m);
      PairsLastWins(split, f, pairs[1..], m', i - 1, k, t);
    } else {
      PairsStopAtHead(split, f, pairs, m);
    }
  }

  /** The last piece that names a key stands one place earlier in the tail, with nothing after it naming the key. */
  lemma LastWinsTail(split: string -> Result<(string, string)>, pairs: seq<string>, i: nat, k: string, t: string)
    requires 0 < i < |pairs| && split(pairs[i]) == Ok((k, t)) && NoneNames(split, pairs[i + 1..], k)
    ensures split(pairs[1..][i - 1]) == Ok((k, t)) && NoneNames(split, pairs[1..][i - 1 + 1..], k)
  {
    var tail := pairs[1..];
    assert tail[i - 1] == pairs[i];
    assert tail[i - 1 + 1..] == pairs[i + 1..];
  }

  /** The pair loop fails at once when the first piece does not split or its value does not parse. */
  lemma PairsStopAtHead(split: string -> Result<(string, string)>, f: string -> Result<Json>,
                        pairs: seq<string>, m: Entries)
    requires pairs != [] && !(split(pairs[0]).Ok? && f(split(pairs[0]).value.1).Ok?)
    ensures PairsWith(split, f, pairs, m).Err?
  {
  }

  /** One turn of the pair loop, with the map it leaves named. */
  lemma PairsStep(split: string -> Result<(string, string)>, f: string -> Result<Json>,
                  pairs: seq<string>, m: Entries) returns (m': Entries)
    requires pairs != [] && split(pairs[0]).Ok? && f(split(pairs[0]).value.1).Ok?
    ensures PairsWith(split, f, pairs, m) == PairsWith(split, f, pairs[1..], m')
  {
    m' := Put(m, split(pairs[0]).value.0, f(split(pairs[0]).value.1).value);
  }

  /** The first piece gives its key its value when no later piece names that key. */
  lemma LastWinsAtHead(split: string -> Result<(string, string)>, f: string -> Result<Json>,
                       pairs: seq<string>, m: Entries, k: string, t: string)
    requires 0 < |pairs| && split(pairs[0]) == Ok((k, t)) && NoneNames(split, pairs[1..], k)
    ensures var r := PairsWith(split, f, pairs, m);
      r.Ok? ==> r.value.Obj? && f(t).Ok? && Get(r.value.entries, k) == Some(f(t).value)
  {
    if f(t).Ok? {
      var m' := Put(m, k, f(t).value);
      PairsKeepOther(split, f, pairs[1..], m', k);
      assert PairsWith(split, f, pairs, m) == PairsWith(split, f, pairs[1..], m');
    }
  }

  /**
   * A braced text with a non-blank body is the pair loop run over the
   * top-level pieces of the body, with SplitPair and ParseValue, from the
   * empty map; the lemmas above then apply to every parsed object.
   */
  lemma ObjectIsPairLoop(s: string)
    requires var t := Trim(s); EndsWith(t, '}') && |t| >= 2 && Trim(t[1..|t| - 1]) != []
    ensures var t := Trim(s);
      ParseObject(s) == PairsWith(SplitPair, ParseValue, SplitTopLevel(t[1..|t| - 1]), [])
  {
    var pieces, bound := ObjectIsParsePairs(s);
    ParsePairsIsPairsWith(pieces, [], bound);
  }

  /** A braced text with a non-blank body is the parse of the top-level pieces of the body, each shorter than the text. */
  lemma ObjectIsParsePairs(s: string) returns (pieces: seq<string>, bound: nat)
    requires var t := Trim(s); EndsWith(t, '}') && |t| >= 2 && Trim(t[1..|t| - 1]) != []
    ensures var t := Trim(s); pieces == SplitTopLevel(t[1..|t| - 1]) && bound == |t|
    ensures forall i :: 0 <= i < |pieces| ==> |pieces[i]| < bound
    ensures ParseObject(s) == ParsePairs(pieces, [], bound)
  {
    var t := Trim(s);
    pieces, bound := SplitTopLevel(t[1..|t| - 1]), |t|;
    SplitTopLevelPieces(t[1..|t| - 1]);
  }

  /**
   * A duplicate key: the last piece that names a key gives it its value in
   * the parsed object (the key keeps the position of its first occurrence,
   * by `Put`).
   */
  lemma ObjectLastWins(p: string, i: nat)
    requires p != [] && Trim(p) == p
    requires i < |SplitTopLevel(p)| && SplitPair(SplitTopLevel(p)[i]).Ok?
    requires forall j :: i < j < |SplitTopLevel(p)| ==>
      KeyBy(SplitPair, SplitTopLevel(p)[j]) != KeyBy(SplitPair, SplitTopLevel(p)[i])
    ensures var r := ParseValue("{" + p + "}");
      var kv := SplitPair(SplitTopLevel(p)[i]).value;
      r.Ok? ==> r.value.Obj? && ParseValue(kv.1).Ok? && Get(r.value.entries, kv.0) == Some(ParseValue(kv.1).value)
  {
    var ps := SplitTopLevel(p);
    var kv := SplitPair(ps[i]).value;
    assert KeyBy(SplitPair, ps[i]) == Some(kv.0);
    LaterNoneNames(SplitPair, ps, i, kv.0);
    BracedPieces(p);
    PairsLastWins(SplitPair, ParseValue, ps, [], i, kv.0, kv.1);
  }

  /** The pieces after the i-th, none of which names `k`. */
  lemma LaterNoneNames(split: string -> Result<(string, string)>, ps: seq<string>, i: nat, k: string)
    requires i < |ps| && forall j :: i < j < |ps| ==> KeyBy(split, ps[j]) != Some(k)
    ensures NoneNames(split, ps[i + 1..], k)
  {
    var later := ps[i + 1..];
    forall j | 0 <= j < |later| ensures KeyBy(split, later[j]) != Some(k) {
      assert later[j] == ps[i + 1 + j];
    }
  }

  /** Keys that no piece names are absent from the parsed object. */
  lemma ObjectOnlyNamedKeys(p: string, k: string)
    requires p != [] && Trim(p) == p
    requires forall j :: 0 <= j < |SplitTopLevel(p)| ==> KeyBy(SplitPair, SplitTopLevel(p)[j]) != Some(k)
    ensures var r := ParseValue("{" + p + "}");
      r.Ok? ==> r.value.Obj? && Get(r.value.entries, k) == None
  {
    BracedPieces(p);
    assert NoneNames(SplitPair, SplitTopLevel(p), k);
    PairsKeepOther(SplitPair, ParseValue, SplitTopLevel(p), [], k);
  }

  /** Every object the parser returns has each key once. */
  lemma ObjectKeysUnique(s: string)
    ensures ParseValue(s).Ok? && ParseValue(s).value.Obj? ==> UniqueKeys(ParseValue(s).value.entries)
  {
    var t := Trim(s);
    if StartsWith(t, '{') {
      ParsedObjectKeysUnique(t);
    } else if StartsWith(t, '[') {
      var u := Trim(t);
      if |u| >= 2 {
        SplitTopLevelPieces(u[1..|u| - 1]);
      }
    }
  }

  /** The same for `parseObject` itself. */
  lemma ParsedObjectKeysUnique(t: string)
    ensures ParseObject(t).Ok? && ParseObject(t).value.Obj? ==> UniqueKeys(ParseObject(t).value.entries)
  {
    var u := Trim(t);
    if EndsWith(u, '}') && |u| >= 2 && Trim(u[1..|u| - 1]) != [] {
      ObjectIsPairLoop(t);
      PairsKeepUnique(SplitPair, ParseValue, SplitTopLevel(u[1..|u| - 1]), []);
    }
  }

  // ---------------------------------------------------------------------------
  // Which objects parse, which error a failing one gives, and key order
  // ---------------------------------------------------------------------------

  /** The pair loop succeeds exactly when every piece splits and its value parses. */
  lemma {:induction false} PairsSucceed(split: string -> Result<(string, string)>, f: string -> Result<Json>,
                                        pairs: seq<string>, m: Entries)
    ensures PairsWith(split, f, pairs, m).Ok? <==> PairsParse(split, f, pairs)
    decreases |pairs|
  {
    if pairs != [] {
      if PairParse(split, f, pairs[0]).Ok? {
        var m' := PairsStep(split, f, pairs, m);
        var tail := pairs[1..];
        PairsSucceed(split, f, tail, m');
        assert forall i :: 0 < i < |pairs| ==> pairs[i] == tail[i - 1];
      } else {
        PairsStopAtHead(split, f, pairs, m);
      }
    }
  }

  /** When the pair loop fails, the error is that of the first piece that does not split or whose value does not parse. */
  lemma {:induction false} PairsFirstError(split: string -> Result<(string, string)>, f: string -> Result<Json>,
                                           pairs: seq<string>, m: Entries)
    ensures var r := PairsWith(split, f, pairs, m);
      r.Err? ==>
        exists i :: 0 <= i < |pairs| && PairParse(split, f, pairs[i]) == Err(r.error) &&
                    forall j :: 0 <= j < i ==> PairParse(split, f, pairs[j]).Ok?
    decreases |pairs|
  {
    if pairs != [] && PairParse(split, f, pairs[0]).Ok? {
      var m' := PairsStep(split, f, pairs, m);
      var tail := pairs[1..];
      PairsFirstError(split, f, tail, m');
      var r := PairsWith(split, f, tail, m');
      if r.Err? {
        var i :| 0 <= i < |tail| && PairParse(split, f, tail[i]) == Err(r.error) &&
          forall j :: 0 <= j < i ==> PairParse(split, f, tail[j]).Ok?;
        FirstErrorShift(split, f, pairs, i, r.error);
      }
    }
  }

  /** A first failing piece of the tail, behind a first piece that parses, is the first failing piece of all. */
  lemma FirstErrorShift(split: string -> Result<(string, string)>, f: string -> Result<Json>,
                        pairs: seq<string>, i: nat, e: Error)
    requires pairs != [] && PairParse(split, f, pairs[0]).Ok?
    requires i < |pairs| - 1 && PairParse(split, f, pairs[1..][i]) == Err(e)
    requires forall j :: 0 <= j < i ==> PairParse(split, f, pairs[1..][j]).Ok?
    ensures exists n :: 0 <= n < |pairs| && PairParse(split, f, pairs[n]) == Err(e) &&
                        forall j :: 0 <= j < n ==> PairParse(split, f, pairs[j]).Ok?
  {
    var tail := pairs[1..];
    assert pairs[i + 1] == tail[i];
    assert forall j :: 0 < j <= i ==> pairs[j] == tail[j - 1];
  }

  /** A failing piece after pieces that all parse decides the error of the pair loop. */
  lemma PairsErrorAt(split: string -> Result<(string, string)>, f: string -> Result<Json>,
                     pairs: seq<string>, m: Entries, i: nat)
    requires i < |pairs| && PairParse(split, f, pairs[i]).Err? && PairsParse(split, f, pairs[..i])
    ensures PairsWith(split, f, pairs, m) == Err(PairParse(split, f, pairs[i]).error)
  {
    forall j | 0 <= j < i ensures PairParse(split, f, pairs[j]).Ok? {
      assert pairs[..i][j] == pairs[j];
    }
    PairsErrorFrom(split, f, pairs, m, i);
  }

  /** The same, with the pieces before the failing one indexed in place. */
  lemma {:induction false} PairsErrorFrom(split: string -> Result<(string, string)>, f: string -> Result<Json>,
                                          pairs: seq<string>, m: Entries, i: nat)
    requires i < |pairs| && PairParse(split, f, pairs[i]).Err?
    requires forall j :: 0 <= j < i ==> PairParse(split, f, pairs[j]).Ok?
    ensures PairsWith(split, f, pairs, m) == Err(PairParse(split, f, pairs[i]).error)
    decreases i, 1
  {
    if i == 0 {
      PairsErrorAtHead(split, f, pairs, m);
    } else {
      PairsErrorNext(split, f, pairs, m, i);
    }
  }

  /** The step of PairsErrorFrom past a first piece that parses. */
  lemma {:induction false} PairsErrorNext(split: string -> Result<(string, string)>, f: string -> Result<Json>,
                                          pairs: seq<string>, m: Entries, i: nat)
    requires 0 < i < |pairs| && PairParse(split, f, pairs[i]).Err?
    requires forall j :: 0 <= j < i ==> PairParse(split, f, pairs[j]).Ok?
    ensures PairsWith(split, f, pairs, m) == Err(PairParse(split, f, pairs[i]).error)
    decreases i, 0
  {
    PairsTailParse(split, f, pairs, i);
    var m' := PairsStep(split, f, pairs, m);
    PairsErrorFrom(split, f, pairs[1..], m', i - 1);
  }

  /** Past a first piece that parses, the same pieces parse and fail one place earlier in the tail. */
  lemma PairsTailParse(split: string -> Result<(string, string)>, f: string -> Result<Json>,
                       pairs: seq<string>, i: nat)
    requires 0 < i < |pairs| && PairParse(split, f, pairs[i]).Err?
    requires forall j :: 0 <= j < i ==> PairParse(split, f, pairs[j]).Ok?
    ensures split(pairs[0]).Ok? && f(split(pairs[0]).value.1).Ok?
    ensures pairs[1..][i - 1] == pairs[i] && PairParse(split, f, pairs[1..][i - 1]).Err?
    ensures forall j :: 0 <= j < i - 1 ==> PairParse(split, f, pairs[1..][j]).Ok?
  {
    PairParseOk(split, f, pairs[0]);
    var tail := pairs[1..];
    assert forall j :: 0 <= j < i - 1 ==> tail[j] == pairs[j + 1];
  }

  /** A piece that parses splits, and the text of its value parses. */
  lemma PairParseOk(split: string -> Result<(string, string)>, f: string -> Result<Json>, pair: string)
    requires PairParse(split, f, pair).Ok?
    ensures split(pair).Ok? && f(split(pair).value.1).Ok?
  {
  }

  /** A first piece that does not parse decides the error of the pair loop. */
  lemma PairsErrorAtHead(split: string -> Result<(string, string)>, f: string -> Result<Json>,
                         pairs: seq<string>, m: Entries)
    requires pairs != [] && PairParse(split, f, pairs[0]).Err?
    ensures PairsWith(split, f, pairs, m) == Err(PairParse(split, f, pairs[0]).error)
  {
  }

  /** On success, the keys of the map are the old keys followed by the piece keys, each kept where it first occurs. */
  lemma {:induction false} PairsKeysInOrder(split: string -> Result<(string, string)>, f: string -> Result<Json>,
                                            pairs: seq<string>, m: Entries)
    requires UniqueKeys(m)
    ensures var r := PairsWith(split, f, pairs, m);
      r.Ok? ==> r.value.Obj? && Keys(r.value.entries) == FirstOccurrences(Keys(m) + PieceKeys(split, pairs))
    decreases |pairs|
  {
    if pairs == [] {
      assert Keys(m) + PieceKeys(split, pairs) == Keys(m);
      FirstOccurrencesOfDistinct(Keys(m));
    } else if PairParse(split, f, pairs[0]).Ok? {
      var k := split(pairs[0]).value.0;
      var m' := PairsStepKeys(split, f, pairs, m);
      PairsKeysInOrder(split, f, pairs[1..], m');
      var r := PairsWith(split, f, pairs[1..], m');
      if r.Ok? {
        KeysAfterStep(Keys(m), k, PieceKeys(split, pairs[1..]));
      }
    } else {
      PairsStopAtHead(split, f, pairs, m);
    }
  }

  /** The first occurrences after one more key, then the later keys, are those of all the keys together. */
  lemma KeysAfterStep(ks: seq<string>, k: string, later: seq<string>)
    ensures FirstOccurrences(FirstOccurrences(ks + [k]) + later) == FirstOccurrences(ks + ([k] + later))
  {
    AppendAssoc(ks, [k], later);
    FirstOccurrencesAbsorb(ks + [k], later);
  }

  lemma AppendAssoc(a: seq<string>, b: seq<string>, c: seq<string>)
    ensures a + b + c == a + (b + c)
  {
  }

  /** One turn of the pair loop: the map it leaves has each key once, and the new key is kept where it first occurs. */
  lemma PairsStepKeys(split: string -> Result<(string, string)>, f: string -> Result<Json>,
                      pairs: seq<string>, m: Entries) returns (m': Entries)
    requires UniqueKeys(m) && pairs != [] && PairParse(split, f, pairs[0]).Ok?
    ensures PairsWith(split, f, pairs, m) == PairsWith(split, f, pairs[1..], m')
    ensures UniqueKeys(m')
    ensures Keys(m') == FirstOccurrences(Keys(m) + [split(pairs[0]).value.0])
    ensures PieceKeys(split, pairs) == [split(pairs[0]).value.0] + PieceKeys(split, pairs[1..])
  {
    var kv := split(pairs[0]).value;
    m' := Put(m, kv.0, f(kv.1).value);
    PutKeysFirstOccur(m, kv.0, f(kv.1).value);
  }

  /** `Put` on a map with each key once gives the old keys and the new one, kept where it first occurs. */
  lemma PutKeysFirstOccur(m: Entries, k: string, v: Json)
    requires UniqueKeys(m)
    ensures Keys(Put(m, k, v)) == FirstOccurrences(Keys(m) + [k])
  {
    var ks := Keys(m) + [k];
    assert ks[..|ks| - 1] == Keys(m);
    FirstOccurrencesOfDistinct(Keys(m));
  }

  /** The first occurrences hold the same keys, each once. */
  lemma {:induction false} FirstOccurrencesKeys(ks: seq<string>)
    ensures forall k :: k in FirstOccurrences(ks) <==> k in ks
    ensures Distinct(FirstOccurrences(ks))
  {
    if ks != [] {
      var init := ks[..|ks| - 1];
      var last := ks[|ks| - 1];
      FirstOccurrencesKeys(init);
      assert ks == init + [last];
      if last !in init {
        DistinctSnoc(FirstOccurrences(init), last);
      }
    }
  }

  /** A sequence without repeats keeps every element. */
  lemma {:induction false} FirstOccurrencesOfDistinct(ks: seq<string>)
    requires Distinct(ks)
    ensures FirstOccurrences(ks) == ks
  {
    if ks != [] {
      var init := ks[..|ks| - 1];
      assert Distinct(init);
      FirstOccurrencesOfDistinct(init);
      assert ks[|ks| - 1] !in init;
      assert ks == init + [ks[|ks| - 1]];
    }
  }

  /** Dropping repeats early does not change which first occurrences are kept. */
  lemma {:induction false} FirstOccurrencesAbsorb(a: seq<string>, b: seq<string>)
    ensures FirstOccurrences(FirstOccurrences(a) + b) == FirstOccurrences(a + b)
    decreases |b|
  {
    FirstOccurrencesKeys(a);
    if b == [] {
      assert FirstOccurrences(a) + b == FirstOccurrences(a);
      assert a + b == a;
      FirstOccurrencesOfDistinct(FirstOccurrences(a));
    } else {
      var b' := b[..|b| - 1];
      var x := b[|b| - 1];
      FirstOccurrencesAbsorb(a, b');
      var u, w := FirstOccurrences(a) + b, a + b;
      assert u[..|u| - 1] == FirstOccurrences(a) + b' && u[|u| - 1] == x;
      assert w[..|w| - 1] == a + b' && w[|w| - 1] == x;
      assert x in FirstOccurrences(a) + b' <==> x in a + b';
    }
  }

  /** An element not in a sequence without repeats may be appended to it. */
  lemma DistinctSnoc(s: seq<string>, x: string)
    requires Distinct(s) && x !in s
    ensures Distinct(s + [x])
  {
  }

  /** Object text that starts with `{` is parsed by parseObject. */
  lemma ObjectDispatch(s: string)
    requires StartsWith(Trim(s), '{')
    ensures ParseValue(s) == ParseObject(s)
  {
    TrimIdempotent(s);
  }

  /**
   * An object parses exactly when its trimmed text ends in `}` and every
   * top-level piece of its body splits at a `:` into a key and a value text
   * that parses; a blank body has no pieces.
   */
  lemma ObjectSucceeds(s: string)
    ensures var t := Trim(s);
      ParseObject(s).Ok? <==>
        EndsWith(t, '}') && |t| >= 2 && PairsParse(SplitPair, ParseValue, SplitTopLevel(t[1..|t| - 1]))
  {
    var t := Trim(s);
    if EndsWith(t, '}') && |t| >= 2 {
      var ps := ObjectPieces(s);
      PairsSucceed(SplitPair, ParseValue, ps, []);
    }
  }

  /**
   * An object text that ends in `}` is the pair loop over the top-level
   * pieces of its body, from the empty map; a blank body has no pieces.
   */
  lemma ObjectPieces(s: string) returns (ps: seq<string>)
    requires var t := Trim(s); EndsWith(t, '}') && |t| >= 2
    ensures var t := Trim(s); ps == SplitTopLevel(t[1..|t| - 1])
    ensures ParseObject(s) == PairsWith(SplitPair, ParseValue, ps, [])
  {
    var t := Trim(s);
    var inner := t[1..|t| - 1];
    ps := SplitTopLevel(inner);
    NoPiecesIffBlank(inner);
    if Trim(inner) != [] {
      ObjectIsPairLoop(s);
    }
  }

  /**
   * A failing object fails with "Invalid JSON object" when it does not end
   * in `}`, and otherwise with the error of the first piece of its body
   * that does not split or whose value does not parse.
   */
  lemma ObjectFirstError(s: string)
    ensures var t := Trim(s);
      var r := ParseObject(s);
      r.Err? ==>
        if !EndsWith(t, '}') then r.error == InvalidObject(t)
        else if |t| < 2 then r.error == StringIndexOutOfBounds
        else
          var ps := SplitTopLevel(t[1..|t| - 1]);
          exists i :: 0 <= i < |ps| && PairParse(SplitPair, ParseValue, ps[i]) == Err(r.error) &&
                      forall j :: 0 <= j < i ==> PairParse(SplitPair, ParseValue, ps[j]).Ok?
  {
    var t := Trim(s);
    if EndsWith(t, '}') && |t| >= 2 {
      var ps := ObjectPieces(s);
      PairsFirstError(SplitPair, ParseValue, ps, []);
    }
  }

  /**
   * The first piece with no `:`, after pieces that all parse, fails the
   * object with "Invalid key-value pair" and that piece.
   */
  lemma PairWithoutColon(s: string, i: nat)
    requires var t := Trim(s);
      EndsWith(t, '}') && |t| >= 2 && i < |SplitTopLevel(t[1..|t| - 1])| &&
      ':' !in SplitTopLevel(t[1..|t| - 1])[i] && PairsParse(SplitPair, ParseValue, SplitTopLevel(t[1..|t| - 1])[..i])
    ensures var t := Trim(s);
      ParseObject(s) == Err(InvalidPair(SplitTopLevel(t[1..|t| - 1])[i]))
  {
    var ps := ObjectPieces(s);
    PiecesWithoutColon(ps, i);
  }

  /** The pair loop over pieces whose first piece with no `:` follows pieces that all parse fails on that piece. */
  lemma PiecesWithoutColon(ps: seq<string>, i: nat)
    requires i < |ps| && ':' !in ps[i] && PairsParse(SplitPair, ParseValue, ps[..i])
    ensures PairsWith(SplitPair, ParseValue, ps, []) == Err(InvalidPair(ps[i]))
  {
    assert PairParse(SplitPair, ParseValue, ps[i]) == Err(InvalidPair(ps[i]));
    PairsErrorAt(SplitPair, ParseValue, ps, [], i);
  }

  /**
   * A parsed object holds the keys its pieces name, in the order in which
   * each key first occurs; a later duplicate keeps the first position.
   */
  lemma ObjectKeysInOrder(s: string)
    ensures var t := Trim(s);
      var r := ParseObject(s);
      r.Ok? ==>
        |t| >= 2 && r.value.Obj? &&
        Keys(r.value.entries) == FirstOccurrences(PieceKeys(SplitPair, SplitTopLevel(t[1..|t| - 1])))
  {
    var t := Trim(s);
    if EndsWith(t, '}') && |t| >= 2 {
      var ps := ObjectPieces(s);
      PairsKeysInOrder(SplitPair, ParseValue, ps, []);
      assert Keys([]) + PieceKeys(SplitPair, ps) == PieceKeys(SplitPair, ps);
    }
  }

  /**
   * Braces around non-empty, trimmed pieces joined with commas, each
   * balanced with no comma at its top level: the object is the pair loop
   * over exactly those pieces.
   */
  lemma ObjectOfJoinedPairs(ps: seq<string>)
    requires |ps| >= 1 && Joinable(ps)
    ensures ParseValue("{" + Join(ps, ',') + "}") == PairsWith(SplitPair, ParseValue, ps, [])
  {
    var j := Join(ps, ',');
    var s := "{" + j + "}";
    SplitJoinPieces(ps);
    JoinTrimmed(ps);
    TrimFixed(s);
    assert s[1..|s| - 1] == j;
    ObjectDispatch(s);
    ObjectIsPairLoop(s);
  }

  /** Pieces that a comma join and the splitter give back unchanged: non-empty, trimmed and balanced with no comma at their top level. */
  predicate Joinable(ps: seq<string>) {
    forall i :: 0 <= i < |ps| ==> ps[i] != [] && Trim(ps[i]) == ps[i] && Balanced(ps[i], false)
  }

  lemma JoinableTwo(p1: string, p2: string)
    requires p1 != [] && Trim(p1) == p1 && Balanced(p1, false)
    requires p2 != [] && Trim(p2) == p2 && Balanced(p2, false)
    ensures Joinable([p1, p2]) && Joinable([p1]) && Joinable([p2])
  {
  }

  /** One turn of the pair loop over a piece that gives `k` the value `x`. */
  lemma PairsHead(split: string -> Result<(string, string)>, f: string -> Result<Json>,
                  pairs: seq<string>, m: Entries, k: string, x: Json)
    requires pairs != [] && PairParse(split, f, pairs[0]) == Ok((k, x))
    ensures PairsWith(split, f, pairs, m) == PairsWith(split, f, pairs[1..], Put(m, k, x))
  {
    PairParseParts(split, f, pairs[0], k, x);
  }

  /** A piece that gives `k` the value `x` splits into `k` and a value text that parses to `x`. */
  lemma PairParseParts(split: string -> Result<(string, string)>, f: string -> Result<Json>,
                       pair: string, k: string, x: Json)
    requires PairParse(split, f, pair) == Ok((k, x))
    ensures split(pair).Ok? && split(pair).value.0 == k && f(split(pair).value.1) == Ok(x)
  {
  }

  /** Braces around one balanced, trimmed piece that gives `k` the value `x`: the object maps `k` to `x`. */
  lemma ObjectOfOnePair(p: string, k: string, x: Json)
    requires p != [] && Trim(p) == p && Balanced(p, false)
    requires PairParse(SplitPair, ParseValue, p) == Ok((k, x))
    ensures ParseValue("{" + p + "}") == Ok(Obj([(k, x)]))
  {
    JoinOnePiece(p);
    JoinableTwo(p, p);
    ObjectOfJoinedPairs([p]);
    OnePairLoop(SplitPair, ParseValue, p, k, x);
  }

  /** Joining one piece gives that piece. */
  lemma JoinOnePiece(p: string)
    ensures "{" + Join([p], ',') + "}" == "{" + p + "}"
  {
  }

  /** The pair loop over one piece that gives `k` the value `x`. */
  lemma OnePairLoop(split: string -> Result<(string, string)>, f: string -> Result<Json>, p: string, k: string, x: Json)
    requires PairParse(split, f, p) == Ok((k, x))
    ensures PairsWith(split, f, [p], []) == Ok(Obj([(k, x)]))
  {
    PairsHead(split, f, [p], [], k, x);
    assert [p][1..] == [];
    assert Put([], k, x) == [(k, x)];
  }

  /**
   * Braces around two balanced, trimmed pieces, joined with a comma, that
   * give two different keys their values: the object holds both, in order.
   */
  lemma ObjectOfTwoPairs(p1: string, k1: string, x1: Json, p2: string, k2: string, x2: Json)
    requires k1 != k2
    requires p1 != [] && Trim(p1) == p1 && Balanced(p1, false)
    requires p2 != [] && Trim(p2) == p2 && Balanced(p2, false)
    requires PairParse(SplitPair, ParseValue, p1) == Ok((k1, x1))
    requires PairParse(SplitPair, ParseValue, p2) == Ok((k2, x2))
    ensures ParseValue("{" + p1 + "," + p2 + "}") == Ok(Obj([(k1, x1), (k2, x2)]))
  {
    var ps := [p1, p2];
    JoinTwoPieces(p1, p2);
    JoinableTwo(p1, p2);
    ObjectOfJoinedPairs(ps);
    TwoPairsLoop(SplitPair, ParseValue, p1, k1, x1, p2, k2, x2);
  }

  /** Joining two pieces puts one comma between them. */
  lemma JoinTwoPieces(p1: string, p2: string)
    ensures "{" + Join([p1, p2], ',') + "}" == "{" + p1 + "," + p2 + "}"
  {
    assert [p1, p2][..1] == [p1];
  }

  /** The pair loop over two pieces that give two different keys their values. */
  lemma TwoPairsLoop(split: string -> Result<(string, string)>, f: string -> Result<Json>,
                     p1: string, k1: string, x1: Json, p2: string, k2: string, x2: Json)
    requires k1 != k2
    requires PairParse(split, f, p1) == Ok((k1, x1)) && PairParse(split, f, p2) == Ok((k2, x2))
    ensures PairsWith(split, f, [p1, p2], []) == Ok(Obj([(k1, x1), (k2, x2)]))
  {
    var ps := [p1, p2];
    PairsHead(split, f, ps, [], k1, x1);
    assert ps[1..] == [p2];
    assert Put([], k1, x1) == [(k1, x1)];
    PairsHead(split, f, [p2], [(k1, x1)], k2, x2);
    assert [p2][1..] == [];
    PutSecond(k1, x1, k2, x2);
  }

  /** A second, different key goes after the first. */
  lemma PutSecond(k1: string, x1: Json, k2: string, x2: Json)
    requires k1 != k2
    ensures Put([(k1, x1)], k2, x2) == [(k1, x1), (k2, x2)]
  {
    var m := [(k1, x1)];
    assert m[1..] == [];
    assert Put([], k2, x2) == [(k2, x2)];
    assert [m[0]] + [(k2, x2)] == [(k1, x1), (k2, x2)];
  }

  /** Braces around text balanced with top-level commas allowed are balanced text. */
  lemma BracedBalanced(body: string, b: bool)
    requires Balanced(body, true)
    ensures Balanced("{" + body + "}", b)
  {
    var u := "{" + body + "}";
    assert u[1..|u| - 1] == body;
  }

  /**
   * `{"k1":"t","k2":n}`, for two different keys, a string and a
   * non-negative long: it parses to the map of both keys, in order, and is
   * itself a balanced, trimmed text ending in `}`.
   */
  lemma FlatObject(k1: string, t: string, k2: string, n: nat)
    requires Unescaped(k1) && ':' !in k1 && Unescaped(k2) && ':' !in k2 && k1 != k2
    requires Unescaped(t) && n <= LongMax
    ensures var inner := "{\"" + k1 + "\":\"" + t + "\",\"" + k2 + "\":" + NatToString(n) + "}";
      ParseValue(inner) == Ok(Obj([(k1, Str(t)), (k2, Int(n))])) &&
      Balanced(inner, false) && inner[|inner| - 1] == '}'
  {
    var p1 := "\"" + k1 + "\":\"" + t + "\"";
    var p2 := "\"" + k2 + "\":" + NatToString(n);
    StringPair(k1, t);
    NumberPair(k2, n);
    ObjectOfTwoPairs(p1, k1, Str(t), p2, k2, Int(n));
    CommaBalanced();
    BalancedThree(p1, ",", p2, true);
    BracedBalanced(p1 + "," + p2, false);
    FlatObjectText(k1, t, k2, NatToString(n), p1, p2);
  }

  /** The text of FlatObject is its two pairs, joined with a comma, in braces. */
  lemma FlatObjectText(k1: string, t: string, k2: string, v: string, p1: string, p2: string)
    requires p1 == "\"" + k1 + "\":\"" + t + "\"" && p2 == "\"" + k2 + "\":" + v
    ensures "{\"" + k1 + "\":\"" + t + "\",\"" + k2 + "\":" + v + "}" == "{" + p1 + "," + p2 + "}" == "{" + (p1 + "," + p2) + "}"
  {
  }

  /**
   * `{"a":{"k1":"t","k2":n}}`: one key whose value is the map of FlatObject.
   */
  lemma NestedObject(a: string, k1: string, t: string, k2: string, n: nat)
    requires Unescaped(a) && ':' !in a
    requires Unescaped(k1) && ':' !in k1 && Unescaped(k2) && ':' !in k2 && k1 != k2
    requires Unescaped(t) && n <= LongMax
    ensures ParseValue("{\"" + a + "\":{\"" + k1 + "\":\"" + t + "\",\"" + k2 + "\":" + NatToString(n) + "}}")
      == Ok(Obj([(a, Obj([(k1, Str(t)), (k2, Int(n))]))]))
  {
    var inner := "{\"" + k1 + "\":\"" + t + "\",\"" + k2 + "\":" + NatToString(n) + "}";
    var x := Obj([(k1, Str(t)), (k2, Int(n))]);
    FlatObject(k1, t, k2, n);
    ValuePair(a, inner, x);
    PairBalanced(a, inner, false);
    var p := "\"" + a + "\":" + inner;
    ObjectOfOnePair(p, a, x);
    NestedObjectText(a, k1, t, k2, NatToString(n), inner);
  }

  /** The text of NestedObject is one pair, with the text of FlatObject as its value, in braces. */
  lemma NestedObjectText(a: string, k1: string, t: string, k2: string, v: string, inner: string)
    requires inner == "{\"" + k1 + "\":\"" + t + "\",\"" + k2 + "\":" + v + "}"
    ensures "{" + ("\"" + a + "\":" + inner) + "}" == "{\"" + a + "\":{\"" + k1 + "\":\"" + t + "\",\"" + k2 + "\":" + v + "}}"
  {
  }

  /** A text with neither a quote nor a backslash in it. */
  predicate Unescaped(x: string) {
    '"' !in x && '\\' !in x
  }

  /** `"k":"t"` is a trimmed, balanced piece that gives the key `k` the string `t`. */
  lemma StringPair(k: string, t: string)
    requires Unescaped(k) && ':' !in k && Unescaped(t)
    ensures var p := "\"" + k + "\":\"" + t + "\"";
      PairParse(SplitPair, ParseValue, p) == Ok((k, Str(t))) &&
      Trim(p) == p && Balanced(p, false) && Balanced(p, true)
  {
    var v := "\"" + t + "\"";
    assert "\"" + k + "\":" + v == "\"" + k + "\":\"" + t + "\"";
    StringLiteral(t);
    ValuePair(k, v, Str(t));
    QuotedBalanced(t, false);
    QuotedBalanced(t, true);
    PairBalanced(k, v, false);
    PairBalanced(k, v, true);
  }

  /** `"k":n`, for a non-negative long `n` written in decimal, is a trimmed, balanced piece that gives the key `k` the number `n`. */
  lemma NumberPair(k: string, n: nat)
    requires Unescaped(k) && ':' !in k && n <= LongMax
    ensures var p := "\"" + k + "\":" + NatToString(n);
      PairParse(SplitPair, ParseValue, p) == Ok((k, Int(n))) &&
      Trim(p) == p && Balanced(p, false) && Balanced(p, true)
  {
    var v := NatToString(n);
    NumberValuePair(k, n);
    DigitsBalanced(v, false);
    DigitsBalanced(v, true);
    PairBalanced(k, v, false);
    PairBalanced(k, v, true);
  }

  /** The pair part of NumberPair. */
  lemma NumberValuePair(k: string, n: nat)
    requires Unescaped(k) && ':' !in k && n <= LongMax
    ensures var p := "\"" + k + "\":" + NatToString(n);
      PairParse(SplitPair, ParseValue, p) == Ok((k, Int(n))) && Trim(p) == p
  {
    LongLiteral(n);
    ValuePair(k, NatToString(n), Int(n));
  }

  /** Decimal digits are balanced text. */
  lemma DigitsBalanced(v: string, b: bool)
    requires AllDigits(v)
    ensures Balanced(v, b)
  {
    PlainBalanced(v, b);
  }

  /** `"k":v`, for a value text `v` that parses and does not end in white space, is a trimmed piece that gives `k` what `v` parses to. */
  lemma ValuePair(k: string, v: string, x: Json)
    requires Unescaped(k) && ':' !in k && v != [] && !IsWhite(v[|v| - 1]) && ParseValue(v) == Ok(x)
    ensures var p := "\"" + k + "\":" + v;
      PairParse(SplitPair, ParseValue, p) == Ok((k, x)) && Trim(p) == p
  {
    var p := "\"" + k + "\":" + v;
    BareQuotedPairKey(k, v);
    PairParseIs(p, k, v, x);
    QuotedKeyTrimmed(k, v);
  }

  /** A piece that splits into `k` and `v`, where `v` parses to `x`, gives `k` the value `x`. */
  lemma PairParseIs(pair: string, k: string, v: string, x: Json)
    requires SplitPair(pair) == Ok((k, v)) && ParseValue(v) == Ok(x)
    ensures PairParse(SplitPair, ParseValue, pair) == Ok((k, x))
  {
  }

  /** `"k":v` is its own trim when `v` is not empty and does not end in white space. */
  lemma QuotedKeyTrimmed(k: string, v: string)
    requires v != [] && !IsWhite(v[|v| - 1])
    ensures Trim("\"" + k + "\":" + v) == "\"" + k + "\":" + v
  {
    var p := "\"" + k + "\":" + v;
    assert p[|p| - 1] == v[|v| - 1];
    TrimFixed(p);
  }

  /** A quoted key with no margins, then `:`: the key is the text between the quotes and the value text is the rest. */
  lemma BareQuotedPairKey(k: string, v: string)
    requires ':' !in k
    ensures SplitPair("\"" + k + "\":" + v) == Ok((k, v))
  {
    var q := "\"" + k + "\"";
    var pair := q + ":" + v;
    assert pair == "\"" + k + "\":" + v;
    assert ':' !in q;
    PairCut(q, v);
    TrimFixed(q);
    assert StartsWith(q, '"') && EndsWith(q, '"') && q[1..|q| - 1] == k;
    QuotedKeySplits(pair, q, v);
  }

  /** A quoted key, a colon and a balanced value text make a balanced pair. */
  lemma PairBalanced(k: string, v: string, b: bool)
    requires Unescaped(k) && Balanced(v, b)
    ensures Balanced("\"" + k + "\":" + v, b)
  {
    var q := "\"" + k + "\"";
    QuotedBalanced(k, b);
    PlainBalanced(":", b);
    BalancedThree(q, ":", v, b);
    assert q + ":" + v == "\"" + k + "\":" + v;
  }

  /** Three balanced texts in a row are balanced. */
  lemma BalancedThree(x: string, y: string, z: string, b: bool)
    requires Balanced(x, b) && Balanced(y, b) && Balanced(z, b)
    ensures Balanced(x + y + z, b)
  {
    BalancedConcat(x, y, b);
    BalancedConcat(x + y, z, b);
  }

  // ---------------------------------------------------------------------------
  // Arrays
  // ---------------------------------------------------------------------------

  /**
   * The element loop of parseArray over any element parser `f`. Stating the
   * loop lemmas for an arbitrary `f` keeps the solver from unfolding the
   * parser inside them.
   */
  function ItemsWith(f: string -> Result<Json>, items: seq<string>, acc: seq<Json>): Result<Json>
  {
    if items == [] then Ok(Arr(acc))
    else
      var v :- f(items[0]);
      ItemsWith(f, items[1..], acc + [v])
  }

  /** parseArray's element loop is the generic element loop with ParseValue. */
  lemma {:induction false} ParseItemsIsItemsWith(items: seq<string>, acc: seq<Json>, bound: nat)
    requires forall i :: 0 <= i < |items| ==> |items[i]| < bound
    ensures ParseItems(items, acc, bound) == ItemsWith(ParseValue, items, acc)
    decreases |items|
  {
    if items != [] {
      var v := ParseValue(items[0]);
      if v.Ok? {
        ParseItemsIsItemsWith(items[1..], acc + [v.value], bound);
      }
    }
  }

  /** The element loop succeeds exactly when every piece parses. */
  lemma {:induction false} ItemsSucceed(f: string -> Result<Json>, items: seq<string>, acc: seq<Json>)
    ensures ItemsWith(f, items, acc).Ok? <==> forall i :: 0 <= i < |items| ==> f(items[i]).Ok?
    decreases |items|
  {
    if items != [] {
      var v := f(items[0]);
      if v.Ok? {
        var tail := items[1..];
        ItemsSucceed(f, tail, acc + [v.value]);
        assert forall i :: 0 < i < |items| ==> items[i] == tail[i - 1];
      }
    }
  }

  /** When it succeeds, the loop appends the piece values in piece order. */
  lemma {:induction false} ItemsInOrder(f: string -> Result<Json>, items: seq<string>, acc: seq<Json>)
    ensures var r := ItemsWith(f, items, acc);
      r.Ok? ==>
        r.value.Arr? && |r.value.items| == |acc| + |items| && r.value.items[..|acc|] == acc &&
        forall i :: 0 <= i < |items| ==> f(items[i]) == Ok(r.value.items[|acc| + i])
    decreases |items|
  {
    if items != [] {
      var v := f(items[0]);
      if v.Ok? {
        var tail := items[1..];
        var acc' := acc + [v.value];
        ItemsInOrder(f, tail, acc');
        var r := ItemsWith(f, tail, acc');
        if r.Ok? {
          var xs := r.value.items;
          assert xs[..|acc|] == xs[..|acc'|][..|acc|];
          forall i | 0 <= i < |items|
            ensures f(items[i]) == Ok(xs[|acc| + i])
          {
            if i == 0 {
              assert xs[|acc|] == xs[..|acc'|][|acc|] == acc'[|acc|] == v.value;
            } else {
              assert items[i] == tail[i - 1];
            }
          }
        }
      }
    }
  }

  /** When it fails, the error is that of the first piece that does not parse. */
  lemma {:induction false} ItemsFirstError(f: string -> Result<Json>, items: seq<string>, acc: seq<Json>)
    ensures var r := ItemsWith(f, items, acc);
      r.Err? ==>
        exists i :: 0 <= i < |items| && f(items[i]) == Err(r.error) &&
                    forall j :: 0 <= j < i ==> f(items[j]).Ok?
    decreases |items|
  {
    if items != [] {
      var v := f(items[0]);
      var tail := items[1..];
      if v.Ok? {
        var acc' := acc + [v.value];
        ItemsFirstError(f, tail, acc');
        var r := ItemsWith(f, tail, acc');
        if r.Err? {
          var i :| 0 <= i < |tail| && f(tail[i]) == Err(r.error) &&
            forall j :: 0 <= j < i ==> f(tail[j]).Ok?;
          assert items[i + 1] == tail[i];
          assert forall j :: 0 < j <= i ==> items[j] == tail[j - 1];
        }
      }
    }
  }

  /**
   * An array parses exactly when its trimmed text has at least two
   * characters and every top-level piece of its body parses.
   */
  lemma ArraySucceeds(s: string)
    ensures var t := Trim(s);
      ParseArray(s).Ok? <==>
        |t| >= 2 &&
        var pieces := SplitTopLevel(t[1..|t| - 1]);
        forall i :: 0 <= i < |pieces| ==> ParseValue(pieces[i]).Ok?
  {
    if |Trim(s)| >= 2 {
      var pieces := ArrayPieces(s);
      ItemsSucceed(ParseValue, pieces, []);
    }
  }

  /** A parsed array has one element per top-level piece of its body, in order. */
  lemma ArrayElements(s: string)
    ensures var t := Trim(s);
      var r := ParseArray(s);
      r.Ok? ==>
        |t| >= 2 &&
        var pieces := SplitTopLevel(t[1..|t| - 1]);
        r.value.Arr? && |r.value.items| == |pieces| &&
        forall i :: 0 <= i < |pieces| ==> ParseValue(pieces[i]) == Ok(r.value.items[i])
  {
    if |Trim(s)| >= 2 {
      var pieces := ArrayPieces(s);
      ItemsFromEmpty(ParseValue, pieces, ParseArray(s));
    }
  }

  /**
   * A failing array fails with StringIndexOutOfBounds when its trimmed text
   * is shorter than two characters (a lone `[`), and otherwise with the
   * error of the first piece of its body that does not parse.
   */
  lemma ArrayFirstError(s: string)
    ensures var t := Trim(s);
      var r := ParseArray(s);
      r.Err? ==>
        if |t| < 2 then r.error == StringIndexOutOfBounds
        else
          var pieces := SplitTopLevel(t[1..|t| - 1]);
          exists i :: 0 <= i < |pieces| && ParseValue(pieces[i]) == Err(r.error) &&
                      forall j :: 0 <= j < i ==> ParseValue(pieces[j]).Ok?
  {
    if |Trim(s)| >= 2 {
      var pieces := ArrayPieces(s);
      ItemsFirstError(ParseValue, pieces, []);
    }
  }

  /** The lone `[` is sent to parseArray and fails with StringIndexOutOfBounds, as `substring(1, 0)` does. */
  lemma LoneBracket()
    ensures ParseValue("[") == Err(StringIndexOutOfBounds)
  {
    TrimFixed("[");
  }

  /** The element loop from the empty list yields one value per piece, in piece order. */
  lemma ItemsFromEmpty(f: string -> Result<Json>, items: seq<string>, r: Result<Json>)
    requires r == ItemsWith(f, items, [])
    ensures r.Ok? ==>
      r.value.Arr? && |r.value.items| == |items| &&
      forall i :: 0 <= i < |items| ==> f(items[i]) == Ok(r.value.items[i])
  {
    ItemsInOrder(f, items, []);
    if r.Ok? {
      forall i | 0 <= i < |items| ensures f(items[i]) == Ok(r.value.items[i]) {
        assert f(items[i]) == Ok(r.value.items[0 + i]);
      }
    }
  }

  /** Array text is the element loop run over the top-level pieces of its body, from the empty list. */
  lemma ArrayPieces(s: string) returns (pieces: seq<string>)
    requires |Trim(s)| >= 2
    ensures var t := Trim(s); pieces == SplitTopLevel(t[1..|t| - 1])
    ensures ParseArray(s) == ItemsWith(ParseValue, pieces, [])
  {
    var t := Trim(s);
    var bound;
    pieces, bound := ArrayIsParseItems(s);
    ParseItemsIsItemsWith(pieces, [], bound);
  }

  /** Array text is the parse of the top-level pieces of its body, each shorter than the text. */
  lemma ArrayIsParseItems(s: string) returns (pieces: seq<string>, bound: nat)
    requires |Trim(s)| >= 2
    ensures var t := Trim(s); pieces == SplitTopLevel(t[1..|t| - 1]) && bound == |t|
    ensures forall i :: 0 <= i < |pieces| ==> |pieces[i]| < bound
    ensures ParseArray(s) == ParseItems(pieces, [], bound)
  {
    var t := Trim(s);
    pieces, bound := SplitTopLevel(t[1..|t| - 1]), |t|;
    SplitTopLevelPieces(t[1..|t| - 1]);
  }

  /**
   * The last character of array text is dropped whatever it is: no closing
   * `]` is required.
   */
  lemma ArrayCloserIgnored(body: string, c: char)
    requires !IsWhite(c)
    ensures ParseValue("[" + body + [c]) == ParseValue("[" + body + "]")
  {
    var x := "[" + body + [c];
    var y := "[" + body + "]";
    TrimFixed(x);
    TrimFixed(y);
    assert x[1..|x| - 1] == body == y[1..|y| - 1];
  }

  /** `[]` is the empty list. */
  lemma EmptyArray()
    ensures ParseValue("[]") == Ok(Arr([]))
  {
    TrimFixed("[]");
    assert "[]"[1..1] == "";
  }

  /** An element text: not blank, balanced with no comma at its top level, and parsing to `x`. */
  predicate ElementText(q: string, x: Json) {
    Trim(q) != [] && Balanced(q, false) && ParseValue(q) == Ok(x)
  }

  /**
   * Brackets around element texts joined with commas, with white space
   * allowed after each comma: the array holds, in order, the values the
   * elements parse to.
   */
  lemma ArrayOfJoinedValues(qs: seq<string>, xs: seq<Json>)
    requires |qs| >= 1 && NoMargins(Join(qs, ','))
    requires |xs| == |qs| && forall i :: 0 <= i < |qs| ==> ElementText(qs[i], xs[i])
    ensures ParseValue("[" + Join(qs, ',') + "]") == Ok(Arr(xs))
  {
    var pieces := ArrayOfJoinedPieces(qs);
    TrimmedValues(qs, xs);
    ItemsOfValues(ParseValue, pieces, xs);
  }

  /** Trimming value texts does not change what they parse to. */
  lemma TrimmedValues(qs: seq<string>, xs: seq<Json>)
    requires |xs| == |qs| && forall i :: 0 <= i < |qs| ==> ParseValue(qs[i]) == Ok(xs[i])
    ensures forall i :: 0 <= i < |qs| ==> ParseValue(TrimAll(qs)[i]) == Ok(xs[i])
  {
    forall i | 0 <= i < |qs| ensures ParseValue(TrimAll(qs)[i]) == Ok(xs[i]) {
      TrimAllIndex(qs, i);
      TrimIdempotent(qs[i]);
    }
  }

  /** The element loop over pieces that parse to the given values yields exactly those values. */
  lemma ItemsOfValues(f: string -> Result<Json>, items: seq<string>, xs: seq<Json>)
    requires |xs| == |items| && forall i :: 0 <= i < |items| ==> f(items[i]) == Ok(xs[i])
    ensures ItemsWith(f, items, []) == Ok(Arr(xs))
  {
    var r := ItemsWith(f, items, []);
    ItemsSucceed(f, items, []);
    ItemsFromEmpty(f, items, r);
    assert r.value.items == xs;
  }

  /** Brackets around balanced pieces joined with commas: the element loop over those pieces, trimmed. */
  lemma ArrayOfJoinedPieces(qs: seq<string>) returns (pieces: seq<string>)
    requires |qs| >= 1 && NoMargins(Join(qs, ','))
    requires forall i :: 0 <= i < |qs| ==> Trim(qs[i]) != [] && Balanced(qs[i], false)
    ensures pieces == TrimAll(qs)
    ensures ParseValue("[" + Join(qs, ',') + "]") == ItemsWith(ParseValue, pieces, [])
  {
    var j := Join(qs, ',');
    var s := "[" + j + "]";
    SplitJoinTrimsPieces(qs);
    BracketedIsArray(j, s);
    pieces := ArrayPieces(s);
  }

  /** Brackets around trimmed text are left alone by the trim and go to parseArray. */
  lemma BracketedIsArray(p: string, s: string)
    requires NoMargins(p) && s == "[" + p + "]"
    ensures Trim(s) == s && |s| >= 2 && s[1..|s| - 1] == p
    ensures ParseValue(s) == ParseArray(s)
  {
    TrimFixed(s);
    assert s[1..|s| - 1] == p;
  }

  /** Brackets around balanced pieces joined with commas are balanced text. */
  lemma JoinedArrayBalanced(qs: seq<string>, b: bool)
    requires forall i :: 0 <= i < |qs| ==> Balanced(qs[i], false)
    ensures Balanced("[" + Join(qs, ',') + "]", b)
  {
    var u := "[" + Join(qs, ',') + "]";
    JoinBalanced(qs);
    assert u[1..|u| - 1] == Join(qs, ',');
  }

  /** White space, then balanced text, is balanced text. */
  lemma SpacedBalanced(x: string, b: bool)
    requires Balanced(x, b)
    ensures Balanced(" " + x, b)
  {
    PlainBalanced(" ", b);
    BalancedConcat(" ", x, b);
  }

  /** White space before a value text does not change what it parses to. */
  lemma SpacedValue(x: string)
    ensures ParseValue(" " + x) == ParseValue(x)
  {
    ParseIgnoresMargins(" ", x, "");
    assert " " + x + "" == " " + x;
  }

  /**
   * `{"k":v}`, for a balanced value text `v` that parses to `x` and does not
   * end in white space: the map of `k` to `x`, itself balanced text.
   */
  lemma ObjectOfValuePair(k: string, v: string, x: Json)
    requires Unescaped(k) && ':' !in k && v != [] && !IsWhite(v[|v| - 1])
    requires ParseValue(v) == Ok(x) && Balanced(v, false)
    ensures ParseValue("{\"" + k + "\":" + v + "}") == Ok(Obj([(k, x)]))
    ensures Balanced("{\"" + k + "\":" + v + "}", false)
  {
    var p := "\"" + k + "\":" + v;
    PairBalanced(k, v, false);
    OnePairObject(k, v, x, p);
    BracedPairBalanced(p);
    OnePairText(k, v, p);
  }

  /** The text of ObjectOfValuePair is its pair in braces. */
  lemma OnePairText(k: string, v: string, p: string)
    requires p == "\"" + k + "\":" + v
    ensures "{" + p + "}" == "{\"" + k + "\":" + v + "}"
  {
  }

  /** The parse part of ObjectOfValuePair, for the pair text `p`. */
  lemma OnePairObject(k: string, v: string, x: Json, p: string)
    requires Unescaped(k) && ':' !in k && v != [] && !IsWhite(v[|v| - 1])
    requires ParseValue(v) == Ok(x) && p == "\"" + k + "\":" + v && Balanced(p, false)
    ensures ParseValue("{" + p + "}") == Ok(Obj([(k, x)]))
  {
    ValuePair(k, v, x);
    ObjectOfOnePair(p, k, x);
  }

  /** Braces around a balanced pair text are balanced text. */
  lemma BracedPairBalanced(p: string)
    requires Balanced(p, false)
    ensures Balanced("{" + p + "}", false)
  {
    BalancedWiden(p);
    BracedBalanced(p, false);
  }

  /**
   * `["a\\",1]` is a list of one string, `a\\",`: the quote after the
   * escaped backslash does not close the string, so the comma does not cut
   * and the last character of the piece is dropped.
   */
  lemma EscapedBackslashArray(x: string)
    requires x == "\"a\\\\\",1"
    ensures ParseValue("[" + x + "]") == Ok(Arr([Str("a\\\\\",")]))
  {
    EscapedBackslashOneItem(x);
    EscapedBackslashItems(x);
  }

  /** The splitter keeps that text whole, so the element loop runs over it alone. */
  lemma EscapedBackslashOneItem(x: string)
    requires x == "\"a\\\\\",1"
    ensures ParseValue("[" + x + "]") == ItemsWith(ParseValue, [x], [])
  {
    EscapedBackslashKeepsString();
    assert NoMargins(x);
    OnePieceArray(x);
  }

  /** The element loop over that one piece gives a list of one string. */
  lemma EscapedBackslashItems(x: string)
    requires x == "\"a\\\\\",1"
    ensures ItemsWith(ParseValue, [x], []) == Ok(Arr([Str("a\\\\\",")]))
  {
    EscapedBackslashPiece(x);
    ItemsOfValues(ParseValue, [x], [Str("a\\\\\",")]);
  }

  /** Brackets around text the splitter keeps whole: the element loop over that one piece. */
  lemma OnePieceArray(x: string)
    requires NoMargins(x) && SplitTopLevel(x) == [x]
    ensures ParseValue("[" + x + "]") == ItemsWith(ParseValue, [x], [])
  {
    var s := "[" + x + "]";
    BracketedIsArray(x, s);
    var pieces := ArrayPieces(s);
  }

  lemma EscapedBackslashPiece(x: string)
    requires x == "\"a\\\\\",1"
    ensures ParseValue(x) == Ok(Str("a\\\\\","))
  {
    TrimFixed(x);
    assert x[1..|x| - 1] == "a\\\\\",";
  }
}
