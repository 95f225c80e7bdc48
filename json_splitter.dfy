/**
 * The quote- and nesting-aware comma splitter of JsonParser (`splitJsonArray`,
 * also used as `splitJsonPairs`).
 *
 * The scan keeps a nesting level and an in-string flag. A `"` not preceded by
 * a backslash flips the flag; outside a string `{`/`[` raise the level and
 * `}`/`]` lower it; a `,` cuts a piece only at level 0 outside a string.
 *
 * `Scan` is the state after a prefix and `IsSeparator` says which commas cut;
 * `RawPieces` is the text between cuts. `SplitTopLevel` is the result the
 * method `SplitJsonArray` computes with its loop.
 */
module JsonSplitter {
  import opened JsonValue
  import opened JavaString

  datatype ScanState = ScanState(level: int, inString: bool)

  /** A `"` flips the in-string flag unless the character just before it is a backslash. */
  predicate TogglesQuote(s: string, i: nat)
    requires i < |s|
  {
    s[i] == '"' && (i == 0 || s[i - 1] != '\\')
  }

  /** The flag in force while `s[i]` is examined: the flag before it, flipped by a toggling quote. */
  function FlagAt(s: string, i: nat, st: ScanState): bool
    requires i < |s|
  {
    if TogglesQuote(s, i) then !st.inString else st.inString
  }

  /** One step of the scan over `s[i]`. */
  function Step(s: string, i: nat, st: ScanState): ScanState
    requires i < |s|
  {
    var ins := FlagAt(s, i, st);
    if !ins && (s[i] == '{' || s[i] == '[') then ScanState(st.level + 1, ins)
    else if !ins && (s[i] == '}' || s[i] == ']') then ScanState(st.level - 1, ins)
    else ScanState(st.level, ins)
  }

  /** The state after the scan has looked at `s[..n]`. */
  function Scan(s: string, n: nat): ScanState
    requires n <= |s|
    decreases n
  {
    if n == 0 then ScanState(0, false) else Step(s, n - 1, Scan(s, n - 1))
  }

  /** The comma at `i` cuts: it is at level 0 and outside quoted text. */
  predicate IsSeparator(s: string, i: nat)
    requires i < |s|
  {
    s[i] == ',' && Scan(s, i).level == 0 && !FlagAt(s, i, Scan(s, i))
  }

  function SeparatorCount(s: string, n: nat): nat
    requires n <= |s|
  {
    if n == 0 then 0
    else SeparatorCount(s, n - 1) + (if IsSeparator(s, n - 1) then 1 else 0)
  }

  /** The untrimmed pieces of `s[..n]`: the text between separators. */
  function RawPieces(s: string, n: nat): (r: seq<string>)
    requires n <= |s|
    ensures |r| >= 1
    decreases n
  {
    if n == 0 then [""]
    else
      var p := RawPieces(s, n - 1);
      if IsSeparator(s, n - 1) then p + [""]
      else p[..|p| - 1] + [p[|p| - 1] + [s[n - 1]]]
  }

  /** Joined again with commas, the pieces give back the text. */
  lemma {:induction false} RawPiecesJoin(s: string, n: nat)
    requires n <= |s|
    ensures Join(RawPieces(s, n), ',') == s[..n]
  {
    if n > 0 {
      RawPiecesJoin(s, n - 1);
      var p := RawPieces(s, n - 1);
      assert s[..n] == s[..n - 1] + [s[n - 1]];
      if IsSeparator(s, n - 1) {
        JoinAppendEmpty(p, ',');
      } else {
        JoinExtendLast(p, s[n - 1], ',');
      }
    }
  }

  /** An empty last part adds just the delimiter. */
  lemma JoinAppendEmpty(p: seq<string>, d: char)
    requires |p| >= 1
    ensures Join(p + [""], d) == Join(p, d) + [d]
  {
    var r := p + [""];
    assert r[..|p|] == p;
  }

  /** Extending the last part by a character extends the joined text by it. */
  lemma JoinExtendLast(p: seq<string>, c: char, d: char)
    requires |p| >= 1
    ensures Join(p[..|p| - 1] + [p[|p| - 1] + [c]], d) == Join(p, d) + [c]
  {
    var k := |p|;
    var r := p[..k - 1] + [p[k - 1] + [c]];
    if k > 1 {
      assert r[..k - 1] == p[..k - 1];
      assert Join(r, d) == Join(p[..k - 1], d) + [d] + (p[k - 1] + [c]);
    }
  }

  lemma {:induction false} RawPiecesShorter(s: string, n: nat)
    requires n <= |s|
    ensures forall i :: 0 <= i < |RawPieces(s, n)| ==> |RawPieces(s, n)[i]| <= n
  {
    if n > 0 {
      RawPiecesShorter(s, n - 1);
    }
  }

  /** There is one more piece than there are separators. */
  lemma {:induction false} RawPiecesCount(s: string, n: nat)
    requires n <= |s|
    ensures |RawPieces(s, n)| == SeparatorCount(s, n) + 1
  {
    if n > 0 {
      RawPiecesCount(s, n - 1);
    }
  }

  /** Each piece trimmed, in order. */
  function TrimAll(ps: seq<string>): (r: seq<string>)
    ensures |r| == |ps|
  {
    if ps == [] then [] else TrimAll(ps[..|ps| - 1]) + [Trim(ps[|ps| - 1])]
  }

  lemma {:induction false} TrimAllIndex(ps: seq<string>, i: nat)
    requires i < |ps|
    ensures TrimAll(ps)[i] == Trim(ps[i])
  {
    if i < |ps| - 1 {
      TrimAllIndex(ps[..|ps| - 1], i);
    }
  }

  /**
   * What `splitJsonArray(s)` returns: the pieces of the trimmed text, each
   * trimmed, with the last piece dropped when it is empty (a trailing comma,
   * or blank input).
   */
  function SplitTopLevel(s: string): seq<string>
  {
    var t := Trim(s);
    var raw := RawPieces(t, |t|);
    var last := raw[|raw| - 1];
    TrimAll(raw[..|raw| - 1]) + (if last == [] then [] else [Trim(last)])
  }

  /** Every piece is trimmed and no longer than the input. */
  lemma SplitTopLevelPieces(s: string)
    ensures forall i :: 0 <= i < |SplitTopLevel(s)| ==>
      |SplitTopLevel(s)[i]| <= |s| && Trim(SplitTopLevel(s)[i]) == SplitTopLevel(s)[i]
  {
    var t := Trim(s);
    var raw := RawPieces(t, |t|);
    var r := SplitTopLevel(s);
    RawPiecesShorter(t, |t|);
    forall i | 0 <= i < |r| ensures |r[i]| <= |s| && Trim(r[i]) == r[i] {
      if i < |raw| - 1 {
        TrimAllIndex(raw[..|raw| - 1], i);
      }
      assert r[i] == Trim(raw[i]);
      TrimIdempotent(raw[i]);
    }
  }

  lemma RawPiecesNext(s: string, i: nat, done: seq<string>, current: string)
    requires i < |s| && RawPieces(s, i) == done + [current]
    ensures RawPieces(s, i + 1) ==
      if IsSeparator(s, i) then done + [current] + [""] else done + [current + [s[i]]]
  {
    var p := done + [current];
    assert p[..|p| - 1] == done;
  }

  lemma SplitTopLevelFromPieces(input: string, done: seq<string>, current: string)
    requires var t := Trim(input); RawPieces(t, |t|) == done + [current]
    ensures SplitTopLevel(input) == TrimAll(done) + (if current == [] then [] else [Trim(current)])
  {
    assert (done + [current])[..|done|] == done;
  }

  // ---------------------------------------------------------------------------
  // The loop of splitJsonArray
  // ---------------------------------------------------------------------------

  method SplitJsonArray(input: string) returns (result: seq<string>)
    ensures result == SplitTopLevel(input)
  {
    var s := Trim(input);
    result := [];
    var level := 0;
    var current: string := [];
    var inString := false;
    ghost var done: seq<string> := [];
    for i := 0 to |s|
      invariant Scan(s, i) == ScanState(level, inString)
      invariant RawPieces(s, i) == done + [current]
      invariant result == TrimAll(done)
    {
      var c := s[i];
      ScanNext(s, i, level, inString);
      if c == '"' && (i == 0 || s[i - 1] != '\\') {
        inString := !inString;
      }
      if c == ',' && level == 0 && !inString {
        CutPiece(s, i, done, current);
        result := result + [Trim(current)];
        done := done + [current];
        current := [];
      } else {
        GrowPiece(s, i, done, current);
        if !inString {
          if c == '{' || c == '[' { level := level + 1; }
          if c == '}' || c == ']' { level := level - 1; }
        }
        current := current + [c];
      }
    }
    SplitTopLevelFromPieces(input, done, current);
    if |current| > 0 {
      result := result + [Trim(current)];
    }
  }

  /** The scan over `s[i]`, from the state the loop holds, and whether `s[i]` cuts. */
  lemma ScanNext(s: string, i: nat, level: int, inString: bool)
    requires i < |s| && Scan(s, i) == ScanState(level, inString)
    ensures var ins := if TogglesQuote(s, i) then !inString else inString;
      (IsSeparator(s, i) <==> s[i] == ',' && level == 0 && !ins) &&
      Scan(s, i + 1) ==
        if !ins && (s[i] == '{' || s[i] == '[') then ScanState(level + 1, ins)
        else if !ins && (s[i] == '}' || s[i] == ']') then ScanState(level - 1, ins)
        else ScanState(level, ins)
  {
  }

  /** A cutting comma closes the current piece and opens an empty one. */
  lemma CutPiece(s: string, i: nat, done: seq<string>, current: string)
    requires i < |s| && RawPieces(s, i) == done + [current] && IsSeparator(s, i)
    ensures RawPieces(s, i + 1) == done + [current] + [""]
    ensures TrimAll(done + [current]) == TrimAll(done) + [Trim(current)]
  {
    RawPiecesNext(s, i, done, current);
    assert (done + [current])[..|done|] == done;
  }

  /** Any other character extends the current piece. */
  lemma GrowPiece(s: string, i: nat, done: seq<string>, current: string)
    requires i < |s| && RawPieces(s, i) == done + [current] && !IsSeparator(s, i)
    ensures RawPieces(s, i + 1) == done + [current + [s[i]]]
  {
    RawPiecesNext(s, i, done, current);
  }

  // ---------------------------------------------------------------------------
  // What the splitter keeps together
  // ---------------------------------------------------------------------------

  /** Between two cuts the current piece grows by the text scanned. */
  lemma {:induction false} PieceGrows(s: string, i: nat, j: nat, done: seq<string>, current: string)
    requires i <= j <= |s|
    requires RawPieces(s, i) == done + [current]
    requires forall k :: i <= k < j ==> !IsSeparator(s, k)
    ensures RawPieces(s, j) == done + [current + s[i..j]]
    decreases j - i
  {
    if j == i {
      assert current + s[i..j] == current;
    } else {
      var c := current + s[i..j - 1];
      PieceGrows(s, i, j - 1, done, current);
      PieceStep(s, j, done, c);
      AppendSlice(current, s, i, j);
    }
  }

  lemma AppendSlice(x: string, s: string, i: nat, j: nat)
    requires i < j <= |s|
    ensures x + s[i..j] == x + s[i..j - 1] + [s[j - 1]]
  {
    assert s[i..j] == s[i..j - 1] + [s[j - 1]];
  }

  lemma PieceStep(s: string, j: nat, done: seq<string>, c: string)
    requires 0 < j <= |s|
    requires RawPieces(s, j - 1) == done + [c]
    requires !IsSeparator(s, j - 1)
    ensures RawPieces(s, j) == done + [c + [s[j - 1]]]
  {
    RawPiecesNext(s, j - 1, done, c);
  }

  /**
   * Quoted text is kept whole: from an opening quote (outside a string) to
   * the next quote that is not escaped, no comma cuts, and the level is the
   * same after the closing quote as before the opening one, whatever
   * brackets the text holds.
   */
  lemma {:induction false} QuotedTextIsOpaque(s: string, a: nat, b: nat)
    requires a < b < |s|
    requires TogglesQuote(s, a) && TogglesQuote(s, b)
    requires !Scan(s, a).inString
    requires forall k :: a < k < b ==> !TogglesQuote(s, k)
    ensures forall k :: a <= k <= b ==> !IsSeparator(s, k)
    ensures Scan(s, b + 1) == Scan(s, a)
  {
    var st := Scan(s, a);
    InsideQuotes(s, a, b);
    assert Scan(s, b) == ScanState(st.level, true);
  }

  lemma {:induction false} InsideQuotes(s: string, a: nat, j: nat)
    requires a < j <= |s|
    requires TogglesQuote(s, a)
    requires !Scan(s, a).inString
    requires forall k :: a < k < j ==> !TogglesQuote(s, k)
    ensures Scan(s, j) == ScanState(Scan(s, a).level, true)
    ensures forall k :: a <= k < j ==> !IsSeparator(s, k)
    decreases j - a
  {
    if j > a + 1 {
      InsideQuotes(s, a, j - 1);
    }
  }

  /** A character the scan passes over unchanged: no quote, no bracket and no backslash. */
  predicate Plain(c: char) {
    c !in "\"\\{}[]"
  }

  /**
   * Quoted text as the scan sees it: a quote, text in which every quote
   * follows a backslash, and a closing quote that does not.
   */
  predicate QuotedRun(u: string) {
    && |u| >= 2 && u[0] == '"' && u[|u| - 1] == '"' && u[|u| - 2] != '\\'
    && forall k :: 0 < k < |u| - 1 && u[k] == '"' ==> u[k - 1] == '\\'
  }

  /**
   * Text the scan goes through and leaves at the level it entered: empty; a
   * plain character (a comma only when `topCommas` holds); a quoted run; an
   * opening bracket, balanced text with commas allowed, and a closing
   * bracket (of either kind, since the scan does not match kinds); or two
   * balanced texts in a row.
   */
  predicate Balanced(u: string, topCommas: bool)
    decreases |u|
  {
    || u == []
    || (|u| == 1 && Plain(u[0]) && (topCommas || u[0] != ','))
    || QuotedRun(u)
    || (|u| >= 2 && u[0] in "{[" && u[|u| - 1] in "}]" && Balanced(u[1..|u| - 1], true))
    || (exists i :: 0 < i < |u| && Balanced(u[..i], topCommas) && Balanced(u[i..], topCommas))
  }

  /** Two balanced texts in a row are balanced. */
  lemma BalancedConcat(x: string, y: string, topCommas: bool)
    requires Balanced(x, topCommas) && Balanced(y, topCommas)
    ensures Balanced(x + y, topCommas)
  {
    if x == [] {
      assert x + y == y;
    } else if y == [] {
      assert x + y == x;
    } else {
      var u := x + y;
      assert u[..|x|] == x && u[|x|..] == y;
    }
  }

  /** Text between two quotes that holds no quote and no backslash is balanced. */
  lemma QuotedBalanced(t: string, topCommas: bool)
    requires '"' !in t && '\\' !in t
    ensures Balanced("\"" + t + "\"", topCommas)
  {
    var u := "\"" + t + "\"";
    assert forall k :: 0 < k < |u| - 1 ==> u[k] == t[k - 1];
    assert QuotedRun(u);
  }

  /** A lone comma is balanced where top-level commas are allowed. */
  lemma CommaBalanced()
    ensures Balanced(",", true)
  {
    assert |","| == 1 && Plain(","[0]);
  }

  /** Text made only of plain characters other than the comma is balanced. */
  lemma {:induction false} PlainBalanced(t: string, topCommas: bool)
    requires forall i :: 0 <= i < |t| ==> Plain(t[i]) && t[i] != ','
    ensures Balanced(t, topCommas)
    decreases |t|
  {
    if t != [] {
      assert Balanced([t[0]], topCommas);
      PlainBalanced(t[1..], topCommas);
      BalancedConcat([t[0]], t[1..], topCommas);
      assert [t[0]] + t[1..] == t;
    }
  }

  /** Non-empty balanced text does not end in a backslash. */
  lemma {:induction false} BalancedEnd(u: string, topCommas: bool)
    requires Balanced(u, topCommas) && u != []
    ensures u[|u| - 1] != '\\'
    decreases |u|
  {
    if !(|u| == 1 && Plain(u[0])) && !QuotedRun(u) && !(|u| >= 2 && u[0] in "{[" && u[|u| - 1] in "}]") {
      var i :| 0 < i < |u| && Balanced(u[..i], topCommas) && Balanced(u[i..], topCommas);
      BalancedEnd(u[i..], topCommas);
      assert u[i..][|u[i..]| - 1] == u[|u| - 1];
    }
  }

  /**
   * Balanced text entered outside a string at a level of at least 0, not
   * just after a backslash, leaves the scan in the state it found it. None
   * of its commas cuts when it is entered inside brackets, and none at all
   * when it has no comma at its own top level.
   */
  lemma {:induction false} BalancedScan(s: string, a: nat, u: string, topCommas: bool)
    requires a + |u| <= |s| && s[a..a + |u|] == u && Balanced(u, topCommas)
    requires a == 0 || s[a - 1] != '\\'
    requires Scan(s, a).level >= 0 && !Scan(s, a).inString
    ensures Scan(s, a + |u|) == Scan(s, a)
    ensures Scan(s, a).level > 0 || !topCommas ==> NoCut(s, a, a + |u|)
    decreases |u|, 2
  {
    var st := Scan(s, a);
    if u == [] {
    } else if |u| == 1 && Plain(u[0]) && (topCommas || u[0] != ',') {
      BalancedPlain(s, a, u[0]);
    } else if QuotedRun(u) {
      BalancedQuoted(s, a, u);
    } else if |u| >= 2 && u[0] in "{[" && u[|u| - 1] in "}]" && Balanced(u[1..|u| - 1], true) {
      BalancedBracketed(s, a, u);
    } else {
      var i :| 0 < i < |u| && Balanced(u[..i], topCommas) && Balanced(u[i..], topCommas);
      BalancedPairScan(s, a, u, topCommas, i);
    }
  }

  /** Two balanced texts in a row, as BalancedScan needs them. */
  lemma {:induction false} BalancedPairScan(s: string, a: nat, u: string, topCommas: bool, i: nat)
    requires a + |u| <= |s| && s[a..a + |u|] == u
    requires 0 < i < |u| && Balanced(u[..i], topCommas) && Balanced(u[i..], topCommas)
    requires a == 0 || s[a - 1] != '\\'
    requires Scan(s, a).level >= 0 && !Scan(s, a).inString
    ensures Scan(s, a + |u|) == Scan(s, a)
    ensures Scan(s, a).level > 0 || !topCommas ==> NoCut(s, a, a + |u|)
    decreases |u|, 1
  {
    var x, y := u[..i], u[i..];
    SplitSpan(s, a, u, i);
    BalancedScan(s, a, x, topCommas);
    BalancedEnd(x, topCommas);
    BalancedScan(s, a + i, y, topCommas);
    if Scan(s, a).level > 0 || !topCommas {
      NoCutJoin(s, a, a + i, a + |u|);
    }
  }

  /** Text found at `a`, cut at `i`, is found in two parts at `a` and `a + i`. */
  lemma SplitSpan(s: string, a: nat, u: string, i: nat)
    requires a + |u| <= |s| && s[a..a + |u|] == u && 0 < i < |u|
    ensures s[a..a + |u[..i]|] == u[..i] && s[a + i..a + i + |u[i..]|] == u[i..]
    ensures s[a + i - 1] == u[..i][i - 1]
  {
    assert u[0..i] == u[..i] && u[i..|u|] == u[i..];
    SliceOfSlice(s, a, a + |u|, 0, i);
    SliceOfSlice(s, a, a + |u|, i, |u|);
  }

  /** No comma in `s[a..e]` cuts. */
  predicate NoCut(s: string, a: nat, e: nat)
    requires a <= e <= |s|
  {
    forall k :: a <= k < e ==> !IsSeparator(s, k)
  }

  lemma NoCutJoin(s: string, a: nat, m: nat, e: nat)
    requires a <= m <= e <= |s| && NoCut(s, a, m) && NoCut(s, m, e)
    ensures NoCut(s, a, e)
  {
  }

  lemma SliceOfSlice(s: string, a: nat, e: nat, i: nat, j: nat)
    requires a <= e <= |s| && i <= j <= e - a
    ensures s[a..e][i..j] == s[a + i..a + j]
  {
    forall k | 0 <= k < j - i ensures s[a..e][i..j][k] == s[a + i..a + j][k] {
      assert s[a..e][i..j][k] == s[a + i + k];
    }
  }

  /** A plain character, as BalancedScan needs it. */
  lemma BalancedPlain(s: string, a: nat, c: char)
    requires a < |s| && s[a] == c && Plain(c)
    ensures Scan(s, a + 1) == Scan(s, a)
    ensures IsSeparator(s, a) ==> c == ',' && Scan(s, a).level == 0
  {
  }

  /** A quoted run, as BalancedScan needs it. */
  lemma BalancedQuoted(s: string, a: nat, u: string)
    requires a + |u| <= |s| && s[a..a + |u|] == u && QuotedRun(u)
    requires a == 0 || s[a - 1] != '\\'
    requires !Scan(s, a).inString
    ensures Scan(s, a + |u|) == Scan(s, a)
    ensures NoCut(s, a, a + |u|)
  {
    var b := a + |u| - 1;
    assert s[a] == u[0] && s[b] == u[|u| - 1] && s[b - 1] == u[|u| - 2];
    forall k | a < k < b ensures !TogglesQuote(s, k) {
      assert s[k] == u[k - a] && s[k - 1] == u[k - a - 1];
    }
    QuotedTextIsOpaque(s, a, b);
  }

  /** A bracketed balanced text, as BalancedScan needs it. */
  lemma {:induction false} BalancedBracketed(s: string, a: nat, u: string)
    requires a + |u| <= |s| && s[a..a + |u|] == u
    requires |u| >= 2 && u[0] in "{[" && u[|u| - 1] in "}]" && Balanced(u[1..|u| - 1], true)
    requires Scan(s, a).level >= 0 && !Scan(s, a).inString
    ensures Scan(s, a + |u|) == Scan(s, a)
    ensures NoCut(s, a, a + |u|)
    decreases |u|, 1
  {
    var b := a + |u| - 1;
    assert s[a] == u[0] && s[b] == u[|u| - 1];
    SliceOfSlice(s, a, a + |u|, 1, |u| - 1);
    BracketedTextIsOpaque(s, a, b);
  }

  /**
   * Nested text is kept whole: from a bracket opened outside a string at a
   * level of at least 0 to the bracket that closes balanced text after it,
   * no comma cuts, whatever quoted keys, quoted commas or inner brackets lie
   * between, and the level after the closing bracket is the level before
   * the opening one.
   */
  lemma {:induction false} BracketedTextIsOpaque(s: string, a: nat, b: nat)
    requires a < b < |s|
    requires s[a] in "{[" && s[b] in "}]" && Balanced(s[a + 1..b], true)
    requires Scan(s, a).level >= 0 && !Scan(s, a).inString
    ensures forall k :: a <= k <= b ==> !IsSeparator(s, k)
    ensures Scan(s, b + 1) == Scan(s, a)
    decreases b - a + 1, 0
  {
    var st := Scan(s, a);
    assert Scan(s, a + 1) == ScanState(st.level + 1, false);
    BalancedScan(s, a + 1, s[a + 1..b], true);
    assert NoCut(s, a + 1, b);
  }

  // ---------------------------------------------------------------------------
  // The splitter undoes a comma join
  // ---------------------------------------------------------------------------

  /** The scan of a text, and its raw pieces, depend only on the text scanned so far. */
  lemma {:induction false} ScanPrefix(s: string, t: string, n: nat)
    requires n <= |s| && n <= |t| && s[..n] == t[..n]
    ensures Scan(s, n) == Scan(t, n) && RawPieces(s, n) == RawPieces(t, n)
    decreases n
  {
    if n > 0 {
      var m := n - 1;
      assert s[..m] == s[..n][..m] && t[..m] == t[..n][..m];
      ScanPrefix(s, t, m);
      StepAgrees(s, t, n, Scan(s, m));
    }
  }

  /** Texts that agree on their first `n` characters take the same step over the last of them. */
  lemma StepAgrees(s: string, t: string, n: nat, st: ScanState)
    requires 0 < n <= |s| && n <= |t| && s[..n] == t[..n]
    ensures Step(s, n - 1, st) == Step(t, n - 1, st) && FlagAt(s, n - 1, st) == FlagAt(t, n - 1, st)
    ensures s[n - 1] == t[n - 1]
  {
    assert s[n - 1] == s[..n][n - 1] && t[n - 1] == t[..n][n - 1];
    if n > 1 {
      assert s[n - 2] == s[..n][n - 2] && t[n - 2] == t[..n][n - 2];
    }
  }

  /**
   * Balanced pieces with no comma at their top level, joined with commas,
   * are cut back into exactly those pieces, and the scan ends at level 0
   * outside a string.
   */
  lemma {:induction false} RawPiecesOfJoin(ps: seq<string>)
    requires |ps| >= 1 && forall i :: 0 <= i < |ps| ==> Balanced(ps[i], false)
    ensures var t := Join(ps, ','); RawPieces(t, |t|) == ps && Scan(t, |t|) == ScanState(0, false)
    decreases |ps|
  {
    var t := Join(ps, ',');
    if |ps| == 1 {
      assert t == ps[0];
      BalancedOnePiece(t);
    } else {
      var init, last := ps[..|ps| - 1], ps[|ps| - 1];
      assert forall i :: 0 <= i < |init| ==> init[i] == ps[i];
      assert ps == init + [last];
      RawPiecesOfJoin(init);
      LastPieceAfterJoin(init, last, t);
    }
  }

  /** A balanced text with no top-level comma is a single piece, and its scan ends at level 0 outside a string. */
  lemma BalancedOnePiece(t: string)
    requires Balanced(t, false)
    ensures RawPieces(t, |t|) == [t] && Scan(t, |t|) == ScanState(0, false)
  {
    assert t[0..|t|] == t;
    BalancedScan(t, 0, t, false);
    PieceGrows(t, 0, |t|, [], "");
    assert "" + t[0..|t|] == t;
  }

  /** The step of RawPiecesOfJoin: a cutting comma, then one more balanced piece. */
  lemma LastPieceAfterJoin(init: seq<string>, last: string, t: string)
    requires |init| >= 1 && Balanced(last, false) && t == Join(init + [last], ',')
    requires var j := Join(init, ','); RawPieces(j, |j|) == init && Scan(j, |j|) == ScanState(0, false)
    ensures RawPieces(t, |t|) == init + [last] && Scan(t, |t|) == ScanState(0, false)
  {
    var j := Join(init, ',');
    var n := |j|;
    JoinSnoc(init, last);
    ScanPrefix(t, j, n);
    CommaCuts(t, n, init);
    BalancedLastPiece(t, n + 1, last, init);
  }

  /** A balanced piece with no top-level comma, reached at level 0 right after a cutting comma, runs to the end as one piece. */
  lemma BalancedLastPiece(t: string, a: nat, last: string, done: seq<string>)
    requires 0 < a && a + |last| == |t| && t[a..] == last && t[a - 1] == ','
    requires Scan(t, a) == ScanState(0, false) && RawPieces(t, a) == done + [""]
    requires Balanced(last, false)
    ensures RawPieces(t, |t|) == done + [last] && Scan(t, |t|) == ScanState(0, false)
  {
    assert t[a..a + |last|] == last;
    BalancedScan(t, a, last, false);
    PieceGrows(t, a, |t|, done, "");
    assert "" + t[a..|t|] == last;
  }

  /** Joining one more part appends a comma and that part. */
  lemma JoinSnoc(init: seq<string>, last: string)
    requires |init| >= 1
    ensures var j, t := Join(init, ','), Join(init + [last], ',');
      t == j + [','] + last && t[..|j|] == j[..|j|] && t[|j|] == ',' &&
      t[|j| + 1..|j| + 1 + |last|] == last && |t| == |j| + 1 + |last|
  {
    assert (init + [last])[..|init|] == init;
  }

  /** A comma met at level 0 outside quoted text closes the current piece and opens an empty one. */
  lemma CommaCuts(t: string, n: nat, init: seq<string>)
    requires n < |t| && t[n] == ','
    requires Scan(t, n) == ScanState(0, false) && RawPieces(t, n) == init && |init| >= 1
    ensures RawPieces(t, n + 1) == init + [""] && Scan(t, n + 1) == ScanState(0, false)
  {
    assert IsSeparator(t, n);
    assert init == init[..|init| - 1] + [init[|init| - 1]];
    RawPiecesNext(t, n, init[..|init| - 1], init[|init| - 1]);
  }

  /** A comma join of non-empty parts starts with the first part's first character and ends with the last part's last one. */
  lemma {:induction false} JoinEnds(ps: seq<string>)
    requires |ps| >= 1 && forall i :: 0 <= i < |ps| ==> ps[i] != []
    ensures var t := Join(ps, ','); |t| >= 1 && t[0] == ps[0][0] && t[|t| - 1] == ps[|ps| - 1][|ps[|ps| - 1]| - 1]
    decreases |ps|
  {
    if |ps| > 1 {
      var init := ps[..|ps| - 1];
      assert forall i :: 0 <= i < |init| ==> init[i] == ps[i];
      JoinEnds(init);
    }
  }

  /** Non-empty text with no white character at either end. */
  predicate NoMargins(u: string) {
    u != [] && !IsWhite(u[0]) && !IsWhite(u[|u| - 1])
  }

  /** A comma join of parts with no white margins is its own trim. */
  lemma JoinTrimmed(ps: seq<string>)
    requires |ps| >= 1 && forall i :: 0 <= i < |ps| ==> NoMargins(ps[i])
    ensures Trim(Join(ps, ',')) == Join(ps, ',')
  {
    JoinEnds(ps);
    TrimFixed(Join(ps, ','));
  }

  /**
   * The splitter undoes a comma join: non-empty, trimmed pieces, each
   * balanced with no comma at its top level, joined with commas, split back
   * into exactly those pieces.
   */
  lemma SplitJoinPieces(ps: seq<string>)
    requires |ps| >= 1
    requires forall i :: 0 <= i < |ps| ==> ps[i] != [] && Trim(ps[i]) == ps[i] && Balanced(ps[i], false)
    ensures SplitTopLevel(Join(ps, ',')) == ps
  {
    var t := Join(ps, ',');
    RawPiecesOfJoin(ps);
    forall i | 0 <= i < |ps| ensures NoMargins(ps[i]) {
      assert Trim(ps[i]) == ps[i];
    }
    JoinTrimmed(ps);
    var init, last := ps[..|ps| - 1], ps[|ps| - 1];
    TrimmedInit(ps);
    SplitOfTrimmedPieces(t, init, last);
  }

  /**
   * The splitter undoes a comma join of balanced pieces with no comma at
   * their top level and trims each of them: the white space written after a
   * comma, as in `90, 80`, is not part of the next piece.
   */
  lemma SplitJoinTrimsPieces(qs: seq<string>)
    requires |qs| >= 1 && NoMargins(Join(qs, ','))
    requires forall i :: 0 <= i < |qs| ==> Trim(qs[i]) != [] && Balanced(qs[i], false)
    ensures SplitTopLevel(Join(qs, ',')) == TrimAll(qs)
  {
    var t := Join(qs, ',');
    RawPiecesOfJoin(qs);
    TrimFixed(t);
    SplitOfRawPieces(t, qs);
  }

  /** Trimmed text whose raw pieces end in one that is not blank splits into those pieces, trimmed. */
  lemma SplitOfRawPieces(t: string, qs: seq<string>)
    requires Trim(t) == t && RawPieces(t, |t|) == qs && Trim(qs[|qs| - 1]) != []
    ensures SplitTopLevel(t) == TrimAll(qs)
  {
    var init, last := qs[..|qs| - 1], qs[|qs| - 1];
    assert qs == init + [last];
    SplitTopLevelFromPieces(t, init, last);
  }

  /** Text balanced with no comma at its top level is balanced where such commas are allowed. */
  lemma {:induction false} BalancedWiden(u: string)
    requires Balanced(u, false)
    ensures Balanced(u, true)
    decreases |u|
  {
    if !(u == [] || (|u| == 1 && Plain(u[0])) || QuotedRun(u) ||
         (|u| >= 2 && u[0] in "{[" && u[|u| - 1] in "}]" && Balanced(u[1..|u| - 1], true))) {
      var i :| 0 < i < |u| && Balanced(u[..i], false) && Balanced(u[i..], false);
      BalancedWiden(u[..i]);
      BalancedWiden(u[i..]);
    }
  }

  /** A comma join of balanced pieces is balanced where top-level commas are allowed. */
  lemma {:induction false} JoinBalanced(qs: seq<string>)
    requires forall i :: 0 <= i < |qs| ==> Balanced(qs[i], false)
    ensures Balanced(Join(qs, ','), true)
    decreases |qs|
  {
    if |qs| == 1 {
      BalancedWiden(qs[0]);
    } else if |qs| > 1 {
      var init, last := qs[..|qs| - 1], qs[|qs| - 1];
      assert forall i :: 0 <= i < |init| ==> init[i] == qs[i];
      JoinBalanced(init);
      BalancedWiden(last);
      CommaBalanced();
      BalancedConcat(Join(init, ','), ",", true);
      BalancedConcat(Join(init, ',') + ",", last, true);
    }
  }

  /** Dropping the last of some trimmed pieces leaves trimmed pieces. */
  lemma TrimmedInit(ps: seq<string>)
    requires |ps| >= 1 && forall i :: 0 <= i < |ps| ==> Trim(ps[i]) == ps[i]
    ensures ps == ps[..|ps| - 1] + [ps[|ps| - 1]] && TrimAll(ps[..|ps| - 1]) == ps[..|ps| - 1]
  {
    var init := ps[..|ps| - 1];
    assert forall i :: 0 <= i < |init| ==> init[i] == ps[i];
    TrimAllFixed(init);
  }

  /** The splitter gives no pieces at all exactly when its input is blank. */
  lemma NoPiecesIffBlank(s: string)
    ensures SplitTopLevel(s) == [] <==> AllWhite(s)
  {
    var t := Trim(s);
    var raw := RawPieces(t, |t|);
    if |raw| == 1 {
      RawPiecesJoin(t, |t|);
      assert raw[0] == t[..|t|] == t;
    }
  }

  /** An empty piece between two commas is kept. */
  lemma InteriorEmptyPiece()
    ensures SplitTopLevel("a,,b") == ["a", "", "b"]
  {
    InteriorPiecesTrimmed();
    InteriorRawPieces();
    SplitOfTrimmedPieces("a,,b", ["a", ""], "b");
  }

  /** The text and its pieces are already trimmed. */
  lemma InteriorPiecesTrimmed()
    ensures Trim("a,,b") == "a,,b" && TrimAll(["a", ""]) == ["a", ""] && Trim("b") == "b"
  {
    TrimFixed("a,,b");
    TrimFixed("a");
    TrimFixed("");
    TrimAllFixed(["a", ""]);
    TrimFixed("b");
  }

  /** Trimmed text whose pieces are trimmed and whose last piece is not empty splits into exactly those pieces. */
  lemma SplitOfTrimmedPieces(x: string, done: seq<string>, last: string)
    requires Trim(x) == x && RawPieces(x, |x|) == done + [last]
    requires last != [] && Trim(last) == last && TrimAll(done) == done
    ensures SplitTopLevel(x) == done + [last]
  {
    SplitTopLevelFromPieces(x, done, last);
  }

  /** Pieces that are already trimmed are left as they are. */
  lemma {:induction false} TrimAllFixed(ps: seq<string>)
    requires forall i :: 0 <= i < |ps| ==> Trim(ps[i]) == ps[i]
    ensures TrimAll(ps) == ps
  {
    if ps != [] {
      var init := ps[..|ps| - 1];
      TrimAllFixed(init);
      assert ps == init + [ps[|ps| - 1]];
    }
  }

  /** A trailing comma adds no empty piece. */
  lemma TrailingCommaDropped()
    ensures SplitTopLevel("a,") == ["a"]
  {
    var y := "a,";
    TrimFixed(y);
    assert Scan(y, 1) == ScanState(0, false);
    assert !IsSeparator(y, 0) && IsSeparator(y, 1);
    assert "" + [y[0]] == "a";
    assert RawPieces(y, 1) == ["" + [y[0]]] == ["a"];
    assert RawPieces(y, 2) == ["a"] + [""];
    SplitTopLevelFromPieces(y, ["a"], "");
    TrimFixed("a");
  }

  lemma InteriorRawPieces()
    ensures RawPieces("a,,b", |"a,,b"|) == ["a", ""] + ["b"]
  {
    var x := "a,,b";
    InteriorCuts();
    assert "" + [x[0]] == "a" && "" + [x[3]] == "b";
    assert RawPieces(x, 1) == ["" + [x[0]]] == ["a"];
    assert RawPieces(x, 2) == ["a", ""];
    assert RawPieces(x, 3) == ["a", "", ""];
    assert RawPieces(x, 4) == ["a", ""] + ["" + [x[3]]];
  }

  lemma InteriorCuts()
    ensures !IsSeparator("a,,b", 0) && IsSeparator("a,,b", 1) && IsSeparator("a,,b", 2) && !IsSeparator("a,,b", 3)
  {
    var x := "a,,b";
    assert Scan(x, 1) == ScanState(0, false);
    assert Scan(x, 2) == ScanState(0, false);
    assert Scan(x, 3) == ScanState(0, false);
  }

  /**
   * A quote right after an escaped backslash, as in `"a\\",1`, is taken as
   * escaped: the test looks only at the one character before the quote. The
   * string stays open, so the comma after it does not cut.
   */
  lemma EscapedBackslashKeepsString()
    ensures SplitTopLevel("\"a\\\\\",1") == ["\"a\\\\\",1"]
  {
    var x := "\"a\\\\\",1";
    TrimFixed(x);
    EscapedBackslashNoCut();
    EscapedBackslashOnePiece();
    SplitTopLevelFromPieces(x, [], x);
  }

  lemma EscapedBackslashNoCut()
    ensures forall i :: 0 <= i < |"\"a\\\\\",1"| ==> !IsSeparator("\"a\\\\\",1", i)
  {
    var x := "\"a\\\\\",1";
    assert Scan(x, 1) == ScanState(0, true);
    assert Scan(x, 2) == ScanState(0, true);
    assert Scan(x, 3) == ScanState(0, true);
    assert Scan(x, 4) == ScanState(0, true);
    assert !TogglesQuote(x, 4);
    assert Scan(x, 5) == ScanState(0, true);
    assert !IsSeparator(x, 5);
  }

  lemma EscapedBackslashOnePiece()
    requires forall i :: 0 <= i < |"\"a\\\\\",1"| ==> !IsSeparator("\"a\\\\\",1", i)
    ensures RawPieces("\"a\\\\\",1", |"\"a\\\\\",1"|) == [] + ["\"a\\\\\",1"]
  {
    var x := "\"a\\\\\",1";
    NoCutOnePiece(x, |x|);
    assert x[..|x|] == x;
  }

  /** With no cutting comma in `s[..n]`, the whole prefix is one piece. */
  lemma {:induction false} NoCutOnePiece(s: string, n: nat)
    requires n <= |s| && forall i :: 0 <= i < n ==> !IsSeparator(s, i)
    ensures RawPieces(s, n) == [s[..n]]
  {
    if n > 0 {
      NoCutOnePiece(s, n - 1);
      assert s[..n] == s[..n - 1] + [s[n - 1]];
    }
  }
}
