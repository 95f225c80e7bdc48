/**
 * Numbers in JsonParser.parseValue: the text must match the regular
 * expression `-?\d+(\.\d+)?([Ee][+-]?\d+)?` (with `\d` the ASCII digits);
 * text holding `.`, `e` or `E` becomes a double, anything else a long read
 * by Long.parseLong, whose overflow is reported as "Invalid number".
 *
 * `MatchesNumber` is a left-to-right matcher; `NumberGrammar` says the same
 * thing as a split of the text into sign, digits, fraction and exponent,
 * and `MatchesNumberIsGrammar` proves the two agree.
 */
module JsonNumbers {
  import opened JsonValue
  import opened JavaString

  /** The end of the run of digits that starts at `i`. */
  function DigitsEnd(s: string, i: nat): (j: nat)
    requires i <= |s|
    ensures i <= j <= |s|
    ensures forall k :: i <= k < j ==> IsDigit(s[k])
    ensures j == |s| || !IsDigit(s[j])
    decreases |s| - i
  {
    if i < |s| && IsDigit(s[i]) then DigitsEnd(s, i + 1) else i
  }

  /** `([Ee][+-]?\d+)?` matches exactly `s[c..]`. */
  predicate ExponentFrom(s: string, c: nat)
    requires c <= |s|
  {
    if c == |s| then true
    else if s[c] == 'e' || s[c] == 'E' then
      var d := if c + 1 < |s| && (s[c + 1] == '+' || s[c + 1] == '-') then c + 2 else c + 1;
      var e := DigitsEnd(s, d);
      e > d && e == |s|
    else false
  }

  /** `(\.\d+)?([Ee][+-]?\d+)?` matches exactly `s[b..]`. */
  predicate FractionFrom(s: string, b: nat)
    requires b <= |s|
  {
    if b < |s| && s[b] == '.' then
      var c := DigitsEnd(s, b + 1);
      c > b + 1 && ExponentFrom(s, c)
    else ExponentFrom(s, b)
  }

  /** `s.matches("-?\\d+(\\.\\d+)?([Ee][+-]?\\d+)?")`. */
  predicate MatchesNumber(s: string) {
    var a := if |s| > 0 && s[0] == '-' then 1 else 0;
    var b := DigitsEnd(s, a);
    b > a && FractionFrom(s, b)
  }

  // ---------------------------------------------------------------------------
  // The same language, stated as a split of the text into its four parts.
  // ---------------------------------------------------------------------------

  predicate Digits(d: string) { |d| > 0 && AllDigits(d) }

  predicate SignPart(x: string) { x == "" || x == "-" }

  predicate FractionPart(f: string) { f == "" || (f[0] == '.' && Digits(f[1..])) }

  predicate ExponentPart(e: string) {
    e == "" ||
    ((e[0] == 'e' || e[0] == 'E') &&
     (Digits(e[1..]) || (|e| > 1 && (e[1] == '+' || e[1] == '-') && Digits(e[2..]))))
  }

  predicate NumberParts(s: string, a: nat, b: nat, c: nat)
    requires a <= b <= c <= |s|
  {
    SignPart(s[..a]) && Digits(s[a..b]) && FractionPart(s[b..c]) && ExponentPart(s[c..])
  }

  ghost predicate NumberGrammar(s: string) {
    exists a: nat, b: nat, c: nat :: a <= b <= c <= |s| && NumberParts(s, a, b, c)
  }

  /** A run of digits ended by a non-digit (or the end) is the run `DigitsEnd` finds. */
  lemma {:induction false} DigitsEndIs(s: string, i: nat, j: nat)
    requires i <= j <= |s|
    requires forall k :: i <= k < j ==> IsDigit(s[k])
    requires j == |s| || !IsDigit(s[j])
    ensures DigitsEnd(s, i) == j
    decreases j - i
  {
    if i < j {
      DigitsEndIs(s, i + 1, j);
    }
  }

  lemma ExponentFromPart(s: string, c: nat)
    requires c <= |s|
    ensures ExponentFrom(s, c) <==> ExponentPart(s[c..])
  {
    var e := s[c..];
    if c < |s| && (s[c] == 'e' || s[c] == 'E') {
      assert e[0] == s[c];
      if c + 1 < |s| && (s[c + 1] == '+' || s[c + 1] == '-') {
        var x := DigitsEnd(s, c + 2);
        assert e[2..] == s[c + 2..];
        assert !Digits(e[1..]) by { assert e[1..][0] == s[c + 1]; }
        if Digits(e[2..]) {
          assert forall k :: c + 2 <= k < |s| ==> IsDigit(s[k]) by {
            forall k | c + 2 <= k < |s| ensures IsDigit(s[k]) { assert s[k] == e[2..][k - c - 2]; }
          }
          DigitsEndIs(s, c + 2, |s|);
        }
        if x > c + 2 && x == |s| {
          assert forall k :: 0 <= k < |e[2..]| ==> e[2..][k] == s[c + 2 + k];
        }
      } else {
        var x := DigitsEnd(s, c + 1);
        assert e[1..] == s[c + 1..];
        if Digits(e[1..]) {
          assert forall k :: c + 1 <= k < |s| ==> IsDigit(s[k]) by {
            forall k | c + 1 <= k < |s| ensures IsDigit(s[k]) { assert s[k] == e[1..][k - c - 1]; }
          }
          DigitsEndIs(s, c + 1, |s|);
        }
        if x > c + 1 && x == |s| {
          assert forall k :: 0 <= k < |e[1..]| ==> e[1..][k] == s[c + 1 + k];
        }
      }
    } else if c < |s| {
      assert e[0] == s[c];
    }
  }

  /** What the fraction-and-exponent matcher accepts splits into a fraction part and an exponent part. */
  lemma FractionGivesParts(s: string, b: nat) returns (c: nat)
    requires b <= |s| && FractionFrom(s, b)
    ensures b <= c <= |s| && FractionPart(s[b..c]) && ExponentPart(s[c..])
  {
    if b < |s| && s[b] == '.' {
      c := DigitsEnd(s, b + 1);
      ExponentFromPart(s, c);
      assert s[b..c][1..] == s[b + 1..c];
    } else {
      c := b;
      ExponentFromPart(s, b);
      assert s[b..b] == "";
    }
  }

  /** A fraction part followed by an exponent part is what the fraction-and-exponent matcher accepts. */
  lemma PartsGiveFraction(s: string, b: nat, c: nat)
    requires b <= c <= |s| && FractionPart(s[b..c]) && ExponentPart(s[c..])
    ensures FractionFrom(s, b)
  {
    if b < c {
      assert s[b] == s[b..c][0] == '.';
      assert s[b..c][1..] == s[b + 1..c];
      assert forall k :: b + 1 <= k < c ==> IsDigit(s[k]) by {
        forall k | b + 1 <= k < c ensures IsDigit(s[k]) { assert s[k] == s[b + 1..c][k - b - 1]; }
      }
      assert c == |s| || !IsDigit(s[c]) by {
        if c < |s| { assert s[c] == s[c..][0]; }
      }
      DigitsEndIs(s, b + 1, c);
      ExponentFromPart(s, c);
    } else {
      ExponentFromPart(s, b);
      if b < |s| {
        assert s[b..][0] == s[b];
      }
    }
  }

  /** The matcher accepts exactly the texts that split into sign, digits, fraction and exponent. */
  lemma MatchesNumberIsGrammar(s: string)
    ensures MatchesNumber(s) <==> NumberGrammar(s)
  {
    if MatchesNumber(s) {
      MatchesGiveParts(s);
    }
    if NumberGrammar(s) {
      var a: nat, b: nat, c: nat :| a <= b <= c <= |s| && NumberParts(s, a, b, c);
      PartsGiveMatch(s, a, b, c);
    }
  }

  lemma MatchesGiveParts(s: string)
    requires MatchesNumber(s)
    ensures NumberGrammar(s)
  {
    var a := if |s| > 0 && s[0] == '-' then 1 else 0;
    var b := DigitsEnd(s, a);
    var c := FractionGivesParts(s, b);
    assert s[..a] == "" || s[..a] == "-";
    assert forall k :: 0 <= k < b - a ==> s[a..b][k] == s[a + k];
    assert NumberParts(s, a, b, c);
  }

  lemma PartsGiveMatch(s: string, a: nat, b: nat, c: nat)
    requires a <= b <= c <= |s| && NumberParts(s, a, b, c)
    ensures MatchesNumber(s)
  {
    assert s[a..b][0] == s[a];
    assert a == (if |s| > 0 && s[0] == '-' then 1 else 0) by {
      if a == 1 { assert s[..a][0] == s[0]; }
    }
    assert forall k :: a <= k < b ==> IsDigit(s[k]) by {
      forall k | a <= k < b ensures IsDigit(s[k]) { assert s[k] == s[a..b][k - a]; }
    }
    assert b == |s| || !IsDigit(s[b]) by {
      if b < |s| {
        if b < c { assert s[b] == s[b..c][0]; }
        else { assert s[b] == s[c..][0]; }
      }
    }
    DigitsEndIs(s, a, b);
    PartsGiveFraction(s, b, c);
  }

  // ---------------------------------------------------------------------------
  // Classification
  // ---------------------------------------------------------------------------

  /** Text holding `.`, `e` or `E` is read as a double; other text as a long. */
  predicate LooksFloating(t: string) {
    '.' in t || 'e' in t || 'E' in t
  }

  /**
   * The number branch of parseValue, for text that matched the grammar: a
   * double keeps its text; a long outside 64 bits is "Invalid number".
   */
  function ClassifyNumber(t: string): (r: Result<Json>)
    ensures r.Ok? ==> (r.value.Float? <==> LooksFloating(t))
    ensures r.Ok? && r.value.Int? ==> LongMin <= r.value.n <= LongMax
    ensures r.Err? ==> r.error == InvalidNumber(t) && !LooksFloating(t)
  {
    if LooksFloating(t) then Ok(Float(t))
    else
      match ParseLong(t)
      case Ok(n) => Ok(Int(n))
      case Err(_) => Err(InvalidNumber(t))
  }

  /** The rendering of every long is number text that reads back as that long. */
  lemma LongTextIsInteger(n: int)
    requires LongMin <= n <= LongMax
    ensures MatchesNumber(LongToString(n))
    ensures ClassifyNumber(LongToString(n)) == Ok(Int(n))
  {
    var t := LongToString(n);
    var d := if n < 0 then NatToString(-n) else NatToString(n);
    var a := if n < 0 then 1 else 0;
    assert t[a..] == d;
    assert forall k :: a <= k < |t| ==> IsDigit(t[k]) by {
      forall k | a <= k < |t| ensures IsDigit(t[k]) { assert t[k] == d[k - a]; }
    }
    DigitsEndIs(t, a, |t|);
    assert !LooksFloating(t) by {
      forall k | 0 <= k < |t| ensures t[k] != '.' && t[k] != 'e' && t[k] != 'E' {
        if k >= a { assert IsDigit(t[k]); }
      }
    }
    LongRoundTrip(n);
  }

  /** Digit text for a value beyond the long range is rejected as an invalid number, not wrapped. */
  lemma LongOverflowIsInvalid(n: nat)
    requires n > LongMax
    ensures MatchesNumber(NatToString(n))
    ensures ClassifyNumber(NatToString(n)) == Err(InvalidNumber(NatToString(n)))
  {
    var t := NatToString(n);
    DigitsEndIs(t, 0, |t|);
    assert !LooksFloating(t) by {
      forall k | 0 <= k < |t| ensures t[k] != '.' && t[k] != 'e' && t[k] != 'E' {
        assert IsDigit(t[k]);
      }
    }
  }

  /** Text with a fraction is kept as a double, in its raw text. */
  lemma FloatingFraction()
    ensures MatchesNumber("3.14") && ClassifyNumber("3.14") == Ok(Float("3.14"))
  {
    DigitsEndIs("3.14", 2, 4);
    DigitsEndIs("3.14", 0, 1);
  }

  /** So is text with a sign, a fraction and a signed exponent. */
  lemma FloatingSignedExponent()
    ensures MatchesNumber("-2.5E+10") && ClassifyNumber("-2.5E+10") == Ok(Float("-2.5E+10"))
  {
    DigitsEndIs("-2.5E+10", 6, 8);
    DigitsEndIs("-2.5E+10", 3, 4);
    DigitsEndIs("-2.5E+10", 1, 2);
  }

  /** An exponent alone makes a double too, although the value is whole. */
  lemma FloatingExponent()
    ensures MatchesNumber("1e3") && ClassifyNumber("1e3") == Ok(Float("1e3"))
  {
    DigitsEndIs("1e3", 2, 3);
    DigitsEndIs("1e3", 0, 1);
  }

  /** Text the grammar refuses: a bare sign, a dot with no digits after it, a leading plus, an empty exponent. */
  lemma NotNumbers()
    ensures !MatchesNumber("-")
    ensures !MatchesNumber("1.")
    ensures !MatchesNumber(".5")
    ensures !MatchesNumber("+1")
    ensures !MatchesNumber("1e")
  {
    DigitsEndIs("1.", 0, 1);
    DigitsEndIs("1.", 2, 2);
    DigitsEndIs("1e", 0, 1);
    DigitsEndIs("1e", 2, 2);
  }
}
