/**
 * The parts of java.lang.String, Integer, Long and String.format that the core
 * relies on, written out over `seq<char>`: trim, indexOf, split on a literal
 * one-character delimiter, String.join, decimal parsing and rendering, and the
 * upper-casing of the `%S` conversion.
 */
module JavaString {
  import opened JsonValue

  // ---------------------------------------------------------------------------
  // trim(): drops every leading and trailing character at or below U+0020.
  // ---------------------------------------------------------------------------

  predicate IsWhite(c: char) { c <= ' ' }

  predicate AllWhite(s: string) {
    forall i :: 0 <= i < |s| ==> IsWhite(s[i])
  }

  /** The first loop of String.trim: `st` moves past white characters from `i` on. */
  function SkipWhite(s: string, i: nat): (k: nat)
    requires i <= |s|
    ensures i <= k <= |s|
    ensures forall j :: i <= j < k ==> IsWhite(s[j])
    ensures k == |s| || !IsWhite(s[k])
    decreases |s| - i
  {
    if i < |s| && IsWhite(s[i]) then SkipWhite(s, i + 1) else i
  }

  /** The second loop: `len` moves back over white characters while it stays above `lo`. */
  function DropWhite(s: string, lo: nat, j: nat): (k: nat)
    requires lo <= j <= |s|
    ensures lo <= k <= j
    ensures forall m :: k <= m < j ==> IsWhite(s[m])
    ensures k == lo || !IsWhite(s[k - 1])
  {
    if j > lo && IsWhite(s[j - 1]) then DropWhite(s, lo, j - 1) else j
  }

  /** `s.trim()`: the text between the white margins, or "" when all of `s` is white. */
  function Trim(s: string): (r: string)
    ensures |r| <= |s|
    ensures r == [] || (!IsWhite(r[0]) && !IsWhite(r[|r| - 1]))
    ensures r == [] <==> AllWhite(s)
  {
    var st := SkipWhite(s, 0);
    var len := DropWhite(s, st, |s|);
    assert st < |s| ==> !IsWhite(s[st]) && len > st;
    s[st..len]
  }

  /** The first loop stops at the only position that fits its description. */
  lemma {:induction false} SkipWhiteIs(s: string, i: nat, k: nat)
    requires i <= k <= |s|
    requires forall j :: i <= j < k ==> IsWhite(s[j])
    requires k == |s| || !IsWhite(s[k])
    ensures SkipWhite(s, i) == k
    decreases k - i
  {
    if i < k {
      SkipWhiteIs(s, i + 1, k);
    }
  }

  lemma {:induction false} DropWhiteIs(s: string, lo: nat, j: nat, k: nat)
    requires lo <= k <= j <= |s|
    requires forall m :: k <= m < j ==> IsWhite(s[m])
    requires k == lo || !IsWhite(s[k - 1])
    ensures DropWhite(s, lo, j) == k
    decreases j - k
  {
    if k < j {
      DropWhiteIs(s, lo, j - 1, k);
    }
  }

  /**
   * The trim is `t[a..e]` when everything before `a` and from `e` on is
   * white and the characters at both ends of `t[a..e]` are not.
   */
  lemma TrimIs(t: string, a: nat, e: nat)
    requires a < e <= |t|
    requires forall j :: 0 <= j < a ==> IsWhite(t[j])
    requires forall j :: e <= j < |t| ==> IsWhite(t[j])
    requires !IsWhite(t[a]) && !IsWhite(t[e - 1])
    ensures Trim(t) == t[a..e]
  {
    SkipWhiteIs(t, 0, a);
    DropWhiteIs(t, a, |t|, e);
  }

  /** Text with no white margins is its own trim. */
  lemma TrimFixed(s: string)
    requires s == [] || (!IsWhite(s[0]) && !IsWhite(s[|s| - 1]))
    ensures Trim(s) == s
  {
    if s != [] {
      TrimIs(s, 0, |s|);
      assert s[0..|s|] == s;
    }
  }

  lemma TrimIdempotent(s: string)
    ensures Trim(Trim(s)) == Trim(s)
  {
    TrimFixed(Trim(s));
  }

  /** Each character of the trim is a character of the text. */
  lemma TrimChar(s: string, k: nat)
    requires k < |Trim(s)|
    ensures Trim(s)[k] in s
  {
    var st := SkipWhite(s, 0);
    assert Trim(s)[k] == s[st + k];
  }

  /** White margins added around a text do not change its trim. */
  lemma TrimIgnoresMargins(w1: string, s: string, w2: string)
    requires AllWhite(w1) && AllWhite(w2)
    ensures Trim(w1 + s + w2) == Trim(s)
  {
    if AllWhite(s) {
      MarginsOfBlank(w1, s, w2);
    } else {
      var t := w1 + s + w2;
      MarginsShift(w1, s, w2);
      forall j | 0 <= j < |w1| ensures IsWhite(t[j]) {
        assert t[j] == w1[j];
      }
      forall j | |w1| + |s| <= j < |t| ensures IsWhite(t[j]) {
        assert t[|w1| + |s| + (j - |w1| - |s|)] == w2[j - |w1| - |s|];
      }
      TrimOfEmbedded(t, s, |w1|);
    }
  }

  /**
   * `s` sits at offset `off` of `t` and everything of `t` around it is
   * white: then `t` and `s` trim alike.
   */
  lemma TrimOfEmbedded(t: string, s: string, off: nat)
    requires off + |s| <= |t| && !AllWhite(s)
    requires forall i :: 0 <= i < |s| ==> t[off + i] == s[i]
    requires forall i :: 0 <= i < off ==> IsWhite(t[i])
    requires forall i :: off + |s| <= i < |t| ==> IsWhite(t[i])
    ensures Trim(t) == Trim(s)
  {
    var a := SkipWhite(s, 0);
    var e := DropWhite(s, a, |s|);
    assert Trim(s) == s[a..e];
    EmbeddedMargins(t, s, off, a, e);
    TrimIs(t, off + a, off + e);
    EmbeddedSlice(t, s, off, a, e);
  }

  lemma EmbeddedMargins(t: string, s: string, off: nat, a: nat, e: nat)
    requires off + |s| <= |t| && a < e <= |s|
    requires forall i :: 0 <= i < |s| ==> t[off + i] == s[i]
    requires forall i :: 0 <= i < off ==> IsWhite(t[i])
    requires forall i :: off + |s| <= i < |t| ==> IsWhite(t[i])
    requires forall j :: 0 <= j < a ==> IsWhite(s[j])
    requires forall j :: e <= j < |s| ==> IsWhite(s[j])
    requires !IsWhite(s[a]) && !IsWhite(s[e - 1])
    ensures forall j :: 0 <= j < off + a ==> IsWhite(t[j])
    ensures forall j :: off + e <= j < |t| ==> IsWhite(t[j])
    ensures !IsWhite(t[off + a]) && !IsWhite(t[off + e - 1])
  {
    assert t[off + a] == s[a] && t[off + (e - 1)] == s[e - 1];
    forall j | off <= j < off + a ensures IsWhite(t[j]) {
      assert t[off + (j - off)] == s[j - off];
    }
    forall j | off + e <= j < off + |s| ensures IsWhite(t[j]) {
      assert t[off + (j - off)] == s[j - off];
    }
  }

  lemma EmbeddedSlice(t: string, s: string, off: nat, a: nat, e: nat)
    requires off + |s| <= |t| && a <= e <= |s|
    requires forall i :: 0 <= i < |s| ==> t[off + i] == s[i]
    ensures t[off + a..off + e] == s[a..e]
  {
    forall i | 0 <= i < e - a ensures t[off + a..off + e][i] == s[a..e][i] {
      assert t[off + (a + i)] == s[a + i];
    }
  }

  lemma MarginsShift(w1: string, s: string, w2: string)
    ensures forall i :: 0 <= i < |s| ==> (w1 + s + w2)[|w1| + i] == s[i]
    ensures forall i :: 0 <= i < |w1| ==> (w1 + s + w2)[i] == w1[i]
    ensures forall i :: 0 <= i < |w2| ==> (w1 + s + w2)[|w1| + |s| + i] == w2[i]
  {
  }

  lemma MarginsOfBlank(w1: string, s: string, w2: string)
    requires AllWhite(w1) && AllWhite(s) && AllWhite(w2)
    ensures AllWhite(w1 + s + w2)
  {
    var t := w1 + s + w2;
    MarginsShift(w1, s, w2);
    forall i | 0 <= i < |t| ensures IsWhite(t[i]) {
      if i < |w1| {
      } else if i < |w1| + |s| {
        assert t[|w1| + (i - |w1|)] == s[i - |w1|];
      } else {
        assert t[|w1| + |s| + (i - |w1| - |s|)] == w2[i - |w1| - |s|];
      }
    }
  }

  // ---------------------------------------------------------------------------
  // indexOf, startsWith, endsWith
  // ---------------------------------------------------------------------------

  /** `s.indexOf(c)`: the first position of `c`, or -1. */
  function IndexOf(s: string, c: char): (r: int)
    ensures -1 <= r < |s|
    ensures r == -1 <==> c !in s
    ensures r >= 0 ==> s[r] == c && c !in s[..r]
  {
    if s == [] then -1
    else if s[0] == c then 0
    else
      var k := IndexOf(s[1..], c);
      if k == -1 then -1
      else
        assert s[..k + 1] == [s[0]] + s[1..][..k];
        k + 1
  }

  /** The first position of `c` is the one before which `c` does not occur. */
  lemma IndexOfIs(s: string, c: char, k: nat)
    requires k < |s| && s[k] == c && c !in s[..k]
    ensures IndexOf(s, c) == k
  {
    assert c in s by { assert s[k] == c; }
    assert forall j :: 0 <= j < k ==> s[..k][j] == s[j];
  }

  predicate StartsWith(s: string, c: char) { |s| > 0 && s[0] == c }

  predicate EndsWith(s: string, c: char) { |s| > 0 && s[|s| - 1] == c }

  // ---------------------------------------------------------------------------
  // String.join and String.split on a literal one-character delimiter
  // ---------------------------------------------------------------------------

  /** `String.join(d, parts)`. */
  function Join(parts: seq<string>, d: char): string
  {
    if |parts| == 0 then []
    else if |parts| == 1 then parts[0]
    else Join(parts[..|parts| - 1], d) + [d] + parts[|parts| - 1]
  }

  lemma {:induction false} JoinCons(a: string, rest: seq<string>, d: char)
    requires |rest| >= 1
    ensures Join([a] + rest, d) == a + [d] + Join(rest, d)
    decreases |rest|
  {
    var all := [a] + rest;
    if |rest| > 1 {
      assert all[..|all| - 1] == [a] + rest[..|rest| - 1];
      JoinCons(a, rest[..|rest| - 1], d);
    } else {
      assert all[..|all| - 1] == [a];
    }
  }

  /** Every piece between delimiters, empty ones included. */
  function SplitAll(s: string, d: char): (r: seq<string>)
    ensures |r| >= 1
    ensures forall i :: 0 <= i < |r| ==> d !in r[i]
    decreases |s|
  {
    var i := IndexOf(s, d);
    if i < 0 then [s]
    else
      var rest := SplitAll(s[i + 1..], d);
      assert forall k :: 0 < k <= |rest| ==> ([s[..i]] + rest)[k] == rest[k - 1];
      [s[..i]] + rest
  }

  function DropTrailingEmpty(ps: seq<string>): (r: seq<string>)
    ensures |r| <= |ps| && r == ps[..|r|]
    ensures r == [] || r[|r| - 1] != []
    ensures forall i :: |r| <= i < |ps| ==> ps[i] == []
  {
    if ps == [] || ps[|ps| - 1] != [] then ps else DropTrailingEmpty(ps[..|ps| - 1])
  }

  /**
   * `s.split(Pattern.quote(d))`: when `d` does not occur the result is `[s]`,
   * even for the empty string; otherwise trailing empty pieces are dropped.
   */
  function JavaSplit(s: string, d: char): seq<string>
  {
    if d !in s then [s] else DropTrailingEmpty(SplitAll(s, d))
  }

  lemma {:induction false} SplitAllOfJoin(parts: seq<string>, d: char)
    requires |parts| >= 1
    requires forall i :: 0 <= i < |parts| ==> d !in parts[i]
    ensures SplitAll(Join(parts, d), d) == parts
    decreases |parts|
  {
    if |parts| > 1 {
      var rest := parts[1..];
      assert parts == [parts[0]] + rest;
      JoinCons(parts[0], rest, d);
      var s := Join(parts, d);
      var a := parts[0];
      assert s == a + [d] + Join(rest, d);
      assert s[..|a|] == a;
      assert s[|a|] == d;
      assert d !in s[..|a|];
      assert IndexOf(s, d) == |a|;
      assert s[|a| + 1..] == Join(rest, d);
      SplitAllOfJoin(rest, d);
    }
  }

  lemma {:induction false} JoinOfOneFree(parts: seq<string>, d: char)
    requires |parts| >= 1
    requires forall i :: 0 <= i < |parts| ==> d !in parts[i]
    ensures d in Join(parts, d) <==> |parts| > 1
  {
    if |parts| > 1 {
      var n := |parts|;
      assert Join(parts, d)[|Join(parts[..n - 1], d)|] == d;
    }
  }

  /**
   * Splitting a path that was joined from non-empty, delimiter-free segments
   * gives those segments back.
   */
  lemma SplitJoinRoundTrip(parts: seq<string>, d: char)
    requires |parts| >= 1
    requires forall i :: 0 <= i < |parts| ==> parts[i] != [] && d !in parts[i]
    ensures JavaSplit(Join(parts, d), d) == parts
  {
    JoinOfOneFree(parts, d);
    if |parts| > 1 {
      SplitAllOfJoin(parts, d);
    }
  }

  // ---------------------------------------------------------------------------
  // Decimal digits: Integer.parseInt, Long.parseLong and the %d conversion.
  // ---------------------------------------------------------------------------

  const IntMin: int := -0x8000_0000
  const IntMax: int := 0x7FFF_FFFF
  const LongMin: int := -0x8000_0000_0000_0000
  const LongMax: int := 0x7FFF_FFFF_FFFF_FFFF

  predicate IsDigit(c: char) { '0' <= c <= '9' }

  predicate AllDigits(s: string) {
    forall i :: 0 <= i < |s| ==> IsDigit(s[i])
  }

  function DecimalValue(ds: string): nat
    requires AllDigits(ds)
  {
    if ds == [] then 0
    else DecimalValue(ds[..|ds| - 1]) * 10 + (ds[|ds| - 1] as int - '0' as int)
  }

  function DigitChar(d: nat): (c: char)
    requires d < 10
    ensures IsDigit(c) && c as int - '0' as int == d
  {
    ('0' as int + d) as char
  }

  /** The decimal rendering of a natural number, without leading zeros. */
  function NatToString(n: nat): (r: string)
    ensures |r| >= 1 && AllDigits(r)
    ensures DecimalValue(r) == n
    ensures r[0] == '0' ==> r == "0"
    decreases n
  {
    if n < 10 then [DigitChar(n)]
    else
      var p := NatToString(n / 10);
      var r := p + [DigitChar(n % 10)];
      assert r[..|r| - 1] == p;
      r
  }

  /** `%d` of a long. */
  function LongToString(n: int): string
  {
    if n < 0 then "-" + NatToString(-n) else NatToString(n)
  }

  /**
   * Integer.parseInt / Long.parseLong in radix 10: an optional sign, at least
   * one digit, and a value inside [lo, hi]; anything else is a
   * NumberFormatException.
   */
  function ParseSigned(s: string, lo: int, hi: int): (r: Result<int>)
    ensures r.Ok? ==> lo <= r.value <= hi
    ensures r.Err? ==> r.error == NumberFormat
  {
    if s == [] then Err(NumberFormat)
    else
      var digits := if s[0] == '-' || s[0] == '+' then s[1..] else s;
      if digits == [] || !AllDigits(digits) then Err(NumberFormat)
      else
        var v: int := if s[0] == '-' then -(DecimalValue(digits) as int) else DecimalValue(digits);
        if lo <= v <= hi then Ok(v) else Err(NumberFormat)
  }

  predicate AllZeros(s: string) {
    forall i :: 0 <= i < |s| ==> s[i] == '0'
  }

  /**
   * `s` writes `v`: `sign`, then the zeros `zeros`, then the decimal of the
   * magnitude of `v`, where the sign is empty, a plus or a minus, and the
   * minus is there when `v` is negative and only with a zero otherwise.
   */
  predicate WrittenAs(s: string, sign: string, zeros: string, v: int) {
    && (sign == "" || sign == "+" || sign == "-")
    && AllZeros(zeros)
    && s == sign + zeros + NatToString(if v < 0 then -v else v)
    && (if sign == "-" then v <= 0 else v >= 0)
  }

  /**
   * An optional sign, any number of leading zeros and a decimal parse to the
   * value they write exactly when it is inside [lo, hi]; outside it they fail
   * with NumberFormatException.
   */
  lemma ParseSignedAccepts(s: string, sign: string, zeros: string, v: int, lo: int, hi: int)
    requires WrittenAs(s, sign, zeros, v)
    ensures ParseSigned(s, lo, hi) == if lo <= v <= hi then Ok(v) else Err(NumberFormat)
  {
    var n := if v < 0 then -v else v;
    var digits := zeros + NatToString(n);
    LeadingZerosValue(zeros, n);
    StringAssoc(sign, zeros, NatToString(n));
    if sign == "" {
      assert s == digits;
      ParseUnsigned(s, lo, hi);
    } else {
      assert sign == [sign[0]];
      ParseWithSign(sign[0], digits, lo, hi);
    }
  }

  lemma StringAssoc(a: string, b: string, c: string)
    ensures a + b + c == a + (b + c)
  {
  }

  /** Zeros before the decimal of `n` leave a digit string whose value is `n`. */
  lemma LeadingZerosValue(zeros: string, n: nat)
    requires AllZeros(zeros)
    ensures var ds := zeros + NatToString(n); ds != [] && AllDigits(ds) && DecimalValue(ds) == n
  {
    ZerosThenDigits(zeros, NatToString(n));
  }

  /** A digit string with no sign parses to its value when that value is inside [lo, hi]. */
  lemma ParseUnsigned(s: string, lo: int, hi: int)
    requires s != [] && AllDigits(s)
    ensures ParseSigned(s, lo, hi) == if lo <= DecimalValue(s) <= hi then Ok(DecimalValue(s)) else Err(NumberFormat)
  {
    assert IsDigit(s[0]);
  }

  /** A sign, then a digit string: the value, negated after a minus, when it is inside [lo, hi]. */
  lemma ParseWithSign(c: char, ds: string, lo: int, hi: int)
    requires (c == '+' || c == '-') && ds != [] && AllDigits(ds)
    ensures var v := if c == '-' then -(DecimalValue(ds) as int) else DecimalValue(ds);
      ParseSigned([c] + ds, lo, hi) == if lo <= v <= hi then Ok(v) else Err(NumberFormat)
  {
    assert ([c] + ds)[1..] == ds;
  }

  /**
   * Every text that parses writes its value in that form: every other text
   * fails with NumberFormatException.
   */
  lemma ParseSignedOnlyThose(s: string, lo: int, hi: int)
    ensures var r := ParseSigned(s, lo, hi);
      r.Ok? ==> exists sign, zeros :: WrittenAs(s, sign, zeros, r.value)
  {
    var r := ParseSigned(s, lo, hi);
    if r.Ok? {
      if s[0] == '-' || s[0] == '+' {
        var zeros := SignedWrittenAs(s, lo, hi);
      } else {
        var zeros := UnsignedWrittenAs(s, lo, hi);
      }
    }
  }

  /** A text with a sign that parses is that sign, zeros and the decimal of the value's magnitude. */
  lemma SignedWrittenAs(s: string, lo: int, hi: int) returns (zeros: string)
    requires ParseSigned(s, lo, hi).Ok? && (s[0] == '-' || s[0] == '+')
    ensures WrittenAs(s, [s[0]], zeros, ParseSigned(s, lo, hi).value)
  {
    var c, digits := s[0], s[1..];
    assert s == [c] + digits;
    ParseWithSign(c, digits, lo, hi);
    var d;
    zeros, d := ZerosAndDecimal(digits);
    StringAssoc([c], zeros, d);
    SignedForm(s, c, zeros, d, DecimalValue(digits), ParseSigned(s, lo, hi).value);
  }

  /** A sign, zeros and the decimal of `n` write the value that the sign gives `n`. */
  lemma SignedForm(s: string, c: char, zeros: string, d: string, n: nat, v: int)
    requires (c == '-' || c == '+') && AllZeros(zeros) && d == NatToString(n) && s == [c] + (zeros + d)
    requires v == if c == '-' then -(n as int) else n
    ensures WrittenAs(s, [c], zeros, v)
  {
    assert (if v < 0 then -v else v) == n;
    StringAssoc([c], zeros, d);
  }

  /** A text with no sign that parses is zeros and the decimal of the value. */
  lemma UnsignedWrittenAs(s: string, lo: int, hi: int) returns (zeros: string)
    requires ParseSigned(s, lo, hi).Ok? && s[0] != '-' && s[0] != '+'
    ensures WrittenAs(s, "", zeros, ParseSigned(s, lo, hi).value)
  {
    ParseUnsigned(s, lo, hi);
    var d;
    zeros, d := ZerosAndDecimal(s);
    assert s == "" + zeros + d;
  }

  /** Integer.parseInt / Long.parseLong return `v` exactly for the texts that write `v`, when `v` is inside [lo, hi]. */
  lemma ParseSignedIff(s: string, v: int, lo: int, hi: int)
    ensures ParseSigned(s, lo, hi) == Ok(v) <==> lo <= v <= hi && exists sign, zeros :: WrittenAs(s, sign, zeros, v)
  {
    ParseSignedOnlyThose(s, lo, hi);
    if exists sign, zeros :: WrittenAs(s, sign, zeros, v) {
      var sign, zeros :| WrittenAs(s, sign, zeros, v);
      ParseSignedAccepts(s, sign, zeros, v, lo, hi);
    }
  }

  /** Leading zeros do not change the value of a digit string. */
  lemma {:induction false} ZerosThenDigits(zeros: string, d: string)
    requires AllZeros(zeros) && AllDigits(d)
    ensures AllDigits(zeros + d) && DecimalValue(zeros + d) == DecimalValue(d) + (if d == [] then DecimalValue(zeros) else 0)
    ensures AllDigits(zeros) && DecimalValue(zeros) == 0
    decreases |zeros| + |d|
  {
    var x := zeros + d;
    if d == [] {
      assert x == zeros;
      if zeros != [] {
        var p := zeros[..|zeros| - 1];
        ZerosThenDigits(p, []);
        assert p + [] == p;
      }
    } else {
      var p := d[..|d| - 1];
      ZerosThenDigits(zeros, p);
      assert x[..|x| - 1] == zeros + p;
      if p == [] {
        assert zeros + p == zeros;
      }
    }
  }

  /** A non-empty digit string is some zeros followed by the decimal of its value. */
  lemma {:induction false} ZerosAndDecimal(ds: string) returns (zeros: string, d: string)
    requires ds != [] && AllDigits(ds)
    ensures AllZeros(zeros) && d == NatToString(DecimalValue(ds)) && ds == zeros + d
    decreases |ds|
  {
    var p, c := ds[..|ds| - 1], ds[|ds| - 1];
    assert ds == p + [c];
    var k := c as int - '0' as int;
    if p == [] || DecimalValue(p) == 0 {
      if p != [] {
        var z, e := ZerosAndDecimal(p);
        assert e == "0";
      }
      zeros, d := p, [c];
      assert DecimalValue(ds) == k;
      assert NatToString(k) == [DigitChar(k)];
    } else {
      var z, e := ZerosAndDecimal(p);
      zeros, d := z, e + [c];
      var n := DecimalValue(ds);
      assert n == DecimalValue(p) * 10 + k && n >= 10;
      assert n / 10 == DecimalValue(p) && n % 10 == k;
      assert NatToString(n) == NatToString(n / 10) + [DigitChar(n % 10)];
      assert ds == z + (e + [c]);
    }
  }

  function ParseInt(s: string): Result<int> { ParseSigned(s, IntMin, IntMax) }

  function ParseLong(s: string): Result<int> { ParseSigned(s, LongMin, LongMax) }

  /** Rendering a long with %d and reading it back with Long.parseLong is the identity. */
  lemma LongRoundTrip(n: int)
    requires LongMin <= n <= LongMax
    ensures ParseLong(LongToString(n)) == Ok(n)
  {
    var s := LongToString(n);
    if n < 0 {
      assert s[1..] == NatToString(-n);
    }
  }

  /** The same for Integer.parseInt on an int. */
  lemma IntRoundTrip(n: int)
    requires IntMin <= n <= IntMax
    ensures ParseInt(LongToString(n)) == Ok(n)
  {
    var s := LongToString(n);
    if n < 0 {
      assert s[1..] == NatToString(-n);
    }
  }

  // ---------------------------------------------------------------------------
  // The %S conversion: upper-casing, here for the ASCII letters.
  // ---------------------------------------------------------------------------

  function UpperChar(c: char): char {
    if 'a' <= c <= 'z' then (c as int - 32) as char else c
  }

  function ToUpper(s: string): (r: string)
    ensures |r| == |s|
  {
    seq(|s|, i requires 0 <= i < |s| => UpperChar(s[i]))
  }
}
