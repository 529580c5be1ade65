/** The JavaScript string primitives the application relies on, with the
    exact edge cases of the ECMAScript definitions that matter here:
    `String.prototype.trim`, `split` on a one-character separator,
    `Array.prototype.join`, `parseInt(s, 10)`, `Number(s)` and the decimal
    printing of an integer inside a template literal. Strings are sequences
    of Unicode code points. */
module Text {
  import opened Wrappers

  /** ECMAScript WhiteSpace and LineTerminator code points: what `trim`,
      `parseInt` and the regular-expression class `\s` skip. */
  predicate IsJsSpace(c: char) {
    || c == '\t' || c == '\n' || c == '\U{000B}' || c == '\U{000C}' || c == '\r'
    || c == ' ' || c == '\U{00A0}' || c == '\U{1680}'
    || ('\U{2000}' <= c <= '\U{200A}')
    || c == '\U{2028}' || c == '\U{2029}' || c == '\U{202F}' || c == '\U{205F}'
    || c == '\U{3000}' || c == '\U{FEFF}'
  }

  /** The characters a regular-expression `.` refuses to cross. */
  predicate IsLineTerminator(c: char) {
    c == '\n' || c == '\r' || c == '\U{2028}' || c == '\U{2029}'
  }

  predicate IsDigit(c: char) {
    '0' <= c <= '9'
  }

  predicate AllDigits(s: string) {
    forall i :: 0 <= i < |s| ==> IsDigit(s[i])
  }

  // ---------------------------------------------------------------------
  // trim
  // ---------------------------------------------------------------------

  /** Number of leading JavaScript white-space characters. */
  function LeadingSpaces(s: string): (k: nat)
    ensures k <= |s|
  {
    if s == [] || !IsJsSpace(s[0]) then 0 else 1 + LeadingSpaces(s[1..])
  }

  /** `LeadingSpaces` counts exactly the white-space prefix: `a` is the
      count iff the first `a` characters are white space and the next one is
      not. */
  lemma {:induction false} LeadingSpacesExact(s: string, a: nat)
    requires a <= |s|
    ensures LeadingSpaces(s) == a <==>
      (forall i :: 0 <= i < a ==> IsJsSpace(s[i])) && (a < |s| ==> !IsJsSpace(s[a]))
  {
    if s != [] && IsJsSpace(s[0]) {
      if a > 0 {
        LeadingSpacesExact(s[1..], a - 1);
        assert forall i :: 0 <= i < a - 1 ==> s[1..][i] == s[i + 1];
        if forall i :: 0 <= i < a - 1 ==> IsJsSpace(s[1..][i]) {
          assert forall i :: 0 < i < a ==> s[i] == s[1..][i - 1];
        }
      }
    }
  }

  /** Index at which the trailing run of white space starts. */
  function TrailingStart(s: string): (k: nat)
    ensures k <= |s|
  {
    if s == [] || !IsJsSpace(s[|s| - 1]) then |s| else TrailingStart(s[..|s| - 1])
  }

  /** `TrailingStart` finds exactly the white-space suffix: `b` is the start
      iff everything from `b` on is white space and the character before it
      is not. */
  lemma {:induction false} TrailingStartExact(s: string, b: nat)
    requires b <= |s|
    ensures TrailingStart(s) == b <==>
      (forall i :: b <= i < |s| ==> IsJsSpace(s[i])) && (0 < b ==> !IsJsSpace(s[b - 1]))
  {
    if s != [] && IsJsSpace(s[|s| - 1]) {
      var p := s[..|s| - 1];
      if b < |s| {
        TrailingStartExact(p, b);
        assert forall i :: b <= i < |p| ==> p[i] == s[i];
      } else {
        assert TrailingStart(s) == TrailingStart(p);
      }
    }
  }

  /** `s.trim()`: the window of `s` left after removing white space at both
      ends. */
  function Trim(s: string): (r: string)
    ensures |r| <= |s|
  {
    var t := s[LeadingSpaces(s)..];
    t[..TrailingStart(t)]
  }

  /** What `trim` keeps: a window of `s` that neither starts nor ends with
      white space, after the leading white space and followed only by white
      space. */
  lemma TrimWindow(s: string)
    ensures Trim(s) == [] || (!IsJsSpace(Trim(s)[0]) && !IsJsSpace(Trim(s)[|Trim(s)| - 1]))
    ensures LeadingSpaces(s) + |Trim(s)| <= |s|
    ensures Trim(s) == s[LeadingSpaces(s)..LeadingSpaces(s) + |Trim(s)|]
    ensures forall i :: LeadingSpaces(s) + |Trim(s)| <= i < |s| ==> IsJsSpace(s[i])
  {
    TrimEnds(s);
    TrimTail(s);
  }

  /** The trimmed text neither starts nor ends with white space. */
  lemma TrimEnds(s: string)
    ensures Trim(s) == [] || (!IsJsSpace(Trim(s)[0]) && !IsJsSpace(Trim(s)[|Trim(s)| - 1]))
  {
    var a := LeadingSpaces(s);
    var t := s[a..];
    var b := TrailingStart(t);
    assert Trim(s) == t[..b];
    if b > 0 {
      assert !IsJsSpace(t[0]) by {
        LeadingSpacesExact(s, a);
      }
      assert !IsJsSpace(t[b - 1]) by {
        TrailingStartExact(t, b);
      }
    }
  }

  /** The trimmed text sits right after the leading white space and is
      followed only by white space. */
  lemma TrimTail(s: string)
    ensures LeadingSpaces(s) + |Trim(s)| <= |s|
    ensures Trim(s) == s[LeadingSpaces(s)..LeadingSpaces(s) + |Trim(s)|]
    ensures forall i :: LeadingSpaces(s) + |Trim(s)| <= i < |s| ==> IsJsSpace(s[i])
  {
    var a := LeadingSpaces(s);
    var t := s[a..];
    var b := TrailingStart(t);
    assert Trim(s) == t[..b] == s[a..a + b];
    TrailingStartExact(t, b);
    assert forall i :: a + b <= i < |s| ==> s[i] == t[i - a];
  }

  /** Trimming is determined by its margins: any window of `s` whose outside
      is white space and whose ends are not is exactly `Trim(s)`. */
  lemma TrimUnique(s: string, a: nat, b: nat)
    requires a <= b <= |s|
    requires forall i :: 0 <= i < a ==> IsJsSpace(s[i])
    requires forall i :: b <= i < |s| ==> IsJsSpace(s[i])
    requires a < b ==> !IsJsSpace(s[a]) && !IsJsSpace(s[b - 1])
    ensures Trim(s) == s[a..b]
  {
    if a < b {
      LeadingSpacesExact(s, a);
      var t := s[a..];
      assert !IsJsSpace(t[b - a - 1]);
      assert forall i :: b - a <= i < |t| ==> IsJsSpace(t[i]);
      TrailingStartExact(t, b - a);
    } else {
      assert forall i :: 0 <= i < |s| ==> IsJsSpace(s[i]);
      LeadingSpacesExact(s, |s|);
    }
  }

  /** Trimming twice is trimming once. */
  lemma TrimIdempotent(s: string)
    ensures Trim(Trim(s)) == Trim(s)
  {
    var r := Trim(s);
    TrimWindow(s);
    TrimUnique(r, 0, |r|);
  }

  // ---------------------------------------------------------------------
  // split / join on a one-character separator
  // ---------------------------------------------------------------------

  /** Position of the first `c` in `s`, or `|s|` when there is none. */
  function IndexOf(s: string, c: char): (k: nat)
    ensures k <= |s|
    ensures k < |s| ==> s[k] == c
  {
    if s == [] || s[0] == c then 0 else 1 + IndexOf(s[1..], c)
  }

  /** `IndexOf` finds the first occurrence: `k` is the answer iff no `c`
      comes before it and `s[k]` is `c` (or `k` is the end). */
  lemma {:induction false} IndexOfExact(s: string, c: char, k: nat)
    requires k <= |s|
    ensures IndexOf(s, c) == k <==>
      (forall i :: 0 <= i < k ==> s[i] != c) && (k < |s| ==> s[k] == c)
  {
    if s != [] && s[0] != c && k > 0 {
      IndexOfExact(s[1..], c, k - 1);
      assert forall i :: 0 < i < |s| ==> s[i] == s[1..][i - 1];
    }
  }

  /** `s.split(sep)` for a one-character separator: the pieces between
      separators, never an empty list. */
  function Split(s: string, sep: char): (parts: seq<string>)
    ensures |parts| >= 1
    decreases |s|
  {
    var k := IndexOf(s, sep);
    if k == |s| then [s] else [s[..k]] + Split(s[k + 1..], sep)
  }

  /** No piece of a split contains the separator. */
  lemma {:induction false} SplitPieces(s: string, sep: char)
    ensures forall i :: 0 <= i < |Split(s, sep)| ==> sep !in Split(s, sep)[i]
    decreases |s|
  {
    var k := IndexOf(s, sep);
    IndexOfExact(s, sep, k);
    if k < |s| {
      SplitPieces(s[k + 1..], sep);
      var head := s[..k];
      assert forall j :: 0 <= j < |head| ==> head[j] != sep;
      assert Split(s, sep) == [head] + Split(s[k + 1..], sep);
    } else {
      assert forall j :: 0 <= j < |s| ==> s[j] != sep;
    }
  }

  /** The first piece of a split is everything before the first separator. */
  lemma SplitFirst(a: string, rest: string, sep: char)
    requires sep !in a
    requires rest == [] || rest[0] == sep
    ensures Split(a + rest, sep)[0] == a
    ensures rest != [] ==> Split(a + rest, sep)[1..] == Split(rest[1..], sep)
  {
    var s := a + rest;
    assert forall j :: 0 <= j < |a| ==> s[j] == a[j] && a[j] != sep;
    assert |a| < |s| ==> s[|a|] == sep;
    IndexOfExact(s, sep, |a|);
    assert s[..|a|] == a;
    if rest != [] {
      assert s[|a| + 1..] == rest[1..];
    }
  }

  /** `parts.join(sep)`. */
  function Join(parts: seq<string>, sep: char): string
  {
    if |parts| == 0 then []
    else if |parts| == 1 then parts[0]
    else parts[0] + [sep] + Join(parts[1..], sep)
  }

  /** Splitting and joining back with the same separator gives the input. */
  lemma {:induction false} SplitThenJoin(s: string, sep: char)
    ensures Join(Split(s, sep), sep) == s
    decreases |s|
  {
    var k := IndexOf(s, sep);
    if k < |s| {
      var rest := Split(s[k + 1..], sep);
      var parts := [s[..k]] + rest;
      assert Split(s, sep) == parts;
      assert parts[1..] == rest;
      SplitThenJoin(s[k + 1..], sep);
      assert Join(parts, sep) == s[..k] + [sep] + s[k + 1..];
      assert s == s[..k] + [sep] + s[k + 1..];
    }
  }

  /** Joining separator-free pieces and splitting again gives the pieces. */
  lemma {:induction false} JoinThenSplit(parts: seq<string>, sep: char)
    requires |parts| >= 1
    requires forall i :: 0 <= i < |parts| ==> sep !in parts[i]
    ensures Split(Join(parts, sep), sep) == parts
  {
    var p := parts[0];
    assert forall j :: 0 <= j < |p| ==> p[j] != sep;
    if |parts| == 1 {
      IndexOfExact(p, sep, |p|);
    } else {
      var s := Join(parts, sep);
      var rest := Join(parts[1..], sep);
      assert s == p + [sep] + rest;
      assert forall j :: 0 <= j < |p| ==> s[j] == p[j];
      assert s[|p|] == sep;
      IndexOfExact(s, sep, |p|);
      var k := IndexOf(s, sep);
      assert s[..k] == p;
      assert s[k + 1..] == rest;
      JoinThenSplit(parts[1..], sep);
    }
  }

  /** `a + sep + b` splits into `a` and `b` when neither holds `sep`. */
  lemma SplitPair(a: string, b: string, sep: char)
    requires sep !in a && sep !in b
    ensures Split(a + [sep] + b, sep) == [a, b]
  {
    JoinThenSplit([a, b], sep);
    assert Join([a, b], sep) == a + [sep] + b by {
      assert Join([a, b][1..], sep) == b;
    }
  }

  // ---------------------------------------------------------------------
  // decimal numerals
  // ---------------------------------------------------------------------

  function DigitChar(d: nat): (c: char)
    requires d < 10
    ensures IsDigit(c)
  {
    ('0' as int + d) as char
  }

  function DigitValue(c: char): (d: nat)
    requires IsDigit(c)
    ensures d < 10
  {
    c as int - '0' as int
  }

  /** The value of a string of decimal digits, leading zeros allowed. */
  function DigitsValue(s: string): nat
    requires AllDigits(s)
  {
    if s == [] then 0 else 10 * DigitsValue(s[..|s| - 1]) + DigitValue(s[|s| - 1])
  }

  /** The decimal numeral of `n` as JavaScript prints a non-negative
      integer: digits only, no leading zero. */
  function NatToString(n: nat): (r: string)
    ensures |r| >= 1
    ensures AllDigits(r)
    ensures |r| > 1 ==> r[0] != '0'
  {
    if n < 10 then [DigitChar(n)] else NatToString(n / 10) + [DigitChar(n % 10)]
  }

  /** Reading back a printed numeral gives the number. */
  lemma {:induction false} NatToStringRoundTrip(n: nat)
    ensures DigitsValue(NatToString(n)) == n
  {
    if n >= 10 {
      NatToStringRoundTrip(n / 10);
      var s := NatToString(n);
      assert s[..|s| - 1] == NatToString(n / 10);
    }
  }

  /** Distinct numbers print differently. */
  lemma NatToStringInjective(a: nat, b: nat)
    requires NatToString(a) == NatToString(b)
    ensures a == b
  {
    NatToStringRoundTrip(a);
    NatToStringRoundTrip(b);
  }

  /** A digit string holds no character that is not a digit. */
  lemma DigitsLack(s: string, c: char)
    requires AllDigits(s) && !IsDigit(c)
    ensures c !in s
  {
  }

  /** Two digits with a leading zero, as a time input writes an hour or a
      minute. */
  function TwoDigits(n: nat): (r: string)
    requires n < 100
    ensures |r| == 2 && AllDigits(r)
    ensures DigitsValue(r) == n
  {
    var r := [DigitChar(n / 10), DigitChar(n % 10)];
    assert r[..1] == [r[0]] && r[..1][..0] == [];
    assert DigitsValue(r[..1]) == n / 10;
    r
  }


  /** Length of the longest all-digit prefix. */
  function DigitRun(s: string): (k: nat)
    ensures k <= |s|
    ensures AllDigits(s[..k])
    ensures k < |s| ==> !IsDigit(s[k])
  {
    if s == [] || !IsDigit(s[0]) then 0
    else
      var k := 1 + DigitRun(s[1..]);
      assert forall i :: 1 <= i < k ==> s[..k][i] == s[1..][..k - 1][i - 1];
      k
  }

  /** An optional leading sign: its factor and the length it occupies. */
  function SignOf(s: string): (r: (int, nat))
    ensures r.1 <= 1 && r.1 <= |s|
    ensures r.0 == 1 || r.0 == -1
    ensures r.0 == -1 <==> (s != [] && s[0] == '-')
    ensures r.1 == 1 <==> (s != [] && (s[0] == '-' || s[0] == '+'))
  {
    if s != [] && s[0] == '-' then (-1, 1)
    else if s != [] && s[0] == '+' then (1, 1)
    else (1, 0)
  }

  /** `parseInt(s, 10)`: skip leading white space, read an optional sign and
      the longest run of digits after it; `None` stands for `NaN` (no digit
      there). Whatever follows the digits is ignored. */
  function ParseInt(s: string): (r: Option<int>)
    ensures r.None? <==> DigitRun(s[LeadingSpaces(s)..][SignOf(s[LeadingSpaces(s)..]).1..]) == 0
  {
    var t := s[LeadingSpaces(s)..];
    var (sign, skip) := SignOf(t);
    var u := t[skip..];
    var n := DigitRun(u);
    if n == 0 then None else Some(sign * DigitsValue(u[..n]))
  }

  /** `parseInt` of a numeral followed by a non-digit (or nothing) is the
      numeral's value, leading zeros included. */
  lemma {:induction false} ParseIntOfDigits(d: string, tail: string)
    requires d != [] && AllDigits(d)
    requires tail == [] || !IsDigit(tail[0])
    ensures ParseInt(d + tail) == Some(DigitsValue(d))
  {
    ParseIntOfSignedNumeral([], d, tail);
    assert [] + d == d;
  }

  /** The digit run of a numeral followed by a non-digit is the numeral. */
  lemma {:induction false} DigitRunOfNumeral(d: string, tail: string)
    requires AllDigits(d)
    requires tail == [] || !IsDigit(tail[0])
    ensures DigitRun(d + tail) == |d|
  {
    if d != [] {
      DigitRunOfNumeral(d[1..], tail);
      assert (d + tail)[1..] == d[1..] + tail;
    }
  }

  /** `parseInt` skips leading white space. */
  lemma ParseIntSkipsSpaces(ws: string, t: string)
    requires forall i :: 0 <= i < |ws| ==> IsJsSpace(ws[i])
    requires t == [] || !IsJsSpace(t[0])
    ensures ParseInt(ws + t) == ParseInt(t)
  {
    var s := ws + t;
    assert |ws| < |s| ==> s[|ws|] == t[0];
    LeadingSpacesExact(s, |ws|);
    LeadingSpacesExact(t, 0);
    assert s[|ws|..] == t && t[0..] == t;
  }

  /** `parseInt` of an optional sign, a numeral and a tail that does not
      start with a digit: the numeral's value with the sign applied. */
  lemma ParseIntOfSignedNumeral(sign: string, d: string, tail: string)
    requires sign == [] || sign == "-" || sign == "+"
    requires d != [] && AllDigits(d)
    requires tail == [] || !IsDigit(tail[0])
    ensures ParseInt(sign + d + tail) == Some((if sign == "-" then -1 else 1) * DigitsValue(d))
  {
    var t := sign + d + tail;
    assert !IsJsSpace(t[0]);
    LeadingSpacesExact(t, 0);
    assert t[0..] == t;
    assert SignOf(t) == (if sign == "-" then -1 else 1, |sign|);
    var u := d + tail;
    assert t[|sign|..] == u;
    DigitRunOfNumeral(d, tail);
    assert u[..|d|] == d;
  }

  /** `parseInt` of white space, an optional sign, a numeral and a tail
      that does not start with a digit: the numeral's value with the sign
      applied. */
  lemma ParseIntOfSigned(ws: string, sign: string, d: string, tail: string)
    requires forall i :: 0 <= i < |ws| ==> IsJsSpace(ws[i])
    requires sign == [] || sign == "-" || sign == "+"
    requires d != [] && AllDigits(d)
    requires tail == [] || !IsDigit(tail[0])
    ensures ParseInt(ws + sign + d + tail) == Some((if sign == "-" then -1 else 1) * DigitsValue(d))
  {
    var t := sign + d + tail;
    assert ws + sign + d + tail == ws + t;
    assert !IsJsSpace(t[0]);
    ParseIntSkipsSpaces(ws, t);
    ParseIntOfSignedNumeral(sign, d, tail);
  }

  /** `${i}` for an integer `i`: a minus sign exactly for a negative
      number, then decimal digits. */
  function IntToString(i: int): (r: string)
    ensures r != [] && (r[0] == '-' <==> i < 0)
    ensures i < 0 ==> |r| >= 2 && AllDigits(r[1..])
    ensures i >= 0 ==> AllDigits(r)
  {
    (if i < 0 then "-" else []) + NatToString(if i < 0 then -i else i)
  }

  /** `parseInt` reads a printed integer back as the integer. */
  lemma IntToStringRoundTrip(i: int)
    ensures ParseInt(IntToString(i)) == Some(i)
  {
    var d := NatToString(if i < 0 then -i else i);
    NatToStringRoundTrip(if i < 0 then -i else i);
    ParseIntOfSigned([], if i < 0 then "-" else [], d, []);
    assert [] + (if i < 0 then "-" else []) + d + [] == IntToString(i);
  }

  /** A number that is not negative prints as its numeral. */
  lemma IntToStringOfNat(n: nat)
    ensures IntToString(n) == NatToString(n)
  {
    assert [] + NatToString(n) == NatToString(n);
  }

  /** `Number(s)` for the forms a stored clock time can take: surrounding
      white space is ignored, the empty string is 0, an optionally signed
      run of decimal digits is its value; `None` stands for `NaN`. */
  function ToNumber(s: string): (r: Option<int>)
    ensures Trim(s) == [] ==> r == Some(0)
    ensures AllDigits(s) && s != [] ==> r == Some(DigitsValue(s))
  {
    ToNumberDigitsCase(s);
    var t := Trim(s);
    if t == [] then Some(0)
    else
      var (sign, skip) := SignOf(t);
      var u := t[skip..];
      if u != [] && AllDigits(u) then Some(sign * DigitsValue(u)) else None
  }

  /** A non-empty digit string is its own trim and carries no sign. */
  lemma ToNumberDigitsCase(s: string)
    ensures AllDigits(s) && s != [] ==>
      Trim(s) == s && SignOf(s) == (1, 0) && s[0..] == s
  {
    if AllDigits(s) && s != [] {
      assert !IsJsSpace(s[0]) && !IsJsSpace(s[|s| - 1]);
      TrimUnique(s, 0, |s|);
    }
  }
}
