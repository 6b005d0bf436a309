/** String helpers the core relies on: Java's decimal integer text (`Integer.toString` and
    `Integer.parseInt`), `String.join`, `String.split` on a one-character delimiter with limit -1,
    and `String.compareTo`. */
module Text {
  import opened Wrappers

  /** An ASCII decimal digit. */
  predicate IsDigit(c: char) { '0' as int <= c as int <= '9' as int }

  function DigitChar(d: nat): (c: char)
    requires d < 10
    ensures IsDigit(c)
  {
    ['0', '1', '2', '3', '4', '5', '6', '7', '8', '9'][d]
  }

  function DigitValue(c: char): (d: nat)
    requires IsDigit(c)
    ensures d < 10
  {
    (c as int - '0' as int) as nat
  }

  lemma DigitRoundTrip(d: nat)
    requires d < 10
    ensures DigitValue(DigitChar(d)) == d
  {
  }

  /** Decimal digits of a natural number, most significant first, without leading zeros. */
  function NatToString(n: nat): (s: string)
    ensures |s| > 0
    ensures forall k :: 0 <= k < |s| ==> IsDigit(s[k])
    decreases n
  {
    if n < 10 then [DigitChar(n)] else NatToString(n / 10) + [DigitChar(n % 10)]
  }

  /** `Integer.toString`: a minus sign before the digits of a negative number. */
  function IntToString(i: int): (s: string)
    ensures |s| > 0
    ensures forall k :: 0 <= k < |s| ==> IsDigit(s[k]) || (k == 0 && s[k] == '-')
  {
    if i < 0 then "-" + NatToString(-i) else NatToString(i)
  }

  predicate AllDigits(s: string) { forall k :: 0 <= k < |s| ==> IsDigit(s[k]) }

  /** The value of a non-empty digit string, read left to right. */
  function DigitsValue(s: string): nat
    requires |s| > 0 && AllDigits(s)
    decreases |s|
  {
    if |s| == 1 then DigitValue(s[0])
    else 10 * DigitsValue(s[..|s| - 1]) + DigitValue(s[|s| - 1])
  }

  /** `Integer.parseInt`: an optional sign and at least one ASCII decimal digit. Other text is
      `None`, where Java throws a NumberFormatException; the other Unicode decimal digits Java
      also accepts are `None` here too. */
  function ParseInt(s: string): (r: Option<int>)
    ensures r.Some? ==> |s| > 0
  {
    if |s| > 0 && (s[0] == '-' || s[0] == '+') then
      var digits := s[1..];
      if |digits| > 0 && AllDigits(digits) then
        var magnitude: int := DigitsValue(digits);
        Some(if s[0] == '-' then -magnitude else magnitude)
      else None
    else if |s| > 0 && AllDigits(s) then Some(DigitsValue(s))
    else None
  }

  lemma {:induction false} NatRoundTrip(n: nat)
    ensures AllDigits(NatToString(n)) && DigitsValue(NatToString(n)) == n
    decreases n
  {
    var s := NatToString(n);
    if n < 10 {
      DigitRoundTrip(n);
    } else {
      NatRoundTrip(n / 10);
      assert s[..|s| - 1] == NatToString(n / 10);
      DigitRoundTrip(n % 10);
    }
  }

  /** Reading back the decimal text of any integer gives that integer. */
  lemma IntRoundTrip(i: int)
    ensures ParseInt(IntToString(i)) == Some(i)
  {
    if i < 0 {
      NatRoundTrip(-i);
      assert IntToString(i)[1..] == NatToString(-i);
    } else {
      NatRoundTrip(i);
    }
  }

  /** `String.join(delimiter, parts)`. */
  function Join(parts: seq<string>, delimiter: string): (s: string)
    ensures parts == [] ==> s == ""
    ensures |parts| == 1 ==> s == parts[0]
  {
    if parts == [] then ""
    else if |parts| == 1 then parts[0]
    else parts[0] + delimiter + Join(parts[1..], delimiter)
  }

  /** Index of the first occurrence of `c` in `s`, or |s| if there is none. */
  function IndexOfChar(s: string, c: char): (k: nat)
    ensures k <= |s|
    ensures k < |s| ==> s[k] == c
    ensures forall j :: 0 <= j < k ==> s[j] != c
  {
    if s == [] then 0
    else if s[0] == c then 0
    else 1 + IndexOfChar(s[1..], c)
  }

  /** `s.split(Pattern.quote(delimiter), -1)` for a one-character delimiter: every field is kept,
      empty ones included, so there is always one more field than delimiters. */
  function Split(s: string, delimiter: char): (fields: seq<string>)
    ensures |fields| > 0
    decreases |s|
  {
    var k := IndexOfChar(s, delimiter);
    if k == |s| then [s] else [s[..k]] + Split(s[k + 1..], delimiter)
  }

  lemma {:induction false} SplitJoin(parts: seq<string>, delimiter: char)
    requires |parts| > 0
    requires forall i :: 0 <= i < |parts| ==> delimiter !in parts[i]
    ensures Split(Join(parts, [delimiter]), delimiter) == parts
  {
    var s := Join(parts, [delimiter]);
    if |parts| == 1 {
      assert forall j :: 0 <= j < |s| ==> s[j] != delimiter;
      assert IndexOfChar(s, delimiter) == |s|;
      assert Split(s, delimiter) == [s] && [s] == parts;
    } else {
      var rest := Join(parts[1..], [delimiter]);
      assert s == parts[0] + [delimiter] + rest;
      assert forall j :: 0 <= j < |parts[0]| ==> s[j] == parts[0][j] && s[j] != delimiter;
      assert s[|parts[0]|] == delimiter;
      var k := IndexOfChar(s, delimiter);
      assert k == |parts[0]|;
      assert s[..k] == parts[0];
      assert s[k + 1..] == rest;
      SplitJoin(parts[1..], delimiter);
      assert Split(s, delimiter) == [parts[0]] + parts[1..] && [parts[0]] + parts[1..] == parts;
    }
  }

  /** `String.compareTo`: the difference of the first differing characters, otherwise the
      difference of the lengths. */
  function Compare(a: string, b: string): (r: int)
    ensures r == 0 <==> a == b
  {
    if a == [] || b == [] then |a| - |b|
    else if a[0] != b[0] then a[0] as int - b[0] as int
    else Compare(a[1..], b[1..])
  }

  lemma {:induction false} CompareAntisymmetric(a: string, b: string)
    ensures Compare(b, a) == -Compare(a, b)
  {
    if a != [] && b != [] && a[0] == b[0] {
      CompareAntisymmetric(a[1..], b[1..]);
    }
  }

  /** Strict lexicographic order, the order of a `TreeSet<String>`. */
  predicate Less(a: string, b: string) { Compare(a, b) < 0 }

  lemma {:induction false} LessTransitive(a: string, b: string, c: string)
    requires Less(a, b) && Less(b, c)
    ensures Less(a, c)
  {
    if a != [] && b != [] && c != [] && a[0] == b[0] && b[0] == c[0] {
      LessTransitive(a[1..], b[1..], c[1..]);
    }
  }
}
