/**
  The few JavaScript string built-ins the components rely on:
  `Array.prototype.join`, the `||` operator on a string-or-undefined value,
  and the decimal rendering of a non-negative integer in a template literal.
 */
module JsText {

  import opened Options

  /** JavaScript truthiness of a string-or-undefined value: undefined and "" are falsy. */
  predicate Truthy(v: Option<string>) {
    v.Some? && v.value != ""
  }

  /** `v || fallback` for a string-or-undefined `v`: an empty string falls through like undefined. */
  function OrElse(v: Option<string>, fallback: string): (r: string)
    ensures Truthy(v) ==> r == v.value
    ensures !Truthy(v) ==> r == fallback
    ensures fallback != "" ==> r != ""
  {
    if Truthy(v) then v.value else fallback
  }

  /** `parts.join(sep)`: the parts in their order, `sep` between each pair of neighbours. */
  function Join(parts: seq<string>, sep: string): string {
    if |parts| == 0 then ""
    else if |parts| == 1 then parts[0]
    else parts[0] + sep + Join(parts[1..], sep)
  }

  /** Where the i-th part starts in `Join(parts, sep)` (and, for i == |parts|, one separator past its end). */
  function Offset(parts: seq<string>, sep: string, i: nat): nat
    requires i <= |parts|
  {
    if i == 0 then 0 else Offset(parts, sep, i - 1) + |parts[i - 1]| + |sep|
  }

  lemma {:induction false} OffsetTail(parts: seq<string>, sep: string, i: nat)
    requires 1 <= i <= |parts|
    ensures Offset(parts, sep, i) == |parts[0]| + |sep| + Offset(parts[1..], sep, i - 1)
  {
    if i > 1 {
      OffsetTail(parts, sep, i - 1);
    }
  }

  /** Parts start at strictly increasing offsets when the separator is not empty: the join keeps their order. */
  lemma {:induction false} OffsetIncreasing(parts: seq<string>, sep: string, i: nat, j: nat)
    requires i < j <= |parts| && sep != ""
    ensures Offset(parts, sep, i) + |parts[i]| < Offset(parts, sep, j)
  {
    if j > i + 1 {
      OffsetIncreasing(parts, sep, i, j - 1);
    }
  }

  lemma {:induction false} JoinLength(parts: seq<string>, sep: string)
    requires |parts| > 0
    ensures |Join(parts, sep)| + |sep| == Offset(parts, sep, |parts|)
  {
    if |parts| > 1 {
      JoinLength(parts[1..], sep);
      OffsetTail(parts, sep, |parts|);
    }
  }

  /** The i-th part appears verbatim at its offset. */
  lemma {:induction false} JoinPartAt(parts: seq<string>, sep: string, i: nat)
    requires i < |parts|
    ensures Offset(parts, sep, i) + |parts[i]| <= |Join(parts, sep)|
    ensures Join(parts, sep)[Offset(parts, sep, i)..Offset(parts, sep, i) + |parts[i]|] == parts[i]
  {
    var r := Join(parts, sep);
    if |parts| > 1 {
      var head := parts[0] + sep;
      var tail := Join(parts[1..], sep);
      assert r == head + tail;
      if i == 0 {
        assert r[..|parts[0]|] == parts[0];
      } else {
        JoinPartAt(parts[1..], sep, i - 1);
        OffsetTail(parts, sep, i);
        var o := Offset(parts[1..], sep, i - 1);
        assert r[|head| + o..|head| + o + |parts[i]|] == tail[o..o + |parts[i]|];
      }
    }
  }

  /** A separator sits just before every part but the first. */
  lemma {:induction false} JoinSeparatorAt(parts: seq<string>, sep: string, i: nat)
    requires 0 < i < |parts|
    ensures |sep| <= Offset(parts, sep, i) <= |Join(parts, sep)|
    ensures Join(parts, sep)[Offset(parts, sep, i) - |sep|..Offset(parts, sep, i)] == sep
  {
    var r := Join(parts, sep);
    var head := parts[0] + sep;
    var tail := Join(parts[1..], sep);
    assert r == head + tail;
    OffsetTail(parts, sep, i);
    JoinLength(parts[1..], sep);
    if i == 1 {
      assert r[|parts[0]|..|head|] == sep;
    } else {
      JoinSeparatorAt(parts[1..], sep, i - 1);
      var o := Offset(parts[1..], sep, i - 1);
      assert r[|head| + o - |sep|..|head| + o] == tail[o - |sep|..o];
    }
  }

  /** Two parts i < j appear verbatim in that order, with a separator right before part j. */
  lemma JoinKeepsOrder(parts: seq<string>, sep: string, i: nat, j: nat)
    requires i < j < |parts| && sep != ""
    ensures Offset(parts, sep, i) + |parts[i]| < Offset(parts, sep, j)
    ensures Offset(parts, sep, j) + |parts[j]| <= |Join(parts, sep)|
    ensures Join(parts, sep)[Offset(parts, sep, i)..Offset(parts, sep, i) + |parts[i]|] == parts[i]
    ensures Join(parts, sep)[Offset(parts, sep, j) - |sep|..Offset(parts, sep, j)] == sep
    ensures Join(parts, sep)[Offset(parts, sep, j)..Offset(parts, sep, j) + |parts[j]|] == parts[j]
  {
    OffsetIncreasing(parts, sep, i, j);
    JoinPartAt(parts, sep, i);
    JoinPartAt(parts, sep, j);
    JoinSeparatorAt(parts, sep, j);
  }

  /** The decimal digit character for d. */
  function DigitChar(d: nat): (c: char)
    requires d < 10
    ensures '0' <= c <= '9'
  {
    (d + '0' as int) as char
  }

  /** An ASCII decimal digit, the class `[0-9]`. */
  predicate IsDecimalDigit(c: char) {
    '0' <= c <= '9'
  }

  predicate AllDecimalDigits(s: string) {
    forall i :: 0 <= i < |s| ==> IsDecimalDigit(s[i])
  }

  /** `String(n)` for a non-negative integer n: its decimal digits without leading zeros. */
  function DecimalString(n: nat): (s: string)
    ensures 1 <= |s|
    ensures AllDecimalDigits(s)
    ensures |s| > 1 ==> s[0] != '0'
  {
    if n < 10 then [DigitChar(n)] else DecimalString(n / 10) + [DigitChar(n % 10)]
  }

  /** The number a string of decimal digits denotes. */
  function DecimalValue(s: string): nat
    requires AllDecimalDigits(s)
  {
    if s == [] then 0 else 10 * DecimalValue(s[..|s| - 1]) + (s[|s| - 1] as int - '0' as int)
  }

  lemma {:induction false} DecimalRoundTrip(n: nat)
    ensures DecimalValue(DecimalString(n)) == n
  {
    var s := DecimalString(n);
    if n >= 10 {
      assert s[..|s| - 1] == DecimalString(n / 10);
      DecimalRoundTrip(n / 10);
    }
  }

  /** Distinct numbers print differently. */
  lemma DecimalInjective(m: nat, n: nat)
    requires DecimalString(m) == DecimalString(n)
    ensures m == n
  {
    DecimalRoundTrip(m);
    DecimalRoundTrip(n);
  }
}
