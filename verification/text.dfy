/** The Python string and sequence operations the service code relies on. */
module Text {

  datatype Option<+T> = None | Some(value: T)

  /** `str.isspace` on one character (the characters removed by `str.strip` and matched by `\s`). */
  predicate IsSpace(c: char) {
    || '\t' <= c <= '\r' || '\U{1C}' <= c <= ' '
    || c == '\U{85}' || c == '\U{A0}' || c == '\U{1680}'
    || '\U{2000}' <= c <= '\U{200A}'
    || c == '\U{2028}' || c == '\U{2029}' || c == '\U{202F}' || c == '\U{205F}' || c == '\U{3000}'
  }

  function StripLeft(s: string, drop: char -> bool): string {
    if s != "" && drop(s[0]) then StripLeft(s[1..], drop) else s
  }

  function StripRight(s: string, drop: char -> bool): string {
    if s != "" && drop(s[|s| - 1]) then StripRight(s[..|s| - 1], drop) else s
  }

  /** `str.strip`: with `IsSpace`, or with a given set of characters. */
  function Strip(s: string, drop: char -> bool): string {
    StripRight(StripLeft(s, drop), drop)
  }

  predicate AllOf(s: string, drop: char -> bool) {
    forall i :: 0 <= i < |s| ==> drop(s[i])
  }

  /** `core` starts and ends with a character that is kept, and only dropped ones surround it. */
  ghost predicate IsCore(s: string, drop: char -> bool, core: string) {
    && (core == "" || (!drop(core[0]) && !drop(core[|core| - 1])))
    && exists before, after :: s == before + core + after && AllOf(before, drop) && AllOf(after, drop)
  }

  lemma {:induction false} StripLeftIs(s: string, drop: char -> bool) returns (before: string)
    ensures s == before + StripLeft(s, drop) && AllOf(before, drop)
    ensures StripLeft(s, drop) != "" ==> !drop(StripLeft(s, drop)[0])
  {
    before := "";
    if s != "" && drop(s[0]) {
      before := StripLeftIs(s[1..], drop);
      before := [s[0]] + before;
    }
  }

  lemma {:induction false} StripRightIs(s: string, drop: char -> bool) returns (after: string)
    ensures s == StripRight(s, drop) + after && AllOf(after, drop)
    ensures StripRight(s, drop) != "" ==> !drop(StripRight(s, drop)[|StripRight(s, drop)| - 1])
  {
    after := "";
    if s != "" && drop(s[|s| - 1]) {
      after := StripRightIs(s[..|s| - 1], drop);
      after := after + [s[|s| - 1]];
    }
  }

  /** Stripping leaves the core of the text, for any set of characters. */
  lemma StripIs(s: string, drop: char -> bool)
    ensures IsCore(s, drop, Strip(s, drop))
  {
    var before := StripLeftIs(s, drop);
    var middle := StripLeft(s, drop);
    var after := StripRightIs(middle, drop);
    var core := StripRight(middle, drop);
    Rebracket(before, core, after);
    if core != "" { assert core[0] == middle[0]; }
  }

  predicate OccursAt(haystack: string, needle: string, i: nat) {
    i + |needle| <= |haystack| && haystack[i..i + |needle|] == needle
  }

  /** `needle in haystack`. */
  predicate Contains(haystack: string, needle: string) {
    exists i :: 0 <= i <= |haystack| && OccursAt(haystack, needle, i)
  }

  lemma CharWithin(text: string, query: string, i: nat, k: nat)
    requires OccursAt(text, query, i) && k < |query|
    ensures text[i + k] == query[k]
  {
    assert text[i..i + |query|][k] == text[i + k];
  }

  lemma OccursWithin(text: string, query: string, t: string, i: nat, j: nat)
    requires OccursAt(text, query, i) && OccursAt(query, t, j)
    ensures OccursAt(text, t, i + j)
  {
    forall k | 0 <= k < |t| ensures text[i + j..i + j + |t|][k] == t[k] {
      CharWithin(query, t, j, k);
      CharWithin(text, query, i, j + k);
    }
  }

  /** `needle in haystack` means that the text goes on with it after some part of it. */
  lemma ContainsIff(haystack: string, needle: string)
    ensures Contains(haystack, needle) <==> exists before, after :: haystack == before + needle + after
  {
    if i :| 0 <= i <= |haystack| && OccursAt(haystack, needle, i) {
      assert haystack == haystack[..i] + needle + haystack[i + |needle|..];
    }
    forall before, after | haystack == before + needle + after ensures Contains(haystack, needle) {
      assert OccursAt(haystack, needle, |before|);
    }
  }

  /** What occurs in a part of a text occurs in the text. */
  lemma PartContains(before: string, part: string, after: string, needle: string)
    requires Contains(part, needle)
    ensures Contains(before + part + after, needle)
  {
    var i :| 0 <= i <= |part| && OccursAt(part, needle, i);
    assert OccursAt(before + part + after, needle, |before| + i);
  }

  lemma Rebracket<T>(x: seq<T>, y: seq<T>, z: seq<T>)
    ensures x + (y + z) == (x + y) + z
  {
  }

  lemma FirstApart<T>(a: seq<T>, b: seq<T>)
    requires a != []
    ensures (a + b)[0] == a[0] && (a + b)[1..] == a[1..] + b
  {
  }

  /** `values[:stop]`, where a negative stop counts from the end. */
  function Prefix<T>(values: seq<T>, stop: int): seq<T> {
    values[..PrefixLength(|values|, stop)]
  }

  function PrefixLength(length: nat, stop: int): (n: nat)
    ensures n <= length
  {
    if stop >= length then length
    else if stop >= 0 then stop
    else if length + stop >= 0 then length + stop
    else 0
  }

  /** A non-negative stop keeps that many values, or all; a negative one drops that many from the end, or all. */
  lemma PrefixIs<T>(values: seq<T>, stop: int)
    ensures Prefix(values, stop) <= values
    ensures |Prefix(values, stop)| ==
      if 0 <= stop < |values| then stop else if stop >= 0 then |values|
      else if |values| < -stop then 0 else |values| + stop
  {
  }

  function Join(separator: string, parts: seq<string>): string {
    if parts == [] then ""
    else if |parts| == 1 then parts[0]
    else parts[0] + separator + Join(separator, parts[1..])
  }

  /** Joining one more part appends the separator and the part. */
  lemma {:induction false} JoinSnoc(separator: string, parts: seq<string>, last: string)
    ensures Join(separator, []) == ""
    ensures Join(separator, parts + [last]) ==
      if parts == [] then last else Join(separator, parts) + separator + last
  {
    if parts == [] {
      assert parts + [last] == [last];
    } else {
      JoinSnoc(separator, parts[1..], last);
      assert (parts + [last])[1..] == parts[1..] + [last];
      if |parts| > 1 {
        Rebracket(parts[0] + separator, Join(separator, parts[1..]), separator + last);
        Rebracket(Join(separator, parts[1..]), separator, last);
        Rebracket(Join(separator, parts), separator, last);
      }
    }
  }

  /** Every part of a joined text is in it, with something before and something after. */
  lemma {:induction false} JoinHas(separator: string, parts: seq<string>, k: nat, needle: string)
    requires k < |parts| && Contains(parts[k], needle)
    ensures Contains(Join(separator, parts), needle)
  {
    if |parts| == 1 {
    } else if k == 0 {
      PartContains("", parts[0], separator + Join(separator, parts[1..]), needle);
      assert Join(separator, parts) == "" + parts[0] + (separator + Join(separator, parts[1..]));
    } else {
      JoinHas(separator, parts[1..], k - 1, needle);
      PartContains(parts[0] + separator, Join(separator, parts[1..]), "", needle);
      assert Join(separator, parts) == (parts[0] + separator) + Join(separator, parts[1..]) + "";
    }
  }

  /** The needle shares no character with the text. */
  predicate Apart(needle: string, text: string) {
    forall c :: c in needle ==> c !in text
  }

  /** A needle without a character of the separator cannot span two parts. */
  lemma NoSpan(before: string, separator: string, after: string, needle: string)
    requires needle != "" && separator != "" && Apart(needle, separator)
    ensures Contains(before + separator + after, needle) <==> Contains(before, needle) || Contains(after, needle)
  {
    var s := before + separator + after;
    if Contains(before, needle) { PartContains("", before, separator + after, needle); }
    if Contains(after, needle) { PartContains(before + separator, after, "", needle); }
    assert s == "" + before + (separator + after) && s == (before + separator) + after + "";
    if i :| 0 <= i <= |s| && OccursAt(s, needle, i) {
      OneSide(before, separator, after, needle, i);
    }
  }

  lemma OneSide(before: string, separator: string, after: string, needle: string, i: nat)
    requires needle != "" && separator != "" && Apart(needle, separator)
    requires OccursAt(before + separator + after, needle, i)
    ensures Contains(before, needle) || Contains(after, needle)
  {
    var s := before + separator + after;
    var j, n := |before|, |needle|;
    if i + n > j && i < j + |separator| { Overlapping(before, separator, after, needle, i); }
    if i + n <= j {
      assert before[i..i + n] == s[i..i + n];
      assert OccursAt(before, needle, i);
    } else {
      var k := i - j - |separator|;
      assert after[k..k + n] == s[i..i + n];
      assert OccursAt(after, needle, k);
    }
  }

  /** An occurrence that reaches into the separator shares a character with it. */
  lemma Overlapping(before: string, separator: string, after: string, needle: string, i: nat)
    requires OccursAt(before + separator + after, needle, i) && needle != "" && separator != ""
    requires i + |needle| > |before| && i < |before| + |separator|
    ensures !Apart(needle, separator)
  {
    var s := before + separator + after;
    var m := if i >= |before| then i else |before|;
    assert s[i..i + |needle|][m - i] == s[m] == separator[m - |before|];
    assert needle[m - i] in needle && needle[m - i] in separator;
  }

  /** So a joined text contains such a needle exactly if one of its parts does. */
  lemma {:induction false} JoinContainsIff(separator: string, parts: seq<string>, needle: string)
    requires needle != "" && separator != "" && Apart(needle, separator)
    ensures Contains(Join(separator, parts), needle) <==> exists k :: 0 <= k < |parts| && Contains(parts[k], needle)
  {
    if |parts| > 1 {
      JoinContainsIff(separator, parts[1..], needle);
      NoSpan(parts[0], separator, Join(separator, parts[1..]), needle);
      assert forall k :: 0 < k < |parts| ==> parts[k] == parts[1..][k - 1];
      assert forall k :: 0 <= k < |parts[1..]| ==> parts[1..][k] == parts[k + 1];
    }
  }

  /** Applies a character map to a whole string, as `str.lower` and `str.upper` do here. */
  function MapChars(s: string, f: char -> char): (r: string)
    ensures |r| == |s|
    ensures forall i :: 0 <= i < |s| ==> r[i] == f(s[i])
  {
    seq(|s|, i requires 0 <= i < |s| => f(s[i]))
  }

  predicate IsAsciiDigit(c: char) { '0' <= c <= '9' }

  /** `str(n)` for a non-negative integer. */
  function Decimal(n: nat): (r: string)
    ensures r != ""
    ensures forall i :: 0 <= i < |r| ==> IsAsciiDigit(r[i])
  {
    (if n < 10 then "" else Decimal(n / 10)) + [DigitChar(n % 10)]
  }

  function DigitValue(c: char): nat
    requires IsAsciiDigit(c)
  {
    c as int - '0' as int
  }

  function DigitChar(d: nat): (c: char)
    requires d < 10
    ensures IsAsciiDigit(c) && DigitValue(c) == d
  {
    '0' + d as char
  }

  function FromDecimal(s: string): nat
    requires forall i :: 0 <= i < |s| ==> IsAsciiDigit(s[i])
  {
    if s == "" then 0 else FromDecimal(s[..|s| - 1]) * 10 + DigitValue(s[|s| - 1])
  }

  /** The decimal rendering determines the number. */
  lemma {:induction false} DecimalRoundTrip(n: nat)
    ensures FromDecimal(Decimal(n)) == n
  {
    var r := Decimal(n);
    if n >= 10 {
      DecimalRoundTrip(n / 10);
      assert r[..|r| - 1] == Decimal(n / 10);
    } else {
      assert r[..|r| - 1] == "";
    }
  }

  lemma DecimalInjective(m: nat, n: nat)
    requires Decimal(m) == Decimal(n)
    ensures m == n
  {
    DecimalRoundTrip(m);
    DecimalRoundTrip(n);
  }
}
