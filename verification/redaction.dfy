/** The numeric passes of `redact_sensitive_text`. */
module Redaction {
  import opened Text

  /** `\d`: every decimal digit of Unicode, of which the ASCII ones and the replacement characters are known. */
  ghost predicate IsDigitClass(digit: char -> bool) {
    (forall c :: '0' <= c <= '9' ==> digit(c)) && !digit('*') && !digit('X') && !digit('x')
  }

  datatype Rule = Phone | LongNumber | IdCard

  /** Length of the run of digits from `i` on. */
  function RunAt(digit: char -> bool, s: string, i: nat): (n: nat)
    requires i <= |s|
    ensures i + n <= |s|
    ensures forall j :: i <= j < i + n ==> digit(s[j])
    ensures i + n < |s| ==> !digit(s[i + n])
    decreases |s| - i
  {
    if i < |s| && digit(s[i]) then 1 + RunAt(digit, s, i + 1) else 0
  }

  predicate AllDigits(digit: char -> bool, s: string, i: nat, n: nat)
    requires i + n <= |s|
  {
    forall j :: i <= j < i + n ==> digit(s[j])
  }

  predicate NoDigitAt(digit: char -> bool, s: string, i: nat) {
    i >= |s| || !digit(s[i])
  }

  predicate NoDigitBefore(digit: char -> bool, s: string, i: nat)
    requires i <= |s|
  {
    i == 0 || !digit(s[i - 1])
  }

  // ---- the regular expressions, as they are tried at one position ----

  /** `(?<!\d)1[3-9]\d\d{8}(?!\d)` */
  predicate PhoneAt(digit: char -> bool, s: string, i: nat)
    requires i <= |s|
  {
    && NoDigitBefore(digit, s, i) && i + 11 <= |s|
    && s[i] == '1' && '3' <= s[i + 1] <= '9' && AllDigits(digit, s, i + 2, 9) && NoDigitAt(digit, s, i + 11)
  }

  /** `(?<!\d)\d{3}\d{4,}\d{4}(?!\d)`, matching `n` characters */
  predicate LongNumberAt(digit: char -> bool, s: string, i: nat, n: nat)
    requires i <= |s|
  {
    NoDigitBefore(digit, s, i) && n >= 11 && i + n <= |s| && AllDigits(digit, s, i, n) && NoDigitAt(digit, s, i + n)
  }

  /** `(?<!\d)\d{17}[\dXx](?!\d)` */
  predicate IdCardAt(digit: char -> bool, s: string, i: nat)
    requires i <= |s|
  {
    && NoDigitBefore(digit, s, i) && i + 18 <= |s|
    && AllDigits(digit, s, i, 17) && (digit(s[i + 17]) || s[i + 17] == 'X' || s[i + 17] == 'x')
    && NoDigitAt(digit, s, i + 18)
  }

  /** How many characters the rule matches at this position, or 0. */
  function MatchAt(rule: Rule, digit: char -> bool, s: string, i: nat): (n: nat)
    requires i <= |s|
    ensures i + n <= |s|
    ensures n == 0 || n >= 11
  {
    match rule
    case Phone => if PhoneAt(digit, s, i) then 11 else 0
    case LongNumber => if LongNumberAt(digit, s, i, RunAt(digit, s, i)) then RunAt(digit, s, i) else 0
    case IdCard => if IdCardAt(digit, s, i) then 18 else 0
  }

  /** The length of a long-number match is forced: its digits extend to the end of the run. */
  lemma LongNumberMatchIsTheRun(digit: char -> bool, s: string, i: nat, n: nat)
    requires i <= |s| && LongNumberAt(digit, s, i, n)
    ensures n == RunAt(digit, s, i)
  {
  }

  function KeptFront(rule: Rule): nat { if rule == IdCard then 6 else 3 }

  function Stars(rule: Rule): string { if rule == IdCard then "********" else "****" }

  /** The first characters, stars, and the last four. */
  function Masked(rule: Rule, matched: string): string
    requires |matched| >= 11
  {
    matched[..KeptFront(rule)] + Stars(rule) + matched[|matched| - 4..]
  }

  /** `pattern.sub`, from position `i` on: leftmost matches, looking behind into the original text. */
  function Sub(rule: Rule, digit: char -> bool, s: string, i: nat): string
    requires i <= |s|
    decreases |s| - i
  {
    if i == |s| then ""
    else
      var n := MatchAt(rule, digit, s, i);
      if n > 0 then Masked(rule, s[i..i + n]) + Sub(rule, digit, s, i + n)
      else [s[i]] + Sub(rule, digit, s, i + 1)
  }

  function Apply(rule: Rule, digit: char -> bool, s: string): string {
    Sub(rule, digit, s, 0)
  }

  // ---- no long runs are left ----

  /** Every run of digits is shorter than `k`, given that `carry` digits precede the text. */
  predicate Below(digit: char -> bool, s: string, carry: nat, k: nat)
    decreases |s|
  {
    if s == "" then carry < k
    else if digit(s[0]) then Below(digit, s[1..], carry + 1, k)
    else carry < k && Below(digit, s[1..], 0, k)
  }

  lemma {:induction false} BelowMonotone(digit: char -> bool, s: string, a: nat, b: nat, k: nat)
    requires a <= b && Below(digit, s, b, k)
    ensures Below(digit, s, a, k)
  {
    if s != "" && digit(s[0]) { BelowMonotone(digit, s[1..], a + 1, b + 1, k); }
  }

  lemma {:induction false} CarryIsShort(digit: char -> bool, s: string, carry: nat, k: nat)
    requires Below(digit, s, carry, k)
    ensures carry < k
  {
    if s != "" && digit(s[0]) { CarryIsShort(digit, s[1..], carry + 1, k); }
  }

  /** A text that does not start with a digit ends whatever run precedes it. */
  lemma BelowAfterRun(digit: char -> bool, s: string, carry: nat, k: nat)
    requires Below(digit, s, 0, k) && NoDigitAt(digit, s, 0) && carry < k
    ensures Below(digit, s, carry, k)
  {
  }

  lemma {:induction false} BelowPrepend(digit: char -> bool, run: string, s: string, carry: nat, k: nat)
    requires AllDigits(digit, run, 0, |run|)
    ensures Below(digit, run + s, carry, k) == Below(digit, s, carry + |run|, k)
  {
    if run == "" {
      assert run + s == s;
    } else {
      assert (run + s)[1..] == run[1..] + s;
      BelowPrepend(digit, run[1..], s, carry + 1, k);
    }
  }

  lemma {:induction false} BelowPrependOther(digit: char -> bool, other: string, s: string, carry: nat, k: nat)
    requires other != "" && forall j :: 0 <= j < |other| ==> !digit(other[j])
    ensures Below(digit, other + s, carry, k) == (carry < k && Below(digit, s, 0, k))
  {
    assert (other + s)[1..] == other[1..] + s;
    if |other| == 1 {
      assert other[1..] + s == s;
    } else {
      BelowPrependOther(digit, other[1..], s, 0, k);
      assert k == 0 ==> carry >= k;
    }
  }

  lemma {:induction false} BelowRun(digit: char -> bool, s: string, i: nat, carry: nat, k: nat)
    requires i <= |s| && Below(digit, s[i..], carry, k)
    ensures carry + RunAt(digit, s, i) < k
    decreases |s| - i
  {
    if i < |s| && digit(s[i]) {
      assert s[i..][1..] == s[i + 1..];
      BelowRun(digit, s, i + 1, carry + 1, k);
    }
  }

  /** What `Below` means: wherever a run of digits starts, it is shorter than `k`. */
  lemma {:induction false} BelowMeans(digit: char -> bool, s: string, k: nat, i: nat)
    requires i <= |s| && Below(digit, s, 0, k)
    ensures RunAt(digit, s, i) < k
  {
    BelowSuffix(digit, s, i, k);
    BelowRun(digit, s, i, 0, k);
  }

  lemma {:induction false} BelowSuffix(digit: char -> bool, s: string, i: nat, k: nat)
    requires i <= |s| && Below(digit, s, 0, k)
    ensures Below(digit, s[i..], 0, k)
    decreases i
  {
    if i == 0 {
      assert s[0..] == s;
    } else {
      BelowSuffix(digit, s, i - 1, k);
      var rest := s[i - 1..];
      assert rest[1..] == s[i..];
      BelowMonotone(digit, rest[1..], 0, if digit(rest[0]) then 1 else 0, k);
    }
  }

  // ---- one run at a time ----

  /** Substitution keeps the first character of what it works on. */
  lemma SubFirst(rule: Rule, digit: char -> bool, s: string, i: nat)
    requires i <= |s|
    ensures i == |s| <==> Sub(rule, digit, s, i) == ""
    ensures i < |s| ==> Sub(rule, digit, s, i)[0] == s[i]
  {
  }

  /** Position `i` is not inside a run of digits. */
  predicate Boundary(digit: char -> bool, s: string, i: nat)
    requires i <= |s|
  {
    NoDigitBefore(digit, s, i) || NoDigitAt(digit, s, i)
  }

  lemma {:induction false} CopyRun(rule: Rule, digit: char -> bool, s: string, i: nat, n: nat)
    requires i + n <= |s| && AllDigits(digit, s, i, n)
    requires n > 0 ==> MatchAt(rule, digit, s, i) == 0
    ensures Sub(rule, digit, s, i) == s[i..i + n] + Sub(rule, digit, s, i + n)
    decreases n
  {
    hide MatchAt, Masked, Sub;
    if n > 0 {
      assert n > 1 ==> digit(s[i]);
      hide AllDigits;
      if n > 1 { NoMatchInside(rule, digit, s, i + 1); }
      FewerDigits(digit, s, i, n);
      CopyRun(rule, digit, s, i + 1, n - 1);
      OneStep(rule, digit, s, i);
      CutFirst(s, i, n, Sub(rule, digit, s, i + n));
    } else {
      assert s[i..i] + Sub(rule, digit, s, i) == Sub(rule, digit, s, i);
    }
  }

  lemma FewerDigits(digit: char -> bool, s: string, i: nat, n: nat)
    requires i + n <= |s| && n > 0 && AllDigits(digit, s, i, n)
    ensures AllDigits(digit, s, i + 1, n - 1)
  {
  }

  lemma CutFirst(s: string, i: nat, n: nat, rest: string)
    requires i + n <= |s| && n > 0
    ensures s[i..i + n] + rest == [s[i]] + (s[i + 1..i + n] + rest)
  {
    assert s[i..i + n] == [s[i]] + s[i + 1..i + n];
    Rebracket([s[i]], s[i + 1..i + n], rest);
  }

  lemma NoMatchInside(rule: Rule, digit: char -> bool, s: string, i: nat)
    requires 0 < i <= |s| && digit(s[i - 1])
    ensures MatchAt(rule, digit, s, i) == 0
  {
  }

  lemma LongMatch(digit: char -> bool, s: string, i: nat)
    requires i <= |s| && Boundary(digit, s, i)
    ensures MatchAt(LongNumber, digit, s, i) == if RunAt(digit, s, i) >= 11 then RunAt(digit, s, i) else 0
  {
  }

  /** No digit is left in a run of 11 or more. */
  lemma {:induction false} LongNumbersGo(digit: char -> bool, s: string, i: nat)
    requires IsDigitClass(digit) && i <= |s| && Boundary(digit, s, i)
    ensures Below(digit, Sub(LongNumber, digit, s, i), 0, 11)
    decreases |s| - i
  {
    hide MatchAt, Masked, Sub, Below;
    var n := RunAt(digit, s, i);
    SubFirst(LongNumber, digit, s, i + n);
    LongMatch(digit, s, i);
    if i == |s| {
      NothingBelow(digit);
    } else if n == 0 {
      LongNumbersGo(digit, s, i + 1);
      OneStep(LongNumber, digit, s, i);
      BelowPrependOther(digit, [s[i]], Sub(LongNumber, digit, s, i + 1), 0, 11);
    } else {
      LongNumbersGo(digit, s, i + n);
      var rest := Sub(LongNumber, digit, s, i + n);
      if n < 11 {
        CopyRun(LongNumber, digit, s, i, n);
        RunThenRest(digit, s[i..i + n], rest);
      } else {
        OneStep(LongNumber, digit, s, i);
        MaskedLongBelow(digit, s[i..i + n], rest);
      }
    }
  }

  lemma NothingBelow(digit: char -> bool)
    ensures Below(digit, "", 0, 11)
  {
  }

  lemma MaskedLongBelow(digit: char -> bool, run: string, rest: string)
    requires IsDigitClass(digit) && |run| >= 11 && AllDigits(digit, run, 0, |run|)
    requires Below(digit, rest, 0, 11) && NoDigitAt(digit, rest, 0)
    ensures Below(digit, Masked(LongNumber, run) + rest, 0, 11)
  {
    var front, back := run[..3], run[|run| - 4..];
    RunThenRest(digit, back, rest);
    BelowPrependOther(digit, "****", back + rest, 0, 11);
    RunThenRest(digit, front, "****" + (back + rest));
    assert Masked(LongNumber, run) + rest == front + ("****" + (back + rest));
  }

  lemma RunThenRest(digit: char -> bool, run: string, rest: string)
    requires AllDigits(digit, run, 0, |run|) && |run| < 11
    requires Below(digit, rest, 0, 11) && NoDigitAt(digit, rest, 0)
    ensures Below(digit, run + rest, 0, 11)
  {
    BelowPrepend(digit, run, rest, 0, 11);
    BelowAfterRun(digit, rest, |run|, 11);
  }

  // ---- idempotence ----

  /** The pass leaves the text as it is. */
  predicate Fixed(rule: Rule, digit: char -> bool, s: string) {
    Apply(rule, digit, s) == s
  }

  /** What precedes a boundary does not matter for what follows. */
  lemma {:induction false} Shift(rule: Rule, digit: char -> bool, x: string, y: string, i: nat)
    requires IsDigitClass(digit) && i <= |y| && (x == "" || !digit(x[|x| - 1]) || NoDigitAt(digit, y, 0))
    ensures Sub(rule, digit, x + y, |x| + i) == Sub(rule, digit, y, i)
    decreases |y| - i
  {
    hide MatchAt, Masked;
    if i < |y| {
      MatchShift(rule, digit, x, y, i);
      var n := MatchAt(rule, digit, y, i);
      var next := if n > 0 then i + n else i + 1;
      Shift(rule, digit, x, y, next);
      SameStep(rule, digit, x, y, i);
    }
  }

  /** One substitution step is the same in both texts when the match and what follows it are. */
  lemma SameStep(rule: Rule, digit: char -> bool, x: string, y: string, i: nat)
    requires i < |y| && MatchAt(rule, digit, x + y, |x| + i) == MatchAt(rule, digit, y, i)
    requires var n := MatchAt(rule, digit, y, i);
      var k := if n > 0 then n else 1;
      Sub(rule, digit, x + y, |x| + i + k) == Sub(rule, digit, y, i + k)
    ensures Sub(rule, digit, x + y, |x| + i) == Sub(rule, digit, y, i)
  {
    hide MatchAt, Masked, Sub;
    var n := MatchAt(rule, digit, y, i);
    OneStep(rule, digit, y, i);
    OneStep(rule, digit, x + y, |x| + i);
    assert (x + y)[|x| + i] == y[i];
    assert (x + y)[|x| + i..|x| + i + n] == y[i..i + n];
  }

  lemma OneStep(rule: Rule, digit: char -> bool, s: string, i: nat)
    requires i < |s|
    ensures var n := MatchAt(rule, digit, s, i);
      Sub(rule, digit, s, i) ==
        if n > 0 then Masked(rule, s[i..i + n]) + Sub(rule, digit, s, i + n) else [s[i]] + Sub(rule, digit, s, i + 1)
  {
    hide MatchAt, Masked;
  }

  lemma {:induction false} RunShift(digit: char -> bool, x: string, y: string, i: nat)
    requires i <= |y|
    ensures RunAt(digit, x + y, |x| + i) == RunAt(digit, y, i)
    decreases |y| - i
  {
    if i < |y| { RunShift(digit, x, y, i + 1); }
  }

  lemma MatchShift(rule: Rule, digit: char -> bool, x: string, y: string, i: nat)
    requires IsDigitClass(digit) && i < |y| && (x == "" || !digit(x[|x| - 1]) || NoDigitAt(digit, y, 0))
    ensures MatchAt(rule, digit, x + y, |x| + i) == MatchAt(rule, digit, y, i)
  {
    hide PhoneAt, IdCardAt, LongNumberAt, RunAt;
    RunShift(digit, x, y, i);
    match rule {
      case Phone => PhoneShift(digit, x, y, i);
      case LongNumber => LongShift(digit, x, y, i);
      case IdCard => IdCardShift(digit, x, y, i);
    }
  }

  lemma LongShift(digit: char -> bool, x: string, y: string, i: nat)
    requires i < |y| && (x == "" || !digit(x[|x| - 1]) || NoDigitAt(digit, y, 0))
    ensures LongNumberAt(digit, x + y, |x| + i, RunAt(digit, x + y, |x| + i))
        == LongNumberAt(digit, y, i, RunAt(digit, y, i))
  {
    var n := RunAt(digit, y, i);
    RunShift(digit, x, y, i);
    assert n > 0 ==> digit(y[i]);
    EdgesShift(digit, x, y, i, n);
    hide RunAt, NoDigitBefore;
  }

  lemma PhoneShift(digit: char -> bool, x: string, y: string, i: nat)
    requires i < |y| && (x == "" || !digit(x[|x| - 1]) || NoDigitAt(digit, y, 0)) && IsDigitClass(digit)
    ensures PhoneAt(digit, x + y, |x| + i) == PhoneAt(digit, y, i)
  {
    if i + 11 <= |y| {
      DigitsShift(digit, x, y, i + 2, 9);
      assert (x + y)[|x| + i] == y[i] && (x + y)[|x| + i + 1] == y[i + 1];
      EdgesShift(digit, x, y, i, 11);
      hide AllDigits, NoDigitAt, NoDigitBefore;
    }
  }

  lemma DigitsShift(digit: char -> bool, x: string, y: string, i: nat, n: nat)
    requires i + n <= |y|
    ensures AllDigits(digit, x + y, |x| + i, n) == AllDigits(digit, y, i, n)
  {
    RunShift(digit, x, y, i);
    RunHasDigits(digit, y, i, n);
    RunHasDigits(digit, x + y, |x| + i, n);
  }

  lemma {:induction false} RunHasDigits(digit: char -> bool, s: string, i: nat, n: nat)
    requires i + n <= |s|
    ensures AllDigits(digit, s, i, n) <==> RunAt(digit, s, i) >= n
    decreases n
  {
    if n > 0 && digit(s[i]) { RunHasDigits(digit, s, i + 1, n - 1); }
  }

  /** Either the character at `i` is no digit, or what precedes it is seen alike in both texts. */
  lemma EdgesShift(digit: char -> bool, x: string, y: string, i: nat, n: nat)
    requires i < |y| && i + n <= |y| && (x == "" || !digit(x[|x| - 1]) || NoDigitAt(digit, y, 0))
    ensures NoDigitAt(digit, x + y, |x| + i + n) == NoDigitAt(digit, y, i + n)
    ensures digit(y[i]) ==> NoDigitBefore(digit, x + y, |x| + i) == NoDigitBefore(digit, y, i)
  {
  }

  lemma IdCardShift(digit: char -> bool, x: string, y: string, i: nat)
    requires i < |y| && (x == "" || !digit(x[|x| - 1]) || NoDigitAt(digit, y, 0))
    ensures IdCardAt(digit, x + y, |x| + i) == IdCardAt(digit, y, i)
  {
    if i + 18 <= |y| {
      DigitsShift(digit, x, y, i, 17);
      assert (x + y)[|x| + i + 17] == y[i + 17] && (x + y)[|x| + i] == y[i];
      assert AllDigits(digit, y, i, 17) ==> digit(y[i]);
      EdgesShift(digit, x, y, i, 18);
      hide AllDigits, NoDigitAt, NoDigitBefore;
    }
  }

  /** A run of digits in front that is not matched, and is not continued, leaves a fixed text fixed. */
  lemma FixedRun(rule: Rule, digit: char -> bool, run: string, y: string)
    requires IsDigitClass(digit) && Fixed(rule, digit, y) && NoDigitAt(digit, y, 0)
    requires AllDigits(digit, run, 0, |run|)
    requires run != "" ==> MatchAt(rule, digit, run + y, 0) == 0
    ensures Fixed(rule, digit, run + y)
  {
    var s := run + y;
    assert AllDigits(digit, s, 0, |run|);
    assert s[0..|run|] == run;
    hide MatchAt;
    if run == "" {
      assert s == y;
    } else {
      CopyRun(rule, digit, s, 0, |run|);
      Shift(rule, digit, run, y, 0);
    }
  }

  /** Too short a run is never matched. */
  lemma ShortRun(rule: Rule, digit: char -> bool, run: string, y: string)
    requires IsDigitClass(digit) && Fixed(rule, digit, y) && NoDigitAt(digit, y, 0)
    requires AllDigits(digit, run, 0, |run|) && |run| < 11
    ensures Fixed(rule, digit, run + y)
  {
    var s := run + y;
    if run != "" {
      RunOf(digit, run, y);
      NeedsElevenDigits(rule, digit, s, 0);
    }
    FixedRun(rule, digit, run, y);
  }

  lemma RunOf(digit: char -> bool, run: string, y: string)
    requires AllDigits(digit, run, 0, |run|) && NoDigitAt(digit, y, 0)
    ensures RunAt(digit, run + y, 0) == |run|
  {
    RunHasDigits(digit, run + y, 0, |run|);
    assert |run + y| > |run| ==> (run + y)[|run|] == y[0];
  }

  /** Every rule needs at least eleven digits in a row. */
  lemma NeedsElevenDigits(rule: Rule, digit: char -> bool, s: string, i: nat)
    requires IsDigitClass(digit) && i <= |s|
    ensures MatchAt(rule, digit, s, i) > 0 ==> RunAt(digit, s, i) >= 11
  {
    if i + 11 <= |s| {
      RunHasDigits(digit, s, i, 11);
      if rule == Phone { PhoneDigits(digit, s, i); }
    }
  }

  lemma PhoneDigits(digit: char -> bool, s: string, i: nat)
    requires IsDigitClass(digit) && i + 11 <= |s|
    ensures PhoneAt(digit, s, i) ==> AllDigits(digit, s, i, 11)
  {
    if PhoneAt(digit, s, i) {
      forall j | i <= j < i + 11 ensures digit(s[j]) {
        if j >= i + 2 { assert AllDigits(digit, s, i + 2, 9); }
      }
    }
  }

  lemma {:induction false} FixedOther(rule: Rule, digit: char -> bool, other: string, y: string)
    requires IsDigitClass(digit) && Fixed(rule, digit, y) && forall j :: 0 <= j < |other| ==> !digit(other[j])
    ensures Fixed(rule, digit, other + y)
  {
    if other == "" {
      assert other + y == y;
    } else {
      FixedOther(rule, digit, other[1..], y);
      var rest := other[1..] + y;
      assert other + y == [other[0]] + rest;
      NeedsElevenDigits(rule, digit, [other[0]] + rest, 0);
      Shift(rule, digit, [other[0]], rest, 0);
      hide MatchAt;
    }
  }

  /** The characters after the stars: up to four digits, or three digits and the letter of an identity card. */
  predicate IsTail(digit: char -> bool, tail: string) {
    |tail| == 4 && AllDigits(digit, tail, 0, 3)
  }

  lemma FixedTail(rule: Rule, digit: char -> bool, tail: string, y: string)
    requires IsDigitClass(digit) && IsTail(digit, tail) && Fixed(rule, digit, y) && NoDigitAt(digit, y, 0)
    ensures Fixed(rule, digit, tail + y)
  {
    if digit(tail[3]) {
      ShortRun(rule, digit, tail, y);
    } else {
      FixedOther(rule, digit, tail[3..], y);
      ShortRun(rule, digit, tail[..3], tail[3..] + y);
      assert tail + y == tail[..3] + (tail[3..] + y);
    }
  }

  lemma FixedMasked(rule: Rule, digit: char -> bool, matched: string, y: string)
    requires IsDigitClass(digit) && |matched| >= 11 && AllDigits(digit, matched, 0, |matched| - 1)
    requires Fixed(rule, digit, y) && NoDigitAt(digit, y, 0)
    ensures Fixed(rule, digit, Masked(rule, matched) + y)
  {
    hide Fixed;
    var front, tail := matched[..KeptFront(rule)], matched[|matched| - 4..];
    FixedTail(rule, digit, tail, y);
    FixedOther(rule, digit, Stars(rule), tail + y);
    ShortRun(rule, digit, front, Stars(rule) + (tail + y));
    assert Masked(rule, matched) + y == front + (Stars(rule) + (tail + y));
  }

  lemma MatchedShape(rule: Rule, digit: char -> bool, s: string, i: nat)
    requires IsDigitClass(digit) && i <= |s| && MatchAt(rule, digit, s, i) > 0
    ensures var n := MatchAt(rule, digit, s, i);
      AllDigits(digit, s[i..i + n], 0, n - 1) && NoDigitAt(digit, s, i + n) && RunAt(digit, s, i) >= n - 1
  {
    var n := MatchAt(rule, digit, s, i);
    if rule == Phone { PhoneDigits(digit, s, i); }
    assert AllDigits(digit, s, i, n - 1);
    RunHasDigits(digit, s, i, n - 1);
  }

  /** A run that is not matched in the text is not matched before what the pass makes of the rest. */
  lemma StillUnmatched(rule: Rule, digit: char -> bool, s: string, i: nat, n: nat)
    requires IsDigitClass(digit) && i < |s| && Boundary(digit, s, i) && digit(s[i]) && n == RunAt(digit, s, i)
    requires MatchAt(rule, digit, s, i) == 0
    ensures MatchAt(rule, digit, s[i..i + n] + Sub(rule, digit, s, i + n), 0) == 0
  {
    if rule == IdCard && n == 17 && i + n < |s| {
      UnmatchedLetter(digit, s, i);
    } else {
      var run, rest := s[i..i + n], Sub(rule, digit, s, i + n);
      SubFirst(rule, digit, s, i + n);
      RunOf(digit, run, rest);
      assert (run + rest)[..n] == run;
      hide Sub, MatchAt;
      RunDecides(rule, digit, s, i, run + rest);
    }
  }

  lemma UnmatchedLetter(digit: char -> bool, s: string, i: nat)
    requires IsDigitClass(digit) && i + 17 < |s| && Boundary(digit, s, i) && digit(s[i]) && RunAt(digit, s, i) == 17
    requires MatchAt(IdCard, digit, s, i) == 0
    ensures MatchAt(IdCard, digit, s[i..i + 17] + Sub(IdCard, digit, s, i + 17), 0) == 0
  {
    var run, rest, next := s[i..i + 17], Sub(IdCard, digit, s, i + 17), Sub(IdCard, digit, s, i + 18);
    NeedsElevenDigits(IdCard, digit, s, i + 17);
    OneStep(IdCard, digit, s, i + 17);
    assert rest == [s[i + 17]] + next;
    SubFirst(IdCard, digit, s, i + 18);
    RunHasDigits(digit, s, i, 17);
    LetterText(run, s[i + 17], next);
    hide Sub, MatchAt, RunAt, AllDigits, Boundary;
    LetterDecides(digit, s, i, run + rest);
  }

  lemma LetterText(run: string, c: char, next: string)
    requires |run| == 17
    ensures var t := run + ([c] + next);
      t[..17] == run && t[17] == c && |t| == 18 + |next| && (next != "" ==> t[18] == next[0])
  {
  }

  lemma LetterDecides(digit: char -> bool, s: string, i: nat, t: string)
    requires i + 18 <= |s| && |t| >= 18 && Boundary(digit, s, i) && AllDigits(digit, s, i, 17)
    requires t[..17] == s[i..i + 17] && t[17] == s[i + 17] && NoDigitAt(digit, t, 18) == NoDigitAt(digit, s, i + 18)
    requires MatchAt(IdCard, digit, s, i) == 0
    ensures MatchAt(IdCard, digit, t, 0) == 0
  {
    assert digit(s[i]);
  }

  /** Apart from a letter after 17 digits, the run alone decides whether a rule matches. */
  lemma RunDecides(rule: Rule, digit: char -> bool, s: string, i: nat, t: string)
    requires IsDigitClass(digit) && i < |s| && Boundary(digit, s, i) && digit(s[i])
    requires RunAt(digit, t, 0) == RunAt(digit, s, i) && t[..RunAt(digit, t, 0)] == s[i..i + RunAt(digit, s, i)]
    requires rule == IdCard && RunAt(digit, s, i) == 17 ==> |t| == 17
    requires MatchAt(rule, digit, s, i) == 0
    ensures MatchAt(rule, digit, t, 0) == 0
  {
    var n := RunAt(digit, s, i);
    assert forall j :: 0 <= j < n ==> t[j] == t[..n][j] == s[i + j];
    if rule == Phone {
      if |t| >= 11 { PhoneDigits(digit, t, 0); RunHasDigits(digit, t, 0, 11); }
      if n == 11 { assert AllDigits(digit, s, i + 2, 9); }
    } else if rule == IdCard {
      if |t| >= 18 { RunHasDigits(digit, t, 0, 17); }
    }
  }

  lemma EmptyIsFixed(rule: Rule, digit: char -> bool)
    ensures Fixed(rule, digit, "")
  {
  }

  lemma MatchedPartIsFixed(rule: Rule, digit: char -> bool, s: string, i: nat)
    requires IsDigitClass(digit) && i < |s| && MatchAt(rule, digit, s, i) > 0
    requires Fixed(rule, digit, Sub(rule, digit, s, i + MatchAt(rule, digit, s, i)))
    ensures Fixed(rule, digit, Sub(rule, digit, s, i)) && NoDigitAt(digit, s, i + MatchAt(rule, digit, s, i))
  {
    hide MatchAt, Masked, Sub, Fixed, RunAt;
    var m := MatchAt(rule, digit, s, i);
    OneStep(rule, digit, s, i);
    MatchedShape(rule, digit, s, i);
    SubFirst(rule, digit, s, i + m);
    FixedMasked(rule, digit, s[i..i + m], Sub(rule, digit, s, i + m));
  }

  lemma UnmatchedRunIsFixed(rule: Rule, digit: char -> bool, s: string, i: nat, n: nat)
    requires IsDigitClass(digit) && i < |s| && Boundary(digit, s, i) && n == RunAt(digit, s, i) > 0
    requires MatchAt(rule, digit, s, i) == 0 && Fixed(rule, digit, Sub(rule, digit, s, i + n))
    ensures Fixed(rule, digit, Sub(rule, digit, s, i))
  {
    hide MatchAt, Masked, Sub, Fixed;
    var run, rest := s[i..i + n], Sub(rule, digit, s, i + n);
    SubFirst(rule, digit, s, i + n);
    CopyRun(rule, digit, s, i, n);
    StillUnmatched(rule, digit, s, i, n);
    assert AllDigits(digit, run, 0, |run|);
    FixedRun(rule, digit, run, rest);
  }

  lemma OtherIsFixed(rule: Rule, digit: char -> bool, s: string, i: nat)
    requires IsDigitClass(digit) && i < |s| && !digit(s[i]) && MatchAt(rule, digit, s, i) == 0
    requires Fixed(rule, digit, Sub(rule, digit, s, i + 1))
    ensures Fixed(rule, digit, Sub(rule, digit, s, i))
  {
    hide MatchAt, Masked, Fixed, Sub;
    OneStep(rule, digit, s, i);
    FixedOther(rule, digit, [s[i]], Sub(rule, digit, s, i + 1));
  }

  /** The text a pass leaves behind, from any boundary on, is fixed under the same pass. */
  lemma {:induction false} SubIsFixed(rule: Rule, digit: char -> bool, s: string, i: nat)
    requires IsDigitClass(digit) && i <= |s| && Boundary(digit, s, i)
    ensures Fixed(rule, digit, Sub(rule, digit, s, i))
    decreases |s| - i
  {
    if i == |s| {
      EmptyIsFixed(rule, digit);
    } else {
      hide MatchAt, Masked, Fixed, Sub;
      var m, n := MatchAt(rule, digit, s, i), RunAt(digit, s, i);
      if m > 0 {
        NextBoundary(rule, digit, s, i);
        SubIsFixed(rule, digit, s, i + m);
        MatchedPartIsFixed(rule, digit, s, i);
      } else if n == 0 {
        SubIsFixed(rule, digit, s, i + 1);
        OtherIsFixed(rule, digit, s, i);
      } else {
        SubIsFixed(rule, digit, s, i + n);
        UnmatchedRunIsFixed(rule, digit, s, i, n);
      }
    }
  }

  lemma NextBoundary(rule: Rule, digit: char -> bool, s: string, i: nat)
    requires IsDigitClass(digit) && i < |s| && MatchAt(rule, digit, s, i) > 0
    ensures NoDigitAt(digit, s, i + MatchAt(rule, digit, s, i))
  {
    MatchedShape(rule, digit, s, i);
  }

  /** Each numeric pass leaves its own output alone, whatever the text. */
  lemma PassesAreIdempotent(rule: Rule, digit: char -> bool, s: string)
    requires IsDigitClass(digit)
    ensures Apply(rule, digit, Apply(rule, digit, s)) == Apply(rule, digit, s)
  {
    SubIsFixed(rule, digit, s, 0);
  }

  lemma {:induction false} NothingToDo(rule: Rule, digit: char -> bool, s: string, i: nat)
    requires i <= |s| && forall j :: i <= j <= |s| ==> MatchAt(rule, digit, s, j) == 0
    ensures Sub(rule, digit, s, i) == s[i..]
    decreases |s| - i
  {
    hide MatchAt, Masked;
    if i < |s| { NothingToDo(rule, digit, s, i + 1); }
  }

  /** Where no run reaches eleven digits, no pass finds anything. */
  lemma ShortRunsAreLeftAlone(rule: Rule, digit: char -> bool, s: string)
    requires IsDigitClass(digit) && Below(digit, s, 0, 11)
    ensures Apply(rule, digit, s) == s
  {
    forall j | 0 <= j <= |s| ensures MatchAt(rule, digit, s, j) == 0 {
      BelowMeans(digit, s, 11, j);
      NeedsElevenDigits(rule, digit, s, j);
    }
    NothingToDo(rule, digit, s, 0);
    assert s[0..] == s;
  }

  /** The long-number pass leaves the identity-card pass nothing to do: that pass never changes a text. */
  lemma IdCardPassIsIdle(digit: char -> bool, s: string)
    requires IsDigitClass(digit)
    ensures Apply(IdCard, digit, Apply(LongNumber, digit, s)) == Apply(LongNumber, digit, s)
  {
    LongNumbersGo(digit, s, 0);
    ShortRunsAreLeftAlone(IdCard, digit, Apply(LongNumber, digit, s));
  }

  // ---- what becomes of a number ----

  /** A number of this length and beginning is masked by the rule. */
  predicate IsHit(rule: Rule, number: string) {
    match rule
    case Phone => |number| == 11 && number[0] == '1' && '3' <= number[1] <= '9'
    case LongNumber => |number| >= 11
    case IdCard => false
  }

  /** The two rules that match digits alone match whole runs. */
  lemma MatchesRun(rule: Rule, digit: char -> bool, s: string, i: nat)
    requires IsDigitClass(digit) && i <= |s| && rule != IdCard
    ensures var n := RunAt(digit, s, i);
      MatchAt(rule, digit, s, i) == if NoDigitBefore(digit, s, i) && IsHit(rule, s[i..i + n]) then n else 0
  {
    var n := RunAt(digit, s, i);
    if PhoneAt(digit, s, i) {
      PhoneDigits(digit, s, i);
      RunHasDigits(digit, s, i, 11);
    }
    if n == 11 { assert s[i..i + n][1] == s[i + 1]; }
  }

  lemma {:induction false} RunInFront(digit: char -> bool, a: string, b: string, i: nat)
    requires i <= |a| && (a == "" || i == |a| || !digit(a[|a| - 1])) && (i < |a| || NoDigitAt(digit, b, 0))
    ensures RunAt(digit, a + b, i) == RunAt(digit, a, i)
    decreases |a| - i
  {
    if i < |a| {
      assert (a + b)[i] == a[i];
      if digit(a[i]) {
        assert i + 1 < |a|;
        RunInFront(digit, a, b, i + 1);
      }
    } else if b != "" {
      assert (a + b)[i] == b[0];
    }
  }

  lemma MatchInFront(rule: Rule, digit: char -> bool, a: string, b: string, i: nat)
    requires IsDigitClass(digit) && rule != IdCard && i < |a| && !digit(a[|a| - 1])
    ensures MatchAt(rule, digit, a + b, i) == MatchAt(rule, digit, a, i)
  {
    var n := RunAt(digit, a, i);
    RunInFront(digit, a, b, i);
    MatchesRun(rule, digit, a + b, i);
    MatchesRun(rule, digit, a, i);
    assert (a + b)[i..i + n] == a[i..i + n];
  }

  lemma StepInFront(rule: Rule, digit: char -> bool, a: string, b: string, i: nat, rest: string)
    requires i < |a| && MatchAt(rule, digit, a + b, i) == MatchAt(rule, digit, a, i)
    requires var n := MatchAt(rule, digit, a, i);
      var k := if n > 0 then n else 1;
      Sub(rule, digit, a + b, i + k) == Sub(rule, digit, a, i + k) + rest
    ensures Sub(rule, digit, a + b, i) == Sub(rule, digit, a, i) + rest
  {
    hide MatchAt, Masked, Sub;
    var n := MatchAt(rule, digit, a, i);
    OneStep(rule, digit, a, i);
    OneStep(rule, digit, a + b, i);
    assert (a + b)[i] == a[i];
    assert (a + b)[i..i + n] == a[i..i + n];
    if n > 0 {
      Rebracket(Masked(rule, a[i..i + n]), Sub(rule, digit, a, i + n), rest);
    } else {
      Rebracket([a[i]], Sub(rule, digit, a, i + 1), rest);
    }
  }

  /** What comes before a boundary is treated as if it stood alone. */
  lemma {:induction false} SubInFront(rule: Rule, digit: char -> bool, a: string, b: string, i: nat)
    requires IsDigitClass(digit) && rule != IdCard && i <= |a| && (a == "" || !digit(a[|a| - 1]))
    ensures Sub(rule, digit, a + b, i) == Sub(rule, digit, a, i) + Sub(rule, digit, a + b, |a|)
    decreases |a| - i
  {
    hide MatchAt, Masked;
    if i < |a| {
      MatchInFront(rule, digit, a, b, i);
      var n := MatchAt(rule, digit, a, i);
      hide Sub;
      SubInFront(rule, digit, a, b, if n > 0 then i + n else i + 1);
      StepInFront(rule, digit, a, b, i, Sub(rule, digit, a + b, |a|));
    } else {
      assert Sub(rule, digit, a, i) == "";
    }
  }

  /** What a rule makes of a whole run. */
  lemma RunBecomes(rule: Rule, digit: char -> bool, s: string, i: nat)
    requires IsDigitClass(digit) && rule != IdCard && i <= |s| && NoDigitBefore(digit, s, i) && RunAt(digit, s, i) > 0
    ensures var n := RunAt(digit, s, i);
      Sub(rule, digit, s, i)
      == (if IsHit(rule, s[i..i + n]) then Masked(rule, s[i..i + n]) else s[i..i + n]) + Sub(rule, digit, s, i + n)
  {
    hide *;
    var n := RunAt(digit, s, i);
    MatchesRun(rule, digit, s, i);
    RunHasDigits(digit, s, i, n);
    if IsHit(rule, s[i..i + n]) {
      OneStep(rule, digit, s, i);
    } else {
      CopyRun(rule, digit, s, i, n);
    }
  }

  /**
   * A number between other characters, of eleven digits that read like a mobile phone or of eleven digits or
   * more, shows its first three and its last four digits and four stars between; any other number stays. What
   * comes before it and after it is treated as if it stood alone.
   */
  lemma NumberIsMasked(rule: Rule, digit: char -> bool, before: string, number: string, after: string)
    requires IsDigitClass(digit) && rule != IdCard && number != "" && AllDigits(digit, number, 0, |number|)
    requires before == "" || !digit(before[|before| - 1])
    requires after == "" || !digit(after[0])
    ensures var masked :=
        if (rule == LongNumber && |number| >= 11)
            || (rule == Phone && |number| == 11 && number[0] == '1' && '3' <= number[1] <= '9')
        then number[..3] + "****" + number[|number| - 4..] else number;
      Apply(rule, digit, before + (number + after)) == Apply(rule, digit, before) + (masked + Apply(rule, digit, after))
  {
    hide *;
    var s, i := before + (number + after), |before|;
    NumberStands(digit, before, number, after);
    RunOf(digit, number, after);
    RunShift(digit, before, number + after, 0);
    SubInFront(rule, digit, before, number + after, 0);
    RunBecomes(rule, digit, s, i);
    Shift(rule, digit, before + number, after, 0);
    MaskedIs(rule, number);
    ApplyIs(rule, digit, s);
    ApplyIs(rule, digit, before);
    ApplyIs(rule, digit, after);
  }

  lemma ApplyIs(rule: Rule, digit: char -> bool, s: string)
    ensures Apply(rule, digit, s) == Sub(rule, digit, s, 0)
  {
  }

  lemma MaskedIs(rule: Rule, number: string)
    requires rule != IdCard
    ensures (if IsHit(rule, number) then Masked(rule, number) else number) ==
      if (rule == LongNumber && |number| >= 11)
          || (rule == Phone && |number| == 11 && number[0] == '1' && '3' <= number[1] <= '9')
      then number[..3] + "****" + number[|number| - 4..] else number
  {
  }

  lemma NumberStands(digit: char -> bool, before: string, number: string, after: string)
    ensures var s, n, i := before + (number + after), |number|, |before|;
      s == (before + number) + after && s[i..i + n] == number
    ensures before == "" || !digit(before[|before| - 1]) ==>
      NoDigitBefore(digit, before + (number + after), |before|)
    ensures after == "" || !digit(after[0]) ==> NoDigitAt(digit, after, 0)
  {
  }

  // ---- the whole chain ----

  /** A pass that replaces parts of a text, as the name and address passes do. */
  datatype Edit = Keep(c: char) | Replace(part: string, mask: string)

  function Before(edits: seq<Edit>): string {
    if edits == [] then ""
    else (match edits[0] case Keep(c) => [c] case Replace(part, _) => part) + Before(edits[1..])
  }

  function After(edits: seq<Edit>): string {
    if edits == [] then ""
    else (match edits[0] case Keep(c) => [c] case Replace(_, mask) => mask) + After(edits[1..])
  }

  /** Replacements are not empty and contain no digit: stars, or stars and a form of address. */
  ghost predicate Masking(digit: char -> bool, edits: seq<Edit>) {
    forall e :: e in edits && e.Replace? ==> e.mask != "" && forall j :: 0 <= j < |e.mask| ==> !digit(e.mask[j])
  }

  lemma {:induction false} BelowRest(digit: char -> bool, part: string, rest: string, carry: nat, k: nat)
    requires Below(digit, part + rest, carry, k)
    ensures Below(digit, rest, 0, k)
  {
    if part == "" {
      assert part + rest == rest;
      BelowMonotone(digit, rest, 0, carry, k);
    } else {
      assert (part + rest)[1..] == part[1..] + rest;
      BelowRest(digit, part[1..], rest, if digit(part[0]) then carry + 1 else 0, k);
    }
  }

  lemma BelowFirst(digit: char -> bool, c: char, rest: string, carry: nat, k: nat)
    ensures Below(digit, [c] + rest, carry, k) ==
      if digit(c) then Below(digit, rest, carry + 1, k) else carry < k && Below(digit, rest, 0, k)
  {
    assert ([c] + rest)[1..] == rest;
  }

  /** Masking parts of a text never makes a run of digits longer. */
  lemma {:induction false} MaskingKeepsRunsShort(digit: char -> bool, edits: seq<Edit>, before: nat, after: nat, k: nat)
    requires Masking(digit, edits) && after <= before && after < k
    requires Below(digit, Before(edits), before, k)
    ensures Below(digit, After(edits), after, k)
  {
    if edits != [] {
      var rest := edits[1..];
      match edits[0] {
        case Keep(c) =>
          BelowFirst(digit, c, Before(rest), before, k);
          BelowFirst(digit, c, After(rest), after, k);
          hide Below;
          if digit(c) {
            CarryIsShort(digit, Before(rest), before + 1, k);
            MaskingKeepsRunsShort(digit, rest, before + 1, after + 1, k);
          } else {
            MaskingKeepsRunsShort(digit, rest, 0, 0, k);
          }
        case Replace(part, mask) =>
          hide Below;
          BelowRest(digit, part, Before(rest), before, k);
          MaskingKeepsRunsShort(digit, rest, 0, 0, k);
          BelowPrependOther(digit, mask, After(rest), after, k);
      }
    }
  }

  /** The other passes: any functions before the long numbers, and masking edits after them. */
  datatype Passes = Passes(email: string -> string, order: string -> string, names: string -> seq<Edit>,
      addresses: string -> seq<Edit>)

  function Redact(p: Passes, digit: char -> bool, text: string): string {
    var value := p.order(p.email(Apply(Phone, digit, text)));
    var numbers := Apply(IdCard, digit, Apply(LongNumber, digit, value));
    After(p.addresses(After(p.names(numbers))))
  }

  ghost predicate Plausible(p: Passes, digit: char -> bool) {
    forall s :: Before(p.names(s)) == s && Masking(digit, p.names(s)) && Before(p.addresses(s)) == s
        && Masking(digit, p.addresses(s))
  }

  /** No redacted text contains a run of eleven or more digits. */
  lemma RedactedHasNoLongNumber(p: Passes, digit: char -> bool, text: string, i: nat)
    requires IsDigitClass(digit) && Plausible(p, digit) && i <= |Redact(p, digit, text)|
    ensures RunAt(digit, Redact(p, digit, text), i) < 11
  {
    var value := p.order(p.email(Apply(Phone, digit, text)));
    LongNumbersGo(digit, value, 0);
    IdCardPassIsIdle(digit, value);
    var numbers := Apply(LongNumber, digit, value);
    hide Apply, Sub;
    MaskingKeepsRunsShort(digit, p.names(numbers), 0, 0, 11);
    MaskingKeepsRunsShort(digit, p.addresses(After(p.names(numbers))), 0, 0, 11);
    BelowMeans(digit, Redact(p, digit, text), 11, i);
  }

  /** The numeric passes change nothing in a redacted text. */
  lemma RedactedIsNumericallyStable(p: Passes, digit: char -> bool, text: string, rule: Rule)
    requires IsDigitClass(digit) && Plausible(p, digit)
    ensures Apply(rule, digit, Redact(p, digit, text)) == Redact(p, digit, text)
  {
    var out := Redact(p, digit, text);
    forall j | 0 <= j <= |out| ensures MatchAt(rule, digit, out, j) == 0 {
      RedactedHasNoLongNumber(p, digit, text, j);
      NeedsElevenDigits(rule, digit, out, j);
    }
    NothingToDo(rule, digit, out, 0);
    assert out[0..] == out;
  }
}
