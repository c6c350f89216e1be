/** Fixed-point decimals with six places: the parser accepts exactly its grammar, and printing round-trips. */
module FixedPoint {
  import opened Types

  const TICKS_PER_UNIT := 1_000_000

  predicate IsDigit(c: char) {
    '0' <= c <= '9'
  }

  predicate AllDigits(s: string) {
    forall i :: 0 <= i < |s| ==> IsDigit(s[i])
  }

  function DigitValue(c: char): nat
    requires IsDigit(c)
  {
    c as int - '0' as int
  }

  /** The number a string of digits denotes. */
  function Value(digits: string): nat
    requires AllDigits(digits)
  {
    if digits == "" then 0
    else Value(digits[..|digits| - 1]) * 10 + DigitValue(digits[|digits| - 1])
  }

  function Pow10(n: nat): (r: nat)
    ensures r >= 1
  {
    if n == 0 then 1 else 10 * Pow10(n - 1)
  }

  /** The pieces of a numeral: optional plus, whole digits, and optionally a point with a fraction. */
  datatype Numeral = Numeral(plus: bool, whole: string, point: bool, fraction: string) {
    function Text(): string {
      (if plus then "+" else "") + whole + (if point then "." + fraction else "")
    }

    predicate WellFormed() {
      AllDigits(whole) && AllDigits(fraction) && |fraction| <= 6 && |whole| + |fraction| >= 1 &&
      (!point ==> fraction == "")
    }

    /** The exact value in ticks. */
    function Ticks(): nat
      requires WellFormed()
    {
      Value(whole) * TICKS_PER_UNIT + Value(fraction) * Pow10(6 - |fraction|)
    }
  }

  /** The text is a numeral worth this many ticks. */
  ghost predicate Denotes(text: string, ticks: int) {
    exists n: Numeral :: n.WellFormed() && n.Text() == text && n.Ticks() == ticks
  }

  /** The first position from `i` on that is not a digit. */
  function DigitsEnd(s: string, i: nat): (e: nat)
    requires i <= |s|
    ensures i <= e <= |s| && (e < |s| ==> !IsDigit(s[e]))
    ensures forall k :: i <= k < e ==> IsDigit(s[k])
    decreases |s| - i
  {
    if i < |s| && IsDigit(s[i]) then DigitsEnd(s, i + 1) else i
  }

  function Start(text: string): (i: nat)
    ensures i <= |text|
  {
    if text != "" && text[0] == '+' then 1 else 0
  }

  function WholeEnd(text: string): (e: nat)
    ensures Start(text) <= e <= |text|
  {
    DigitsEnd(text, Start(text))
  }

  predicate HasPoint(text: string) {
    WholeEnd(text) < |text| && text[WholeEnd(text)] == '.'
  }

  /** How a text must be cut up if it is a numeral at all. */
  function Split(text: string): Numeral {
    var e := WholeEnd(text);
    Numeral(Start(text) == 1, text[Start(text)..e], HasPoint(text), if HasPoint(text) then text[e + 1..] else "")
  }

  /** When the pieces make up the text again, and when they are digits. */
  lemma SplitShape(text: string)
    ensures AllDigits(Split(text).whole)
    ensures Split(text).Text() == text <==> WholeEnd(text) == |text| || HasPoint(text)
    ensures HasPoint(text) ==> (AllDigits(Split(text).fraction) <==> DigitsEnd(text, WholeEnd(text) + 1) == |text|)
  {
    hide DigitsEnd, Numeral.Text;
    SplitText(text);
    if HasPoint(text) {
      SuffixDigits(text, WholeEnd(text) + 1);
    }
  }

  lemma SuffixDigits(s: string, i: nat)
    requires i <= |s|
    ensures AllDigits(s[i..]) <==> DigitsEnd(s, i) == |s|
  {
    hide DigitsEnd;
    var e := DigitsEnd(s, i);
    if e < |s| {
      assert s[i..][e - i] == s[e];
    }
  }

  lemma SplitText(text: string)
    ensures Split(text).Text() == text <==> WholeEnd(text) == |text| || HasPoint(text)
  {
    hide DigitsEnd, WholeEnd, IsDigit;
    var n, start, e := Split(text), Start(text), WholeEnd(text);
    assert text[..start] == if n.plus then "+" else "";
    assert text[..start] + n.whole == text[..e];
    if HasPoint(text) {
      assert text[..e] + ("." + text[e + 1..]) == text;
    } else {
      assert n.Text() == text[..e] + "" == text[..e];
      assert text[..e] == text <==> e == |text|;
    }
  }

  /** Cutting up a numeral's text gives the numeral back, so a text has at most one reading. */
  lemma SplitInvertsText(n: Numeral)
    requires n.WellFormed()
    ensures Split(n.Text()) == n
  {
    var tail := if n.point then "." + n.fraction else "";
    CutText(if n.plus then "+" else "", n.whole, tail);
    assert n.point ==> tail[1..] == n.fraction;
  }

  lemma CutText(sign: string, whole: string, tail: string)
    requires (sign == "" || sign == "+") && AllDigits(whole) && whole + tail != ""
    requires tail == "" || tail[0] == '.'
    ensures var text := sign + whole + tail;
            Start(text) == |sign| && WholeEnd(text) == |sign| + |whole| && (HasPoint(text) <==> tail != "") &&
            text[|sign|..WholeEnd(text)] == whole && (tail != "" ==> text[WholeEnd(text) + 1..] == tail[1..])
  {
    hide DigitsEnd;
    var text := sign + whole + tail;
    var start, e := |sign|, |sign| + |whole|;
    TextPieces(sign, whole, tail);
    assert sign == "" ==> text[0] == (whole + tail)[0];
    forall k | start <= k < e ensures IsDigit(text[k]) {
      assert text[k] == text[start..e][k - start];
    }
    assert e < |text| ==> text[e] == text[e..][0];
    assert tail != "" ==> text[e + 1..] == text[e..][1..];
  }

  lemma TextPieces(a: string, b: string, c: string)
    ensures (a + b + c)[|a|..|a| + |b|] == b && (a + b + c)[|a| + |b|..] == c
    ensures a + b + c == a + (b + c)
  {
  }

  /** What a text is worth: its only possible reading, if that is a numeral with a representable value. */
  ghost function Reading(text: string): Option<int> {
    var n := Split(text);
    if n.WellFormed() && n.Text() == text && n.Ticks() <= INT64_MAX then Some(n.Ticks()) else None
  }

  /** The reading is the grammar: a text has a reading exactly when it denotes a representable number. */
  lemma ReadingIsGrammar(text: string, ticks: int)
    ensures Reading(text) == Some(ticks) <==> Denotes(text, ticks) && ticks <= INT64_MAX
  {
    if Denotes(text, ticks) {
      var n: Numeral :| n.WellFormed() && n.Text() == text && n.Ticks() == ticks;
      SplitInvertsText(n);
    }
  }

  lemma ValueAppend(digits: string, c: char)
    requires AllDigits(digits) && IsDigit(c)
    ensures AllDigits(digits + [c]) && Value(digits + [c]) == Value(digits) * 10 + DigitValue(c)
  {
    assert (digits + [c])[..|digits|] == digits;
  }

  lemma {:induction false} ValuePrefix(digits: string, n: nat)
    requires AllDigits(digits) && n <= |digits|
    ensures AllDigits(digits[..n]) && Value(digits[..n]) <= Value(digits)
    decreases |digits|
  {
    if n < |digits| {
      var init := digits[..|digits| - 1];
      ValuePrefix(init, n);
      assert init[..n] == digits[..n];
    } else {
      assert digits[..n] == digits;
    }
  }

  /** One more digit of a run. */
  lemma RunStep(s: string, start: nat, i: nat)
    requires start <= i < |s| && AllDigits(s[start..i]) && IsDigit(s[i])
    ensures AllDigits(s[start..i + 1]) && Value(s[start..i + 1]) == Value(s[start..i]) * 10 + DigitValue(s[i])
  {
    ValueAppend(s[start..i], s[i]);
    assert s[start..i] + [s[i]] == s[start..i + 1];
  }

  /** A prefix of a run of digits is worth no more than the run. */
  lemma RunPrefix(s: string, start: nat, i: nat)
    requires start <= i <= |s| && i <= DigitsEnd(s, start)
    ensures AllDigits(s[start..i]) && AllDigits(s[start..DigitsEnd(s, start)])
    ensures Value(s[start..i]) <= Value(s[start..DigitsEnd(s, start)])
  {
    var run := s[start..DigitsEnd(s, start)];
    assert s[start..i] == run[..i - start];
    ValuePrefix(run, i - start);
  }

  /** The whole-part loop with its overflow guard. */
  method ParseWhole(s: string, start: nat) returns (r: Result<int>, position: nat)
    requires start <= |s|
    ensures AllDigits(s[start..DigitsEnd(s, start)]) && position <= |s|
    ensures r.Ok? ==> position == DigitsEnd(s, start) && r.value == Value(s[start..position]) <= INT64_MAX
    ensures r.Err? ==> r.error == Overflow && Value(s[start..DigitsEnd(s, start)]) > INT64_MAX
  {
    hide Value, AllDigits;
    var whole := 0;
    position := start;
    RunPrefix(s, start, start);
    EmptyRun(s, start);
    while position < |s| && IsDigit(s[position])
      invariant start <= position <= DigitsEnd(s, start) && AllDigits(s[start..position])
      invariant whole == Value(s[start..position]) <= INT64_MAX
    {
      var digit := DigitValue(s[position]);
      RunStep(s, start, position);
      RunPrefix(s, start, position + 1);
      if whole > (INT64_MAX - digit) / 10 {
        return Err(Overflow), position;
      }
      whole := whole * 10 + digit;
      position := position + 1;
    }
    return Ok(whole), position;
  }

  lemma EmptyRun(s: string, i: nat)
    requires i <= |s|
    ensures AllDigits(s[i..i]) && Value(s[i..i]) == 0
  {
  }

  /** The fraction loop; a seventh digit is refused. */
  method ParseFraction(s: string, start: nat) returns (r: Result<int>, position: nat)
    requires start <= |s|
    ensures AllDigits(s[start..DigitsEnd(s, start)]) && position <= |s|
    ensures r.Ok? ==> position == DigitsEnd(s, start) <= start + 6 && r.value == Value(s[start..position])
    ensures r.Err? ==> r.error == InvalidArgument && DigitsEnd(s, start) > start + 6
  {
    hide Value, AllDigits;
    var fraction := 0;
    position := start;
    RunPrefix(s, start, start);
    EmptyRun(s, start);
    while position < |s| && IsDigit(s[position])
      invariant start <= position <= DigitsEnd(s, start) && position <= start + 6 && AllDigits(s[start..position])
      invariant fraction == Value(s[start..position])
    {
      RunStep(s, start, position);
      if position - start >= 6 {
        return Err(InvalidArgument), position;
      }
      fraction := fraction * 10 + DigitValue(s[position]);
      position := position + 1;
    }
    return Ok(fraction), position;
  }

  /** Scaling a fraction of `digits` digits up to ticks. */
  method ScaleFraction(value: int, digits: nat) returns (scaled: int)
    requires digits <= 6
    ensures scaled == value * Pow10(6 - digits)
  {
    var places := digits;
    scaled := value;
    while places < 6
      invariant digits <= places <= 6
      invariant scaled * Pow10(6 - places) == value * Pow10(6 - digits)
    {
      assert Pow10(6 - places) == 10 * Pow10(6 - places - 1);
      scaled := scaled * 10;
      places := places + 1;
    }
  }

  /** Too large to be read: the leading digits alone, whatever follows them, or the value of a whole numeral. */
  ghost predicate TooLarge(text: string) {
    var n := Split(text);
    (AllDigits(n.whole) && Value(n.whole) > INT64_MAX) || (n.WellFormed() && n.Text() == text && n.Ticks() > INT64_MAX)
  }

  /** `parse_fixed_nonnegative`: accepts exactly the texts that have a reading, and returns it; what is refused is
      an overflow exactly when it is too large. */
  method Parse(text: string) returns (r: Result<int>)
    ensures Reading(text) == match r case Ok(ticks) => Some(ticks) case Err(_) => None
    ensures r == Err(Overflow) <==> TooLarge(text)
    ensures r.Err? ==> r.error == Overflow || r.error == InvalidArgument
  {
    hide Value, AllDigits, Numeral.Text, Pow10, DigitsEnd;
    SplitShape(text);
    ghost var n := Split(text);
    NoDigits();
    if text == "" {
      assert n.whole == "";
      return Err(InvalidArgument);
    }
    var position := 0;
    if text[0] == '+' {
      position := 1;
    } else if text[0] == '-' {
      MinusIsNoNumeral(text);
      return Err(InvalidArgument);
    }
    if position == |text| {
      assert n.whole == "";
      return Err(InvalidArgument);
    }
    var whole;
    whole, position := ParseWhole(text, position);
    if whole.Err? {
      WholeTooLarge(text);
      return whole;
    }
    var hasWhole := position > Start(text);
    var fraction, digits := 0, 0;
    if position < |text| && text[position] == '.' {
      position := position + 1;
      var from := position;
      var part;
      part, position := ParseFraction(text, from);
      if part.Err? {
        return part;
      }
      fraction, digits := part.value, position - from;
      assert position == |text| ==> text[from..position] == n.fraction;
    }
    if !hasWhole && digits == 0 {
      return Err(InvalidArgument);
    }
    if position != |text| {
      return Err(InvalidArgument);
    }
    assert fraction == Value(n.fraction) && digits == |n.fraction|;
    fraction := ScaleFraction(fraction, digits);
    if whole.value > (INT64_MAX - fraction) / TICKS_PER_UNIT {
      return Err(Overflow);
    }
    return Ok(whole.value * TICKS_PER_UNIT + fraction);
  }

  lemma NoDigits()
    ensures AllDigits("") && Value("") == 0
  {
  }

  lemma MinusIsNoNumeral(text: string)
    requires text != "" && text[0] == '-'
    ensures Reading(text).None? && !TooLarge(text)
  {
    SplitShape(text);
    assert Split(text).whole == "";
  }

  lemma WholeTooLarge(text: string)
    requires AllDigits(Split(text).whole) && Value(Split(text).whole) > INT64_MAX
    ensures Reading(text).None?
  {
    hide Value, AllDigits, Pow10, Numeral.Text, Split;
    var n := Split(text);
    if n.WellFormed() {
      assert Value(n.fraction) * Pow10(6 - |n.fraction|) >= 0;
    }
  }

  /** A number as `ostream` prints it. */
  function Decimal(n: nat): (s: string)
    ensures s != "" && AllDigits(s)
  {
    if n < 10 then [DigitChar(n)] else Decimal(n / 10) + [DigitChar(n % 10)]
  }

  function DigitChar(d: nat): (c: char)
    requires d < 10
    ensures IsDigit(c) && DigitValue(c) == d
  {
    ('0' as int + d) as char
  }

  lemma {:induction false} DecimalValue(n: nat)
    ensures Value(Decimal(n)) == n
  {
    if n < 10 {
      ValueAppend("", DigitChar(n));
      assert "" + [DigitChar(n)] == [DigitChar(n)];
    } else {
      DecimalValue(n / 10);
      ValueAppend(Decimal(n / 10), DigitChar(n % 10));
    }
  }

  lemma {:induction false} DecimalLength(n: nat, width: nat)
    requires n < Pow10(width) && width >= 1
    ensures |Decimal(n)| <= width
  {
    if n >= 10 {
      assert width >= 2;
      DecimalLength(n / 10, width - 1);
    }
  }

  function Zeros(n: nat): (s: string)
    ensures |s| == n && AllDigits(s)
  {
    if n == 0 then "" else ['0'] + Zeros(n - 1)
  }

  /** `setw` and `setfill('0')`. */
  function Padded(s: string, width: nat): string {
    if |s| >= width then s else Zeros(width - |s|) + s
  }

  lemma {:induction false} LeadingZeros(n: nat, s: string)
    requires AllDigits(s)
    ensures AllDigits(Zeros(n) + s) && Value(Zeros(n) + s) == Value(s)
    decreases |s|
  {
    if s == "" {
      ZeroValue(n);
      assert Zeros(n) + s == Zeros(n);
    } else {
      var last := |s| - 1;
      LeadingZeros(n, s[..last]);
      ValueAppend(Zeros(n) + s[..last], s[last]);
      assert Zeros(n) + s[..last] + [s[last]] == Zeros(n) + s;
    }
  }

  lemma {:induction false} ZeroValue(n: nat)
    ensures Value(Zeros(n)) == 0
  {
    if n > 0 {
      ZeroValue(n - 1);
      ZerosSnoc(n - 1);
      ValueAppend(Zeros(n - 1), '0');
    }
  }

  lemma {:induction false} ZerosSnoc(n: nat)
    ensures Zeros(n + 1) == Zeros(n) + ['0']
  {
    if n > 0 {
      ZerosSnoc(n - 1);
      assert ['0'] + (Zeros(n - 1) + ['0']) == (['0'] + Zeros(n - 1)) + ['0'];
    }
  }

  method Power10(places: nat) returns (value: nat)
    ensures value == Pow10(places)
  {
    value := 1;
    for i := 0 to places
      invariant value == Pow10(i)
    {
      value := value * 10;
    }
  }

  /** The numeral that printing `ticks` with `places` decimals produces. */
  function Printed(ticks: nat, places: nat): Numeral
    requires places <= 6
  {
    var scaled := ticks / Pow10(6 - places);
    Numeral(false, Decimal(scaled / Pow10(places)), places > 0,
            if places > 0 then Padded(Decimal(scaled % Pow10(places)), places) else "")
  }

  /** What a price looks like on paper: no sign, a whole part without needless zeros, and a point with exactly the asked
      number of decimals when there are any. */
  ghost predicate Canonical(text: string, places: nat) {
    exists whole: string, fraction: string ::
      Whole(whole) && AllDigits(fraction) && |fraction| == places &&
      text == if places > 0 then whole + "." + fraction else whole
  }

  ghost predicate Whole(s: string) {
    s != "" && AllDigits(s) && (|s| > 1 ==> s[0] != '0')
  }

  /** Truncation to a number of places: the price less what is left of it after the last whole unit. */
  ghost predicate Truncates(value: int, ticks: int, unit: nat) {
    unit > 0 && value == ticks - ticks % unit
  }

  lemma {:induction false} DecimalIsWhole(n: nat)
    ensures Whole(Decimal(n)) && (n > 0 ==> Decimal(n)[0] != '0')
  {
    if n >= 10 {
      DecimalIsWhole(n / 10);
    }
  }

  lemma PrintedIsCanonical(ticks: nat, places: nat)
    requires places <= 6
    ensures Canonical(Printed(ticks, places).Text(), places)
    ensures Denotes(Printed(ticks, places).Text(), ticks / Pow10(6 - places) * Pow10(6 - places))
    ensures Truncates(ticks / Pow10(6 - places) * Pow10(6 - places), ticks, Pow10(6 - places))
  {
    hide Decimal, Padded, Pow10, Value, AllDigits, Numeral.Text, Numeral.Ticks, Numeral.WellFormed;
    var unit := Pow10(6 - places);
    var n := Printed(ticks, places);
    DecimalIsWhole(ticks / unit / Pow10(places));
    PrintedPieces(ticks, places);
    PrintedTicks(ticks, places);
    PrintedDigits(ticks, places);
    TextOf(n.whole, places > 0, n.fraction);
    Multiple(ticks, unit);
    assert n.Text() == if places > 0 then n.whole + "." + n.fraction else n.whole;
  }

  lemma PrintedDigits(ticks: nat, places: nat)
    requires places <= 6 && Printed(ticks, places).WellFormed()
    ensures AllDigits(Printed(ticks, places).fraction)
  {
  }

  lemma Multiple(a: nat, unit: nat)
    requires unit > 0
    ensures a / unit * unit == a - a % unit
  {
  }

  lemma {:induction false} ValueBelow(s: string)
    requires AllDigits(s)
    ensures Value(s) < Pow10(|s|)
  {
    if s != "" {
      ValueBelow(s[..|s| - 1]);
    }
  }

  lemma {:induction false} ValueAbove(s: string)
    requires AllDigits(s) && s != "" && s[0] != '0'
    ensures Value(s) >= Pow10(|s| - 1)
  {
    if |s| > 1 {
      ValueAbove(s[..|s| - 1]);
    } else {
      assert s[..0] == "";
    }
  }

  /** Digits of one length are determined by their value. */
  lemma {:induction false} SameLengthSameValue(a: string, b: string)
    requires AllDigits(a) && AllDigits(b) && |a| == |b| && Value(a) == Value(b)
    ensures a == b
  {
    if a != "" {
      var last := |a| - 1;
      assert a[..last] + [a[last]] == a && b[..last] + [b[last]] == b;
      assert Value(a) == Value(a[..last]) * 10 + DigitValue(a[last]);
      assert Value(b) == Value(b[..last]) * 10 + DigitValue(b[last]);
      SameLengthSameValue(a[..last], b[..last]);
    }
  }

  lemma {:induction false} PowersGrow(m: nat, n: nat)
    requires m <= n
    ensures Pow10(m) <= Pow10(n)
  {
    if m < n {
      PowersGrow(m, n - 1);
    }
  }

  lemma ShorterIsLess(a: string, b: string)
    requires Whole(a) && Whole(b) && |a| < |b|
    ensures Value(a) < Value(b)
  {
    hide Value, Pow10;
    ValueBelow(a);
    ValueAbove(b);
    PowersGrow(|a|, |b| - 1);
  }

  /** So are whole parts without needless zeros, whatever their length. */
  lemma WholeUnique(a: string, b: string)
    requires Whole(a) && Whole(b) && Value(a) == Value(b)
    ensures a == b
  {
    hide Value;
    if |a| < |b| {
      ShorterIsLess(a, b);
    } else if |b| < |a| {
      ShorterIsLess(b, a);
    } else {
      SameLengthSameValue(a, b);
    }
  }

  /** Whole and fraction can be read off the ticks. */
  lemma DigitsOfTicks(w: nat, f: nat, v: nat, g: nat, unit: nat, step: nat)
    requires unit > 0 && step > 0 && unit * step == TICKS_PER_UNIT && f < unit && g < unit
    requires w * TICKS_PER_UNIT + f * step == v * TICKS_PER_UNIT + g * step
    ensures w == v && f == g
  {
    assert w * TICKS_PER_UNIT == (w * unit) * step && v * TICKS_PER_UNIT == (v * unit) * step;
    assert (w * unit + f) * step == (v * unit + g) * step;
    SameFactor(w * unit + f, v * unit + g, step);
    SameQuotient(w, f, v, g, unit);
  }

  lemma SameFactor(a: int, b: int, step: nat)
    requires step > 0 && a * step == b * step
    ensures a == b
  {
    assert (a - b) * step == 0;
  }

  lemma SameQuotient(w: nat, f: nat, v: nat, g: nat, unit: nat)
    requires f < unit && g < unit && w * unit + f == v * unit + g
    ensures w == v && f == g
  {
    if w < v {
      Steps(w, v, unit);
    } else if v < w {
      Steps(v, w, unit);
    }
  }

  lemma {:induction false} Steps(a: nat, b: nat, unit: nat)
    requires a < b
    ensures a * unit + unit <= b * unit
  {
    OneMore(b - 1, unit);
    if a < b - 1 {
      Steps(a, b - 1, unit);
    }
  }

  lemma OneMore(a: int, unit: int)
    ensures (a + 1) * unit == a * unit + unit
  {
  }

  /** The printed text is the only canonical one that is worth the truncated price. */
  lemma PrintedIsUnique(text: string, ticks: nat, places: nat)
    requires places <= 6 && Canonical(text, places)
    requires Denotes(text, ticks / Pow10(6 - places) * Pow10(6 - places))
    ensures text == Printed(ticks, places).Text()
  {
    hide Decimal, Padded, Pow10, Value, AllDigits, Printed, Split;
    var whole: string, fraction: string :|
      Whole(whole) && AllDigits(fraction) && |fraction| == places &&
      text == if places > 0 then whole + "." + fraction else whole;
    CanonicalReading(text, whole, fraction, places, ticks / Pow10(6 - places) * Pow10(6 - places));
    PrintedIsCanonical(ticks, places);
    var printed := Printed(ticks, places).Text();
    var other: string, rest: string :|
      Whole(other) && AllDigits(rest) && |rest| == places &&
      printed == if places > 0 then other + "." + rest else other;
    CanonicalReading(printed, other, rest, places, ticks / Pow10(6 - places) * Pow10(6 - places));
    PowersOfSix(places);
    ValueBelow(fraction);
    ValueBelow(rest);
    DigitsOfTicks(Value(whole), Value(fraction), Value(other), Value(rest), Pow10(places), Pow10(6 - places));
    WholeUnique(whole, other);
    SameLengthSameValue(fraction, rest);
  }

  /** A canonical text is read the one way it looks. */
  lemma CanonicalReading(text: string, whole: string, fraction: string, places: nat, ticks: int)
    requires places <= 6 && Whole(whole) && AllDigits(fraction) && |fraction| == places
    requires text == (if places > 0 then whole + "." + fraction else whole) && Denotes(text, ticks)
    ensures Value(whole) * TICKS_PER_UNIT + Value(fraction) * Pow10(6 - places) == ticks
  {
    hide Value, AllDigits, Split, Pow10;
    var n: Numeral :| n.WellFormed() && n.Text() == text && n.Ticks() == ticks;
    var looks := Numeral(false, whole, places > 0, if places > 0 then fraction else "");
    TextOf(whole, places > 0, fraction);
    NoDigits();
    assert places == 0 ==> fraction == "";
    SplitInvertsText(n);
    SplitInvertsText(looks);
  }

  /** Digits have place value. */
  lemma {:induction false} PlaceValue(a: string, b: string)
    requires AllDigits(a) && AllDigits(b)
    ensures AllDigits(a + b) && Value(a + b) == Value(a) * Pow10(|b|) + Value(b)
    decreases |b|
  {
    if b == "" {
      assert a + b == a;
    } else {
      var init, c := b[..|b| - 1], b[|b| - 1];
      PlaceValue(a, init);
      assert a + b == (a + init) + [c] && b == init + [c];
      ValueAppend(a + init, c);
      ValueAppend(init, c);
      OneDigitMore(Value(a), Pow10(|init|), Value(init), DigitValue(c));
    }
  }

  lemma OneDigitMore(a: nat, power: nat, b: nat, digit: nat)
    ensures (a * power + b) * 10 + digit == a * (10 * power) + (b * 10 + digit)
  {
  }

  /** The point only shifts: a numeral is worth all its digits, read as one number, divided by ten for every decimal. */
  lemma PointShifts(n: Numeral)
    requires n.WellFormed()
    ensures AllDigits(n.whole + n.fraction)
    ensures n.Ticks() * Pow10(|n.fraction|) == Value(n.whole + n.fraction) * TICKS_PER_UNIT
  {
    hide Value, Pow10, AllDigits;
    PlaceValue(n.whole, n.fraction);
    PowersOfSix(|n.fraction|);
    Shifted(Value(n.whole), Value(n.fraction), Pow10(|n.fraction|), Pow10(6 - |n.fraction|));
  }

  lemma Shifted(w: nat, f: nat, unit: nat, step: nat)
    requires unit * step == TICKS_PER_UNIT
    ensures (w * TICKS_PER_UNIT + f * step) * unit == (w * unit + f) * TICKS_PER_UNIT
  {
    assert (w * TICKS_PER_UNIT) * unit == (w * unit) * TICKS_PER_UNIT;
    assert (f * step) * unit == f * (unit * step);
  }

  /** Prints the truncated price canonically; `PrintedIsUnique` says that there is no other such text. */
  method FormatPrice(ticks: int, places: nat) returns (r: Result<string>)
    ensures r == if ticks < 0 || places > 6 then Err(InvalidArgument) else Ok(Printed(ticks, places).Text())
    ensures r.Ok? ==> Canonical(r.value, places) &&
                      exists value :: Denotes(r.value, value) && Truncates(value, ticks, Pow10(6 - places))
  {
    hide Decimal, Padded, Pow10, AllDigits, Canonical, Denotes, Truncates;
    if ticks < 0 {
      return Err(InvalidArgument);
    }
    if places > 6 {
      return Err(InvalidArgument);
    }
    var divisor := Power10(6 - places);
    var scaled := ticks / divisor;
    var unit := Power10(places);
    var whole := scaled / unit;
    var fractional := scaled % unit;
    var output := Decimal(whole);
    if places > 0 {
      output := output + "." + Padded(Decimal(fractional), places);
    }
    TextOf(Decimal(whole), places > 0, Padded(Decimal(fractional), places));
    PrintedIsCanonical(ticks, places);
    return Ok(output);
  }

  lemma TextOf(whole: string, point: bool, fraction: string)
    ensures Numeral(false, whole, point, if point then fraction else "").Text() ==
            if point then whole + "." + fraction else whole
  {
    assert "" + whole + ("." + fraction) == whole + "." + fraction;
    assert "" + whole + "" == whole;
  }

  lemma PowersOfSix(places: nat)
    requires places <= 6
    ensures Pow10(places) * Pow10(6 - places) == TICKS_PER_UNIT && Pow10(0) == 1
  {
    assert Pow10(0) == 1 && Pow10(1) == 10 && Pow10(2) == 100 && Pow10(3) == 1000;
    assert Pow10(4) == 10000 && Pow10(5) == 100000 && Pow10(6) == 1000000;
  }

  lemma PrintedPieces(ticks: nat, places: nat)
    requires places <= 6
    ensures var n := Printed(ticks, places); var scaled := ticks / Pow10(6 - places);
            n.WellFormed() && |n.fraction| == places &&
            Value(n.whole) == scaled / Pow10(places) && Value(n.fraction) == scaled % Pow10(places)
  {
    hide Decimal, Padded, Pow10, Value, AllDigits;
    var scaled := ticks / Pow10(6 - places);
    DecimalValue(scaled / Pow10(places));
    PrintedFraction(scaled % Pow10(places), places);
    NoDigits();
  }

  lemma PrintedTicks(ticks: nat, places: nat)
    requires places <= 6
    ensures Printed(ticks, places).WellFormed()
    ensures Printed(ticks, places).Ticks() == ticks / Pow10(6 - places) * Pow10(6 - places) <= ticks
  {
    hide Printed, Pow10, Value, AllDigits;
    var n := Printed(ticks, places);
    var step, unit := Pow10(6 - places), Pow10(places);
    PrintedPieces(ticks, places);
    PowersOfSix(places);
    Reassemble(ticks, ticks / step, Value(n.whole), Value(n.fraction), unit, step);
  }

  /** Printing and parsing agree: the text of any representable price at any number of places parses, to the price
      truncated to that many places; with six places nothing is lost. */
  lemma RoundTrip(ticks: nat, places: nat)
    requires ticks <= INT64_MAX && places <= 6
    ensures Reading(Printed(ticks, places).Text()) == Some(ticks / Pow10(6 - places) * Pow10(6 - places))
    ensures places == 6 ==> Reading(Printed(ticks, places).Text()) == Some(ticks)
  {
    hide Split, Printed, Numeral.Text, Numeral.Ticks, Numeral.WellFormed, Pow10;
    PrintedTicks(ticks, places);
    SplitInvertsText(Printed(ticks, places));
    PowersOfSix(places);
  }

  lemma PrintedFraction(fraction: nat, places: nat)
    requires fraction < Pow10(places)
    ensures places > 0 ==>
            AllDigits(Padded(Decimal(fraction), places)) && |Padded(Decimal(fraction), places)| == places &&
                           Value(Padded(Decimal(fraction), places)) == fraction
    ensures places == 0 ==> fraction == 0 && Value("") == 0
  {
    if places > 0 {
      DecimalValue(fraction);
      DecimalLength(fraction, places);
      if |Decimal(fraction)| < places {
        LeadingZeros(places - |Decimal(fraction)|, Decimal(fraction));
      }
    }
  }

  lemma Reassemble(ticks: nat, scaled: nat, whole: nat, fraction: nat, unit: nat, step: nat)
    requires step > 0 && unit > 0 && unit * step == TICKS_PER_UNIT
    requires scaled == ticks / step && whole == scaled / unit && fraction == scaled % unit
    ensures whole * TICKS_PER_UNIT + fraction * step == scaled * step <= ticks
  {
    assert scaled == whole * unit + fraction;
    assert whole * (unit * step) == (whole * unit) * step;
    assert (whole * unit) * step + fraction * step == (whole * unit + fraction) * step;
  }
}
