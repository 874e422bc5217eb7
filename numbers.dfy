/**
 * The numeric regular expressions of the receipt parser, as explicit
 * matchers: the numeral `\d+\.?\d*` with the value `parseFloat` gives it,
 * the `$`-prefixed amount `\$(\d+\.?\d*)` (first match and global scan), and
 * a label followed by `[\s:]*\$?(\d+\.?\d*)`.
 * Amounts are exact decimals (`real`), not binary floating point.
 */
module Numbers {
  import opened Wrappers
  import opened Text

  predicate AllDigits(d: string) {
    forall k :: 0 <= k < |d| ==> IsDigit(d[k])
  }

  /** The end of the run of digits that starts at `i` (greedy `\d*`). */
  function DigitRunEnd(s: string, i: nat): (j: nat)
    requires i <= |s|
    ensures i <= j <= |s|
    ensures forall k :: i <= k < j ==> IsDigit(s[k])
    ensures j == |s| || !IsDigit(s[j])
    decreases |s| - i
  {
    if i < |s| && IsDigit(s[i]) then DigitRunEnd(s, i + 1) else i
  }

  function DigitValue(c: char): nat
    requires IsDigit(c)
  {
    c as int - '0' as int
  }

  /** The value of a string of decimal digits, most significant first. */
  function DigitsValue(d: string): nat
    requires AllDigits(d)
  {
    if |d| == 0 then 0 else 10 * DigitsValue(d[..|d| - 1]) + DigitValue(d[|d| - 1])
  }

  function Pow10(n: nat): (p: nat)
    ensures p >= 1
  {
    if n == 0 then 1 else 10 * Pow10(n - 1)
  }

  /** A string of `n` digits denotes less than ten to the `n`. */
  lemma {:induction false} DigitsValueBound(d: string)
    requires AllDigits(d)
    ensures DigitsValue(d) < Pow10(|d|)
  {
    if |d| > 0 {
      DigitsValueBound(d[..|d| - 1]);
    }
  }

  /** A string of digits denotes zero exactly when every digit is `0`. */
  lemma {:induction false} DigitsValueZero(d: string)
    requires AllDigits(d)
    ensures DigitsValue(d) == 0 <==> forall k :: 0 <= k < |d| ==> d[k] == '0'
  {
    if |d| > 0 {
      var init := d[..|d| - 1];
      DigitsValueZero(init);
      if DigitsValue(d) == 0 {
        forall k | 0 <= k < |d| ensures d[k] == '0' {
          if k < |d| - 1 { assert d[k] == init[k]; }
        }
      }
    }
  }

  /** `parseFloat` of the numeral `intPart` `.` `fracPart`, as an exact decimal. */
  function DecimalValue(intPart: string, fracPart: string): (v: real)
    requires AllDigits(intPart) && AllDigits(fracPart)
    ensures v >= 0.0
  {
    DigitsValueBound(fracPart);
    FractionSpec(DigitsValue(fracPart), Pow10(|fracPart|));
    DigitsValue(intPart) as real + DigitsValue(fracPart) as real / Pow10(|fracPart|) as real
  }

  /** A proper fraction of naturals lies in [0, 1) and is zero only for a zero numerator. */
  lemma FractionSpec(f: nat, q: nat)
    requires f < q
    ensures 0.0 <= f as real / q as real < 1.0
    ensures f as real / q as real == 0.0 <==> f == 0
  {
    var x := f as real / q as real;
    assert x * q as real == f as real;
  }

  /**
   * The integer part of a parsed numeral is the value of its integer digits,
   * and the numeral is zero exactly when all of its digits are `0`.
   */
  lemma DecimalValueSpec(intPart: string, fracPart: string)
    requires AllDigits(intPart) && AllDigits(fracPart)
    ensures DigitsValue(intPart) as real <= DecimalValue(intPart, fracPart) < DigitsValue(intPart) as real + 1.0
    ensures DecimalValue(intPart, fracPart) == 0.0 <==>
            (forall k :: 0 <= k < |intPart| ==> intPart[k] == '0') &&
            (forall k :: 0 <= k < |fracPart| ==> fracPart[k] == '0')
  {
    DigitsValueBound(fracPart);
    FractionSpec(DigitsValue(fracPart), Pow10(|fracPart|));
    DigitsValueZero(intPart);
    DigitsValueZero(fracPart);
  }

  /**
   * A match of `\d+\.?\d*`: the digits run from its start to `intEnd`; when
   * `end > intEnd`, a `.` stands at `intEnd` and fraction digits follow up to
   * `end`. `value` is what `parseFloat` makes of the matched text.
   */
  datatype Numeral = Numeral(intEnd: nat, end: nat, value: real)

  /** The greedy match of `\d+\.?\d*` at index `i`, if any. */
  function NumeralAt(s: string, i: nat): (r: Option<Numeral>)
    requires i <= |s|
    ensures r.None? <==> i == |s| || !IsDigit(s[i])
    ensures r.Some? ==> i < r.value.intEnd <= r.value.end <= |s| && r.value.value >= 0.0
    ensures r.Some? ==> forall k :: i <= k < r.value.end ==> IsDigit(s[k]) || s[k] == '.'
  {
    if i < |s| && IsDigit(s[i]) then
      var e1 := DigitRunEnd(s, i);
      assert AllDigits(s[i..e1]);
      if e1 < |s| && s[e1] == '.' then
        var e2 := DigitRunEnd(s, e1 + 1);
        assert AllDigits(s[e1 + 1..e2]);
        Some(Numeral(e1, e2, DecimalValue(s[i..e1], s[e1 + 1..e2])))
      else
        Some(Numeral(e1, e1, DecimalValue(s[i..e1], "")))
    else
      None
  }

  /**
   * The match is the greedy one: the integer digits run as far as they go,
   * the `.` is taken when it is there, the fraction digits run as far as they
   * go, and the value is the decimal the matched text denotes.
   */
  lemma NumeralAtSpec(s: string, i: nat)
    requires i <= |s| && NumeralAt(s, i).Some?
    ensures var n := NumeralAt(s, i).value;
            AllDigits(s[i..n.intEnd]) &&
            (n.intEnd == |s| || !IsDigit(s[n.intEnd])) &&
            (n.end == n.intEnd ==> n.intEnd == |s| || s[n.intEnd] != '.') &&
            (n.end > n.intEnd ==> s[n.intEnd] == '.' && AllDigits(s[n.intEnd + 1..n.end]) &&
                                  (n.end == |s| || !IsDigit(s[n.end]))) &&
            n.value == DecimalValue(s[i..n.intEnd], if n.end > n.intEnd then s[n.intEnd + 1..n.end] else "")
  {
  }

  /** A match of `\$(\d+\.?\d*)`: `$` at `start`, the numeral up to `end`, its value. */
  datatype Price = Price(start: nat, end: nat, value: real)

  /** The match of `\$(\d+\.?\d*)` that starts at index `p`, if any. */
  function PriceAt(s: string, p: nat): (r: Option<Price>)
    requires p <= |s|
    ensures r.Some? <==> p + 1 < |s| && s[p] == '$' && IsDigit(s[p + 1])
    ensures r.Some? ==> r.value.start == p && p + 1 < r.value.end <= |s| && r.value.value >= 0.0
    ensures r.Some? ==> forall k :: p < k < r.value.end ==> IsDigit(s[k]) || s[k] == '.'
  {
    if p < |s| && s[p] == '$' then
      match NumeralAt(s, p + 1)
      case Some(n) => Some(Price(p, n.end, n.value))
      case None => None
    else
      None
  }

  /** The leftmost match of `\$(\d+\.?\d*)` at or after index `p`. */
  function FirstPriceFrom(s: string, p: nat): (r: Option<Price>)
    requires p <= |s|
    ensures r.Some? ==> p <= r.value.start < |s| && PriceAt(s, r.value.start) == r
    ensures r.Some? ==> forall q :: p <= q < r.value.start ==> PriceAt(s, q).None?
    ensures r.None? ==> forall q :: p <= q <= |s| ==> PriceAt(s, q).None?
    decreases |s| - p
  {
    if p == |s| then None
    else if PriceAt(s, p).Some? then PriceAt(s, p)
    else FirstPriceFrom(s, p + 1)
  }

  /** `s.match(/\$(\d+\.?\d*)/)`: the first `$amount` of a line. */
  function FirstPrice(s: string): Option<Price> {
    FirstPriceFrom(s, 0)
  }

  /**
   * The values of `s.match(/\$(\d+\.?\d*)/g)` from index `p` on: after a
   * match the scan resumes where the match ended.
   */
  function PricesFrom(s: string, p: nat): seq<real>
    requires p <= |s|
    decreases |s| - p
  {
    if p == |s| then []
    else
      match PriceAt(s, p)
      case Some(m) => [m.value] + PricesFrom(s, m.end)
      case None => PricesFrom(s, p + 1)
  }

  /** Every `$amount` of a line, in order, duplicates kept. */
  function Prices(s: string): seq<real> {
    PricesFrom(s, 0)
  }

  /** Reference definition: one value per index where `$` is followed by a digit. */
  function PricesByPosition(s: string, p: nat): seq<real>
    requires p <= |s|
    decreases |s| - p
  {
    if p == |s| then []
    else (if PriceAt(s, p).Some? then [PriceAt(s, p).value.value] else []) + PricesByPosition(s, p + 1)
  }

  /** Indices holding no `$` contribute nothing to the reference definition. */
  lemma {:induction false} PricesByPositionSkip(s: string, a: nat, b: nat)
    requires a <= b <= |s|
    requires forall q :: a <= q < b ==> s[q] != '$'
    ensures PricesByPosition(s, a) == PricesByPosition(s, b)
    decreases b - a
  {
    if a < b {
      PricesByPositionSkip(s, a + 1, b);
    }
  }

  /**
   * The global scan finds exactly one value per `$`-digit position, in
   * order: no `$amount` is skipped and none is counted twice.
   */
  lemma {:induction false} PricesScan(s: string, p: nat)
    requires p <= |s|
    ensures PricesFrom(s, p) == PricesByPosition(s, p)
    decreases |s| - p
  {
    if p < |s| {
      match PriceAt(s, p)
      case Some(m) =>
        assert forall q :: p + 1 <= q < m.end ==> s[q] != '$';
        PricesByPositionSkip(s, p + 1, m.end);
        PricesScan(s, m.end);
        assert PricesByPosition(s, p) == [m.value] + PricesByPosition(s, p + 1);
      case None =>
        PricesScan(s, p + 1);
    }
  }

  /** The first match of the global scan is the single match, and both are absent together. */
  lemma {:induction false} FirstPriceFirst(s: string, p: nat)
    requires p <= |s|
    ensures FirstPriceFrom(s, p).None? <==> PricesFrom(s, p) == []
    ensures FirstPriceFrom(s, p).Some? ==> PricesFrom(s, p)[0] == FirstPriceFrom(s, p).value.value
    decreases |s| - p
  {
    if p < |s| && PriceAt(s, p).None? {
      FirstPriceFirst(s, p + 1);
    }
  }

  /** `[\s:]*`: the end of the run of white space and colons that starts at `i`. */
  function SkipSpaceColon(s: string, i: nat): (j: nat)
    requires i <= |s|
    ensures i <= j <= |s|
    ensures j == |s| || !(IsSpace(s[j]) || s[j] == ':')
    decreases |s| - i
  {
    if i < |s| && (IsSpace(s[i]) || s[i] == ':') then SkipSpaceColon(s, i + 1) else i
  }

  /** Everything the run skips is white space or a colon. */
  lemma {:induction false} SkipSpaceColonSkips(s: string, i: nat)
    requires i <= |s|
    ensures forall k :: i <= k < SkipSpaceColon(s, i) ==> IsSpace(s[k]) || s[k] == ':'
    decreases |s| - i
  {
    if i < |s| && (IsSpace(s[i]) || s[i] == ':') {
      SkipSpaceColonSkips(s, i + 1);
    }
  }

  /**
   * What follows a label: `[\s:]*\$?(\d+\.?\d*)`, giving the numeral's value.
   * White space and colons are consumed one at a time, then an optional `$`,
   * then the numeral. Nothing follows the numeral, so the greedy choice at
   * every step is the match: giving back a space, a colon or the `$` would
   * leave a character that is not a digit where `\d` must match.
   */
  function LabelTail(s: string, i: nat): (r: Option<real>)
    requires i <= |s|
    ensures r.Some? ==> r.value >= 0.0
    decreases |s| - i
  {
    if i < |s| && (IsSpace(s[i]) || s[i] == ':') then LabelTail(s, i + 1)
    else
      var k := if i < |s| && s[i] == '$' then i + 1 else i;
      match NumeralAt(s, k)
      case None => None
      case Some(n) => Some(n.value)
  }

  /**
   * The tail matches exactly when, after the run of spaces and colons, a
   * digit or a `$` and a digit follow; its value is that of the numeral
   * there.
   */
  lemma {:induction false} LabelTailSpec(s: string, i: nat)
    requires i <= |s|
    ensures var j := SkipSpaceColon(s, i);
            var k := if j < |s| && s[j] == '$' then j + 1 else j;
            (LabelTail(s, i).Some? <==>
               (j < |s| && IsDigit(s[j])) || (j + 1 < |s| && s[j] == '$' && IsDigit(s[j + 1]))) &&
            (LabelTail(s, i).Some? ==> LabelTail(s, i).value == NumeralAt(s, k).value.value)
    decreases |s| - i
  {
    if i < |s| && (IsSpace(s[i]) || s[i] == ':') {
      LabelTailSpec(s, i + 1);
    }
  }

  /** The label `key` stands at index `p` and its tail matches: the tail's value. */
  function LabelHit(s: string, p: nat, key: string): Option<real>
    requires p <= |s|
  {
    if OccursAt(s, p, key) then LabelTail(s, p + |key|) else None
  }

  /** A match of the labelled-amount pattern: where it starts, which label it used, the numeral's value. */
  datatype KeyedMatch = KeyedMatch(pos: nat, key: nat, value: real)

  /**
   * The alternation `(?:L1|L2|...)` followed by the tail, tried at index `p`
   * with the labels from index `k` on, in order: the first label present at
   * `p` whose tail matches gives the match.
   */
  function LabelledAtFrom(s: string, p: nat, labels: seq<string>, k: nat): (r: Option<KeyedMatch>)
    requires p <= |s| && k <= |labels|
    ensures r.Some? ==> r.value.pos == p && k <= r.value.key < |labels| && r.value.value >= 0.0
    decreases |labels| - k
  {
    if k == |labels| then None
    else
      match LabelHit(s, p, labels[k])
      case Some(v) => Some(KeyedMatch(p, k, v))
      case None => LabelledAtFrom(s, p, labels, k + 1)
  }

  /** The chosen label hits with the match's value, and no label before it (from `k` on) hits; there is no match only when none hits. */
  lemma {:induction false} LabelledAtFromSpec(s: string, p: nat, labels: seq<string>, k: nat)
    requires p <= |s| && k <= |labels|
    ensures var r := LabelledAtFrom(s, p, labels, k);
            (r.Some? ==> LabelHit(s, p, labels[r.value.key]) == Some(r.value.value) &&
                         forall j :: k <= j < r.value.key ==> LabelHit(s, p, labels[j]).None?) &&
            (r.None? ==> forall j :: k <= j < |labels| ==> LabelHit(s, p, labels[j]).None?)
    decreases |labels| - k
  {
    if k < |labels| {
      var hit := LabelHit(s, p, labels[k]);
      if hit.None? {
        assert LabelledAtFrom(s, p, labels, k) == LabelledAtFrom(s, p, labels, k + 1);
        LabelledAtFromSpec(s, p, labels, k + 1);
      } else {
        assert LabelledAtFrom(s, p, labels, k) == Some(KeyedMatch(p, k, hit.value));
      }
    }
  }

  /** The leftmost match of the labelled-amount pattern at or after index `p`. */
  function LabelledFrom(s: string, p: nat, labels: seq<string>): (r: Option<KeyedMatch>)
    requires p <= |s|
    ensures r.Some? ==> p <= r.value.pos <= |s| && r.value.key < |labels| && r.value.value >= 0.0
    decreases |s| - p
  {
    var here := LabelledAtFrom(s, p, labels, 0);
    if here.Some? then here
    else if p == |s| then None
    else LabelledFrom(s, p + 1, labels)
  }

  /** The match found is the one at its own index, and the pattern matches at no earlier index; none is found only when it matches nowhere. */
  lemma {:induction false} LabelledFromSpec(s: string, p: nat, labels: seq<string>)
    requires p <= |s|
    ensures var r := LabelledFrom(s, p, labels);
            (r.Some? ==> LabelledAtFrom(s, r.value.pos, labels, 0) == r &&
                         forall q :: p <= q < r.value.pos ==> LabelledAtFrom(s, q, labels, 0).None?) &&
            (r.None? ==> forall q :: p <= q <= |s| ==> LabelledAtFrom(s, q, labels, 0).None?)
    decreases |s| - p
  {
    var here := LabelledAtFrom(s, p, labels, 0);
    if here.None? && p < |s| {
      assert LabelledFrom(s, p, labels) == LabelledFrom(s, p + 1, labels);
      LabelledFromSpec(s, p + 1, labels);
    }
  }

  /**
   * `s.match(/(?:L1|L2|...)[\s:]*\$?(\d+\.?\d*)/)`, giving the captured
   * numeral's value; it is never negative.
   */
  function LabelledAmount(s: string, labels: seq<string>): (r: Option<real>)
    ensures r.Some? ==> r.value >= 0.0
  {
    match LabelledFrom(s, 0, labels)
    case None => None
    case Some(m) => Some(m.value)
  }
}
