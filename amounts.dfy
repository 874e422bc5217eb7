/**
 * `extractAmounts`: the keyed TOTAL/TAX pass, the pool of `$` amounts, and
 * the fallback to the largest amounts.
 */
module Amounts {
  import opened Wrappers
  import opened Text
  import opened Numbers

  /** `(?:TOTAL|AMOUNT|BALANCE|DUE)`, in the order the alternation tries them. */
  const TotalLabels: seq<string> := ["TOTAL", "AMOUNT", "BALANCE", "DUE"]

  /** `(?:TAX|SALES TAX)`, in the order the alternation tries them. */
  const TaxLabels: seq<string> := ["TAX", "SALES TAX"]

  /** JavaScript truthiness of a `number | undefined`: present and not zero. */
  predicate Truthy(a: Option<real>) {
    a.Some? && a.value != 0.0
  }

  /** The keyed total of one line: the total pattern on its upper-cased copy. */
  function KeyedTotal(line: string): Option<real> {
    LabelledAmount(Upper(line), TotalLabels)
  }

  /** The keyed tax of one line: the tax pattern on its upper-cased copy. */
  function KeyedTax(line: string): Option<real> {
    LabelledAmount(Upper(line), TaxLabels)
  }

  /** The keyed-total match of every line, in order. */
  function KeyedTotals(lines: seq<string>): (ms: seq<Option<real>>)
    ensures |ms| == |lines|
  {
    if |lines| == 0 then [] else KeyedTotals(lines[..|lines| - 1]) + [KeyedTotal(lines[|lines| - 1])]
  }

  /** The keyed-tax match of every line, in order. */
  function KeyedTaxes(lines: seq<string>): (ms: seq<Option<real>>)
    ensures |ms| == |lines|
  {
    if |lines| == 0 then [] else KeyedTaxes(lines[..|lines| - 1]) + [KeyedTax(lines[|lines| - 1])]
  }

  /** Entry `i` of the keyed matches is the match of line `i`. */
  lemma {:induction false} KeyedAt(lines: seq<string>, i: nat)
    requires i < |lines|
    ensures KeyedTotals(lines)[i] == KeyedTotal(lines[i])
    ensures KeyedTaxes(lines)[i] == KeyedTax(lines[i])
  {
    if i < |lines| - 1 {
      KeyedAt(lines[..|lines| - 1], i);
    }
  }

  /**
   * The value a "first match wins" guard `if (m && !acc) acc = m` leaves
   * after seeing `ms` in order, starting from an absent value.
   */
  function FirstKeyed(ms: seq<Option<real>>): Option<real> {
    if |ms| == 0 then None
    else
      var acc := FirstKeyed(ms[..|ms| - 1]);
      var m := ms[|ms| - 1];
      if m.Some? && !Truthy(acc) then m else acc
  }

  /** One more step of the guarded assignment extends the sequence of matches by one. */
  lemma FirstKeyedSnoc(ms: seq<Option<real>>, m: Option<real>)
    ensures FirstKeyed(ms + [m]) == if m.Some? && !Truthy(FirstKeyed(ms)) then m else FirstKeyed(ms)
  {
    assert (ms + [m])[..|ms|] == ms;
  }

  /**
   * Because a zero is falsy, a zero match does not stop later matches: the
   * result is the first non-zero match; failing that, zero when some match
   * was zero; and absent exactly when nothing matched.
   */
  lemma {:induction false} FirstKeyedSpec(ms: seq<Option<real>>)
    ensures var r := FirstKeyed(ms);
            (Truthy(r) ==> exists i :: 0 <= i < |ms| && ms[i] == r && forall j :: 0 <= j < i ==> !Truthy(ms[j])) &&
            (!Truthy(r) ==> forall i :: 0 <= i < |ms| ==> !Truthy(ms[i])) &&
            (r == Some(0.0) <==> (exists i :: 0 <= i < |ms| && ms[i].Some?) && forall i :: 0 <= i < |ms| ==> !Truthy(ms[i])) &&
            (r.None? <==> forall i :: 0 <= i < |ms| ==> ms[i].None?)
  {
    if |ms| > 0 {
      var init, m := ms[..|ms| - 1], ms[|ms| - 1];
      FirstKeyedSpec(init);
      var acc := FirstKeyed(init);
      assert forall i :: 0 <= i < |init| ==> ms[i] == init[i];
      if m.Some? && !Truthy(acc) {
        if Truthy(m) {
          assert ms[|ms| - 1] == FirstKeyed(ms);
        } else {
          assert ms[|ms| - 1].Some?;
        }
      } else if Truthy(acc) {
        var i :| 0 <= i < |init| && init[i] == acc && forall j :: 0 <= j < i ==> !Truthy(init[j]);
        assert ms[i] == FirstKeyed(ms);
      } else if acc == Some(0.0) {
        var i :| 0 <= i < |init| && init[i].Some?;
        assert ms[i].Some?;
      }
    }
  }

  /** `amount > 0` filter, keeping order and duplicates. */
  function Positives(xs: seq<real>): (ps: seq<real>)
    ensures forall k :: 0 <= k < |ps| ==> ps[k] > 0.0
  {
    if |xs| == 0 then []
    else Positives(xs[..|xs| - 1]) + (if xs[|xs| - 1] > 0.0 then [xs[|xs| - 1]] else [])
  }

  /** Every positive value keeps all its copies; nothing else is kept. */
  lemma {:induction false} PositivesCount(xs: seq<real>, x: real)
    ensures multiset(Positives(xs))[x] == if x > 0.0 then multiset(xs)[x] else 0
  {
    if |xs| > 0 {
      var init, last := xs[..|xs| - 1], xs[|xs| - 1];
      PositivesCount(init, x);
      assert xs == init + [last];
      assert multiset(xs)[x] == multiset(init)[x] + multiset{last}[x];
      if last > 0.0 {
        assert multiset(Positives(xs)) == multiset(Positives(init)) + multiset{last};
      } else {
        assert Positives(xs) == Positives(init) + [];
      }
    }
  }

  /** The candidate pool: every positive `$` amount of every line, in order, duplicates kept. */
  function Pool(lines: seq<string>): (pool: seq<real>)
    ensures forall k :: 0 <= k < |pool| ==> pool[k] > 0.0
  {
    if |lines| == 0 then []
    else Pool(lines[..|lines| - 1]) + Positives(Prices(lines[|lines| - 1]))
  }

  /** Each pool value is a positive `$` amount of some line, and each such amount is in the pool. */
  lemma {:induction false} PoolMembers(lines: seq<string>, x: real)
    ensures x in Pool(lines) <==> x > 0.0 && exists i :: 0 <= i < |lines| && x in Prices(lines[i])
  {
    if |lines| > 0 {
      var init := lines[..|lines| - 1];
      PoolMembers(init, x);
      PositivesCount(Prices(lines[|lines| - 1]), x);
      assert forall i :: 0 <= i < |init| ==> init[i] == lines[i];
      if x > 0.0 && exists i :: 0 <= i < |lines| && x in Prices(lines[i]) {
        var i :| 0 <= i < |lines| && x in Prices(lines[i]);
        if i < |init| {
          assert x in Prices(init[i]);
        } else {
          assert multiset(Prices(lines[|lines| - 1]))[x] > 0;
        }
      }
    }
  }

  /** Every `$` amount of every line, in document order, zeros included. */
  function AllPrices(lines: seq<string>): seq<real> {
    if |lines| == 0 then [] else AllPrices(lines[..|lines| - 1]) + Prices(lines[|lines| - 1])
  }

  /**
   * Duplicates are kept: a positive value is pooled as many times as it
   * occurs as a `$` amount over all lines, and no other value is pooled.
   */
  lemma {:induction false} PoolCount(lines: seq<string>, x: real)
    ensures multiset(Pool(lines))[x] == if x > 0.0 then multiset(AllPrices(lines))[x] else 0
  {
    if |lines| > 0 {
      var init, last := lines[..|lines| - 1], Prices(lines[|lines| - 1]);
      PoolCount(init, x);
      PositivesCount(last, x);
      assert multiset(Pool(lines)) == multiset(Pool(init)) + multiset(Positives(last));
      assert multiset(AllPrices(lines)) == multiset(AllPrices(init)) + multiset(last);
    }
  }

  predicate SortedDescending(s: seq<real>) {
    forall i, j :: 0 <= i < j < |s| ==> s[i] >= s[j]
  }

  function InsertDescending(x: real, s: seq<real>): (r: seq<real>)
    requires SortedDescending(s)
    ensures SortedDescending(r)
    ensures multiset(r) == multiset(s) + multiset{x}
  {
    if |s| == 0 then [x]
    else if x >= s[0] then [x] + s
    else
      var rest := InsertDescending(x, s[1..]);
      InsertBelowHead(x, s, rest);
      [s[0]] + rest
  }

  /** What the insertion below the head produces lies below the head. */
  lemma BelowHead(x: real, s: seq<real>, rest: seq<real>)
    requires SortedDescending(s) && |s| > 0 && x < s[0]
    requires multiset(rest) == multiset(s[1..]) + multiset{x}
    ensures forall y :: y in rest ==> y <= s[0]
  {
    forall y | y in rest ensures y <= s[0] {
      assert y in multiset(rest);
      if y != x {
        assert y in multiset(s[1..]);
        var m :| 0 <= m < |s[1..]| && s[1..][m] == y;
        assert s[m + 1] == y;
      }
    }
  }

  /** Inserting below the head of a descending list keeps the head first. */
  lemma InsertBelowHead(x: real, s: seq<real>, rest: seq<real>)
    requires SortedDescending(s) && |s| > 0 && x < s[0]
    requires SortedDescending(rest) && multiset(rest) == multiset(s[1..]) + multiset{x}
    ensures SortedDescending([s[0]] + rest)
    ensures multiset([s[0]] + rest) == multiset(s) + multiset{x}
  {
    assert s == [s[0]] + s[1..];
    BelowHead(x, s, rest);
    var r := [s[0]] + rest;
    forall i, j | 0 <= i < j < |r| ensures r[i] >= r[j] {
      assert r[j] == rest[j - 1] && rest[j - 1] in rest;
      if i > 0 {
        assert r[i] == rest[i - 1];
      }
    }
  }

  /**
   * `amounts.sort((a, b) => b - a)`: the same values in descending order.
   * A descending order of given values is unique, so any correct sort gives
   * this sequence.
   */
  function SortDescending(s: seq<real>): (r: seq<real>)
    ensures SortedDescending(r)
    ensures multiset(r) == multiset(s)
  {
    if |s| == 0 then []
    else
      assert s == [s[0]] + s[1..];
      InsertDescending(s[0], SortDescending(s[1..]))
  }

  /** The result of `extractAmounts`. */
  datatype Amounts = Amounts(total: Option<real>, tax: Option<real>)

  /**
   * What `extractAmounts` computes: the keyed total and tax under their
   * first-wins guards; then, when the total is absent or zero and the pool is
   * not empty, the first element of the descending pool as total and, when
   * there is a second, the second element as tax, replacing any keyed tax.
   */
  function AmountsOf(lines: seq<string>): Amounts {
    var total := FirstKeyed(KeyedTotals(lines));
    var tax := FirstKeyed(KeyedTaxes(lines));
    var pool := Pool(lines);
    if !Truthy(total) && |pool| > 0 then
      var sorted := SortDescending(pool);
      Amounts(Some(sorted[0]), if |sorted| > 1 then Some(sorted[1]) else tax)
    else
      Amounts(total, tax)
  }

  /**
   * The first element of the descending order is the largest value; the
   * second is the largest of what remains once one copy of the largest is
   * set aside: it equals the largest exactly when that occurs twice.
   */
  lemma DescendingHeads(pool: seq<real>)
    requires |pool| > 0
    ensures var sorted := SortDescending(pool);
            sorted[0] in pool && forall x :: x in pool ==> x <= sorted[0]
    ensures |pool| > 1 ==>
              var sorted := SortDescending(pool);
              sorted[1] in pool && sorted[1] <= sorted[0] &&
              (sorted[1] == sorted[0] <==> multiset(pool)[sorted[0]] >= 2) &&
              forall x :: x in pool && x != sorted[0] ==> x <= sorted[1]
  {
    var sorted := SortDescending(pool);
    assert |sorted| == |pool| by {
      assert |multiset(sorted)| == |multiset(pool)|;
    }
    SortedHead(sorted, pool);
    if |pool| > 1 {
      SortedSecond(sorted, pool);
      SortedRepeatedHead(sorted, pool);
    }
  }

  /** The head of a descending permutation is a largest element. */
  lemma SortedHead(sorted: seq<real>, pool: seq<real>)
    requires SortedDescending(sorted) && multiset(sorted) == multiset(pool) && |sorted| > 0
    ensures sorted[0] in pool && forall x :: x in pool ==> x <= sorted[0]
  {
    assert sorted[0] in multiset(pool);
    forall x | x in pool ensures x <= sorted[0] {
      assert x in multiset(sorted);
      var k :| 0 <= k < |sorted| && sorted[k] == x;
    }
  }

  /** The second element of a descending permutation is the largest once one copy of the head is set aside. */
  lemma SortedSecond(sorted: seq<real>, pool: seq<real>)
    requires SortedDescending(sorted) && multiset(sorted) == multiset(pool) && |sorted| > 1
    ensures sorted[1] in pool && sorted[1] <= sorted[0]
    ensures sorted[1] == sorted[0] ==> multiset(pool)[sorted[0]] >= 2
    ensures forall x :: x in pool && x != sorted[0] ==> x <= sorted[1]
  {
    assert sorted[1] in multiset(pool);
    if sorted[1] == sorted[0] {
      assert sorted == [sorted[0], sorted[0]] + sorted[2..];
      assert multiset(sorted) == multiset{sorted[0], sorted[0]} + multiset(sorted[2..]);
    }
    forall x | x in pool && x != sorted[0] ensures x <= sorted[1] {
      assert x in multiset(sorted);
      var k :| 0 <= k < |sorted| && sorted[k] == x;
      assert k != 0;
    }
  }

  /** A head that occurs twice in a descending permutation occurs again right after itself. */
  lemma SortedRepeatedHead(sorted: seq<real>, pool: seq<real>)
    requires SortedDescending(sorted) && multiset(sorted) == multiset(pool) && |sorted| > 1
    ensures multiset(pool)[sorted[0]] >= 2 ==> sorted[1] == sorted[0]
  {
    if multiset(pool)[sorted[0]] >= 2 {
      var rest := sorted[1..];
      assert sorted == [sorted[0]] + rest;
      assert multiset(sorted) == multiset{sorted[0]} + multiset(rest);
      assert sorted[0] in multiset(rest);
      var k :| 0 <= k < |rest| && rest[k] == sorted[0];
      assert sorted[k + 1] == sorted[0];
    }
  }

  /** The first non-zero match wins. */
  lemma FirstKeyedIsFirst(ms: seq<Option<real>>, i: nat)
    requires i < |ms| && Truthy(ms[i])
    requires forall j :: 0 <= j < i ==> !Truthy(ms[j])
    ensures FirstKeyed(ms) == ms[i]
  {
    FirstKeyedSpec(ms);
    var r := FirstKeyed(ms);
    var i' :| 0 <= i' < |ms| && ms[i'] == r && forall j :: 0 <= j < i' ==> !Truthy(ms[j]);
    assert i' >= i;
  }

  /**
   * Keyed precedence: when line `i` holds the first non-zero keyed total
   * (entry `i` of `KeyedTotals`, see `KeyedAt`), that value is the total and
   * the pool of `$` amounts is never consulted, so the tax is the keyed tax.
   */
  lemma KeyedTotalWins(lines: seq<string>, i: nat)
    requires i < |lines| && Truthy(KeyedTotals(lines)[i])
    requires forall j :: 0 <= j < i ==> !Truthy(KeyedTotals(lines)[j])
    ensures AmountsOf(lines).total == KeyedTotals(lines)[i]
    ensures AmountsOf(lines).tax == FirstKeyed(KeyedTaxes(lines))
  {
    FirstKeyedIsFirst(KeyedTotals(lines), i);
  }

  /**
   * Fallback: when no non-zero keyed total exists and the pool is not empty,
   * the total is the largest pooled amount; with two or more pooled amounts
   * the tax is the second largest, whatever keyed tax was found; with one,
   * the keyed tax stays.
   */
  lemma FallbackToLargest(lines: seq<string>)
    requires forall j :: 0 <= j < |lines| ==> !Truthy(KeyedTotals(lines)[j])
    requires |Pool(lines)| > 0
    ensures var pool, r := Pool(lines), AmountsOf(lines);
            r.total.Some? && r.total.value in pool && forall x :: x in pool ==> x <= r.total.value
    ensures var pool, r := Pool(lines), AmountsOf(lines);
            |pool| > 1 ==>
              r.tax.Some? && r.tax.value in pool && r.tax.value <= r.total.value &&
              (r.tax.value == r.total.value <==> multiset(pool)[r.total.value] >= 2) &&
              forall x :: x in pool && x != r.total.value ==> x <= r.tax.value
    ensures |Pool(lines)| == 1 ==> AmountsOf(lines).tax == FirstKeyed(KeyedTaxes(lines))
  {
    FirstKeyedSpec(KeyedTotals(lines));
    DescendingHeads(Pool(lines));
  }

  /**
   * No fallback without candidates: when no line has a non-zero keyed total
   * and no line has a positive `$` amount, the pool is empty and the keyed
   * results stand, the total being absent or 0.
   */
  lemma EmptyPoolKeepsKeyed(lines: seq<string>)
    requires forall j :: 0 <= j < |lines| ==> !Truthy(KeyedTotals(lines)[j])
    requires forall i, x :: 0 <= i < |lines| && x in Prices(lines[i]) ==> x <= 0.0
    ensures |Pool(lines)| == 0
    ensures AmountsOf(lines) == Amounts(FirstKeyed(KeyedTotals(lines)), FirstKeyed(KeyedTaxes(lines)))
    ensures AmountsOf(lines).total.None? || AmountsOf(lines).total == Some(0.0)
  {
    if |Pool(lines)| > 0 {
      PoolMembers(lines, Pool(lines)[0]);
    }
    FirstKeyedSpec(KeyedTotals(lines));
  }

  /** Taking one more line extends the keyed matches and the pool by that line's contribution. */
  lemma PrefixSnoc(lines: seq<string>, n: nat)
    requires n < |lines|
    ensures KeyedTotals(lines[..n + 1]) == KeyedTotals(lines[..n]) + [KeyedTotal(lines[n])]
    ensures KeyedTaxes(lines[..n + 1]) == KeyedTaxes(lines[..n]) + [KeyedTax(lines[n])]
    ensures Pool(lines[..n + 1]) == Pool(lines[..n]) + Positives(Prices(lines[n]))
  {
    assert lines[..n + 1][..n] == lines[..n];
  }

  /** `dollarMatches.forEach(...)`: every strictly positive amount is pushed, in order. */
  method PushPositives(amounts: seq<real>, dollarMatches: seq<real>) returns (pushed: seq<real>)
    ensures pushed == amounts + Positives(dollarMatches)
  {
    pushed := amounts;
    for k := 0 to |dollarMatches|
      invariant pushed == amounts + Positives(dollarMatches[..k])
    {
      var amount := dollarMatches[k];
      assert dollarMatches[..k + 1][..k] == dollarMatches[..k];
      if amount > 0.0 {
        pushed := pushed + [amount];
      }
    }
    assert dollarMatches[..|dollarMatches|] == dollarMatches;
  }

  /** `extractAmounts(lines)`. */
  method ExtractAmounts(lines: seq<string>) returns (total: Option<real>, tax: Option<real>)
    ensures Amounts(total, tax) == AmountsOf(lines)
  {
    var amounts: seq<real> := [];
    total, tax := None, None;
    for n := 0 to |lines|
      invariant total == FirstKeyed(KeyedTotals(lines[..n]))
      invariant tax == FirstKeyed(KeyedTaxes(lines[..n]))
      invariant amounts == Pool(lines[..n])
    {
      var line := lines[n];
      var upperLine := Upper(line);

      var totalMatch := LabelledAmount(upperLine, TotalLabels);
      FirstKeyedSnoc(KeyedTotals(lines[..n]), totalMatch);
      if totalMatch.Some? && !Truthy(total) {
        total := totalMatch;
      }

      var taxMatch := LabelledAmount(upperLine, TaxLabels);
      FirstKeyedSnoc(KeyedTaxes(lines[..n]), taxMatch);
      if taxMatch.Some? && !Truthy(tax) {
        tax := taxMatch;
      }

      var dollarMatches := Prices(line);
      amounts := PushPositives(amounts, dollarMatches);
      PrefixSnoc(lines, n);
    }
    assert lines[..|lines|] == lines;

    if !Truthy(total) && |amounts| > 0 {
      var sorted := SortDescending(amounts);
      total := Some(sorted[0]);
      if |sorted| > 1 {
        tax := Some(sorted[1]);
      }
    }
  }
}
