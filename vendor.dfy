/** `extractVendorName`: the vendor heuristic over the first lines of the receipt. */
module Vendor {
  import opened Wrappers
  import opened Text

  /** Words whose presence rules a line out as the vendor name. */
  const Reserved: seq<string> := ["RECEIPT", "TOTAL", "DATE", "CASH", "CARD", "CHANGE"]

  /** Only this many leading lines are looked at. */
  const VendorWindow: nat := 5

  /** `/\d/.test(s)`. */
  predicate HasDigit(s: string) {
    exists k :: 0 <= k < |s| && IsDigit(s[k])
  }

  /**
   * The test one leading line must pass, made on its upper-cased copy: no
   * reserved word, more than 2 and fewer than 50 characters, no digit.
   */
  predicate LooksLikeVendor(line: string) {
    var upper := Upper(line);
    !ContainsAny(upper, Reserved) && 2 < |upper| < 50 && !HasDigit(upper)
  }

  function Min(a: nat, b: nat): nat {
    if a < b then a else b
  }

  /** The first line from index `i` up to the window's end that passes the test, returned as written. */
  function VendorFrom(lines: seq<string>, i: nat): (r: Option<string>)
    requires i <= Min(VendorWindow, |lines|)
    ensures r.Some? ==> exists j :: i <= j < Min(VendorWindow, |lines|) && lines[j] == r.value &&
                                    LooksLikeVendor(lines[j]) &&
                                    forall j' :: i <= j' < j ==> !LooksLikeVendor(lines[j'])
    ensures r.None? ==> forall j :: i <= j < Min(VendorWindow, |lines|) ==> !LooksLikeVendor(lines[j])
    decreases Min(VendorWindow, |lines|) - i
  {
    if i == Min(VendorWindow, |lines|) then None
    else if LooksLikeVendor(lines[i]) then Some(lines[i])
    else VendorFrom(lines, i + 1)
  }

  /** `extractVendorName(lines)`. */
  function ExtractVendorName(lines: seq<string>): Option<string> {
    VendorFrom(lines, 0)
  }

  /**
   * The test on the upper-cased copy is the same test on the line itself for
   * length and digits: ASCII upper-casing keeps both.
   */
  lemma LooksLikeVendorOriginal(line: string)
    ensures LooksLikeVendor(line) <==>
              !ContainsAny(Upper(line), Reserved) && 2 < |line| < 50 && !HasDigit(line)
  {
    UpperDigits(line);
    if HasDigit(line) {
      var k :| 0 <= k < |line| && IsDigit(line[k]);
      assert IsDigit(Upper(line)[k]);
    }
  }

  /**
   * A returned vendor is one of the first five lines, verbatim, passes the
   * test (so it is never empty), and no earlier line in the window passes;
   * when none passes there is no vendor.
   */
  lemma VendorSpec(lines: seq<string>)
    ensures ExtractVendorName(lines).Some? ==>
              var v := ExtractVendorName(lines).value;
              2 < |v| < 50 && !HasDigit(v) && !ContainsAny(Upper(v), Reserved) &&
              exists j :: 0 <= j < Min(VendorWindow, |lines|) && lines[j] == v &&
                          forall j' :: 0 <= j' < j ==> !LooksLikeVendor(lines[j'])
    ensures ExtractVendorName(lines).None? <==>
              forall j :: 0 <= j < Min(VendorWindow, |lines|) ==> !LooksLikeVendor(lines[j])
  {
    if ExtractVendorName(lines).Some? {
      LooksLikeVendorOriginal(ExtractVendorName(lines).value);
    }
  }
}
