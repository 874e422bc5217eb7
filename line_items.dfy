/** `extractLineItems`: lines that carry a price become line items, at most ten. */
module LineItems {
  import opened Wrappers
  import opened Text
  import opened Numbers

  /** One entry of `lineItems`; the heuristic never fills `quantity` or `unitPrice`. */
  datatype LineItem = LineItem(description: string, quantity: Option<real>, unitPrice: Option<real>,
                               totalPrice: Option<real>)

  /** Words that mark a header or footer line rather than an item. */
  const SkipWords: seq<string> := ["TOTAL", "TAX", "RECEIPT", "THANK"]

  /** `lineItems.slice(0, 10)`. */
  const MaxItems: nat := 10

  /** `line.replace` of the first match of `\$\d+\.?\d*` by the empty string: the line with its first `$amount` cut out. */
  function WithoutFirstPrice(line: string): (r: string)
    ensures FirstPrice(line).None? ==> r == line
    ensures FirstPrice(line).Some? ==>
              var m := FirstPrice(line).value;
              |r| == |line| - (m.end - m.start) && r == line[..m.start] + line[m.end..]
  {
    match FirstPrice(line)
    case None => line
    case Some(m) => line[..m.start] + line[m.end..]
  }

  /** The item a line yields, if any (see `ItemOfSpec`). */
  function ItemOf(line: string): Option<LineItem> {
    if ContainsAny(Upper(line), SkipWords) then None
    else
      match FirstPrice(line)
      case None => None
      case Some(m) =>
        if |line| > 3 then
          var description := Trim(WithoutFirstPrice(line));
          if |description| > 0 then Some(LineItem(description, None, None, Some(m.value))) else None
        else None
  }

  /**
   * A line yields an item exactly when it mentions no skip word (upper-cased),
   * is longer than 3 characters, holds a `$amount`, and is not left empty by
   * cutting out its first `$amount` and trimming. The item's description is
   * that trimmed remainder; its price is the first `$amount` of the line, the
   * same value the global `$` scan lists first; quantity and unit price are
   * absent.
   */
  lemma ItemOfSpec(line: string)
    ensures ItemOf(line).Some? <==>
              !ContainsAny(Upper(line), SkipWords) && |line| > 3 && FirstPrice(line).Some? &&
              var m := FirstPrice(line).value;
              Trim(line[..m.start] + line[m.end..]) != ""
    ensures ItemOf(line).Some? ==>
              var item, m := ItemOf(line).value, FirstPrice(line).value;
              item.description == Trim(line[..m.start] + line[m.end..]) &&
              item.totalPrice == Some(m.value) && m.value >= 0.0 &&
              |Prices(line)| > 0 && Prices(line)[0] == m.value &&
              Trim(item.description) == item.description &&
              |item.description| <= |line| - (m.end - m.start) &&
              item.quantity.None? && item.unitPrice.None?
  {
    if FirstPrice(line).Some? {
      TrimIdempotent(WithoutFirstPrice(line));
      FirstPriceFirst(line, 0);
    }
  }

  /** What every line yields, in document order. */
  function Yields(lines: seq<string>): (ys: seq<Option<LineItem>>)
    ensures |ys| == |lines|
  {
    if |lines| == 0 then [] else Yields(lines[..|lines| - 1]) + [ItemOf(lines[|lines| - 1])]
  }

  /** Entry `i` of `Yields` is what line `i` yields. */
  lemma {:induction false} YieldsAt(lines: seq<string>, i: nat)
    requires i < |lines|
    ensures Yields(lines)[i] == ItemOf(lines[i])
  {
    if i < |lines| - 1 {
      YieldsAt(lines[..|lines| - 1], i);
    }
  }

  /** The present entries, in order. */
  function Present(ys: seq<Option<LineItem>>): (items: seq<LineItem>)
    ensures |items| <= |ys|
  {
    if |ys| == 0 then []
    else Present(ys[..|ys| - 1]) + (if ys[|ys| - 1].Some? then [ys[|ys| - 1].value] else [])
  }

  /** The indices of the present entries, in increasing order. */
  function PresentIndices(ys: seq<Option<LineItem>>): seq<nat> {
    if |ys| == 0 then []
    else PresentIndices(ys[..|ys| - 1]) + (if ys[|ys| - 1].Some? then [|ys| - 1] else [])
  }

  /**
   * The present entries are exactly the entries that are there, one each, in
   * order: entry `k` comes from index `PresentIndices(ys)[k]`, these indices
   * increase, and every index holding an entry is among them.
   */
  lemma {:induction false} PresentInOrder(ys: seq<Option<LineItem>>)
    ensures var src, items := PresentIndices(ys), Present(ys);
            |src| == |items| &&
            (forall k :: 0 <= k < |src| ==> src[k] < |ys| && ys[src[k]] == Some(items[k])) &&
            (forall k, k' :: 0 <= k < k' < |src| ==> src[k] < src[k']) &&
            (forall i :: 0 <= i < |ys| && ys[i].Some? ==> i in src)
  {
    if |ys| > 0 {
      var init := ys[..|ys| - 1];
      PresentInOrder(init);
      assert forall i :: 0 <= i < |init| ==> init[i] == ys[i];
    }
  }

  /** The items of all lines, in document order, before the cap. */
  function AllItems(lines: seq<string>): seq<LineItem> {
    Present(Yields(lines))
  }

  /** The first ten items in document order: `lineItems.slice(0, 10)`. */
  function FirstItems(lines: seq<string>): (items: seq<LineItem>)
    ensures |items| == if |AllItems(lines)| <= MaxItems then |AllItems(lines)| else MaxItems
    ensures items == AllItems(lines)[..|items|]
  {
    var all := AllItems(lines);
    if |all| <= MaxItems then all else all[..MaxItems]
  }

  /** `extractLineItems(lines)`. */
  method ExtractLineItems(lines: seq<string>) returns (items: seq<LineItem>)
    ensures items == FirstItems(lines)
    ensures |items| == if |AllItems(lines)| <= MaxItems then |AllItems(lines)| else MaxItems
    ensures items == AllItems(lines)[..|items|]
  {
    var lineItems: seq<LineItem> := [];
    for n := 0 to |lines|
      invariant lineItems == AllItems(lines[..n])
    {
      var line := lines[n];
      assert lines[..n + 1][..n] == lines[..n];
      assert Yields(lines[..n + 1]) == Yields(lines[..n]) + [ItemOf(line)];
      if !ContainsAny(Upper(line), SkipWords) {
        var priceMatch := FirstPrice(line);
        if priceMatch.Some? && |line| > 3 {
          var description := Trim(WithoutFirstPrice(line));
          if |description| > 0 {
            lineItems := lineItems + [LineItem(description, None, None, Some(priceMatch.value.value))];
          }
        }
      }
    }
    assert lines[..|lines|] == lines;
    items := if |lineItems| <= MaxItems then lineItems else lineItems[..MaxItems];
  }
}
