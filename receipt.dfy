/**
 * `parseReceiptText`: normalizes the transcript, runs the four extractors
 * over the same lines, and decides whether the record needs human review.
 */
module Receipt {
  import opened Wrappers
  import opened Text
  import opened Lines
  import opened Vendor
  import opened DateExtraction
  import opened Amounts
  import opened LineItems

  /** The `ExtractedData` record; every optional field starts out absent. */
  datatype ExtractedData = ExtractedData(
    vendorName: Option<string>,
    purchaseDate: Option<string>,
    totalAmount: Option<real>,
    taxAmount: Option<real>,
    lineItems: Option<seq<LineItem>>,
    confidence: real,
    needsReview: bool)

  /** OCR confidence, in percent, below which a record always needs review. */
  const ReviewThreshold: real := 80.0

  /** JavaScript truthiness of a `string | undefined`: present and not empty. */
  predicate HasText(s: Option<string>) {
    s.Some? && s.value != ""
  }

  /**
   * `parseReceiptText(text, confidence)`. Every field comes from the
   * normalized lines only; the confidence is rescaled from percent to a
   * fraction; and the record needs review exactly when the OCR confidence is
   * below 80, or there is no vendor, or the total is absent or zero.
   */
  method ParseReceiptText(text: string, confidence: real) returns (data: ExtractedData)
    ensures var lines := Normalize(text);
            data.vendorName == ExtractVendorName(lines) &&
            data.purchaseDate == ExtractDate(lines) &&
            data.totalAmount == AmountsOf(lines).total &&
            data.taxAmount == AmountsOf(lines).tax &&
            data.lineItems == Some(FirstItems(lines))
    ensures data.confidence == confidence / 100.0
    ensures 0.0 <= confidence <= 100.0 ==> 0.0 <= data.confidence <= 1.0
    ensures data.confidence < 0.8 <==> confidence < ReviewThreshold
    ensures data.needsReview <==>
              confidence < ReviewThreshold || data.vendorName.None? || !Truthy(data.totalAmount)
    ensures !data.needsReview ==>
              data.confidence >= 0.8 && data.vendorName.Some? && data.totalAmount.Some? &&
              data.totalAmount.value != 0.0
  {
    var lines := Normalize(text);

    data := ExtractedData(None, None, None, None, None, confidence / 100.0, confidence < ReviewThreshold);

    data := data.(vendorName := ExtractVendorName(lines));
    data := data.(purchaseDate := ExtractDate(lines));

    var total, tax := ExtractAmounts(lines);
    data := data.(totalAmount := total, taxAmount := tax);

    var items := ExtractLineItems(lines);
    data := data.(lineItems := Some(items));

    VendorSpec(lines);
    if !HasText(data.vendorName) || !Truthy(data.totalAmount) || confidence < ReviewThreshold {
      data := data.(needsReview := true);
    }
  }

  /**
   * A transcript that is empty or only white space has no lines, so every
   * extractor finds nothing: no vendor, date, total, tax or item (and the
   * record therefore needs review).
   */
  lemma BlankTranscript(text: string)
    requires forall i :: 0 <= i < |text| ==> IsSpace(text[i])
    ensures Normalize(text) == []
    ensures ExtractVendorName(Normalize(text)).None?
    ensures ExtractDate(Normalize(text)).None?
    ensures AmountsOf(Normalize(text)) == Amounts(None, None)
    ensures FirstItems(Normalize(text)) == []
  {
    NormalizeBlank(text);
  }
}
