/**
 * Concrete bodies and the outcome `ReadAndParse` gives each, including the
 * edge cases of the tolerant decode: absent keys, null, unknown discriminants,
 * and type mismatches that only the variant stage sees.
 */
module MeowScenarios {
  import opened Wrappers
  import opened Json
  import opened Meow
  import opened MeowProperties

  /** A body holding only a discriminant decodes, for every variant, to that
      variant with every other field at its zero value. */
  lemma AbsentKeysDefault(k: Kind)
    ensures var r := ReadAndParse(Document(JObject(map["type" := JString(Literal(k))])));
            && r.Ok?
            && KindOf(r.value) == k
            && r.value.header == Header(Literal(k), "", "", "")
            && (r.value.DebtsRequest? ==> r.value.currency == "" && r.value.offeree == "")
            && (r.value.NewDebtRequest? ==>
                  r.value.lender == r.value.borrower == r.value.currency == r.value.text == ""
                  && r.value.amount == 0)
            && (r.value.CancelDebtRequest? ==>
                  r.value.lender == r.value.borrower == r.value.debtId == "")
  {
    var fields := map["type" := JString(Literal(k))];
    OkIff(Document(JObject(fields)), k, Expected(k, fields));
  }

  /** A full debts request decodes field by field. */
  lemma DebtsRequestDecodes()
    ensures ReadAndParse(Document(JObject(map[
              "type" := JString("DebtsRequest"), "meowVersion" := JString("1.0"),
              "user" := JString("alice"), "password" := JString("p"),
              "currency" := JString("USD"), "offeree" := JString("bob")])))
            == Ok(DebtsRequest(Header("DebtsRequest", "1.0", "alice", "p"), "USD", "bob"))
  {
  }

  /** A new-debt request with an integer amount decodes; absent envelope keys are "". */
  lemma NewDebtRequestDecodes()
    ensures ReadAndParse(Document(JObject(map[
              "type" := JString("NewDebtRequest"), "lender" := JString("a"),
              "borrower" := JString("b"), "currency" := JString("EUR"),
              "amount" := JInt(500), "text" := JString("dinner")])))
            == Ok(NewDebtRequest(Header("NewDebtRequest", "", "", ""), "a", "b", "EUR", 500, "dinner"))
  {
    var fields := map[
      "type" := JString("NewDebtRequest"), "lender" := JString("a"),
      "borrower" := JString("b"), "currency" := JString("EUR"),
      "amount" := JInt(500), "text" := JString("dinner")];
    var header := Header("NewDebtRequest", "", "", "");
    assert StringFits(fields, "lender") && StringFits(fields, "borrower") && StringFits(fields, "currency");
    assert Int64Fits(fields, "amount") && StringFits(fields, "text");
    assert HeaderFields(fields) == Some(header);
    assert DecodeVariant(NewDebt, Document(JObject(fields)))
        == Some(NewDebtRequest(header, "a", "b", "EUR", 500, "dinner"));
  }

  /** A discriminant outside the five literals is unknown. */
  lemma BogusTypeIsUnknown()
    ensures ReadAndParse(Document(JObject(map["type" := JString("Bogus")]))) == Err(UnknownType)
  {
  }

  /** An empty object, and a top-level null, carry the discriminant "" and
      so are unknown rather than malformed. */
  lemma EmptyAndNullAreUnknown()
    ensures ReadAndParse(Document(JObject(map[]))) == Err(UnknownType)
    ensures ReadAndParse(Document(JNull)) == Err(UnknownType)
  {
  }

  /** Bytes that are not JSON, and JSON that is not an object, fail the envelope stage. */
  lemma NonObjectsFailHeader(v: Json)
    requires !v.JObject? && !v.JNull?
    ensures ReadAndParse(NotJson) == Err(HeaderError)
    ensures ReadAndParse(Document(v)) == Err(HeaderError)
  {
  }

  /** An envelope key of the wrong kind fails the envelope stage even when
      the discriminant is known. */
  lemma HeaderMismatchFailsHeader()
    ensures ReadAndParse(Document(JObject(map[
              "type" := JString("DebtsRequest"), "user" := JInt(5)]))) == Err(HeaderError)
  {
  }

  /** An `amount` that is a string, a fractional or exponent literal, or an
      integer outside `int64` passes the envelope stage but fails the variant
      stage of a new-debt request. */
  lemma AmountMismatchFailsVariant(amount: Json)
    requires amount.JString? || amount.JFloat? || (amount.JInt? && (amount.num < MinInt64 || amount.num > MaxInt64))
    ensures ReadAndParse(Document(JObject(map[
              "type" := JString("NewDebtRequest"), "amount" := amount]))) == Err(VariantError)
  {
  }

  /** The same `amount` is ignored by a variant that does not read it. */
  lemma AmountIgnoredByDebtsRequest(amount: Json)
    ensures ReadAndParse(Document(JObject(map[
              "type" := JString("DebtsRequest"), "amount" := amount]))).Ok?
  {
  }
}
