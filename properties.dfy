/**
 * What `ReadAndParse` promises, stated against a reference reading of the
 * payload that never fails: which keys each stage reads, which JSON kinds
 * each key accepts, and the value a tolerant decode yields.
 */
module MeowProperties {
  import opened Wrappers
  import opened Json
  import opened Meow

  /** The keys of the envelope. */
  const HeaderKeys: set<string> := {"type", "meowVersion", "user", "password"}

  /** The string keys a variant reads besides the envelope. */
  function StringKeys(k: Kind): set<string> {
    match k
    case RefData => {}
    case NotificationsList => {}
    case Debts => {"currency", "offeree"}
    case NewDebt => {"lender", "borrower", "currency", "text"}
    case CancelDebt => {"lender", "borrower", "debtid"}
  }

  /** The `int64` keys a variant reads. */
  function IntKeys(k: Kind): set<string> {
    if k == NewDebt then {"amount"} else {}
  }

  /** Every key some stage of the decoder reads. */
  const WireKeys: set<string> :=
    HeaderKeys + {"currency", "offeree", "lender", "borrower", "text", "debtid", "amount"}

  /** Every present key among `strKeys` holds a string or null, and every
      present key among `intKeys` holds null or an in-range integer literal. */
  ghost predicate Fits(fields: map<string, Json>, strKeys: set<string>, intKeys: set<string>) {
    && (forall key :: key in strKeys && key in fields ==> StringLike(fields[key]))
    && (forall key :: key in intKeys && key in fields ==> Int64Like(fields[key]))
  }

  /** The body can fill a bare envelope. */
  ghost predicate EnvelopeFits(body: Body) {
    Members(body).Some? && Fits(Members(body).value, HeaderKeys, {})
  }

  /** The body can fill the struct of variant `k`. */
  ghost predicate PayloadFits(k: Kind, body: Body) {
    && Members(body).Some?
    && Fits(Members(body).value, HeaderKeys, {})
    && Fits(Members(body).value, StringKeys(k), IntKeys(k))
  }

  /** The discriminant a body carries ("" when the key is absent or null). */
  function TypeOf(body: Body): string {
    if Members(body).Some? then TextAt(Members(body).value, "type") else ""
  }

  /** The envelope a tolerant decode reads from `fields`. */
  function Envelope(fields: map<string, Json>): Header {
    Header(TextAt(fields, "type"), TextAt(fields, "meowVersion"), TextAt(fields, "user"),
           TextAt(fields, "password"))
  }

  /** The variant `k` a tolerant decode reads from `fields`. */
  function Expected(k: Kind, fields: map<string, Json>): Request
    requires k == NewDebt ==> MinInt64 <= NumberAt(fields, "amount") <= MaxInt64
  {
    var h := Envelope(fields);
    match k
    case RefData => RefDataRequest(h)
    case NotificationsList => NotificationsListRequest(h)
    case Debts => DebtsRequest(h, TextAt(fields, "currency"), TextAt(fields, "offeree"))
    case NewDebt =>
      NewDebtRequest(h, TextAt(fields, "lender"), TextAt(fields, "borrower"),
                     TextAt(fields, "currency"), NumberAt(fields, "amount") as Int64,
                     TextAt(fields, "text"))
    case CancelDebt =>
      CancelDebtRequest(h, TextAt(fields, "lender"), TextAt(fields, "borrower"),
                        TextAt(fields, "debtid"))
  }

  /** The switch selects branch `k` exactly when the discriminant is `k`'s
      literal, so no two branches share a discriminant. */
  lemma DispatchExact(t: string, k: Kind)
    ensures Dispatch(t) == Some(k) <==> t == Literal(k)
  {
    if t == Literal(k) {
      assert Dispatch(t).Some?;
      LiteralInjective(Dispatch(t).value, k);
    }
  }

  /** Distinct branches have distinct literals. */
  lemma LiteralInjective(j: Kind, k: Kind)
    ensures Literal(j) == Literal(k) <==> j == k
  {
  }

  /** The envelope stage succeeds exactly when every present envelope key
      holds a string or null, and then reads each key tolerantly. */
  lemma HeaderFieldsSpec(fields: map<string, Json>)
    ensures HeaderFields(fields).Some? <==> Fits(fields, HeaderKeys, {})
    ensures HeaderFields(fields).Some? ==> HeaderFields(fields).value == Envelope(fields)
  {
  }

  /** The variant stage for branch `k` succeeds exactly when the body fills
      that variant's struct, and then yields the tolerant reading of it. */
  lemma DecodeVariantSpec(k: Kind, body: Body)
    ensures DecodeVariant(k, body).Some? <==> PayloadFits(k, body)
    ensures DecodeVariant(k, body).Some? ==>
              KindOf(DecodeVariant(k, body).value) == k &&
              DecodeVariant(k, body).value == Expected(k, Members(body).value)
  {
  }

  /** The envelope stage fails exactly when the body is not JSON, is a JSON
      value other than an object or null, or holds a non-string, non-null
      value under an envelope key. */
  lemma DecodeHeaderSpec(body: Body)
    ensures DecodeHeader(body).Some? <==> EnvelopeFits(body)
    ensures DecodeHeader(body).Some? ==> DecodeHeader(body).value == Envelope(Members(body).value)
  {
    if Members(body).Some? {
      HeaderFieldsSpec(Members(body).value);
    }
  }

  /** `HeaderError` exactly when the envelope stage fails; no variant is
      decoded and no request is returned. */
  lemma HeaderErrorIff(body: Body)
    ensures ReadAndParse(body) == Err(HeaderError) <==> !EnvelopeFits(body)
  {
    DecodeHeaderSpec(body);
  }

  /** `UnknownType` exactly when the envelope decodes and its discriminant is
      none of the five literals, the empty string included. */
  lemma UnknownTypeIff(body: Body)
    ensures ReadAndParse(body) == Err(UnknownType) <==>
              EnvelopeFits(body) && forall k :: TypeOf(body) != Literal(k)
  {
    DecodeHeaderSpec(body);
  }

  /** `VariantError` exactly when the envelope decodes, its discriminant names
      variant `k`, and the body cannot fill `k`'s struct. */
  lemma VariantErrorIff(body: Body, k: Kind)
    requires TypeOf(body) == Literal(k)
    ensures ReadAndParse(body) == Err(VariantError) <==> EnvelopeFits(body) && !PayloadFits(k, body)
  {
    DecodeHeaderSpec(body);
    DispatchExact(TypeOf(body), k);
    DecodeVariantSpec(k, body);
  }

  /** Success exactly when the discriminant names variant `k` and the body
      fills `k`'s struct; the request is then the tolerant reading of the
      body as `k`. */
  lemma OkIff(body: Body, k: Kind, req: Request)
    requires TypeOf(body) == Literal(k)
    ensures ReadAndParse(body) == Ok(req) <==>
              PayloadFits(k, body) && req == Expected(k, Members(body).value)
  {
    DecodeHeaderSpec(body);
    DispatchExact(TypeOf(body), k);
    DecodeVariantSpec(k, body);
  }

  /** On success the four accessors report the envelope keys of the body,
      and `GetType` is the literal that selected the variant. */
  lemma AccessorsReportEnvelope(body: Body)
    ensures ReadAndParse(body).Ok? ==>
              var req, fields := ReadAndParse(body).value, Members(body).value;
              && req.GetType() == TextAt(fields, "type") == Literal(KindOf(req))
              && req.GetMeowVersion() == TextAt(fields, "meowVersion")
              && req.GetUser() == TextAt(fields, "user")
              && req.GetPassword() == TextAt(fields, "password")
  {
    DecodeHeaderSpec(body);
  }

  /** `m` and `n` hold the same values under `keys` (or both lack them). */
  ghost predicate AgreeOn(m: map<string, Json>, n: map<string, Json>, keys: set<string>) {
    forall key :: key in keys ==> (key in m <==> key in n) && (key in m ==> m[key] == n[key])
  }

  /** Agreement on a set of keys is agreement on each of its subsets. */
  lemma AgreeOnSubset(m: map<string, Json>, n: map<string, Json>, keys: set<string>, sub: set<string>)
    requires AgreeOn(m, n, keys) && sub <= keys
    ensures AgreeOn(m, n, sub)
  {
  }

  /** One key reads alike from `m` and `n` when both lack it or both hold the same value. */
  lemma FieldAgrees(m: map<string, Json>, n: map<string, Json>, key: string)
    requires (key in m <==> key in n) && (key in m ==> m[key] == n[key])
    ensures StringField(m, key) == StringField(n, key)
    ensures Int64Field(m, key) == Int64Field(n, key)
  {
  }

  /** Objects that agree on the envelope keys decode the same envelope. */
  lemma HeaderFieldsAgree(m: map<string, Json>, n: map<string, Json>)
    requires AgreeOn(m, n, HeaderKeys)
    ensures HeaderFields(m) == HeaderFields(n)
  {
    FieldAgrees(m, n, "type");
    FieldAgrees(m, n, "meowVersion");
    FieldAgrees(m, n, "user");
    FieldAgrees(m, n, "password");
  }

  /** Objects that agree on every key some stage reads decode the same variant. */
  lemma DecodeVariantAgrees(k: Kind, m: map<string, Json>, n: map<string, Json>)
    requires AgreeOn(m, n, WireKeys)
    ensures DecodeVariant(k, Document(JObject(m))) == DecodeVariant(k, Document(JObject(n)))
  {
    AgreeOnSubset(m, n, WireKeys, HeaderKeys);
    HeaderFieldsAgree(m, n);
    if HeaderFields(m).Some? {
      var h := HeaderFields(m).value;
      match k
      case RefData =>
      case NotificationsList =>
      case Debts =>
        FieldAgrees(m, n, "currency");
        FieldAgrees(m, n, "offeree");
        assert DebtsFields(h, m) == DebtsFields(h, n);
      case NewDebt =>
        FieldAgrees(m, n, "lender");
        FieldAgrees(m, n, "borrower");
        FieldAgrees(m, n, "currency");
        FieldAgrees(m, n, "amount");
        FieldAgrees(m, n, "text");
        assert NewDebtFields(h, m) == NewDebtFields(h, n);
      case CancelDebt =>
        FieldAgrees(m, n, "lender");
        FieldAgrees(m, n, "borrower");
        FieldAgrees(m, n, "debtid");
        assert CancelDebtFields(h, m) == CancelDebtFields(h, n);
    }
  }

  /** Only the keys some stage reads decide the outcome: two objects that
      agree on those keys decode alike, whatever else they hold. */
  lemma WireKeysDecide(m: map<string, Json>, n: map<string, Json>)
    requires AgreeOn(m, n, WireKeys)
    ensures ReadAndParse(Document(JObject(m))) == ReadAndParse(Document(JObject(n)))
  {
    AgreeOnSubset(m, n, WireKeys, HeaderKeys);
    HeaderFieldsAgree(m, n);
    forall k: Kind
      ensures DecodeVariant(k, Document(JObject(m))) == DecodeVariant(k, Document(JObject(n)))
    {
      DecodeVariantAgrees(k, m, n);
    }
  }

  /** A key that no stage reads does not change the outcome, whatever it holds. */
  lemma ExtraKeyIgnored(fields: map<string, Json>, key: string, v: Json)
    requires key !in WireKeys
    ensures ReadAndParse(Document(JObject(fields[key := v]))) == ReadAndParse(Document(JObject(fields)))
  {
    WireKeysDecide(fields[key := v], fields);
  }

  /** The wire form the struct tags declare for a request: every envelope
      and variant field under its own key (what `json.Marshal` writes). */
  function Encode(req: Request): Json {
    var h := req.header;
    var env := map["type" := JString(h.msgType), "meowVersion" := JString(h.meowVersion),
                   "user" := JString(h.user), "password" := JString(h.password)];
    match req
    case RefDataRequest(_) => JObject(env)
    case NotificationsListRequest(_) => JObject(env)
    case DebtsRequest(_, currency, offeree) =>
      JObject(env["currency" := JString(currency)]["offeree" := JString(offeree)])
    case NewDebtRequest(_, lender, borrower, currency, amount, text) =>
      JObject(env["lender" := JString(lender)]["borrower" := JString(borrower)]
                 ["currency" := JString(currency)]["amount" := JInt(amount as int)]
                 ["text" := JString(text)])
    case CancelDebtRequest(_, lender, borrower, debtId) =>
      JObject(env["lender" := JString(lender)]["borrower" := JString(borrower)]
                 ["debtid" := JString(debtId)])
  }

  /** The envelope keys of an encoded request read back as its envelope. */
  lemma EncodedEnvelope(req: Request)
    ensures Fits(Encode(req).fields, HeaderKeys, {})
    ensures Envelope(Encode(req).fields) == req.header
  {
    var fields := Encode(req).fields;
    forall key | key in HeaderKeys ensures key in fields && fields[key].JString? {
      match req
      case RefDataRequest(_) =>
      case NotificationsListRequest(_) =>
      case DebtsRequest(_, _, _) =>
      case NewDebtRequest(_, _, _, _, _, _) =>
      case CancelDebtRequest(_, _, _, _) =>
    }
  }

  /** The variant keys of an encoded request hold its own fields. */
  lemma EncodedOwnFields(req: Request)
    ensures Fits(Encode(req).fields, StringKeys(KindOf(req)), IntKeys(KindOf(req)))
    ensures req.DebtsRequest? ==>
              TextAt(Encode(req).fields, "currency") == req.currency &&
              TextAt(Encode(req).fields, "offeree") == req.offeree
    ensures req.NewDebtRequest? ==>
              TextAt(Encode(req).fields, "lender") == req.lender &&
              TextAt(Encode(req).fields, "borrower") == req.borrower &&
              TextAt(Encode(req).fields, "currency") == req.currency &&
              NumberAt(Encode(req).fields, "amount") == req.amount as int &&
              TextAt(Encode(req).fields, "text") == req.text
    ensures req.CancelDebtRequest? ==>
              TextAt(Encode(req).fields, "lender") == req.lender &&
              TextAt(Encode(req).fields, "borrower") == req.borrower &&
              TextAt(Encode(req).fields, "debtid") == req.debtId
  {
    var fields := Encode(req).fields;
    match req
    case RefDataRequest(_) =>
    case NotificationsListRequest(_) =>
    case DebtsRequest(_, currency, offeree) =>
      assert fields["currency"] == JString(currency) && fields["offeree"] == JString(offeree);
    case NewDebtRequest(_, lender, borrower, currency, amount, text) =>
      assert fields["lender"] == JString(lender) && fields["borrower"] == JString(borrower);
      assert fields["currency"] == JString(currency) && fields["text"] == JString(text);
      assert fields["amount"] == JInt(amount as int);
    case CancelDebtRequest(_, lender, borrower, debtId) =>
      assert fields["lender"] == JString(lender) && fields["borrower"] == JString(borrower);
      assert fields["debtid"] == JString(debtId);
  }

  /** The encoded form of a request fills its variant's struct, and the
      tolerant reading of it is the request itself. */
  lemma EncodeReadsBack(req: Request)
    ensures PayloadFits(KindOf(req), Document(Encode(req)))
    ensures Expected(KindOf(req), Encode(req).fields) == req
  {
    EncodedEnvelope(req);
    EncodedOwnFields(req);
  }

  /** A request whose discriminant is its own variant's literal survives
      encoding and decoding unchanged; any other request does not. */
  lemma DecodeEncode(req: Request)
    ensures ReadAndParse(Document(Encode(req))) == Ok(req) <==> req.GetType() == Literal(KindOf(req))
  {
    if req.GetType() == Literal(KindOf(req)) {
      EncodeReadsBack(req);
      OkIff(Document(Encode(req)), KindOf(req), req);
    }
  }

  /** The decoder yields exactly the requests whose discriminant is their
      own variant's literal. */
  lemma DecodableIff(req: Request)
    ensures (exists body :: ReadAndParse(body) == Ok(req)) <==> req.GetType() == Literal(KindOf(req))
  {
    if req.GetType() == Literal(KindOf(req)) {
      DecodeEncode(req);
      assert ReadAndParse(Document(Encode(req))) == Ok(req);
    }
  }
}
