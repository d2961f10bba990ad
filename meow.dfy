/**
 * The meow request decoder: the envelope every request carries, the five
 * request variants, the response and domain records, and `ReadAndParse`,
 * which decodes the envelope first and then decodes the same body again
 * into the variant its `type` names.
 */
module Meow {
  import opened Wrappers
  import opened Json

  /** The envelope (`MeowHeader`); wire keys `type`, `meowVersion`, `user`, `password`. */
  datatype Header = Header(msgType: string, meowVersion: string, user: string, password: string) {
    function GetType(): string { msgType }
    function GetMeowVersion(): string { meowVersion }
    function GetUser(): string { user }
    function GetPassword(): string { password }
  }

  /** The closed set of requests; each embeds its envelope by value. */
  datatype Request =
    | RefDataRequest(header: Header)
    | NotificationsListRequest(header: Header)
    | DebtsRequest(header: Header, currency: string, offeree: string)
    | NewDebtRequest(header: Header, lender: string, borrower: string, currency: string,
                     amount: Int64, text: string)
    | CancelDebtRequest(header: Header, lender: string, borrower: string, debtId: string)
  {
    // The `Request` capability set: every variant answers with the field of
    // the envelope it embeds.
    function GetType(): (t: string)
      ensures t == header.msgType
    {
      match this
      case RefDataRequest(h) => h.GetType()
      case NotificationsListRequest(h) => h.GetType()
      case DebtsRequest(h, _, _) => h.GetType()
      case NewDebtRequest(h, _, _, _, _, _) => h.GetType()
      case CancelDebtRequest(h, _, _, _) => h.GetType()
    }

    function GetMeowVersion(): (v: string)
      ensures v == header.meowVersion
    {
      match this
      case RefDataRequest(h) => h.GetMeowVersion()
      case NotificationsListRequest(h) => h.GetMeowVersion()
      case DebtsRequest(h, _, _) => h.GetMeowVersion()
      case NewDebtRequest(h, _, _, _, _, _) => h.GetMeowVersion()
      case CancelDebtRequest(h, _, _, _) => h.GetMeowVersion()
    }

    function GetUser(): (u: string)
      ensures u == header.user
    {
      match this
      case RefDataRequest(h) => h.GetUser()
      case NotificationsListRequest(h) => h.GetUser()
      case DebtsRequest(h, _, _) => h.GetUser()
      case NewDebtRequest(h, _, _, _, _, _) => h.GetUser()
      case CancelDebtRequest(h, _, _, _) => h.GetUser()
    }

    function GetPassword(): (p: string)
      ensures p == header.password
    {
      match this
      case RefDataRequest(h) => h.GetPassword()
      case NotificationsListRequest(h) => h.GetPassword()
      case DebtsRequest(h, _, _) => h.GetPassword()
      case NewDebtRequest(h, _, _, _, _, _) => h.GetPassword()
      case CancelDebtRequest(h, _, _, _) => h.GetPassword()
    }
  }

  /** Domain and response records. The decoder never produces them. */
  datatype Debt = Debt(id: string, lender: string, borrower: string, currency: string,
                       amount: Int64, date: string, status: string, text: string)
  datatype Notification = Notification(debt: Debt, notificationId: string, notificationType: string)
  datatype RefDataResponse = RefDataResponse(users: seq<string>, currencies: seq<string>)
  datatype DebtsResponse = DebtsResponse(debtsList: seq<Debt>, stats: map<string, map<string, Int64>>)
  datatype NotificationsListResponse = NotificationsListResponse(header: Header, notifications: seq<Notification>)

  /** Which branch of the dispatch a request goes through. */
  datatype Kind = RefData | Debts | NewDebt | CancelDebt | NotificationsList

  /** The `type` literal of each branch. */
  function Literal(k: Kind): string {
    match k
    case RefData => "RefDataRequest"
    case Debts => "DebtsRequest"
    case NewDebt => "NewDebtRequest"
    case CancelDebt => "CancelDebtRequest"
    case NotificationsList => "NotificationsListRequest"
  }

  /** The variant a request value is. */
  function KindOf(req: Request): Kind {
    match req
    case RefDataRequest(_) => RefData
    case NotificationsListRequest(_) => NotificationsList
    case DebtsRequest(_, _, _) => Debts
    case NewDebtRequest(_, _, _, _, _, _) => NewDebt
    case CancelDebtRequest(_, _, _, _) => CancelDebt
  }

  /** The switch on the discriminant: exact string comparison against the
      five case labels; anything else selects no branch. */
  function Dispatch(t: string): (r: Option<Kind>)
    ensures r.Some? ==> t == Literal(r.value)
    ensures r.None? ==> forall k :: t != Literal(k)
  {
    if t == "RefDataRequest" then Some(RefData)
    else if t == "DebtsRequest" then Some(Debts)
    else if t == "NewDebtRequest" then Some(NewDebt)
    else if t == "CancelDebtRequest" then Some(CancelDebt)
    else if t == "NotificationsListRequest" then Some(NotificationsList)
    else None
  }

  /** The four envelope fields of a struct decode. Every field is decoded;
      the struct decode fails if any of them does. */
  function HeaderFields(fields: map<string, Json>): (r: Option<Header>)
    ensures r.Some? <==>
              && StringFits(fields, "type") && StringFits(fields, "meowVersion")
              && StringFits(fields, "user") && StringFits(fields, "password")
    ensures r.Some? ==>
              r.value == Header(TextAt(fields, "type"), TextAt(fields, "meowVersion"),
                                TextAt(fields, "user"), TextAt(fields, "password"))
  {
    var msgType, meowVersion := StringField(fields, "type"), StringField(fields, "meowVersion");
    var user, password := StringField(fields, "user"), StringField(fields, "password");
    if msgType.Some? && meowVersion.Some? && user.Some? && password.Some? then
      Some(Header(msgType.value, meowVersion.value, user.value, password.value))
    else
      None
  }

  /** The first stage: decode the body into a bare envelope. */
  function DecodeHeader(body: Body): (r: Option<Header>)
    ensures body.NotJson? ==> r.None?
    ensures body.Document? && !body.doc.JObject? && !body.doc.JNull? ==> r.None?
    ensures body == Document(JNull) ==> r == Some(Header("", "", "", ""))
    ensures body.Document? && body.doc.JObject? ==> r == HeaderFields(body.doc.fields)
  {
    match Members(body)
    case None => None
    case Some(fields) => HeaderFields(fields)
  }

  /** The fields of `DebtsRequest` after its envelope. */
  function DebtsFields(header: Header, fields: map<string, Json>): (r: Option<Request>)
    ensures r.Some? <==> StringFits(fields, "currency") && StringFits(fields, "offeree")
    ensures r.Some? ==>
              r.value == DebtsRequest(header, TextAt(fields, "currency"), TextAt(fields, "offeree"))
  {
    var currency, offeree := StringField(fields, "currency"), StringField(fields, "offeree");
    if currency.Some? && offeree.Some? then
      Some(DebtsRequest(header, currency.value, offeree.value))
    else
      None
  }

  /** The fields of `NewDebtRequest` after its envelope. */
  function NewDebtFields(header: Header, fields: map<string, Json>): (r: Option<Request>)
    ensures r.Some? <==>
              && StringFits(fields, "lender") && StringFits(fields, "borrower")
              && StringFits(fields, "currency") && Int64Fits(fields, "amount")
              && StringFits(fields, "text")
    ensures r.Some? ==>
              && r.value.NewDebtRequest? && r.value.header == header
              && r.value.lender == TextAt(fields, "lender")
              && r.value.borrower == TextAt(fields, "borrower")
              && r.value.currency == TextAt(fields, "currency")
              && r.value.amount as int == NumberAt(fields, "amount")
              && r.value.text == TextAt(fields, "text")
  {
    var lender, borrower := StringField(fields, "lender"), StringField(fields, "borrower");
    var currency, amount := StringField(fields, "currency"), Int64Field(fields, "amount");
    var text := StringField(fields, "text");
    if lender.Some? && borrower.Some? && currency.Some? && amount.Some? && text.Some? then
      Some(NewDebtRequest(header, lender.value, borrower.value, currency.value, amount.value, text.value))
    else
      None
  }

  /** The fields of `CancelDebtRequest` after its envelope. */
  function CancelDebtFields(header: Header, fields: map<string, Json>): (r: Option<Request>)
    ensures r.Some? <==>
              StringFits(fields, "lender") && StringFits(fields, "borrower") && StringFits(fields, "debtid")
    ensures r.Some? ==>
              r.value == CancelDebtRequest(header, TextAt(fields, "lender"), TextAt(fields, "borrower"),
                                           TextAt(fields, "debtid"))
  {
    var lender, borrower := StringField(fields, "lender"), StringField(fields, "borrower");
    var debtId := StringField(fields, "debtid");
    if lender.Some? && borrower.Some? && debtId.Some? then
      Some(CancelDebtRequest(header, lender.value, borrower.value, debtId.value))
    else
      None
  }

  /** The second stage: decode the same body into the variant of branch `k`
      (its embedded envelope and its own fields). */
  function DecodeVariant(k: Kind, body: Body): (r: Option<Request>)
    ensures r.Some? ==> KindOf(r.value) == k
    ensures r.Some? ==> DecodeHeader(body) == Some(r.value.header)
  {
    match Members(body)
    case None => None
    case Some(fields) =>
      match HeaderFields(fields)
      case None => None
      case Some(header) =>
        match k
        case RefData => Some(RefDataRequest(header))
        case NotificationsList => Some(NotificationsListRequest(header))
        case Debts => DebtsFields(header, fields)
        case NewDebt => NewDebtFields(header, fields)
        case CancelDebt => CancelDebtFields(header, fields)
  }

  /** Why a body was refused. */
  datatype ParseError =
    | HeaderError     // the envelope stage failed
    | UnknownType     // the discriminant names no variant
    | VariantError    // the discriminant is known but the variant stage failed

  /** Decodes a request body into one of the five request variants. */
  function ReadAndParse(body: Body): (r: Result<Request, ParseError>)
    ensures r.Ok? ==> DecodeHeader(body) == Some(r.value.header)
    ensures r.Ok? ==> r.value.GetType() == Literal(KindOf(r.value))
  {
    match DecodeHeader(body)
    case None => Err(HeaderError)
    case Some(base) =>
      match Dispatch(base.GetType())
      case None => Err(UnknownType)
      case Some(k) =>
        match DecodeVariant(k, body)
        case None => Err(VariantError)
        case Some(data) => Ok(data)
  }
}
