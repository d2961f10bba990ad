# meow request decoder, modelled in Dafny

This project models the request decoder of the meow peer-to-peer debt-tracking
protocol (`meow.go`). `ReadAndParse` takes a request body and works in two stages:

1. It decodes the body into the envelope `MeowHeader` (`type`, `meowVersion`,
   `user`, `password`).
2. It switches on the exact `type` string. There are five request variants:
   `RefDataRequest`, `DebtsRequest`, `NewDebtRequest`, `CancelDebtRequest` and
   `NotificationsListRequest`. For a known type, it decodes the same body again
   into that variant's struct.

Each outcome is either a request or one error kind, never both.

Files:

- `wrappers.dfy`: `Option` and `Result`.
- `json.dfy`: an already-parsed JSON value. It also models the field-tolerant decode
  of a `string` or `int64` struct field. Unknown keys are ignored. An absent key or
  a JSON null leaves the field's zero value. A value of the wrong kind is a type error.
- `meow.dfy`: the envelope, the request variants with the `Request` accessors, the
  response and domain records, the dispatch, and `ReadAndParse`.
- `properties.dfy`: a tolerant reference reading of a body: `Fits`, `Envelope`,
  `Expected`. It is total on bodies that fit. The lemmas characterise every outcome of `ReadAndParse` in both
  directions against it.
- `scenarios.dfy`: concrete bodies and their outcomes.

`Encode` in `properties.dfy` is the wire form that the struct tags declare:
every field under its own key, which is what `json.Marshal` would write. The
code has no encoder. `Encode` serves only as the decoder's reference inverse.
The round trip holds exactly for requests whose `type` is their own variant's
literal. A `DebtsRequest` whose envelope says `"RefDataRequest"` decodes back as a
`RefDataRequest`.

The source's two possible results (`Request, error`) become `Result<Request, ParseError>`.
This type makes "exactly one of a value or an error" hold by construction.
`ParseError` has three kinds:

- `HeaderError`: the envelope stage failed.
- `UnknownType`: the discriminant names no variant. It carries no data, like the source's error.
- `VariantError`: the type is known, but the variant stage failed.

The model follows the code on these points:

- The unknown-type error carries no discriminant (meow.go:149).
- The envelope stage fails for more than bad syntax. It also fails for a JSON value
  that is neither an object nor null, and for an envelope key holding a
  non-string, non-null value (meow.go:111-114).
- A top-level JSON `null` fills nothing. So it gives the empty discriminant and
  `UnknownType`, as an empty object does.

## Model

| member | source | states |
|---|---|---|
| `Json.StringField` | meow.go:18-23 | a `string` field fails exactly when its key is present and holds something other than a string or null; otherwise it reads the string there, or "" when absent or null |
| `Json.Int64Field` | meow.go:93 | an `int64` field fails exactly when its key is present and holds something other than null or an integer literal within the signed 64-bit range; otherwise it reads that integer, or 0 |
| `Meow.Dispatch` | meow.go:115-146 | the switch selects a branch only for its own literal, and selects none for a string that is no branch's literal |
| `Meow.Request.GetType` | meow.go:25-39 | every variant returns the `type` of the envelope it embeds |
| `Meow.Request.GetMeowVersion` | meow.go:25-39 | every variant returns the `meowVersion` of the envelope it embeds |
| `Meow.Request.GetUser` | meow.go:25-39 | every variant returns the `user` of the envelope it embeds |
| `Meow.Request.GetPassword` | meow.go:25-39 | every variant returns the `password` of the envelope it embeds |
| `Meow.HeaderFields` | meow.go:18-23 | the envelope struct decodes if and only if each of `type`, `meowVersion`, `user`, `password` fits a string, and then carries their tolerant readings |
| `Meow.DecodeHeader` | meow.go:111-114 | a body that is not JSON, or is JSON but neither an object nor null, fails the first stage; null gives the empty envelope; an object gives the envelope decoded from its keys |
| `Meow.DebtsFields` | meow.go:59-65 | the debts struct decodes if and only if `currency` and `offeree` each hold a string or null or are absent, and then carries their tolerant readings |
| `Meow.NewDebtFields` | meow.go:88-95 | the new-debt struct decodes if and only if `lender`, `borrower`, `currency`, `text` fit a string and `amount` fits an `int64`, and then carries their tolerant readings |
| `Meow.CancelDebtFields` | meow.go:97-102 | the cancel-debt struct decodes if and only if `lender`, `borrower` and `debtid` fit a string, and then carries their tolerant readings |
| `Meow.DecodeVariant` | meow.go:115-146 | the second stage for branch `k` yields a `k` variant, and the envelope it embeds is exactly what the first stage decodes from the same body |
| `Meow.ReadAndParse` | meow.go:104-152 | a returned request embeds exactly the envelope the first stage decoded from the same body, and its `GetType()` is the literal of the variant it is |
| `MeowProperties.DispatchExact` | meow.go:115-146 | branch `k` is taken if and only if the discriminant equals `k`'s literal exactly, so no two branches can match the same discriminant |
| `MeowProperties.LiteralInjective` | meow.go:116-141 | the five case labels are pairwise distinct |
| `MeowProperties.HeaderFieldsSpec` | meow.go:18-23 | the envelope decodes if and only if each present envelope key holds a string or null, and then equals the tolerant reading of the four keys |
| `MeowProperties.DecodeHeaderSpec` | meow.go:111-114 | the first stage succeeds if and only if the body is a JSON object (or null) whose envelope keys fit, and then yields the tolerant reading of the envelope |
| `MeowProperties.DecodeVariantSpec` | meow.go:41-102 | a variant decode succeeds if and only if every envelope and variant key present fits its field's kind, and then yields that variant, with each field read from its own case-sensitive key |
| `MeowProperties.HeaderErrorIff` | meow.go:111-114 | `HeaderError` if and only if the envelope stage cannot decode the body; no request is returned |
| `MeowProperties.UnknownTypeIff` | meow.go:148-149 | `UnknownType` if and only if the envelope decodes and its discriminant, "" included, equals none of the five literals |
| `MeowProperties.VariantErrorIff` | meow.go:116-146 | for a body whose discriminant names variant `k`: `VariantError` if and only if the envelope fits but some key of `k`'s struct holds a value of the wrong kind |
| `MeowProperties.OkIff` | meow.go:115-146 | for a body whose discriminant names variant `k`: success with `req` if and only if the body fits `k`'s struct and `req` is its tolerant reading as `k` |
| `MeowProperties.AccessorsReportEnvelope` | meow.go:25-39 | on success, `GetType`, `GetMeowVersion`, `GetUser` and `GetPassword` return the body's `type`, `meowVersion`, `user` and `password` keys, and `GetType` is the variant's own literal |
| `MeowProperties.HeaderFieldsAgree` | meow.go:18-23 | objects that agree on the four envelope keys decode the same envelope |
| `MeowProperties.DecodeVariantAgrees` | meow.go:41-102 | objects that agree on every key the decoder reads decode the same variant, for every branch |
| `MeowProperties.WireKeysDecide` | meow.go:59-102 | two objects that agree on every key some stage reads give the same outcome |
| `MeowProperties.ExtraKeyIgnored` | meow.go:59-102 | adding or changing a key that no stage reads leaves the outcome unchanged |
| `MeowProperties.EncodeReadsBack` | meow.go:41-102 | the wire form of a request, each field under its tagged key, fills its variant's struct, and the tolerant reading of it is the request itself |
| `MeowProperties.DecodeEncode` | meow.go:104-152 | decoding the wire form of a request gives that request back if and only if its `type` is its own variant's literal |
| `MeowProperties.DecodableIff` | meow.go:104-152 | some body decodes to a request if and only if that request's `type` is its own variant's literal: that is exactly the decoder's range |
| `MeowScenarios.AbsentKeysDefault` | meow.go:41-102 | a body holding only a known `type` decodes to that variant, with every other string "" and `amount` 0 |
| `MeowScenarios.DebtsRequestDecodes` | meow.go:123-128 | a full debts request decodes to its currency, offeree and envelope |
| `MeowScenarios.NewDebtRequestDecodes` | meow.go:129-134 | a new-debt request with `amount` 500 decodes, and its absent envelope keys read "" |
| `MeowScenarios.BogusTypeIsUnknown` | meow.go:148-149 | `type` "Bogus" gives `UnknownType` |
| `MeowScenarios.EmptyAndNullAreUnknown` | meow.go:111-149 | an empty object and a top-level null both give `UnknownType` |
| `MeowScenarios.NonObjectsFailHeader` | meow.go:111-114 | bytes that are not JSON, and a JSON value that is neither object nor null, give `HeaderError` |
| `MeowScenarios.HeaderMismatchFailsHeader` | meow.go:111-114 | a number under `user` gives `HeaderError` even when the type is known |
| `MeowScenarios.AmountMismatchFailsVariant` | meow.go:129-133 | a string, fractional or exponent, or out-of-range `amount` in a new-debt request gives `VariantError` |
| `MeowScenarios.AmountIgnoredByDebtsRequest` | meow.go:123-128 | the same `amount` key is ignored by a debts request, which succeeds |

## Left out

- Reading the HTTP body and closing it (meow.go:105-109): I/O. The body is a parameter, and a read failure is not modelled. On a read error the code returns before the deferred close is registered.
- `log.Println(data)` in the reference-data branch (meow.go:121): a side effect with no modelled behaviour.
- JSON text syntax: the input is an already-parsed value. A body that is not JSON is the single value `NotJson`.
- Go's case-insensitive key fallback in encoding/json: the model matches keys exactly. In Go, a body with `"Type"` instead of `"type"` still fills the discriminant.
- Duplicate keys ("last one wins" in Go): an object is a map, so duplicates cannot be expressed.
- Replacement of invalid UTF-8 in strings, and other encoding/json internals.
- The wording of the error messages (meow.go:107, 113, 119, 149): only the error kind is kept.
- Encoding: the code has no encoder. The round trip is stated against the tag-declared wire form `Encode`, not against `json.Marshal` itself.
- Concurrency: the decoder is stateless, so there is nothing to model.
- The response and domain records (`Debt`, `Notification`, `RefDataResponse`, `DebtsResponse`, `NotificationsListResponse`): declared as datatypes with no behaviour. `NotificationsListResponse` embeds the envelope, but no accessor is given for it, since the decoder never produces one.
