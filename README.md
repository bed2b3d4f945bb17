# Postal-code address standardisation, modelled in Dafny

The system records a payment card's address together with a city and state
inferred from the postal code, because the user-entered city and state cannot
be trusted for reporting. This project models its core:

- **The postal lookup resolver** (`get_city_and_state_from_postal_code`). It
  upper-cases the country code and routes it. `GB`/`UK` go to postcodes.io,
  `US`/`CA` go to Ziptastic with an `x-key` header, and any other code gets
  `(None, None)` with no request. It then reads `result.admin_district`, or
  `city` and `state_short`, out of the decoded JSON. Ziptastic failures become
  `(None, None)`; postcodes.io failures propagate.
- **The address builder** (`construct_address`). It copies the user fields,
  lower-cases the country and stores the resolver's pair in the derived columns.
- **The `Address` record**. This covers the read-time fallback accessors
  `postal_code_city`/`postal_code_state`, both in memory (Python `or`) and as a
  query expression (`IS NOT NULL`). It also covers their setters and the
  `formatted_string` display rule.

Files:

- `wrappers.dfy`: `Option` and `Result`.
- `ascii.dfy`: ASCII `upper()`/`lower()` and case-insensitive equality.
- `json.dfy`: decoded JSON values (`JNull` is `None`), Python truthiness, and
  the behaviour of `.get`, `in` and `[...]` on them, with Python's exceptions
  as `Raised`.
- `address_model.dfy`: the record `AddressFields`, the class `Address` with the
  setters, the accessors, the query expressions and `FormattedString`.
- `addresses.dfy`: the constants, `GetApiHeaders`, routing, the two service
  lookups, the resolver, the builder, and the properties that relate them.

The HTTP client is a parameter `http: Request -> Response`. A `Response` is
`Failed` when `requests.get` or `resp.json()` raised, and `Decoded(body)`
otherwise. The resolver returns the `Request` it made (URL and headers)
instead of performing it. The API key is the opaque parameter `apiKey`.

Two behaviours of the code are modelled as written, not as they may have been meant:

- The third routing test, `standardized_country_code == 'fr'`
  (src/addresses.py:85), compares an upper-cased string with a lower-case
  literal. It never holds, so French codes get `(None, None)` with no request,
  although the comparison itself shows French codes were meant to reach Ziptastic.
- In the Ziptastic branch only the request and `resp.json()` are inside the
  `try`. `rjson.get('city', '')` (src/addresses.py:98) comes after it, so a
  decoded body that is not a JSON object raises `AttributeError` to the caller
  instead of giving `(None, None)`.

## Model

| member | source | states |
|---|---|---|
| `Ascii.Upper` | src/addresses.py:72 | `upper()` keeps the length, maps each character by its upper case, and leaves no lower-case letter |
| `Ascii.Lower` | src/addresses.py:57 | `lower()` keeps the length, maps each character by its lower case, and leaves no upper-case letter |
| `Ascii.UpperEqualsIffIgnoringCase` | src/addresses.py:72-73 | comparing `code.upper()` with an upper-case constant is the same as comparing `code` with it in any letter case (both directions) |
| `Ascii.UpperNeverHasLowerLetter` | src/addresses.py:85 | `code.upper()` never equals a string that holds a lower-case letter such as `'fr'` |
| `Ascii.UpperOfLower` | src/addresses.py:57 | upper-casing the stored lower-case country gives the same code as upper-casing the input |
| `Ascii.LowerEqualsIgnoringCase` | src/addresses.py:57 | the stored country differs from the input only in letter case |
| `Json.Get` | src/addresses.py:79 | `v.get(k, d)` raises AttributeError unless `v` is a dict; on a dict it gives the value at `k`, or `d` when `k` is absent |
| `Json.Contains` | src/addresses.py:80 | `k in v` is a key test on a dict, a substring test on a str and an element test on a list; it raises TypeError exactly on None, booleans and numbers |
| `Json.Index` | src/addresses.py:80 | `v[k]` succeeds exactly on a dict holding `k`; otherwise it raises KeyError (dict) or TypeError |
| `Json.Truthy` | src/models/address.py:62 | Python truthiness as `or` uses it: None is false, a bool is itself, a number is true iff non-zero, a str, list or dict is true iff non-empty |
| `Json.IsInfix` | src/addresses.py:80 | `k in s` on a str holds iff `k` starts at some position of `s` |
| `AddressModel.PostalCodeState` | src/models/address.py:56-62 | reads the stored derived state when it is truthy, else the user state; the result is truthy iff either one is |
| `AddressModel.PostalCodeCity` | src/models/address.py:73-79 | reads the stored derived city when it is truthy, else the user city; the result is truthy iff either one is |
| `AddressModel.PostalCodeStateExpr` | src/models/address.py:64-67 | the query expression reads the stored state unless it is NULL; it is NULL only when both are |
| `AddressModel.PostalCodeCityExpr` | src/models/address.py:81-84 | the query expression reads the stored city unless it is NULL; it is NULL only when both are |
| `AddressModel.StateAccessorsAgree` | src/models/address.py:56-67 | the accessor and the query expression agree iff the stored state is truthy, is NULL, or equals the user state |
| `AddressModel.CityAccessorsAgree` | src/models/address.py:73-84 | the accessor and the query expression agree iff the stored city is truthy, is NULL, or equals the user city |
| `AddressModel.EmptyStoredCityDiverges` | src/models/address.py:79-84 | a stored empty city reads as the user city in memory but as `""` in a query |
| `AddressModel.Address.constructor` | src/models/address.py:18-38 | the new object holds exactly the given columns, derived values in the stored columns |
| `AddressModel.Address.SetPostalCodeState` | src/models/address.py:69-71 | only `_postal_code_state` changes; the next read gives the new value when truthy, else the user state |
| `AddressModel.Address.SetPostalCodeCity` | src/models/address.py:86-88 | only `_postal_code_city` changes; the next read gives the new value when truthy, else the user city |
| `AddressModel.ClearedStateFallsBack` | src/models/address.py:56-71 | after the derived state is set to None, both the accessor and the query expression read the user state |
| `AddressModel.Present` | src/models/address.py:45-46 | the filter keeps one entry per non-None line (empty strings included) and a string survives iff it was a line |
| `AddressModel.PresentAppend` | src/models/address.py:49-50 | filtering commutes with concatenation, so the surviving lines keep the field order |
| `AddressModel.PresentAllSome` | src/models/address.py:45-46 | with no None line, every line survives at its own position |
| `AddressModel.PresentEmptyIff` | src/models/address.py:45-46 | the filter leaves nothing iff every line is None |
| `AddressModel.Join` | src/models/address.py:47 | `', '.join` of no parts is empty; otherwise it starts with the first part and ends with the last |
| `AddressModel.JoinSnoc` | src/models/address.py:47 | `', '.join(xs + [y])` is `', '.join(xs) + ', ' + y` for non-empty `xs` |
| `AddressModel.FormattedString` | src/models/address.py:40-54 | the display string starts with the street when there is one, ends with the postal code when there is one (after a space for every country but exactly "GB"), and is empty when all four are None |
| `AddressModel.BritishLayout` | src/models/address.py:44-47 | the "GB" layout starts with the street, ends with the postal code, and is empty when all four are None |
| `AddressModel.OtherLayout` | src/models/address.py:49-54 | the non-GB layout starts with the street and ends with a space and the postal code when there is one, and is empty when all four are None |
| `AddressModel.PostcodeSeparator` | src/models/address.py:44-54 | with a postal code and some other line, "GB" puts `", "` before the postal code and every other country a single space |
| `AddressModel.OnlyPostcode` | src/models/address.py:49-54 | with only a postal code, a non-GB address shows it after a leading space, a GB address shows it bare |
| `AddressModel.NoPostcodeSameLayout` | src/models/address.py:44-54 | without a postal code, the GB and non-GB layouts give the same string |
| `AddressModel.AllFieldsKept` | src/models/address.py:44-47 | a GB address with all four fields set shows all four, empty ones included, with three `", "` separators |
| `Addresses.GetApiHeaders` | src/addresses.py:60-65 | an `x-key` header with the key is present iff the API is `'ziptastic'`; there is never any other header |
| `Addresses.ServiceFor` | src/addresses.py:72-86 | postcodes.io iff the code is GB or UK in any letter case; Ziptastic iff it is US or CA in any letter case; otherwise nothing |
| `Addresses.DistrictLookupRaises` | src/addresses.py:80 | `'admin_district' in result` followed by `result['admin_district']` raises iff the `in` raises or holds while the lookup raises; a dict never raises here |
| `Addresses.PostcodesLookup` | src/addresses.py:74-81 | a failed request raises; it raises exactly on a failed request, a non-object body (AttributeError), or a `result` on which the district test or lookup raises (TypeError); the state is always None; the city is `result.admin_district` or None; a missing `result` counts as `{}`, and a str or list `result` without the key gives `(None, None)` |
| `Addresses.ZiptasticLookup` | src/addresses.py:89-101 | a failed request gives `(None, None)`; it raises (AttributeError) exactly when the body is not an object; the city is `city` or `""`; the state is `state_short` or None |
| `Addresses.GetCityAndStateFromPostalCode` | src/addresses.py:67-103 | a request is made iff the code is routed; GB/UK requests `BASE_POSTCODES_API_URL + postal_code` with no headers; US/CA requests `BASE_ZIPTASTIC_API_URL + CODE + "/" + postal_code` with `x-key`; otherwise `(None, None)`; each result is the matching service's answer to exactly that request |
| `Addresses.ConstructAddress` | src/addresses.py:36-58 | it raises iff the resolver raised; otherwise the user fields are kept verbatim, the country equals the input up to case with no upper-case letter, and the derived columns hold the resolver's pair |
| `Addresses.FrenchCodesAreUnsupported` | src/addresses.py:82-86 | FR in any letter case makes no request and gives `(None, None)` |
| `Addresses.FailedRequestHandling` | src/addresses.py:74-96 | when every request fails, GB/UK raises, and every other code gives `(None, None)` |
| `Addresses.StoredCountryResolvesAlike` | src/addresses.py:57-72 | resolving the stored lower-case country makes the same request and gives the same answer as resolving the input code |
| `Addresses.ConstructedAddressReads` | src/addresses.py:48-58 | on a built address the accessors read the looked-up value when truthy, else the user value; a UK address's state reads as the user state; an unrouted country reads both user values |
| `Addresses.ConstructedGbShownWithSpace` | src/addresses.py:57 | an address built with country "GB" is stored as "gb" and shown as `street, city, state postcode` |
| `Addresses.MissingZiptasticCity` | src/addresses.py:98 | a Ziptastic answer without `city` stores `""`; the accessor falls back to the user city while the query expression reads `""` |
| `Addresses.NorthAmericaExample` | tests/test_addresses.py:17-39 | Brooklyn/NY from Ziptastic for a US address: request under the Ziptastic base URL, user fields kept, country `us`, accessors read Brooklyn and NY |
| `Addresses.UkExample` | tests/test_addresses.py:41-62 | North Dorset from postcodes.io for a UK address: request to the postcodes base URL, country `uk`, city reads North Dorset, state reads the user's `Somestate` |
| `Addresses.UnsupportedCountryExample` | tests/test_addresses.py:102-105 | `gh` makes no request and gives `(None, None)` |

## Left out

- The network and `requests` are not modelled: the outcome of each GET is the parameter `http`. HTTP status codes are not modelled either. The code never checks them, so an error page is just another decoded body.
- JSON decoding is not modelled: the body arrives already decoded as `Json`. JSON numbers are `real`, so integer and float are not told apart; only their truthiness matters here.
- `configvars.config` is not modelled: the Ziptastic key is the opaque `apiKey`.
- Case mapping covers ASCII only. Python's full Unicode `upper()`/`lower()` (for example `'ß'.upper() == 'SS'`) is not modelled.
- SQLAlchemy is not modelled: column types and lengths (`String(2)` is declared but not enforced, so the country's length is unconstrained), the sequence, the primary key, `when_updated`, `public_fields`/`repr_fields`, and SQL generation from `case`. The query expressions are modelled only by their meaning, as functions on one record.
- A bare `except:` also catches `KeyboardInterrupt` and similar. Such interrupts are not modelled.
- `formatted_string` is modelled only on `str`/`None` fields. A non-string user field, which `', '.join` would reject, is not representable.
