/** Resolving a postal code to a (city, state) pair and building an address
    record from user input plus that pair.

    The HTTP client is a parameter: `http` gives the outcome of a GET for a
    request (URL and headers), and the resolver reports the request it made
    instead of performing it. The Ziptastic API key, read from configuration
    in the program, is the opaque parameter `apiKey`. */
module Addresses {
  import opened Wrappers
  import opened Ascii
  import opened Json
  import opened AddressModel

  const BASE_ZIPTASTIC_API_URL: string := "http://zip.getziptastic.com/v2/"
  const BASE_POSTCODES_API_URL: string := "http://api.postcodes.io/postcodes/"

  /** An outbound GET: the URL and the headers sent with it. */
  datatype Request = Request(url: string, headers: map<string, string>)

  /** What `requests.get(...)` followed by `resp.json()` produces: it raised
      (transport error or undecodable body), or the decoded body. */
  datatype Response = Failed | Decoded(body: Json)

  /** The `(city, state)` tuple; `JNull` is `None`. */
  datatype Lookup = Lookup(city: Json, state: Json)

  /** One resolver call: the request made, if any, and what it returned or raised. */
  datatype Resolution = Resolution(request: Option<Request>, result: Result<Lookup, Raised>)

  /** Which lookup service a country code is routed to. */
  datatype Service = Postcodes | Ziptastic | NoService

  /** `get_api_headers`: the Ziptastic key header for "ziptastic", no headers
      for "postcodes" or any other name. */
  function GetApiHeaders(apiName: string, apiKey: string): (h: map<string, string>)
    ensures "x-key" in h <==> apiName == "ziptastic"
    ensures forall k :: k in h ==> k == "x-key" && h[k] == apiKey
  {
    if apiName == "ziptastic" then map["x-key" := apiKey]
    else if apiName == "postcodes" then map[]
    else map[]
  }

  /** The dispatch on `country_name.upper()`. The third test compares the
      upper-cased code with the lower-case "fr", so French codes never reach
      Ziptastic: only GB/UK and US/CA, in any letter case, are routed. */
  function ServiceFor(countryName: string): (svc: Service)
    ensures svc == Postcodes <==> EqualsIgnoringCase(countryName, "GB") || EqualsIgnoringCase(countryName, "UK")
    ensures svc == Ziptastic <==> EqualsIgnoringCase(countryName, "US") || EqualsIgnoringCase(countryName, "CA")
  {
    var code := Upper(countryName);
    UpperEqualsIffIgnoringCase(countryName, "GB");
    UpperEqualsIffIgnoringCase(countryName, "UK");
    UpperEqualsIffIgnoringCase(countryName, "US");
    UpperEqualsIffIgnoringCase(countryName, "CA");
    assert IsLowerLetter("fr"[0]);
    UpperNeverHasLowerLetter(countryName, "fr");
    if code == "GB" || code == "UK" then Postcodes
    else if code == "US" || code == "CA" || code == "fr" then Ziptastic
    else NoService
  }

  /** Whether `'admin_district' in result` followed by `result['admin_district']`
      raises for this `result`: a str or list can answer `in` but not be
      indexed by a str, and None, booleans and numbers cannot answer `in`. */
  predicate DistrictLookupRaises(result: Json): (raises: bool)
    ensures raises <==> Contains(result, "admin_district").Err?
                        || (Contains(result, "admin_district") == Ok(true) && Index(result, "admin_district").Err?)
    ensures raises ==> !result.JObject?
  {
    match result
    case JObject(_) => false
    case JString(s) => IsInfix("admin_district", s)
    case JArray(items) => JString("admin_district") in items
    case _ => true
  }

  /** The postcodes.io branch after the request: no exception handling, so a
      failed request raises; `rjson.get('result', {})` then
      `result['admin_district'] if 'admin_district' in result else None`,
      with the state always `None`. */
  function PostcodesLookup(resp: Response): (r: Result<Lookup, Raised>)
    ensures resp.Failed? ==> r == Err(RequestFailed)
    ensures r.Err? <==> resp.Failed? || !resp.body.JObject?
                        || ("result" in resp.body.fields && DistrictLookupRaises(resp.body.fields["result"]))
    ensures r.Ok? ==> r.value.state == JNull
    ensures resp.Decoded? && !resp.body.JObject? ==> r == Err(AttributeError)
    ensures resp.Decoded? && resp.body.JObject? && "result" !in resp.body.fields
            ==> r == Ok(Lookup(JNull, JNull))
    ensures resp.Decoded? && resp.body.JObject? && "result" in resp.body.fields
            && resp.body.fields["result"].JObject?
            ==> var district := resp.body.fields["result"].fields;
                r == Ok(Lookup(if "admin_district" in district then district["admin_district"] else JNull, JNull))
    ensures resp.Decoded? && resp.body.JObject? && "result" in resp.body.fields
            && !resp.body.fields["result"].JObject?
            ==> r == if DistrictLookupRaises(resp.body.fields["result"]) then Err(TypeError)
                     else Ok(Lookup(JNull, JNull))
  {
    match resp
    case Failed => Err(RequestFailed)
    case Decoded(rjson) =>
      var result :- Get(rjson, "result", JObject(map[]));
      var hasDistrict :- Contains(result, "admin_district");
      var city :- if hasDistrict then Index(result, "admin_district") else Ok(JNull);
      Ok(Lookup(city, JNull))
  }

  /** The Ziptastic branch after the request. Only the request and the
      decoding sit inside the `try`, so their failure gives `(None, None)`;
      `rjson.get('city', '')` comes after it and raises on a body that is not
      an object. City defaults to the empty string, state to `None`. */
  function ZiptasticLookup(resp: Response): (r: Result<Lookup, Raised>)
    ensures resp.Failed? ==> r == Ok(Lookup(JNull, JNull))
    ensures r.Err? <==> resp.Decoded? && !resp.body.JObject?
    ensures r.Err? ==> r.error == AttributeError
    ensures resp.Decoded? && resp.body.JObject? ==>
              var m := resp.body.fields;
              r == Ok(Lookup(if "city" in m then m["city"] else JString(""),
                             if "state_short" in m then m["state_short"] else JNull))
  {
    match resp
    case Failed => Ok(Lookup(JNull, JNull))
    case Decoded(rjson) =>
      match rjson
      case JObject(m) =>
        var city := if "city" in m then m["city"] else JString("");
        var state := if "state_short" in m then m["state_short"] else JNull;
        Ok(Lookup(city, state))
      case _ => Err(AttributeError)
  }

  /** `get_city_and_state_from_postal_code`. */
  function GetCityAndStateFromPostalCode(countryName: string, postalCode: string, apiKey: string,
                                         http: Request -> Response): (res: Resolution)
    ensures res.request.None? <==> ServiceFor(countryName) == NoService
    ensures ServiceFor(countryName) == NoService ==> res.result == Ok(Lookup(JNull, JNull))
    ensures ServiceFor(countryName) == Postcodes ==>
              var req := Request(BASE_POSTCODES_API_URL + postalCode, map[]);
              res.request == Some(req) && res.result == PostcodesLookup(http(req))
    ensures ServiceFor(countryName) == Ziptastic ==>
              var req := Request(BASE_ZIPTASTIC_API_URL + Upper(countryName) + "/" + postalCode,
                                 map["x-key" := apiKey]);
              res.request == Some(req) && res.result == ZiptasticLookup(http(req))
  {
    match ServiceFor(countryName)
    case Postcodes =>
      var req := Request(BASE_POSTCODES_API_URL + postalCode, GetApiHeaders("postcodes", apiKey));
      Resolution(Some(req), PostcodesLookup(http(req)))
    case Ziptastic =>
      var req := Request(BASE_ZIPTASTIC_API_URL + Upper(countryName) + "/" + postalCode,
                         GetApiHeaders("ziptastic", apiKey));
      Resolution(Some(req), ZiptasticLookup(http(req)))
    case NoService =>
      Resolution(None, Ok(Lookup(JNull, JNull)))
  }

  /** `construct_address`: resolves the postal code, then builds the record
      with the user fields as given, the country lower-cased and the
      resolver's pair in the derived columns. A raised lookup aborts it. */
  function ConstructAddress(streetAddress: string, city: string, state: string, postalCode: string,
                            country: string, apiKey: string, http: Request -> Response)
    : (r: Result<AddressFields, Raised>)
    ensures var res := GetCityAndStateFromPostalCode(country, postalCode, apiKey, http);
            && (r.Err? <==> res.result.Err?)
            && (r.Err? ==> r.error == res.result.error)
            && (r.Ok? ==> (r.value.storedCity == res.result.value.city
                           && r.value.storedState == res.result.value.state))
    ensures r.Ok? ==>
              && r.value.address == Some(streetAddress)
              && r.value.city == Some(city)
              && r.value.state == Some(state)
              && r.value.postalCode == Some(postalCode)
              && EqualsIgnoringCase(r.value.country, country)
              && forall i :: 0 <= i < |r.value.country| ==> !IsUpperLetter(r.value.country[i])
  {
    var lookup :- GetCityAndStateFromPostalCode(country, postalCode, apiKey, http).result;
    LowerEqualsIgnoringCase(country);
    Ok(AddressFields(
      address := Some(streetAddress),
      city := Some(city),
      state := Some(state),
      postalCode := Some(postalCode),
      country := Lower(country),
      storedCity := lookup.city,
      storedState := lookup.state))
  }

  // ---------------------------------------------------------------------
  // Properties of the resolver and the builder

  /** "FR" in any letter case is not routed: no request, `(None, None)`. */
  lemma FrenchCodesAreUnsupported(countryName: string, postalCode: string, apiKey: string,
                                  http: Request -> Response)
    requires EqualsIgnoringCase(countryName, "FR")
    ensures ServiceFor(countryName) == NoService
    ensures GetCityAndStateFromPostalCode(countryName, postalCode, apiKey, http)
         == Resolution(None, Ok(Lookup(JNull, JNull)))
  {
    assert LowerChar(countryName[0]) == 'f';
  }

  /** The two services treat a failed request differently: postcodes.io
      raises, Ziptastic answers `(None, None)`. */
  lemma FailedRequestHandling(countryName: string, postalCode: string, apiKey: string,
                              http: Request -> Response)
    requires forall req :: http(req) == Failed
    ensures ServiceFor(countryName) == Postcodes ==>
              GetCityAndStateFromPostalCode(countryName, postalCode, apiKey, http).result == Err(RequestFailed)
    ensures ServiceFor(countryName) != Postcodes ==>
              GetCityAndStateFromPostalCode(countryName, postalCode, apiKey, http).result == Ok(Lookup(JNull, JNull))
  {
  }

  /** Resolving the lower-cased country a record stores makes the same
      request and gets the same answer as resolving the code as entered. */
  lemma StoredCountryResolvesAlike(country: string, postalCode: string, apiKey: string,
                                   http: Request -> Response)
    ensures ServiceFor(Lower(country)) == ServiceFor(country)
    ensures GetCityAndStateFromPostalCode(Lower(country), postalCode, apiKey, http)
         == GetCityAndStateFromPostalCode(country, postalCode, apiKey, http)
  {
    UpperOfLower(country);
    UpperEqualsIffIgnoringCase(country, "GB");
    UpperEqualsIffIgnoringCase(Lower(country), "GB");
    UpperEqualsIffIgnoringCase(country, "UK");
    UpperEqualsIffIgnoringCase(Lower(country), "UK");
    UpperEqualsIffIgnoringCase(country, "US");
    UpperEqualsIffIgnoringCase(Lower(country), "US");
    UpperEqualsIffIgnoringCase(country, "CA");
    UpperEqualsIffIgnoringCase(Lower(country), "CA");
  }

  /** What the accessors of a freshly built address read: the looked-up
      value when it is truthy, else the user's own city or state. A UK
      lookup never has a state, so its state reads as the user's. */
  lemma ConstructedAddressReads(streetAddress: string, city: string, state: string, postalCode: string,
                                country: string, apiKey: string, http: Request -> Response)
    requires ConstructAddress(streetAddress, city, state, postalCode, country, apiKey, http).Ok?
    ensures var a := ConstructAddress(streetAddress, city, state, postalCode, country, apiKey, http).value;
            var lookup := GetCityAndStateFromPostalCode(country, postalCode, apiKey, http).result.value;
            && PostalCodeCity(a) == (if Truthy(lookup.city) then lookup.city else JString(city))
            && PostalCodeState(a) == (if Truthy(lookup.state) then lookup.state else JString(state))
            && (ServiceFor(country) == Postcodes ==> PostalCodeState(a) == JString(state))
            && (ServiceFor(country) == NoService ==>
                  PostalCodeCity(a) == JString(city) && PostalCodeState(a) == JString(state))
  {
  }

  /** An address built with country "GB" is stored as "gb", so it is shown
      in the non-British layout, the postal code after a space. */
  lemma ConstructedGbShownWithSpace(streetAddress: string, city: string, state: string, postalCode: string,
                                    apiKey: string, http: Request -> Response)
    requires ConstructAddress(streetAddress, city, state, postalCode, "GB", apiKey, http).Ok?
    ensures var a := ConstructAddress(streetAddress, city, state, postalCode, "GB", apiKey, http).value;
            && a.country == "gb"
            && FormattedString(a) == streetAddress + ", " + city + ", " + state + " " + postalCode
  {
    var a := ConstructAddress(streetAddress, city, state, postalCode, "GB", apiKey, http).value;
    assert a.country == "gb" by {
      assert Lower("GB")[0] == 'g' && Lower("GB")[1] == 'b';
    }
    var lines := [a.address, a.city, a.state];
    PresentAllSome(lines);
    assert Present(lines) == [streetAddress, city, state];
    JoinSnoc([streetAddress], city, ", ");
    assert [streetAddress] + [city] == [streetAddress, city];
    JoinSnoc([streetAddress, city], state, ", ");
    assert [streetAddress, city] + [state] == [streetAddress, city, state];
  }

  /** A Ziptastic answer without a "city" field stores the empty string, not
      `None`: the in-memory accessor then falls back to the user's city while
      the query expression reads the empty string. */
  lemma MissingZiptasticCity(streetAddress: string, city: string, state: string, postalCode: string,
                             country: string, apiKey: string, http: Request -> Response,
                             body: map<string, Json>)
    requires ServiceFor(country) == Ziptastic
    requires forall req :: http(req) == Decoded(JObject(body))
    requires "city" !in body
    requires city != ""
    ensures var r := ConstructAddress(streetAddress, city, state, postalCode, country, apiKey, http);
            && r.Ok?
            && r.value.storedCity == JString("")
            && PostalCodeCity(r.value) == JString(city)
            && PostalCodeCityExpr(r.value) == JString("")
  {
  }

  /** The North American example: a Ziptastic answer of Brooklyn, NY for a
      US address entered as New York City, New York. */
  lemma NorthAmericaExample(apiKey: string, http: Request -> Response)
    requires forall req ::
               http(req) == Decoded(JObject(map["city" := JString("Brooklyn"), "state_short" := JString("NY")]))
    ensures var res := GetCityAndStateFromPostalCode("US", "11216", apiKey, http);
            res.request.Some? && BASE_ZIPTASTIC_API_URL <= res.request.value.url
    ensures var r := ConstructAddress("55 Elm Rd", "New York City", "New York", "11216", "US", apiKey, http);
            && r.Ok?
            && r.value.city == Some("New York City")
            && r.value.state == Some("New York")
            && r.value.postalCode == Some("11216")
            && r.value.address == Some("55 Elm Rd")
            && r.value.country == "us"
            && PostalCodeCity(r.value) == JString("Brooklyn")
            && PostalCodeState(r.value) == JString("NY")
  {
    assert EqualsIgnoringCase("US", "US");
    assert Upper("US") == "US";
    assert Lower("US") == "us" by {
      assert Lower("US")[0] == 'u' && Lower("US")[1] == 's';
    }
  }

  /** The UK example: postcodes.io names North Dorset and gives no state, so
      the state reads as the user's. */
  lemma UkExample(apiKey: string, http: Request -> Response)
    requires forall req ::
               http(req) == Decoded(JObject(map["result" := JObject(map["admin_district" := JString("North Dorset")])]))
    ensures var res := GetCityAndStateFromPostalCode("UK", "SP7 7BE", apiKey, http);
            res.request == Some(Request(BASE_POSTCODES_API_URL + "SP7 7BE", map[]))
    ensures var r := ConstructAddress("55 Elm Rd", "Somecity", "Somestate", "SP7 7BE", "UK", apiKey, http);
            && r.Ok?
            && r.value.city == Some("Somecity")
            && r.value.state == Some("Somestate")
            && r.value.country == "uk"
            && PostalCodeCity(r.value) == JString("North Dorset")
            && PostalCodeState(r.value) == JString("Somestate")
  {
    assert EqualsIgnoringCase("UK", "UK");
    assert Lower("UK") == "uk" by {
      assert Lower("UK")[0] == 'u' && Lower("UK")[1] == 'k';
    }
  }

  /** An unsupported country ("gh"): no request, `(None, None)`. */
  lemma UnsupportedCountryExample(apiKey: string, http: Request -> Response)
    ensures GetCityAndStateFromPostalCode("gh", "11216", apiKey, http)
         == Resolution(None, Ok(Lookup(JNull, JNull)))
  {
    assert !EqualsIgnoringCase("gh", "GB") by { assert LowerChar("gh"[1]) != LowerChar("GB"[1]); }
    assert !EqualsIgnoringCase("gh", "UK") by { assert LowerChar("gh"[0]) != LowerChar("UK"[0]); }
    assert !EqualsIgnoringCase("gh", "US") by { assert LowerChar("gh"[0]) != LowerChar("US"[0]); }
    assert !EqualsIgnoringCase("gh", "CA") by { assert LowerChar("gh"[0]) != LowerChar("CA"[0]); }
  }
}
