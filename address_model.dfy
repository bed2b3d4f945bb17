/** The `Address` record: the user-entered fields, the lower-cased country,
    the two stored derived columns `_postal_code_city`/`_postal_code_state`,
    their read-time fallback accessors (in memory and as a query
    expression), the setters, and the one-line display form. */
module AddressModel {
  import opened Wrappers
  import opened Json

  /** The stored columns of one address. `storedCity` and `storedState` are
      the underscored columns; they hold whatever the resolver returned. */
  datatype AddressFields = AddressFields(
    address: Option<string>,
    city: Option<string>,
    state: Option<string>,
    postalCode: Option<string>,
    country: string,
    storedCity: Json,
    storedState: Json)

  /** A user-entered field as a Python value: `None` or a str. */
  function PyValue(o: Option<string>): (v: Json)
    ensures v.JNull? <==> o.None?
    ensures o.Some? ==> v.JString? && v.s == o.value
  {
    match o
    case None => JNull
    case Some(s) => JString(s)
  }

  // ---------------------------------------------------------------------
  // Fallback accessors

  /** `self._postal_code_state or self.state`: the stored derived state when
      it is truthy, otherwise the user-entered state. */
  function PostalCodeState(a: AddressFields): (v: Json)
    ensures v == a.storedState || v == PyValue(a.state)
    ensures Truthy(v) <==> Truthy(a.storedState) || Truthy(PyValue(a.state))
    ensures Truthy(a.storedState) ==> v == a.storedState
    ensures !Truthy(a.storedState) ==> v == PyValue(a.state)
  {
    if Truthy(a.storedState) then a.storedState else PyValue(a.state)
  }

  /** `self._postal_code_city or self.city`. */
  function PostalCodeCity(a: AddressFields): (v: Json)
    ensures v == a.storedCity || v == PyValue(a.city)
    ensures Truthy(v) <==> Truthy(a.storedCity) || Truthy(PyValue(a.city))
    ensures Truthy(a.storedCity) ==> v == a.storedCity
    ensures !Truthy(a.storedCity) ==> v == PyValue(a.city)
  {
    if Truthy(a.storedCity) then a.storedCity else PyValue(a.city)
  }

  /** The query expression `CASE WHEN _postal_code_state IS NOT NULL THEN
      _postal_code_state ELSE state END`: falls back only on NULL. */
  function PostalCodeStateExpr(a: AddressFields): (v: Json)
    ensures v == a.storedState || v == PyValue(a.state)
    ensures v.JNull? <==> a.storedState.JNull? && a.state.None?
    ensures !a.storedState.JNull? ==> v == a.storedState
  {
    if a.storedState != JNull then a.storedState else PyValue(a.state)
  }

  /** The query expression for `postal_code_city`. */
  function PostalCodeCityExpr(a: AddressFields): (v: Json)
    ensures v == a.storedCity || v == PyValue(a.city)
    ensures v.JNull? <==> a.storedCity.JNull? && a.city.None?
    ensures !a.storedCity.JNull? ==> v == a.storedCity
  {
    if a.storedCity != JNull then a.storedCity else PyValue(a.city)
  }

  /** The in-memory accessor and the query expression give the same state
      exactly when the stored value is truthy, is NULL, or happens to equal
      the user value; they part only on a falsy non-NULL stored value such
      as the empty string. */
  lemma StateAccessorsAgree(a: AddressFields)
    ensures PostalCodeState(a) == PostalCodeStateExpr(a)
        <==> Truthy(a.storedState) || a.storedState.JNull? || a.storedState == PyValue(a.state)
  {
  }

  /** The same for the city accessor and its query expression. */
  lemma CityAccessorsAgree(a: AddressFields)
    ensures PostalCodeCity(a) == PostalCodeCityExpr(a)
        <==> Truthy(a.storedCity) || a.storedCity.JNull? || a.storedCity == PyValue(a.city)
  {
  }

  /** A stored empty string: the accessor falls back to the user city, the
      query expression yields the empty string. */
  lemma EmptyStoredCityDiverges(a: AddressFields)
    requires a.storedCity == JString("")
    requires a.city != Some("")
    ensures PostalCodeCityExpr(a) == JString("")
    ensures PostalCodeCity(a) == PyValue(a.city)
    ensures PostalCodeCity(a) != PostalCodeCityExpr(a)
  {
  }

  // ---------------------------------------------------------------------
  // The setters, on the mapped object

  /** The mapped object. Its fields are the columns of AddressFields; the
      fallback accessors and `formatted_string` read it through Fields(). */
  class Address {
    var address: Option<string>
    var city: Option<string>
    var state: Option<string>
    var postalCode: Option<string>
    var country: string
    var storedCity: Json
    var storedState: Json

    function Fields(): AddressFields
      reads this
    {
      AddressFields(address, city, state, postalCode, country, storedCity, storedState)
    }

    /** `Address(address=..., ..., postal_code_city=..., ...)`: the keyword
        arguments for the derived values go through the setters, so they land
        in the stored columns. */
    constructor (fields: AddressFields)
      ensures Fields() == fields
    {
      address := fields.address;
      city := fields.city;
      state := fields.state;
      postalCode := fields.postalCode;
      country := fields.country;
      storedCity := fields.storedCity;
      storedState := fields.storedState;
    }

    /** The `postal_code_state` setter: overwrites `_postal_code_state` only.
        The next read gives the new value if it is truthy, else the user state. */
    method SetPostalCodeState(v: Json)
      modifies this
      ensures Fields() == old(Fields()).(storedState := v)
      ensures PostalCodeState(Fields()) == if Truthy(v) then v else PyValue(old(state))
      ensures PostalCodeStateExpr(Fields()) == if v.JNull? then PyValue(old(state)) else v
    {
      storedState := v;
    }

    /** The `postal_code_city` setter: overwrites `_postal_code_city` only. */
    method SetPostalCodeCity(v: Json)
      modifies this
      ensures Fields() == old(Fields()).(storedCity := v)
      ensures PostalCodeCity(Fields()) == if Truthy(v) then v else PyValue(old(city))
      ensures PostalCodeCityExpr(Fields()) == if v.JNull? then PyValue(old(city)) else v
    {
      storedCity := v;
    }
  }

  /** The fallback is a read-time rule: clearing the derived state makes the
      accessor and the query expression both read the user state, whatever
      was stored before. */
  lemma ClearedStateFallsBack(a: AddressFields)
    ensures PostalCodeState(a.(storedState := JNull)) == PyValue(a.state)
    ensures PostalCodeStateExpr(a.(storedState := JNull)) == PyValue(a.state)
  {
  }

  // ---------------------------------------------------------------------
  // formatted_string

  /** How many of `lines` are not `None`. */
  function CountPresent(lines: seq<Option<string>>): nat
  {
    if lines == [] then 0 else (if lines[0].Some? then 1 else 0) + CountPresent(lines[1..])
  }

  /** `[l for l in lines if l is not None]`: drops the `None` entries only,
      keeping the others, empty strings included, in their order. */
  function Present(lines: seq<Option<string>>): (r: seq<string>)
    ensures |r| == CountPresent(lines)
    ensures forall s :: s in r <==> Some(s) in lines
    ensures lines != [] && lines[0].Some? ==> r != [] && r[0] == lines[0].value
  {
    if lines == [] then []
    else if lines[0].Some? then [lines[0].value] + Present(lines[1..])
    else Present(lines[1..])
  }

  /** `t` is a suffix of `s`. */
  predicate EndsWith(s: string, t: string) {
    |t| <= |s| && s[|s| - |t|..] == t
  }

  /** `sep.join(parts)`: empty for no parts, otherwise it starts with the
      first part and ends with the last one. */
  function Join(parts: seq<string>, sep: string): (r: string)
    ensures parts == [] ==> r == ""
    ensures parts != [] ==> parts[0] <= r
    ensures parts != [] ==> EndsWith(r, parts[|parts| - 1])
  {
    if parts == [] then ""
    else if |parts| == 1 then parts[0]
    else parts[0] + sep + Join(parts[1..], sep)
  }

  /** Filtering distributes over concatenation, so the order of the
      surviving lines is the order of the fields. */
  lemma {:induction false} PresentAppend(xs: seq<Option<string>>, ys: seq<Option<string>>)
    ensures Present(xs + ys) == Present(xs) + Present(ys)
  {
    if xs != [] {
      assert (xs + ys)[1..] == xs[1..] + ys;
      PresentAppend(xs[1..], ys);
    } else {
      assert xs + ys == ys;
    }
  }

  /** Joining one more part appends the separator and that part. */
  lemma {:induction false} JoinSnoc(parts: seq<string>, last: string, sep: string)
    requires parts != []
    ensures Join(parts + [last], sep) == Join(parts, sep) + sep + last
  {
    if |parts| == 1 {
      assert parts + [last] == [parts[0], last];
      assert [parts[0], last][1..] == [last];
    } else {
      assert (parts + [last])[1..] == parts[1..] + [last];
      JoinSnoc(parts[1..], last, sep);
    }
  }

  /** The display form. A British address (country exactly "GB") joins
      street, city, state and postal code with ", "; any other address joins
      street, city and state with ", " and puts the postal code after a space. */
  function FormattedString(a: AddressFields): (s: string)
    ensures a.address.Some? ==> a.address.value <= s
    ensures a.postalCode.Some? ==> EndsWith(s, a.postalCode.value)
    ensures a.country != "GB" && a.postalCode.Some? ==> EndsWith(s, " " + a.postalCode.value)
    ensures a.address.None? && a.city.None? && a.state.None? && a.postalCode.None? ==> s == ""
  {
    if a.country == "GB" then BritishLayout(a)
    else
      var s := OtherLayout(a);
      assert a.postalCode.Some? ==> s[|s| - |a.postalCode.value|..] == (" " + a.postalCode.value)[1..];
      s
  }

  /** `', '.join` of the street, city, state and postal code that are not `None`. */
  function BritishLayout(a: AddressFields): (s: string)
    ensures a.address.Some? ==> a.address.value <= s
    ensures a.postalCode.Some? ==> EndsWith(s, a.postalCode.value)
    ensures a.address.None? && a.city.None? && a.state.None? && a.postalCode.None? ==> s == ""
  {
    var three := [a.address, a.city, a.state];
    assert [a.address, a.city, a.state, a.postalCode] == three + [a.postalCode];
    PresentAppend(three, [a.postalCode]);
    PresentEmptyIff([a.address, a.city, a.state, a.postalCode]);
    Join(Present([a.address, a.city, a.state, a.postalCode]), ", ")
  }

  /** `', '.join` of the street, city and state that are not `None`,
      followed by a space and the postal code when there is one. */
  function OtherLayout(a: AddressFields): (s: string)
    ensures a.address.Some? ==> a.address.value <= s
    ensures a.postalCode.Some? ==> EndsWith(s, " " + a.postalCode.value)
    ensures a.address.None? && a.city.None? && a.state.None? && a.postalCode.None? ==> s == ""
  {
    var lines := Present([a.address, a.city, a.state]);
    PresentEmptyIff([a.address, a.city, a.state]);
    match a.postalCode
    case Some(p) => Join(lines, ", ") + " " + p
    case None => Join(lines, ", ")
  }

  /** The two layouts differ only in what precedes the postal code: ", " for
      "GB", a single space for every other country. */
  lemma PostcodeSeparator(a: AddressFields, p: string)
    requires a.postalCode == Some(p)
    requires a.address.Some? || a.city.Some? || a.state.Some?
    ensures FormattedString(a.(country := "GB"))
         == Join(Present([a.address, a.city, a.state]), ", ") + ", " + p
    ensures a.country != "GB" ==>
              FormattedString(a) == Join(Present([a.address, a.city, a.state]), ", ") + " " + p
  {
    var three := [a.address, a.city, a.state];
    assert [a.address, a.city, a.state, a.postalCode] == three + [Some(p)];
    PresentAppend(three, [Some(p)]);
    assert Present([Some(p)]) == [p];
    assert Present(three) != [] by {
      if a.address.Some? {
        assert Some(a.address.value) in three;
      } else if a.city.Some? {
        assert Some(a.city.value) in three;
      } else {
        assert Some(a.state.value) in three;
      }
    }
    JoinSnoc(Present(three), p, ", ");
  }

  /** With no street, city or state, a non-British address is the postal
      code after a leading space, a British one the bare postal code. */
  lemma OnlyPostcode(a: AddressFields, p: string)
    requires a.address.None? && a.city.None? && a.state.None?
    requires a.postalCode == Some(p)
    ensures a.country == "GB" ==> FormattedString(a) == p
    ensures a.country != "GB" ==> FormattedString(a) == " " + p
  {
    var three := [a.address, a.city, a.state];
    PresentEmptyIff(three);
    assert [a.address, a.city, a.state, a.postalCode] == three + [Some(p)];
    PresentAppend(three, [Some(p)]);
    assert Present([Some(p)]) == [p];
  }

  /** Without a postal code the country makes no difference. */
  lemma NoPostcodeSameLayout(a: AddressFields)
    requires a.postalCode.None?
    ensures FormattedString(a) == FormattedString(a.(country := "GB"))
  {
    var three := [a.address, a.city, a.state];
    assert [a.address, a.city, a.state, a.postalCode] == three + [None];
    PresentAppend(three, [None]);
    assert Present([None]) == [];
    assert Present(three) + [] == Present(three);
  }

  /** Nothing is left exactly when every line is `None`. */
  lemma {:induction false} PresentEmptyIff(lines: seq<Option<string>>)
    ensures Present(lines) == [] <==> forall i :: 0 <= i < |lines| ==> lines[i].None?
  {
    if lines != [] {
      PresentEmptyIff(lines[1..]);
      assert forall i :: 1 <= i < |lines| ==> lines[i] == lines[1..][i - 1];
    }
  }

  /** With no `None` among the lines, filtering keeps every one of them. */
  lemma {:induction false} PresentAllSome(lines: seq<Option<string>>)
    requires forall i :: 0 <= i < |lines| ==> lines[i].Some?
    ensures |Present(lines)| == |lines|
    ensures forall i :: 0 <= i < |lines| ==> Present(lines)[i] == lines[i].value
  {
    if lines != [] {
      PresentAllSome(lines[1..]);
    }
  }

  /** When every field is set, empty ones included, a British address has
      all four as segments: its length is theirs plus three separators. */
  lemma AllFieldsKept(a: AddressFields)
    requires a.country == "GB"
    requires a.address.Some? && a.city.Some? && a.state.Some? && a.postalCode.Some?
    ensures FormattedString(a)
         == a.address.value + ", " + a.city.value + ", " + a.state.value + ", " + a.postalCode.value
    ensures |FormattedString(a)|
         == |a.address.value| + |a.city.value| + |a.state.value| + |a.postalCode.value| + 6
  {
    var x0, x1, x2, x3 := a.address.value, a.city.value, a.state.value, a.postalCode.value;
    var lines := [a.address, a.city, a.state, a.postalCode];
    PresentAllSome(lines);
    assert Present(lines) == [x0, x1, x2, x3];
    JoinFour(x0, x1, x2, x3);
  }

  lemma JoinFour(x0: string, x1: string, x2: string, x3: string)
    ensures Join([x0, x1, x2, x3], ", ") == x0 + ", " + x1 + ", " + x2 + ", " + x3
  {
    JoinSnoc([x0], x1, ", ");
    assert [x0] + [x1] == [x0, x1];
    JoinSnoc([x0, x1], x2, ", ");
    assert [x0, x1] + [x2] == [x0, x1, x2];
    JoinSnoc([x0, x1, x2], x3, ", ");
    assert [x0, x1, x2] + [x3] == [x0, x1, x2, x3];
  }
}
