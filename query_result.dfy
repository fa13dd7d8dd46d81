/** QueryResult: turning a query response into its values, total count and
    next-page link, and back into an inline-count object. */
module QueryResults {
  import opened Common

  /** A JSON token. An object's properties are a map: their order is not
      part of the model. `JNull` is the JSON `null` token; an absent token
      (a C# null) is `None` where it can occur. */
  datatype Json =
    | JNull
    | JBool(b: bool)
    | JInt(n: int)
    | JString(s: string)
    | JArray(elems: seq<Json>)
    | JObject(props: map<string, Json>)

  const ResultsKey := "results"
  const CountKey := "count"
  const NextLinkKey := "nextLink"
  const ProxyValueKey := "value"
  const ProxyNextLinkKey := "@odata.nextLink"

  /** The range of a C# `long`. */
  const MinLong := -0x8000_0000_0000_0000
  const MaxLong := 0x7FFF_FFFF_FFFF_FFFF

  /** A C# `long`, the type of `TotalCount`. */
  type Long = n: int | MinLong <= n <= MaxLong

  /** The parsed response. `values` is `None` where the C# `Values` is null;
      `nextLink` is the link's text. */
  datatype QueryResult = QueryResult(totalCount: Long, values: Option<seq<Json>>, nextLink: Option<string>, response: Option<Json>)

  /** Why a parse throws. */
  datatype ParseError =
    | CountNotConvertible   // `Value<long?>("count")` on a token that is no number
    | NoResultsArray        // an object without a `results` array, with `validate` set
    | IndexedNonObject      // the proxy array's element is not an object
    | NextLinkNotText       // `@odata.nextLink` that does not give a link

  /** `obj[key]`: the property's token, or `None` when it is missing. */
  function Property(props: map<string, Json>, key: string): (r: Option<Json>)
    ensures r.Some? <==> key in props
    ensures r.Some? ==> r.value == props[key]
  {
    if key in props then Some(props[key]) else None
  }

  /** `Value<long?>(key)` of an object: a missing property or a `null`
      token gives no count, an integer within the range of a `long` its value,
      a boolean 1 or 0; any other token, an integer beyond that range
      included (Json.NET holds it as a `BigInteger`), cannot be converted. */
  function InlineCount(props: map<string, Json>): (r: Result<Option<Long>, ParseError>)
    ensures r.Failure? <==> (CountKey in props &&
      !(props[CountKey].JNull? || (props[CountKey].JInt? && MinLong <= props[CountKey].n <= MaxLong) || props[CountKey].JBool?))
    ensures r.Success? && r.value.Some? <==> (CountKey in props &&
      ((props[CountKey].JInt? && MinLong <= props[CountKey].n <= MaxLong) || props[CountKey].JBool?))
    ensures CountKey in props && props[CountKey].JInt? && MinLong <= props[CountKey].n <= MaxLong ==>
      r == Success(Some(props[CountKey].n))
    ensures CountKey in props && props[CountKey].JInt? && !(MinLong <= props[CountKey].n <= MaxLong) ==>
      r == Failure(CountNotConvertible)
    ensures CountKey in props && props[CountKey].JBool? ==> r == Success(Some(if props[CountKey].b then 1 else 0))
  {
    match Property(props, CountKey)
    case None => Success(None)
    case Some(JNull) => Success(None)
    case Some(JInt(n)) => if MinLong <= n <= MaxLong then Success(Some(n)) else Failure(CountNotConvertible)
    case Some(JBool(b)) => Success(Some(if b then 1 else 0))
    case Some(_) => Failure(CountNotConvertible)
  }

  /** `Parse(response, nextLink, validate)`: a bare array is the values with
      an unspecified count (-1); an object is an inline-count response whose
      `results` array is the values and whose `count` is the total, or, when
      it has no such array, is itself the one value unless `validate` asks
      for an error; anything else gives no values. */
  function Parse(response: Option<Json>, nextLink: Option<string>, validate: bool): (r: Result<QueryResult, ParseError>)
    ensures r.Success? ==> r.value.response == response && r.value.nextLink == nextLink
    ensures r.Failure? <==>
      response.Some? && response.value.JObject? &&
      (InlineCount(response.value.props).Failure? ||
       (validate && !(ResultsKey in response.value.props && response.value.props[ResultsKey].JArray?)))
    ensures response.Some? && response.value.JArray? ==> r.Success? && r.value.values == Some(response.value.elems) && r.value.totalCount == -1
    ensures r.Success? && r.value.values.None? <==> response.None? || !(response.value.JArray? || response.value.JObject?)
    ensures r.Success? && r.value.values.None? ==> r.value.totalCount == -1
    ensures r.Success? && response.Some? && response.value.JObject? ==>
      && (ResultsKey in response.value.props && response.value.props[ResultsKey].JArray? ==>
            r.value.values == Some(response.value.props[ResultsKey].elems))
      && (!(ResultsKey in response.value.props && response.value.props[ResultsKey].JArray?) ==>
            !validate && r.value.values == Some([response.value]))
      && r.value.totalCount == (match InlineCount(response.value.props).value case Some(n) => n case None => -1)
  {
    match response
    case Some(JArray(a)) => Success(QueryResult(-1, Some(a), nextLink, response))
    case Some(JObject(props)) =>
      var results := Property(props, ResultsKey);
      var count := InlineCount(props);
      if count.Failure? then Failure(count.error)
      else if !(results.Some? && results.value.JArray?) && validate then Failure(NoResultsArray)
      else
        var values := if results.Some? && results.value.JArray? then results.value.elems else [response.value];
        var total := match count.value case Some(n) => n case None => -1;
        Success(QueryResult(total, Some(values), nextLink, response))
    case _ => Success(QueryResult(-1, None, nextLink, response))
  }

  /** `nextLink.Value<string>()` of the proxy's link token, then `new Uri`:
      text is the link, `null` is none; a number or a boolean converts to
      text that is not an absolute URI, and a container does not convert. */
  function ProxyNextLink(token: Option<Json>): (r: Result<Option<string>, ParseError>)
    ensures r.Success? && r.value.Some? <==> token.Some? && token.value.JString?
    ensures r.Success? && r.value.None? <==> token.None? || token.value.JNull?
    ensures r.Success? && r.value.Some? ==> r.value.value == token.value.s
  {
    match token
    case None => Success(None)
    case Some(JNull) => Success(None)
    case Some(JString(s)) => Success(Some(s))
    case Some(_) => Failure(NextLinkNotText)
  }

  /** `Parse(httpResponse, ..., validate)` on the parsed content: only a
      one-element array (the proxy's envelope) is unwrapped, taking its
      element's `value` as the response and its `@odata.nextLink` as the
      link; every other content is parsed as an absent response. */
  function HttpParse(content: Option<Json>, validate: bool): (r: Result<QueryResult, ParseError>)
    ensures !(content.Some? && content.value.JArray? && |content.value.elems| == 1) ==>
      r == Success(QueryResult(-1, None, None, None))
    ensures content.Some? && content.value.JArray? && |content.value.elems| == 1 && !content.value.elems[0].JObject? ==>
      r == Failure(IndexedNonObject)
    ensures content.Some? && content.value.JArray? && |content.value.elems| == 1 && content.value.elems[0].JObject? ==>
      var props := content.value.elems[0].props;
      var link := ProxyNextLink(Property(props, ProxyNextLinkKey));
      && (link.Failure? ==> r == Failure(NextLinkNotText))
      && (link.Success? ==> r == Parse(Property(props, ProxyValueKey), link.value, validate))
  {
    match content
    case Some(JArray(a)) =>
      if |a| != 1 then Parse(None, None, validate)
      else (
        match a[0]
        case JObject(props) =>
          var link := ProxyNextLink(Property(props, ProxyNextLinkKey));
          if link.Failure? then Failure(link.error)
          else Parse(Property(props, ProxyValueKey), link.value, validate)
        case _ => Failure(IndexedNonObject))
    case _ => Parse(None, None, validate)
  }

  /** `ToJObject()`: `count` and `results` always (`null` for absent values),
      `nextLink` only when there is one. */
  function ToJObject(q: QueryResult): (j: Json)
    ensures j.JObject?
    ensures CountKey in j.props && j.props[CountKey] == JInt(q.totalCount)
    ensures ResultsKey in j.props && j.props[ResultsKey] == (match q.values case Some(v) => JArray(v) case None => JNull)
    ensures NextLinkKey in j.props <==> q.nextLink.Some?
    ensures q.nextLink.Some? ==> j.props[NextLinkKey] == JString(q.nextLink.value)
    ensures j.props.Keys <= {CountKey, ResultsKey, NextLinkKey}
  {
    var base := map[CountKey := JInt(q.totalCount),
                     ResultsKey := match q.values case Some(v) => JArray(v) case None => JNull];
    JObject(if q.nextLink.Some? then base[NextLinkKey := JString(q.nextLink.value)] else base)
  }

  /** Serialising a result with values and parsing it back recovers its
      values and its total count, whatever link and `validate` are given. */
  lemma ToJObjectRoundTrip(q: QueryResult, link: Option<string>, validate: bool)
    requires q.values.Some?
    ensures var r := Parse(Some(ToJObject(q)), link, validate);
      r.Success? && r.value.values == q.values && r.value.totalCount == q.totalCount && r.value.nextLink == link
  {
    var props := ToJObject(q).props;
    assert InlineCount(props) == Success(Some(q.totalCount));
  }

  /** A result without values does not survive the trip: with `validate` it
      is an error, and without, the serialised object becomes the one
      value. */
  lemma ToJObjectWithoutValues(q: QueryResult, link: Option<string>, validate: bool)
    requires q.values.None?
    ensures var r := Parse(Some(ToJObject(q)), link, validate);
      && (validate ==> r == Failure(NoResultsArray))
      && (!validate ==> r.Success? && r.value.values == Some([ToJObject(q)]) && r.value.totalCount == q.totalCount)
  {
    var props := ToJObject(q).props;
    assert InlineCount(props) == Success(Some(q.totalCount));
  }

  /** The proxy envelope around an inline-count response: the link is
      taken from the envelope and the values from its `value`. */
  lemma ProxyEnvelopeCase()
    ensures
      var inner := JObject(map[ResultsKey := JArray([JInt(1), JInt(2)]), CountKey := JInt(7)]);
      var envelope := JArray([JObject(map[ProxyValueKey := inner, ProxyNextLinkKey := JString("https://host/tables/x?$skip=2")])]);
      HttpParse(Some(envelope), true) == Success(QueryResult(7, Some([JInt(1), JInt(2)]), Some("https://host/tables/x?$skip=2"), Some(inner)))
  {
    var inner := JObject(map[ResultsKey := JArray([JInt(1), JInt(2)]), CountKey := JInt(7)]);
    var props := map[ProxyValueKey := inner, ProxyNextLinkKey := JString("https://host/tables/x?$skip=2")];
    assert Property(props, ProxyValueKey) == Some(inner);
    assert Property(props, ProxyNextLinkKey) == Some(JString("https://host/tables/x?$skip=2"));
    assert InlineCount(inner.props) == Success(Some(7));
  }

  /** A plain array that is not a one-element envelope yields no values at
      the HTTP level, although it is an array response. */
  lemma BareArrayAtHttpLevel(a: seq<Json>, validate: bool)
    requires |a| != 1
    ensures HttpParse(Some(JArray(a)), validate) == Success(QueryResult(-1, None, None, None))
    ensures Parse(Some(JArray(a)), None, validate) == Success(QueryResult(-1, Some(a), None, Some(JArray(a))))
  {
  }

  /** A count beyond the range of a `long` makes the parse throw, even
      without `validate`. */
  lemma CountBeyondLongFails(validate: bool)
    ensures Parse(Some(JObject(map[ResultsKey := JArray([]), CountKey := JInt(MaxLong + 1)])), None, validate)
      == Failure(CountNotConvertible)
  {
    var props := map[ResultsKey := JArray([]), CountKey := JInt(MaxLong + 1)];
    assert Property(props, CountKey) == Some(JInt(MaxLong + 1));
  }
}
